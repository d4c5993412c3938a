/** Definitions shared by the models. */
module Common {

  datatype Option<+T> = None | Some(value: T)

  /** The largest member of a set, -1 if it has none. */
  ghost function MaxOf(vs: set<int>): (m: int)
    ensures (forall v :: v !in vs) ==> m == -1
    ensures (exists v :: v in vs) ==> m in vs && forall v :: v in vs ==> v <= m
  {
    if x :| x in vs then
      var rest := vs - {x};
      assert forall v :: v in vs ==> v == x || v in rest;
      var m := MaxOf(rest);
      if (exists y :: y in rest) && m > x then m else x
    else -1
  }
}

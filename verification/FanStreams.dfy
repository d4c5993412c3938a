/** pkg/async/stream.go: FanOut and Tee.  One goroutine reads the input channel and sends each item to the outputs
    in turn, waiting at a full one; Tee is the case of two outputs.  Input items arrive, receivers take items and
    the context is cancelled at any point of a run. */
module FanOut {
  /** The buffer of every output channel. */
  const CAPACITY: nat := 16

  /** An output: everything ever sent on it, how much of that its receiver took, and how often it was closed. */
  datatype Output<T> = Output(sent: seq<T>, taken: nat, closes: nat)

  /** `inp` is everything the input channel ever carried and `read` how much of it the goroutine received; the
      first `at` outputs have got the last item read.  At `at == |outs|` the goroutine is back at its receive. */
  datatype State<T> = State(
    inp: seq<T>,
    inpClosed: bool,
    read: nat,
    at: nat,
    returned: bool,
    outs: seq<Output<T>>,
    cancelled: bool)

  function Init<T>(n: nat): State<T> {
    State([], false, 0, n, false, seq(n, i => Output([], 0, 0)), false)
  }

  datatype Step<T> =
    | Supply(v: T)
    | CloseInput
    | Receive
    | SeeClosed
    | SeeDone
    | Send
    | CloseOutput(i: nat)
    | Consume(i: nat)
    | Cancel

  predicate Enabled<T>(s: State<T>, step: Step<T>) {
    match step
    case Supply(_) => !s.inpClosed
    case CloseInput => !s.inpClosed
    case Receive => !s.returned && s.at == |s.outs| && s.read < |s.inp|
    case SeeClosed => !s.returned && s.at == |s.outs| && s.read == |s.inp| && s.inpClosed
    case SeeDone => !s.returned && s.cancelled
    case Send => !s.returned && s.at < |s.outs| && |s.outs[s.at].sent| < s.outs[s.at].taken + CAPACITY && 0 < s.read <= |s.inp|
    case CloseOutput(i) => s.returned && i < |s.outs| && s.outs[i].closes == 0
    case Consume(i) => i < |s.outs| && s.outs[i].taken < |s.outs[i].sent|
    case Cancel => true
  }

  function Next<T>(s: State<T>, step: Step<T>): State<T> {
    if !Enabled(s, step) then s
    else match step
      case Supply(v) => s.(inp := s.inp + [v])
      case CloseInput => s.(inpClosed := true)
      case Receive => s.(read := s.read + 1, at := 0)
      case SeeClosed => s.(returned := true)
      case SeeDone => s.(returned := true)
      case Send =>
        var o := s.outs[s.at];
        s.(outs := s.outs[s.at := o.(sent := o.sent + [s.inp[s.read - 1]])], at := s.at + 1)
      case CloseOutput(i) => s.(outs := s.outs[i := s.outs[i].(closes := s.outs[i].closes + 1)])
      case Consume(i) => s.(outs := s.outs[i := s.outs[i].(taken := s.outs[i].taken + 1)])
      case Cancel => s.(cancelled := true)
  }

  function Run<T>(s: State<T>, steps: seq<Step<T>>): State<T> {
    if steps == [] then s else Next(Run(s, steps[..|steps| - 1]), steps[|steps| - 1])
  }

  /** How many items output i has been sent. */
  function Sent(read: nat, at: nat, i: nat): int {
    if i < at then read else read - 1
  }

  ghost predicate Copies<T>(inp: seq<T>, read: nat, at: nat, outs: seq<Output<T>>) {
    && read <= |inp| && at <= |outs|
    && (at < |outs| ==> read > 0)
    && (forall i: nat :: i < |outs| ==>
          |outs[i].sent| == Sent(read, at, i) && outs[i].sent == inp[..|outs[i].sent|]
          && outs[i].taken <= |outs[i].sent| <= outs[i].taken + CAPACITY)
  }

  ghost predicate Inv<T>(s: State<T>) {
    && Copies(s.inp, s.read, s.at, s.outs)
    && (s.returned && !s.cancelled ==> s.inpClosed && s.read == |s.inp| && s.at == |s.outs|)
    && (forall i :: 0 <= i < |s.outs| ==> s.outs[i].closes <= 1 && (s.outs[i].closes == 1 ==> s.returned))
  }

  lemma StepKeeps<T>(s: State<T>, step: Step<T>)
    requires Inv(s)
    ensures Inv(Next(s, step)) && |Next(s, step).outs| == |s.outs|
  {
    var t := Next(s, step);
    match step
    case Supply(v) =>
      forall i: nat | i < |s.outs| ensures t.outs[i].sent == t.inp[..|t.outs[i].sent|] {
        assert s.inp[..|s.outs[i].sent|] == t.inp[..|s.outs[i].sent|];
      }
    case Send =>
      if Enabled(s, step) {
        assert s.outs[s.at].sent + [s.inp[s.read - 1]] == s.inp[..s.read];
      }
    case _ =>
  }

  lemma {:induction false} RunKeeps<T>(n: nat, steps: seq<Step<T>>)
    ensures Inv(Run(Init<T>(n), steps)) && |Run(Init<T>(n), steps).outs| == n
  {
    if steps != [] {
      RunKeeps<T>(n, steps[..|steps| - 1]);
      StepKeeps(Run(Init<T>(n), steps[..|steps| - 1]), steps[|steps| - 1]);
    }
  }

  /** At every step each output has been sent a prefix of the input, a later output a prefix of an earlier one,
      and they differ by at most one item. */
  lemma OutputsAreCopies<T>(n: nat, steps: seq<Step<T>>, i: nat, j: nat)
    requires i <= j < n
    ensures var s := Run(Init<T>(n), steps);
            && |s.outs| == n
            && s.read <= |s.inp| && s.outs[i].sent <= s.inp[..s.read] && s.outs[j].sent <= s.outs[i].sent
            && |s.outs[i].sent| <= |s.outs[j].sent| + 1
  {
    RunKeeps<T>(n, steps);
  }

  /** No item is dropped for a full receiver: every output waits for the slowest one, so none is ever more than
      one buffer and one item ahead of what any receiver has taken. */
  lemma SlowestReceiverHoldsAll<T>(n: nat, steps: seq<Step<T>>, i: nat, k: nat)
    requires i < n && k < n
    ensures var s := Run(Init<T>(n), steps);
            |s.outs| == n && |s.outs[i].sent| <= s.outs[k].taken + 17
  {
    RunKeeps<T>(n, steps);
  }

  /** Once an output is closed nothing more is sent, and without cancellation every output has carried exactly
      the input, item for item; no output is closed twice. */
  lemma ClosedOutputsAreComplete<T>(n: nat, steps: seq<Step<T>>, i: nat, j: nat)
    requires i < n && j < n
    ensures var s := Run(Init<T>(n), steps);
            && |s.outs| == n && s.outs[i].closes <= 1
            && (s.outs[i].closes == 1 ==> s.returned && !Enabled(s, Send))
            && (s.outs[i].closes == 1 && !s.cancelled ==> s.inpClosed && s.outs[i].sent == s.inp == s.outs[j].sent)
  {
    RunKeeps<T>(n, steps);
    var s := Run(Init<T>(n), steps);
    if s.outs[i].closes == 1 && !s.cancelled {
      assert s.outs[i].sent == s.inp[..|s.inp|] && s.outs[j].sent == s.inp[..|s.inp|];
    }
  }

  /** The goroutine stops only for want of input or at a full output. */
  lemma WaitsOnlyForPeers<T>(n: nat, steps: seq<Step<T>>)
    ensures var s := Run(Init<T>(n), steps);
            s.returned || Enabled(s, Receive) || Enabled(s, SeeClosed) || Enabled(s, Send)
            || (s.at == n && s.read == |s.inp| && !s.inpClosed)
            || (s.at < n && |s.outs| == n && |s.outs[s.at].sent| == s.outs[s.at].taken + 16)
  {
    RunKeeps<T>(n, steps);
  }
}

/** pkg/async/stream.go: FanIn.  One forwarder per input and one goroutine that closes the output after them. */
module FanIn {
  const CAPACITY: nat := 16

  datatype Input<T> = Input(vals: seq<T>, closed: bool, read: nat)

  /** A forwarder: at its receive, holding an item for the output, or returned, with or without an item in hand. */
  datatype Forwarder<T> = Receiving | Holding(v: T) | Stopped(dropped: bool)

  /** An item of the output, with the input it came from. */
  datatype Item<T> = Item(from: nat, v: T)

  /** `out` is everything ever sent on the output, of which the receiver took the first `taken`. */
  datatype State<T> = State(
    inputs: seq<Input<T>>,
    forwarders: seq<Forwarder<T>>,
    out: seq<Item<T>>,
    taken: nat,
    closerDone: bool,
    closes: nat,
    cancelled: bool)

  function Init<T>(n: nat): State<T> {
    State(seq(n, i => Input([], false, 0)), seq(n, i => Receiving), [], 0, false, 0, false)
  }

  datatype Step<T> =
    | Supply(i: nat, v: T)
    | CloseInput(i: nat)
    | Receive(i: nat)
    | SeeClosed(i: nat)
    | SeeDone(i: nat)
    | Send(i: nat)
    | CloseOutput
    | Consume
    | Cancel

  predicate Enabled<T>(s: State<T>, step: Step<T>) {
    match step
    case Supply(i, _) => i < |s.inputs| && !s.inputs[i].closed
    case CloseInput(i) => i < |s.inputs| && !s.inputs[i].closed
    case Receive(i) => i < |s.inputs| && i < |s.forwarders| && s.forwarders[i].Receiving? && s.inputs[i].read < |s.inputs[i].vals|
    case SeeClosed(i) => i < |s.inputs| && i < |s.forwarders| && s.forwarders[i].Receiving?
                         && s.inputs[i].read == |s.inputs[i].vals| && s.inputs[i].closed
    case SeeDone(i) => i < |s.forwarders| && !s.forwarders[i].Stopped? && s.cancelled
    case Send(i) => i < |s.forwarders| && s.forwarders[i].Holding? && |s.out| < s.taken + CAPACITY
    case CloseOutput => !s.closerDone && forall i :: 0 <= i < |s.forwarders| ==> s.forwarders[i].Stopped?
    case Consume => s.taken < |s.out|
    case Cancel => true
  }

  function Next<T>(s: State<T>, step: Step<T>): State<T> {
    if !Enabled(s, step) then s
    else match step
      case Supply(i, v) => s.(inputs := s.inputs[i := s.inputs[i].(vals := s.inputs[i].vals + [v])])
      case CloseInput(i) => s.(inputs := s.inputs[i := s.inputs[i].(closed := true)])
      case Receive(i) =>
        s.(inputs := s.inputs[i := s.inputs[i].(read := s.inputs[i].read + 1)],
           forwarders := s.forwarders[i := Holding(s.inputs[i].vals[s.inputs[i].read])])
      case SeeClosed(i) => s.(forwarders := s.forwarders[i := Stopped(false)])
      case SeeDone(i) => s.(forwarders := s.forwarders[i := Stopped(s.forwarders[i].Holding?)])
      case Send(i) => s.(out := s.out + [Item(i, s.forwarders[i].v)], forwarders := s.forwarders[i := Receiving])
      case CloseOutput => s.(closerDone := true, closes := s.closes + 1)
      case Consume => s.(taken := s.taken + 1)
      case Cancel => s.(cancelled := true)
  }

  function Run<T>(s: State<T>, steps: seq<Step<T>>): State<T> {
    if steps == [] then s else Next(Run(s, steps[..|steps| - 1]), steps[|steps| - 1])
  }

  /** The items of the output that came from input i, in order. */
  function From<T>(out: seq<Item<T>>, i: nat): seq<T> {
    if out == [] then []
    else From(out[..|out| - 1], i) + (if out[|out| - 1].from == i then [out[|out| - 1].v] else [])
  }

  lemma FromExtends<T>(out: seq<Item<T>>, item: Item<T>, i: nat)
    ensures From(out + [item], i) == From(out, i) + (if item.from == i then [item.v] else [])
  {
    assert (out + [item])[..|out|] == out;
  }

  /** What forwarder f has passed on: all it read, but for the item in its hand or dropped at the end. */
  ghost predicate Forwarded<T>(input: Input<T>, f: Forwarder<T>, sent: seq<T>, cancelled: bool) {
    && input.read <= |input.vals|
    && (match f
        case Receiving => sent == input.vals[..input.read]
        case Holding(v) => input.read > 0 && v == input.vals[input.read - 1] && sent == input.vals[..input.read - 1]
        case Stopped(dropped) =>
          if dropped then cancelled && input.read > 0 && sent == input.vals[..input.read - 1]
          else sent == input.vals[..input.read] && (cancelled || (input.closed && input.read == |input.vals|)))
  }

  ghost predicate Inv<T>(s: State<T>) {
    && |s.inputs| == |s.forwarders|
    && (forall i: nat :: i < |s.inputs| ==> Forwarded(s.inputs[i], s.forwarders[i], From(s.out, i), s.cancelled))
    && (forall k :: 0 <= k < |s.out| ==> s.out[k].from < |s.inputs|)
    && s.taken <= |s.out| <= s.taken + CAPACITY
    && (s.closerDone ==> forall i :: 0 <= i < |s.forwarders| ==> s.forwarders[i].Stopped?)
    && s.closes == (if s.closerDone then 1 else 0)
  }

  lemma SendKeeps<T>(s: State<T>, i: nat)
    requires Inv(s) && Enabled(s, Send(i))
    ensures Inv(Next(s, Send(i)))
  {
    var item := Item(i, s.forwarders[i].v);
    var t := Next(s, Send(i));
    forall j: nat | j < |t.inputs| ensures Forwarded(t.inputs[j], t.forwarders[j], From(t.out, j), t.cancelled) {
      FromExtends(s.out, item, j);
      assert Forwarded(s.inputs[j], s.forwarders[j], From(s.out, j), s.cancelled);
      if j == i {
        var input := s.inputs[i];
        assert input.vals[..input.read - 1] + [input.vals[input.read - 1]] == input.vals[..input.read];
      }
    }
  }

  lemma SupplyKeeps<T>(s: State<T>, i: nat, v: T)
    requires Inv(s) && Enabled(s, Supply(i, v))
    ensures Inv(Next(s, Supply(i, v)))
  {
    var input := s.inputs[i];
    assert Forwarded(input, s.forwarders[i], From(s.out, i), s.cancelled);
    assert (input.vals + [v])[..input.read] == input.vals[..input.read];
    assert input.read > 0 ==> (input.vals + [v])[..input.read - 1] == input.vals[..input.read - 1];
  }

  lemma StepKeeps<T>(s: State<T>, step: Step<T>)
    requires Inv(s)
    ensures Inv(Next(s, step)) && |Next(s, step).inputs| == |s.inputs|
  {
    if Enabled(s, step) {
      match step
      case Supply(i, v) => SupplyKeeps(s, i, v);
      case Send(i) => SendKeeps(s, i);
      case _ =>
    }
  }

  lemma {:induction false} RunKeeps<T>(n: nat, steps: seq<Step<T>>)
    ensures Inv(Run(Init<T>(n), steps)) && |Run(Init<T>(n), steps).inputs| == n
  {
    if steps != [] {
      RunKeeps<T>(n, steps[..|steps| - 1]);
      StepKeeps(Run(Init<T>(n), steps[..|steps| - 1]), steps[|steps| - 1]);
    }
  }

  /** The output is an interleaving of prefixes of the inputs: every item comes from some input, and those from
      input i are its first items in their order, all it read or all but the last. */
  lemma OutputInterleaves<T>(n: nat, steps: seq<Step<T>>, i: nat)
    requires i < n
    ensures var s := Run(Init<T>(n), steps);
            && |s.inputs| == n
            && From(s.out, i) <= s.inputs[i].vals
            && s.inputs[i].read - 1 <= |From(s.out, i)| <= s.inputs[i].read
            && (forall k :: 0 <= k < |s.out| ==> s.out[k].from < n)
  {
    RunKeeps<T>(n, steps);
    var s := Run(Init<T>(n), steps);
    assert Forwarded(s.inputs[i], s.forwarders[i], From(s.out, i), s.cancelled);
  }

  /** The output is closed at most once, only after every forwarder returned, so never sent on after; without
      cancellation it has then carried each input completely. */
  lemma ClosedOutputIsComplete<T>(n: nat, steps: seq<Step<T>>)
    ensures var s := Run(Init<T>(n), steps);
            && |s.inputs| == n && s.closes <= 1
            && (s.closes == 1 ==> forall i :: 0 <= i < |s.forwarders| ==> s.forwarders[i].Stopped? && !Enabled(s, Send(i)))
            && (s.closes == 1 && !s.cancelled ==>
                  forall i: nat :: i < n ==> s.inputs[i].closed && From(s.out, i) == s.inputs[i].vals)
  {
    RunKeeps<T>(n, steps);
    var s := Run(Init<T>(n), steps);
    if s.closes == 1 && !s.cancelled {
      forall i: nat | i < n ensures s.inputs[i].closed && From(s.out, i) == s.inputs[i].vals {
        assert Forwarded(s.inputs[i], s.forwarders[i], From(s.out, i), s.cancelled);
        assert s.inputs[i].vals[..|s.inputs[i].vals|] == s.inputs[i].vals;
      }
    }
  }

  /** A forwarder stops only for want of input or when the output's buffer of 16 is full. */
  lemma WaitsOnlyForPeers<T>(n: nat, steps: seq<Step<T>>, i: nat)
    requires i < n
    ensures var s := Run(Init<T>(n), steps);
            && |s.inputs| == n && |s.forwarders| == n
            && (s.forwarders[i].Stopped? || Enabled(s, Receive(i)) || Enabled(s, SeeClosed(i)) || Enabled(s, Send(i))
                || (s.forwarders[i].Receiving? && s.inputs[i].read == |s.inputs[i].vals| && !s.inputs[i].closed)
                || (s.forwarders[i].Holding? && |s.out| == s.taken + 16))
  {
    RunKeeps<T>(n, steps);
    var s := Run(Init<T>(n), steps);
    assert Forwarded(s.inputs[i], s.forwarders[i], From(s.out, i), s.cancelled);
  }

  // ------------------------------------------------------------------ nothing lost, nothing duplicated

  function Untagged<T>(out: seq<Item<T>>): seq<T> {
    if out == [] then [] else Untagged(out[..|out| - 1]) + [out[|out| - 1].v]
  }

  /** Everything the first n inputs carried. */
  function Supplied<T>(inputs: seq<Input<T>>, n: nat): multiset<T>
    requires n <= |inputs|
  {
    if n == 0 then multiset{} else Supplied(inputs, n - 1) + multiset(inputs[n - 1].vals)
  }

  /** The items of the output that came from the first n inputs. */
  function SumFrom<T>(out: seq<Item<T>>, n: nat): multiset<T> {
    if n == 0 then multiset{} else SumFrom(out, n - 1) + multiset(From(out, n - 1))
  }

  lemma {:induction false} SumFromEmpty<T>(n: nat)
    ensures SumFrom<T>([], n) == multiset{}
  {
    if n > 0 {
      SumFromEmpty<T>(n - 1);
    }
  }

  lemma FromGrows<T>(out: seq<Item<T>>, item: Item<T>, i: nat)
    ensures multiset(From(out + [item], i))
            == multiset(From(out, i)) + Only(item, item.from == i)
  {
    FromExtends(out, item, i);
  }

  function Only<T>(item: Item<T>, yes: bool): multiset<T> {
    if yes then multiset{item.v} else multiset{}
  }

  lemma AddSwaps<T>(a: multiset<T>, b: multiset<T>, c: multiset<T>, d: multiset<T>)
    ensures (a + c) + (b + d) == (a + b) + (c + d)
  {
  }

  lemma {:induction false} SumFromExtends<T>(out: seq<Item<T>>, item: Item<T>, n: nat)
    ensures SumFrom(out + [item], n) == SumFrom(out, n) + Only(item, item.from < n)
  {
    if n > 0 {
      SumFromExtends(out, item, n - 1);
      FromGrows(out, item, n - 1);
      AddSwaps(SumFrom(out, n - 1), multiset(From(out, n - 1)), Only(item, item.from < n - 1), Only(item, item.from == n - 1));
      assert Only(item, item.from < n - 1) + Only(item, item.from == n - 1) == Only(item, item.from < n);
    }
  }

  lemma {:induction false} SumIsUntagged<T>(out: seq<Item<T>>, n: nat)
    requires forall k :: 0 <= k < |out| ==> out[k].from < n
    ensures SumFrom(out, n) == multiset(Untagged(out))
  {
    if out == [] {
      SumFromEmpty<T>(n);
    } else {
      var init, last := out[..|out| - 1], out[|out| - 1];
      SumIsUntagged(init, n);
      SumFromExtends(init, last, n);
      assert out == init + [last];
    }
  }

  ghost predicate Carried<T>(out: seq<Item<T>>, i: nat, vals: seq<T>) {
    From(out, i) == vals
  }

  lemma {:induction false} SumIsSupplied<T>(inputs: seq<Input<T>>, out: seq<Item<T>>, n: nat)
    requires n <= |inputs|
    requires forall i: nat :: i < n ==> Carried(out, i, inputs[i].vals)
    ensures SumFrom(out, n) == Supplied(inputs, n)
  {
    if n > 0 {
      SumIsSupplied(inputs, out, n - 1);
      assert Carried(out, n - 1, inputs[n - 1].vals);
    }
  }

  /** A merge that was not cancelled carried, in all, exactly what its inputs carried. */
  lemma MergeConserves<T>(n: nat, steps: seq<Step<T>>)
    requires var s := Run(Init<T>(n), steps); s.closes == 1 && !s.cancelled
    ensures var s := Run(Init<T>(n), steps);
            |s.inputs| == n && multiset(Untagged(s.out)) == Supplied(s.inputs, n)
  {
    RunKeeps<T>(n, steps);
    ClosedOutputIsComplete<T>(n, steps);
    var s := Run(Init<T>(n), steps);
    assert forall i: nat :: i < n ==> Carried(s.out, i, s.inputs[i].vals);
    SumIsSupplied(s.inputs, s.out, n);
    SumIsUntagged(s.out, n);
  }
}

/** pkg/async/stream.go: a stream built from FromSlice by any number of Map, Filter, Take and Batch, then drained by
    Collect.  Each operator is a goroutine reading the channel of the one before it and writing its own bounded
    channel; no context is cancelled. */
module StreamNet {
  /** Items of every element type the operators pass between them; Batch makes a slice of items one item. */
  datatype Val = Atom(n: int) | Pack(items: seq<Val>)

  datatype Stage =
    | Source(items: seq<Val>)
    | Mapping(f: Val -> Val)
    | Filtering(keep: Val -> bool)
    | Taking(n: int)
    | Batching(size: nat)        // a negative size makes the source's make() panic

  /** A goroutine and its channel.  `pos` items have been received, `sent` is everything ever put on the channel,
      `hold` what the goroutine is about to send, `buf` Batch's buffer; `ending` once it has left its loop. */
  datatype Node = Node(
    stage: Stage,
    cap: nat,
    pos: nat,
    sent: seq<Val>,
    hold: seq<Val>,
    buf: seq<Val>,
    ending: bool,
    closed: bool)

  /** `out` is what Collect has appended; it stands after the last node. */
  datatype State = State(nodes: seq<Node>, out: seq<Val>, finished: bool)

  datatype Step =
    | Receive(i: nat)
    | Timer(i: nat)
    | SeeClosed(i: nat)
    | Send(i: nat)
    | Close(i: nat)
    | Collect
    | Finish

  // ------------------------------------------------------------------ set-up

  /** A source followed by operators. */
  ghost predicate Chain(stages: seq<Stage>) {
    |stages| > 0 && stages[0].Source? && forall i :: 0 < i < |stages| ==> !stages[i].Source?
  }

  /** The buffer of the channel stage i makes. */
  function Capacity(stages: seq<Stage>, i: nat): (c: nat)
    requires i < |stages|
    ensures c == if exists k :: 0 < k <= i && stages[k].Batching? then 4 else 16
  {
    if i == 0 then 16 else if stages[i].Batching? then 4 else Capacity(stages, i - 1)
  }

  function Init(stages: seq<Stage>): State {
    State(seq(|stages|, i requires 0 <= i < |stages| => Node(stages[i], Capacity(stages, i), 0, [], [], [], false, false)),
          [], false)
  }

  // ------------------------------------------------------------------ steps

  /** What node i reads: the slice, or the items put on the channel before it. */
  function Input(nodes: seq<Node>, i: nat): seq<Val>
    requires i < |nodes|
  {
    if nodes[i].stage.Source? then nodes[i].stage.items else if i == 0 then [] else nodes[i - 1].sent
  }

  predicate InputClosed(nodes: seq<Node>, i: nat)
    requires i < |nodes|
  {
    nodes[i].stage.Source? || i == 0 || nodes[i - 1].closed
  }

  /** How much of node i's channel has been received. */
  function Taken(s: State, i: nat): nat
    requires i < |s.nodes|
  {
    if i + 1 < |s.nodes| then s.nodes[i + 1].pos else |s.out|
  }

  /** Batch's flush: what is sent, and the buffer left. */
  function Flushed(buf: seq<Val>): seq<Val> {
    if buf == [] then [] else [Pack(buf)]
  }

  /** Batch with one more item: what is sent. */
  function BatchSends(size: nat, buf: seq<Val>, v: Val): seq<Val> {
    if |buf| + 1 >= size then Flushed(buf + [v]) else []
  }

  /** Batch with one more item: what stays in the buffer. */
  function BatchKeeps(size: nat, buf: seq<Val>, v: Val): seq<Val> {
    if |buf| + 1 >= size then [] else buf + [v]
  }

  /** One turn of the goroutine's loop with an item. */
  function Accept(nd: Node, v: Val): Node {
    var nd1 := nd.(pos := nd.pos + 1);
    match nd.stage
    case Source(_) => nd1.(hold := [v])
    case Mapping(f) => nd1.(hold := [f(v)])
    case Filtering(keep) => nd1.(hold := if keep(v) then [v] else [])
    case Taking(n) => if nd.pos >= n then nd1.(ending := true) else nd1.(hold := [v])
    case Batching(size) => nd1.(hold := BatchSends(size, nd.buf, v), buf := BatchKeeps(size, nd.buf, v))
  }

  predicate Enabled(s: State, step: Step) {
    match step
    case Receive(i) =>
      i < |s.nodes| && !s.nodes[i].ending && s.nodes[i].hold == [] && s.nodes[i].pos < |Input(s.nodes, i)|
    case Timer(i) => i < |s.nodes| && s.nodes[i].stage.Batching? && !s.nodes[i].ending && s.nodes[i].hold == [] && s.nodes[i].buf != []
    case SeeClosed(i) =>
      i < |s.nodes| && !s.nodes[i].ending && s.nodes[i].hold == []
      && InputClosed(s.nodes, i) && s.nodes[i].pos == |Input(s.nodes, i)|
    case Send(i) => i < |s.nodes| && s.nodes[i].hold != [] && |s.nodes[i].sent| < Taken(s, i) + s.nodes[i].cap
    case Close(i) => i < |s.nodes| && s.nodes[i].ending && s.nodes[i].hold == [] && !s.nodes[i].closed
    case Collect => !s.finished && s.nodes != [] && |s.out| < |s.nodes[|s.nodes| - 1].sent|
    case Finish =>
      !s.finished && s.nodes != [] && s.nodes[|s.nodes| - 1].closed && |s.out| == |s.nodes[|s.nodes| - 1].sent|
  }

  /** What an enabled step of node i makes of it. */
  function Moved(nodes: seq<Node>, step: Step): Node
    requires step.Receive? || step.Timer? || step.SeeClosed? || step.Send? || step.Close?
    requires step.i < |nodes|
    requires step.Receive? ==> nodes[step.i].pos < |Input(nodes, step.i)|
    requires step.Send? ==> nodes[step.i].hold != []
  {
    var nd := nodes[step.i];
    match step
    case Receive(i) => Accept(nd, Input(nodes, i)[nd.pos])
    case Timer(i) => nd.(hold := Flushed(nd.buf), buf := [])
    case SeeClosed(i) => nd.(ending := true, hold := Flushed(nd.buf), buf := [])
    case Send(i) => nd.(sent := nd.sent + [nd.hold[0]], hold := nd.hold[1..])
    case Close(i) => nd.(closed := true)
  }

  function Next(s: State, step: Step): State {
    if !Enabled(s, step) then s
    else match step
      case Collect => s.(out := s.out + [s.nodes[|s.nodes| - 1].sent[|s.out|]])
      case Finish => s.(finished := true)
      case _ => s.(nodes := s.nodes[step.i := Moved(s.nodes, step)])
  }

  function Run(s: State, steps: seq<Step>): State {
    if steps == [] then s else Next(Run(s, steps[..|steps| - 1]), steps[|steps| - 1])
  }

  // ------------------------------------------------------------------ the list program

  function MapAll(f: Val -> Val, xs: seq<Val>): seq<Val> {
    if xs == [] then [] else MapAll(f, xs[..|xs| - 1]) + [f(xs[|xs| - 1])]
  }

  function Keep(keep: Val -> bool, xs: seq<Val>): seq<Val> {
    if xs == [] then []
    else Keep(keep, xs[..|xs| - 1]) + (if keep(xs[|xs| - 1]) then [xs[|xs| - 1]] else [])
  }

  function First(n: int, xs: seq<Val>): seq<Val> {
    if n <= 0 then [] else if n < |xs| then xs[..n] else xs
  }

  function Flat(batches: seq<Val>): seq<Val> {
    if batches == [] then []
    else Flat(batches[..|batches| - 1])
         + (if batches[|batches| - 1].Pack? then batches[|batches| - 1].items else [batches[|batches| - 1]])
  }

  function Limit(size: nat): nat {
    if size < 1 then 1 else size
  }

  /** Nonempty batches within the size. */
  ghost predicate Batches(ys: seq<Val>, size: nat) {
    forall k :: 0 <= k < |ys| ==> ys[k].Pack? && 1 <= |ys[k].items| <= Limit(size)
  }

  /** The list function of a stage other than Batch. */
  function Pure(stage: Stage, xs: seq<Val>): seq<Val>
    requires !stage.Batching?
  {
    match stage
    case Source(_) => xs
    case Mapping(f) => MapAll(f, xs)
    case Filtering(keep) => Keep(keep, xs)
    case Taking(n) => First(n, xs)
  }

  /** What a stage may make of its whole input: only Batch has a choice, where to cut. */
  ghost predicate Produces(stage: Stage, xs: seq<Val>, ys: seq<Val>) {
    if stage.Batching? then Batches(ys, stage.size) && Flat(ys) == xs else ys == Pure(stage, xs)
  }

  /** The list program of stages 0..i. */
  ghost predicate Means(stages: seq<Stage>, i: nat, ys: seq<Val>)
    requires Chain(stages) && i < |stages|
  {
    if i == 0 then ys == stages[0].items
    else exists xs :: Means(stages, i - 1, xs) && Produces(stages[i], xs, ys)
  }

  // ------------------------------------------------------------------ invariant

  /** ys is what a node has made of the items xs received so far, with buf still in hand. */
  ghost predicate Made(stage: Stage, xs: seq<Val>, ys: seq<Val>, buf: seq<Val>) {
    if stage.Batching? then Batches(ys, stage.size) && Flat(ys) + buf == xs && |buf| < Limit(stage.size)
    else ys == Pure(stage, xs) && buf == []
  }

  /** Where a node may be in its loop, for an input of n items so far. */
  ghost predicate Placed(nd: Node, n: nat, inputClosed: bool) {
    && nd.pos <= n && |nd.hold| <= 1 && nd.cap > 0
    && |nd.sent| + |nd.hold| <= nd.pos
    && (!nd.stage.Batching? ==> nd.buf == [])
    && (nd.ending ==> nd.buf == [] && ((inputClosed && nd.pos == n) || (nd.stage.Taking? && nd.pos > nd.stage.n && nd.pos > 0)))
    && (!nd.ending && nd.stage.Taking? ==> nd.pos <= nd.stage.n || nd.pos == 0)
    && (nd.closed ==> nd.ending && nd.hold == [])
  }

  ghost predicate Sound(nd: Node, input: seq<Val>, inputClosed: bool) {
    Placed(nd, |input|, inputClosed) && Made(nd.stage, input[..nd.pos], nd.sent + nd.hold, nd.buf)
  }

  ghost predicate SoundNode(nodes: seq<Node>, i: nat)
    requires i < |nodes|
  {
    Sound(nodes[i], Input(nodes, i), InputClosed(nodes, i))
  }

  ghost predicate AllSound(nodes: seq<Node>) {
    forall i: nat :: i < |nodes| ==> SoundNode(nodes, i)
  }

  ghost predicate Staged(nodes: seq<Node>, stages: seq<Stage>) {
    |nodes| == |stages| && forall i: nat :: i < |nodes| ==> nodes[i].stage == stages[i]
  }

  /** Collect has the first items of the last channel, and all of them once it has returned. */
  ghost predicate Drained(out: seq<Val>, sent: seq<Val>, closed: bool, finished: bool) {
    out <= sent && (finished ==> closed && out == sent)
  }

  ghost predicate Inv(s: State, stages: seq<Stage>) {
    && Chain(stages) && Staged(s.nodes, stages) && AllSound(s.nodes)
    && Drained(s.out, s.nodes[|s.nodes| - 1].sent, s.nodes[|s.nodes| - 1].closed, s.finished)
  }

  // ------------------------------------------------------------------ every step keeps it

  lemma FlatExtends(ys: seq<Val>, batch: Val)
    requires batch.Pack?
    ensures Flat(ys + [batch]) == Flat(ys) + batch.items
  {
    assert (ys + [batch])[..|ys|] == ys;
  }

  lemma FlushMakes(stage: Stage, xs: seq<Val>, ys: seq<Val>, buf: seq<Val>)
    requires stage.Batching? && Batches(ys, stage.size) && Flat(ys) + buf == xs && |buf| <= Limit(stage.size)
    ensures Made(stage, xs, ys + Flushed(buf), [])
  {
    if buf != [] {
      FlatExtends(ys, Pack(buf));
      assert Flat(ys) + buf == (Flat(ys) + buf) + [];
    } else {
      assert ys + [] == ys;
    }
  }

  /** One more item gives what the list function gives on one more item. */
  lemma PureExtends(stage: Stage, xs: seq<Val>, v: Val)
    requires !stage.Batching?
    ensures Pure(stage, xs + [v]) == Pure(stage, xs) +
              (match stage
               case Source(_) => [v]
               case Mapping(f) => [f(v)]
               case Filtering(keep) => if keep(v) then [v] else []
               case Taking(n) => if |xs| >= n then [] else [v])
  {
    assert (xs + [v])[..|xs|] == xs;
  }

  lemma BatchMakes(size: nat, xs: seq<Val>, ys: seq<Val>, buf: seq<Val>, v: Val)
    requires Made(Batching(size), xs, ys, buf)
    ensures Made(Batching(size), xs + [v], ys + BatchSends(size, buf, v), BatchKeeps(size, buf, v))
  {
    assert Flat(ys) + (buf + [v]) == (Flat(ys) + buf) + [v];
    if |buf| + 1 >= size {
      FlushMakes(Batching(size), xs + [v], ys, buf + [v]);
    } else {
      assert ys + [] == ys;
    }
  }

  lemma AcceptMakes(nd: Node, xs: seq<Val>, v: Val)
    requires Made(nd.stage, xs, nd.sent, nd.buf) && nd.pos == |xs| && nd.hold == []
    ensures Made(nd.stage, xs + [v], Accept(nd, v).sent + Accept(nd, v).hold, Accept(nd, v).buf)
  {
    if nd.stage.Batching? {
      BatchMakes(nd.stage.size, xs, nd.sent, nd.buf, v);
    } else {
      PureExtends(nd.stage, xs, v);
    }
  }

  lemma AcceptPlaced(nd: Node, v: Val, n: nat, inputClosed: bool)
    requires Placed(nd, n, inputClosed) && !nd.ending && nd.hold == [] && nd.pos < n
    ensures Placed(Accept(nd, v), n, inputClosed)
    ensures Accept(nd, v).pos == nd.pos + 1 && Accept(nd, v).stage == nd.stage
  {
  }

  lemma AcceptSound(nd: Node, input: seq<Val>, inputClosed: bool)
    requires Sound(nd, input, inputClosed) && !nd.ending && nd.hold == [] && nd.pos < |input|
    ensures Sound(Accept(nd, input[nd.pos]), input, inputClosed)
  {
    var v := input[nd.pos];
    var nd' := Accept(nd, v);
    AcceptPlaced(nd, v, |input|, inputClosed);
    assert Made(nd'.stage, input[..nd'.pos], nd'.sent + nd'.hold, nd'.buf) by {
      assert input[..nd'.pos] == input[..nd.pos] + [v];
      assert nd.sent + nd.hold == nd.sent;
      AcceptMakes(nd, input[..nd.pos], v);
    }
  }

  lemma FlushSound(nd: Node, input: seq<Val>, inputClosed: bool, ending: bool)
    requires Sound(nd, input, inputClosed) && !nd.ending && nd.hold == [] && !nd.closed
    requires ending ==> inputClosed && nd.pos == |input|
    ensures Sound(nd.(ending := ending, hold := Flushed(nd.buf), buf := []), input, inputClosed)
  {
    assert nd.sent + nd.hold == nd.sent;
    if nd.stage.Batching? {
      FlushMakes(nd.stage, input[..nd.pos], nd.sent, nd.buf);
      BatchesFit(nd.sent, nd.stage.size);
    } else {
      assert nd.sent + Flushed(nd.buf) == nd.sent;
    }
  }

  /** Batches are nonempty, so there are no more of them than items. */
  lemma {:induction false} BatchesFit(ys: seq<Val>, size: nat)
    requires Batches(ys, size)
    ensures |ys| <= |Flat(ys)|
  {
    if ys != [] {
      BatchesFit(ys[..|ys| - 1], size);
    }
  }

  lemma SendSound(nd: Node, input: seq<Val>, inputClosed: bool)
    requires Sound(nd, input, inputClosed) && nd.hold != []
    ensures Sound(nd.(sent := nd.sent + [nd.hold[0]], hold := nd.hold[1..]), input, inputClosed)
  {
    assert nd.sent + nd.hold == (nd.sent + [nd.hold[0]]) + nd.hold[1..];
  }

  /** A goroutine is not disturbed by items or a close arriving on a channel that was open. */
  lemma InputGrows(nd: Node, input: seq<Val>, more: seq<Val>, nowClosed: bool)
    requires Sound(nd, input, false)
    ensures Sound(nd, input + more, nowClosed)
  {
    assert (input + more)[..nd.pos] == input[..nd.pos];
  }

  lemma MovedSound(nodes: seq<Node>, step: Step, s: State)
    requires s.nodes == nodes && Enabled(s, step) && !step.Collect? && !step.Finish?
    requires step.i < |nodes| && SoundNode(nodes, step.i)
    ensures Sound(Moved(nodes, step), Input(nodes, step.i), InputClosed(nodes, step.i))
    ensures Moved(nodes, step).stage == nodes[step.i].stage
  {
    var nd, input, ic := nodes[step.i], Input(nodes, step.i), InputClosed(nodes, step.i);
    match step
    case Receive(i) => AcceptSound(nd, input, ic);
    case Timer(i) => FlushSound(nd, input, ic, false);
    case SeeClosed(i) => FlushSound(nd, input, ic, true);
    case Send(i) => SendSound(nd, input, ic);
    case Close(i) =>
  }

  /** What a step does to the channel its node writes. */
  lemma ChannelMoves(nodes: seq<Node>, step: Step, s: State) returns (more: seq<Val>)
    requires s.nodes == nodes && Enabled(s, step) && !step.Collect? && !step.Finish?
    requires step.i < |nodes| && SoundNode(nodes, step.i)
    ensures Moved(nodes, step).sent == nodes[step.i].sent + more
    ensures nodes[step.i].closed ==> more == [] && Moved(nodes, step).closed
  {
    more := if step.Send? then [nodes[step.i].hold[0]] else [];
  }

  /** A move of node i leaves node k sound. */
  lemma SoundAt(nodes: seq<Node>, i: nat, nd: Node, more: seq<Val>, k: nat)
    requires i < |nodes| && k < |nodes| && k != i
    requires SoundNode(nodes, k)
    requires nd.sent == nodes[i].sent + more && (nodes[i].closed ==> more == [] && nd.closed)
    ensures var nodes' := nodes[i := nd]; SoundNode(nodes', k)
  {
    if k == i + 1 && !nodes[k].stage.Source? {
      if nodes[i].closed {
        assert nd.sent == nodes[i].sent;
      } else {
        InputGrows(nodes[k], nodes[i].sent, more, nd.closed);
      }
    }
  }

  lemma AllSoundAfter(nodes: seq<Node>, i: nat, nd: Node, more: seq<Val>)
    requires AllSound(nodes) && i < |nodes| && nd.stage == nodes[i].stage
    requires Sound(nd, Input(nodes, i), InputClosed(nodes, i))
    requires nd.sent == nodes[i].sent + more && (nodes[i].closed ==> more == [] && nd.closed)
    ensures AllSound(nodes[i := nd])
  {
    var nodes' := nodes[i := nd];
    forall k: nat | k < |nodes| ensures SoundNode(nodes', k) {
      assert SoundNode(nodes, k);
      if k != i {
        SoundAt(nodes, i, nd, more, k);
      } else {
        assert Input(nodes', k) == Input(nodes, k);
      }
    }
  }

  lemma DrainedAfter(out: seq<Val>, sent: seq<Val>, closed: bool, finished: bool, more: seq<Val>, nowClosed: bool)
    requires Drained(out, sent, closed, finished) && (closed ==> more == [] && nowClosed)
    ensures Drained(out, sent + more, nowClosed, finished)
  {
  }

  lemma NodeStepKeeps(s: State, stages: seq<Stage>, step: Step)
    requires Inv(s, stages) && Enabled(s, step) && !step.Collect? && !step.Finish?
    ensures Inv(Next(s, step), stages)
  {
    var i := step.i;
    assert SoundNode(s.nodes, i);
    MovedSound(s.nodes, step, s);
    var nd := Moved(s.nodes, step);
    var more := ChannelMoves(s.nodes, step, s);
    AllSoundAfter(s.nodes, i, nd, more);
    if i == |s.nodes| - 1 {
      DrainedAfter(s.out, s.nodes[i].sent, s.nodes[i].closed, s.finished, more, nd.closed);
    }
    assert Next(s, step) == s.(nodes := s.nodes[i := nd]);
  }

  lemma CollectorKeeps(s: State, stages: seq<Stage>, step: Step)
    requires Inv(s, stages) && Enabled(s, step) && (step.Collect? || step.Finish?)
    ensures Inv(Next(s, step), stages)
  {
    assert Next(s, step).nodes == s.nodes;
  }

  lemma StepKeeps(s: State, stages: seq<Stage>, step: Step)
    requires Inv(s, stages)
    ensures Inv(Next(s, step), stages)
  {
    if Enabled(s, step) {
      if step.Collect? || step.Finish? {
        CollectorKeeps(s, stages, step);
      } else {
        NodeStepKeeps(s, stages, step);
      }
    }
  }

  lemma {:induction false} RunKeeps(stages: seq<Stage>, steps: seq<Step>)
    requires Chain(stages)
    ensures Inv(Run(Init(stages), steps), stages)
  {
    if steps == [] {
      InitHolds(stages);
    } else {
      RunKeeps(stages, steps[..|steps| - 1]);
      StepKeeps(Run(Init(stages), steps[..|steps| - 1]), stages, steps[|steps| - 1]);
    }
  }

  lemma InitHolds(stages: seq<Stage>)
    requires Chain(stages)
    ensures Inv(Init(stages), stages)
  {
    var s := Init(stages);
    forall i: nat | i < |s.nodes| ensures SoundNode(s.nodes, i) {
      assert Made(stages[i], [], [], []);
    }
  }

  // ------------------------------------------------------------------ the result is the list program's

  /** The list functions are monotone for prefixes. */
  lemma {:induction false} PureMonotone(stage: Stage, xs: seq<Val>, full: seq<Val>)
    requires !stage.Batching? && xs <= full
    ensures Pure(stage, xs) <= Pure(stage, full)
    decreases |full|
  {
    if xs != full {
      var init, last := full[..|full| - 1], full[|full| - 1];
      PureMonotone(stage, xs, init);
      PureExtends(stage, init, last);
      assert full == init + [last];
    }
  }

  /** Batches made so far can be completed for any longer input, cutting the rest one item at a time. */
  lemma {:induction false} BatchesComplete(size: nat, ys: seq<Val>, full: seq<Val>) returns (zs: seq<Val>)
    requires Batches(ys, size) && Flat(ys) <= full
    ensures Batches(zs, size) && Flat(zs) == full && ys <= zs
    ensures Flat(ys) == full ==> zs == ys
    decreases |full| - |Flat(ys)|
  {
    if Flat(ys) == full {
      zs := ys;
    } else {
      var v := full[|Flat(ys)|];
      FlatExtends(ys, Pack([v]));
      zs := BatchesComplete(size, ys + [Pack([v])], full);
    }
  }

  /** What a node has made so far can be completed to a result for any input that continues what it read. */
  lemma Completes(stage: Stage, xs: seq<Val>, ys: seq<Val>, buf: seq<Val>, full: seq<Val>) returns (zs: seq<Val>)
    requires Made(stage, xs, ys, buf) && xs <= full
    ensures Produces(stage, full, zs) && ys <= zs
    ensures (buf == [] && xs == full) || (stage.Taking? && |xs| > stage.n) ==> zs == ys
  {
    if stage.Batching? {
      if buf == [] {
        zs := BatchesComplete(stage.size, ys, full);
      } else {
        FlatExtends(ys, Pack(buf));
        assert Flat(ys + [Pack(buf)]) <= full;
        zs := BatchesComplete(stage.size, ys + [Pack(buf)], full);
      }
    } else {
      PureMonotone(stage, xs, full);
      zs := Pure(stage, full);
    }
  }

  lemma NodeCompletes(nd: Node, input: seq<Val>, inputClosed: bool, before: seq<Val>) returns (full: seq<Val>)
    requires Sound(nd, input, inputClosed) && input <= before && (inputClosed ==> input == before)
    ensures Produces(nd.stage, before, full) && nd.sent + nd.hold <= full
    ensures nd.ending ==> full == nd.sent + nd.hold
  {
    full := Completes(nd.stage, input[..nd.pos], nd.sent + nd.hold, nd.buf, before);
  }

  /** At any moment node i has sent, or is sending, a prefix of a result of the list program up to it, and the
      whole of one once it has left its loop. */
  lemma {:induction false} Partial(s: State, stages: seq<Stage>, i: nat) returns (full: seq<Val>)
    requires Inv(s, stages) && i < |stages|
    ensures Means(stages, i, full)
    ensures s.nodes[i].sent + s.nodes[i].hold <= full
    ensures s.nodes[i].ending ==> full == s.nodes[i].sent + s.nodes[i].hold
  {
    var nd := s.nodes[i];
    assert SoundNode(s.nodes, i);
    if i == 0 {
      full := stages[0].items;
    } else {
      var input := s.nodes[i - 1].sent;
      var before := Partial(s, stages, i - 1);
      assert SoundNode(s.nodes, i - 1);
      assert input <= before;
      full := NodeCompletes(nd, input, s.nodes[i - 1].closed, before);
    }
  }

  lemma StateReturns(s: State, stages: seq<Stage>) returns (full: seq<Val>)
    requires Inv(s, stages)
    ensures Means(stages, |stages| - 1, full) && s.out <= full && (s.finished ==> s.out == full)
  {
    var last := s.nodes[|stages| - 1];
    full := Partial(s, stages, |stages| - 1);
    assert last.closed ==> last.sent + last.hold == last.sent by {
      assert SoundNode(s.nodes, |stages| - 1);
    }
  }

  /** What Collect has at any moment is a prefix of a result of the list program; what it returns is one. */
  lemma CollectReturns(stages: seq<Stage>, steps: seq<Step>) returns (full: seq<Val>)
    requires Chain(stages)
    ensures Means(stages, |stages| - 1, full)
    ensures Run(Init(stages), steps).out <= full
    ensures Run(Init(stages), steps).finished ==> Run(Init(stages), steps).out == full
  {
    RunKeeps(stages, steps);
    full := StateReturns(Run(Init(stages), steps), stages);
  }

  /** The list program as a function, for a chain without Batch. */
  function Composed(stages: seq<Stage>, i: nat): seq<Val>
    requires i < |stages| && stages[0].Source?
    requires forall k :: 0 < k < |stages| ==> !stages[k].Batching?
  {
    if i == 0 then stages[0].items else Pure(stages[i], Composed(stages, i - 1))
  }

  lemma {:induction false} ComposedMeans(stages: seq<Stage>, i: nat)
    requires Chain(stages) && i < |stages|
    requires forall k :: 0 < k < |stages| ==> !stages[k].Batching?
    ensures Means(stages, i, Composed(stages, i))
  {
    if i > 0 {
      ComposedMeans(stages, i - 1);
      MeansNext(stages, i, Composed(stages, i - 1), Composed(stages, i));
    }
  }

  lemma MeansNext(stages: seq<Stage>, i: nat, xs: seq<Val>, ys: seq<Val>)
    requires Chain(stages) && 0 < i < |stages| && Means(stages, i - 1, xs) && Produces(stages[i], xs, ys)
    ensures Means(stages, i, ys)
  {
  }

  lemma {:induction false} MeansOnly(stages: seq<Stage>, i: nat, ys: seq<Val>)
    requires Chain(stages) && i < |stages| && Means(stages, i, ys)
    requires forall k :: 0 < k < |stages| ==> !stages[k].Batching?
    ensures ys == Composed(stages, i)
  {
    if i > 0 {
      var xs :| Means(stages, i - 1, xs) && Produces(stages[i], xs, ys);
      MeansOnly(stages, i - 1, xs);
      assert ys == Pure(stages[i], xs);
    }
  }

  lemma MeansComposed(stages: seq<Stage>, i: nat, ys: seq<Val>)
    requires Chain(stages) && i < |stages|
    requires forall k :: 0 < k < |stages| ==> !stages[k].Batching?
    ensures Means(stages, i, ys) <==> ys == Composed(stages, i)
  {
    ComposedMeans(stages, i);
    if Means(stages, i, ys) {
      MeansOnly(stages, i, ys);
    }
  }

  /** Without Batch, every schedule that finishes returns the one value of the composed list functions. */
  lemma CollectIsDeterministic(stages: seq<Stage>, steps: seq<Step>)
    requires Chain(stages) && forall k :: 0 < k < |stages| ==> !stages[k].Batching?
    ensures Run(Init(stages), steps).out <= Composed(stages, |stages| - 1)
    ensures Run(Init(stages), steps).finished ==> Run(Init(stages), steps).out == Composed(stages, |stages| - 1)
  {
    var full := CollectReturns(stages, steps);
    MeansComposed(stages, |stages| - 1, full);
  }

  /** A Batch at the end only groups: whatever the timers did, its batches are nonempty, within the size, and
      put together they are what the stages before it compute. */
  lemma BatchOnlyGroups(stages: seq<Stage>, steps: seq<Step>)
    requires Chain(stages) && |stages| > 1 && stages[|stages| - 1].Batching?
    requires forall k :: 0 < k < |stages| - 1 ==> !stages[k].Batching?
    requires Run(Init(stages), steps).finished
    ensures Batches(Run(Init(stages), steps).out, stages[|stages| - 1].size)
    ensures FullButLast(Run(Init(stages), steps).out, stages[|stages| - 1].size, Timers(steps, |stages| - 1))
    ensures Flat(Run(Init(stages), steps).out) == Composed(stages[..|stages| - 1], |stages| - 2)
  {
    var n := |stages| - 1;
    var full := CollectReturns(stages, steps);
    var xs :| Means(stages, n - 1, xs) && Produces(stages[n], xs, full);
    MeansSame(stages, stages[..n], n - 1, xs);
    MeansComposed(stages[..n], n - 1, xs);
    CollectedAreFull(stages, steps);
  }

  /** The program up to stage i depends on the stages up to i. */
  lemma {:induction false} MeansSame(stages: seq<Stage>, others: seq<Stage>, i: nat, ys: seq<Val>)
    requires Chain(stages) && Chain(others) && i < |stages| && i < |others| && Means(stages, i, ys)
    requires forall k :: 0 <= k <= i ==> stages[k] == others[k]
    ensures Means(others, i, ys)
  {
    if i > 0 {
      var xs :| Means(stages, i - 1, xs) && Produces(stages[i], xs, ys);
      MeansSame(stages, others, i - 1, xs);
    }
  }

  // ------------------------------------------------------------------ batches are full

  /** The batches with fewer than max(1, size) items. */
  ghost function Short(ys: seq<Val>, size: nat): nat {
    if ys == [] then 0
    else
      var y := ys[|ys| - 1];
      Short(ys[..|ys| - 1], size) + (if y.Pack? && |y.items| < (if size < 1 then 1 else size) then 1 else 0)
  }

  /** How often the timer of node i is tried. */
  ghost function Timers(steps: seq<Step>, i: nat): nat {
    if steps == [] then 0 else Timers(steps[..|steps| - 1], i) + (if steps[|steps| - 1] == Timer(i) then 1 else 0)
  }

  lemma ShortExtends(ys: seq<Val>, y: Val, size: nat)
    ensures Short(ys + [y], size) == Short(ys, size) + (if y.Pack? && |y.items| < (if size < 1 then 1 else size) then 1 else 0)
  {
    assert (ys + [y])[..|ys|] == ys;
  }

  lemma ShortFlush(ys: seq<Val>, buf: seq<Val>, size: nat)
    ensures Short(ys, size) <= Short(ys + Flushed(buf), size) <= Short(ys, size) + 1
  {
    if buf == [] {
      assert ys + Flushed(buf) == ys;
    } else {
      ShortExtends(ys, Pack(buf), size);
    }
  }

  /** An item that fills the buffer makes a full batch. */
  lemma ShortAccept(size: nat, ys: seq<Val>, buf: seq<Val>, v: Val)
    requires |buf| < Limit(size)
    ensures Short(ys + BatchSends(size, buf, v), size) == Short(ys, size)
  {
    if |buf| + 1 >= size {
      ShortExtends(ys, Pack(buf + [v]), size);
    } else {
      assert ys + BatchSends(size, buf, v) == ys;
    }
  }

  /** At most one more short batch than the timer fired; if it never did, only the last batch may have fewer than
      max(1, size) items, and no batch has more. */
  ghost predicate FullButLast(ys: seq<Val>, size: nat, timers: nat) {
    && Short(ys, size) <= timers + 1
    && (timers == 0 ==> forall k :: 0 <= k < |ys| - 1 ==> ys[k].Pack? && |ys[k].items| == if size < 1 then 1 else size)
  }

  lemma {:induction false} NoneShort(ys: seq<Val>, size: nat, k: nat)
    requires Batches(ys, size) && Short(ys, size) == 0 && k < |ys|
    ensures |ys[k].items| == if size < 1 then 1 else size
    decreases |ys|
  {
    if k < |ys| - 1 {
      NoneShort(ys[..|ys| - 1], size, k);
    }
  }

  /** What a Batch has made, but for the batch it ends with. */
  ghost function Body(ys: seq<Val>, ending: bool): seq<Val> {
    if ending && ys != [] then ys[..|ys| - 1] else ys
  }

  ghost predicate FewShort(nd: Node, timers: nat)
    requires nd.stage.Batching?
  {
    Short(Body(nd.sent + nd.hold, nd.ending), nd.stage.size) <= timers
  }

  lemma ShortBody(ys: seq<Val>, size: nat)
    requires ys != []
    ensures Short(ys[..|ys| - 1], size) <= Short(ys, size) <= Short(ys[..|ys| - 1], size) + 1
  {
  }

  lemma AcceptFewShort(nd: Node, v: Val, timers: nat)
    requires nd.stage.Batching? && nd.hold == [] && !nd.ending && |nd.buf| < Limit(nd.stage.size) && FewShort(nd, timers)
    ensures FewShort(Accept(nd, v), timers)
  {
    assert nd.sent + nd.hold == nd.sent;
    ShortAccept(nd.stage.size, nd.sent, nd.buf, v);
  }

  lemma FlushFewShort(nd: Node, timers: nat)
    requires nd.stage.Batching? && nd.hold == [] && !nd.ending && FewShort(nd, timers)
    ensures FewShort(nd.(hold := Flushed(nd.buf), buf := []), timers + 1)
    ensures FewShort(nd.(ending := true, hold := Flushed(nd.buf), buf := []), timers)
  {
    var ys := nd.sent + Flushed(nd.buf);
    assert nd.sent + nd.hold == nd.sent;
    ShortFlush(nd.sent, nd.buf, nd.stage.size);
    if nd.buf != [] {
      assert ys[..|ys| - 1] == nd.sent;
    } else if ys != [] {
      assert ys == nd.sent;
      ShortBody(ys, nd.stage.size);
    }
  }

  lemma SendFewShort(nd: Node, timers: nat)
    requires nd.stage.Batching? && nd.hold != [] && FewShort(nd, timers)
    ensures FewShort(nd.(sent := nd.sent + [nd.hold[0]], hold := nd.hold[1..]), timers)
  {
    assert nd.sent + nd.hold == (nd.sent + [nd.hold[0]]) + nd.hold[1..];
  }

  lemma MovedFewShort(nodes: seq<Node>, step: Step, s: State, timers: nat)
    requires s.nodes == nodes && Enabled(s, step) && !step.Collect? && !step.Finish?
    requires step.i < |nodes| && nodes[step.i].stage.Batching? && FewShort(nodes[step.i], timers)
    requires |nodes[step.i].buf| < Limit(nodes[step.i].stage.size)
    ensures Moved(nodes, step).stage == nodes[step.i].stage
    ensures FewShort(Moved(nodes, step), timers + if step.Timer? then 1 else 0)
  {
    match step
    case Receive(i) =>
      AcceptFewShort(nodes[i], Input(nodes, i)[nodes[i].pos], timers);
    case Timer(i) =>
      FlushFewShort(nodes[i], timers);
    case SeeClosed(i) =>
      FlushFewShort(nodes[i], timers);
    case Send(i) =>
      SendFewShort(nodes[i], timers);
    case Close(i) =>
  }

  lemma {:induction false} RunFewShort(stages: seq<Stage>, steps: seq<Step>, i: nat)
    requires Chain(stages) && i < |stages| && stages[i].Batching?
    ensures |Run(Init(stages), steps).nodes| == |stages| && Run(Init(stages), steps).nodes[i].stage == stages[i]
    ensures FewShort(Run(Init(stages), steps).nodes[i], Timers(steps, i))
    decreases |steps|
  {
    RunKeeps(stages, steps);
    if steps == [] {
      assert Run(Init(stages), steps).nodes[i].sent + Run(Init(stages), steps).nodes[i].hold == [];
    } else {
      var init, step := steps[..|steps| - 1], steps[|steps| - 1];
      RunFewShort(stages, init, i);
      RunKeeps(stages, init);
      StepFewShort(Run(Init(stages), init), stages, step, i, Timers(init, i));
    }
  }

  lemma StepFewShort(s: State, stages: seq<Stage>, step: Step, i: nat, timers: nat)
    requires Inv(s, stages) && i < |stages| && stages[i].Batching? && FewShort(s.nodes[i], timers)
    ensures |Next(s, step).nodes| == |stages| && Next(s, step).nodes[i].stage == stages[i]
    ensures FewShort(Next(s, step).nodes[i], timers + if step == Timer(i) then 1 else 0)
  {
    if Enabled(s, step) && !step.Collect? && !step.Finish? && step.i == i {
      assert SoundNode(s.nodes, i);
      MovedFewShort(s.nodes, step, s, timers);
    }
  }

  /** Batch sends full batches: those with fewer than max(1, size) items are at most one more than its timer fired, and
      if it never fired every batch but the last has exactly max(1, size). */
  lemma BatchesAreFull(stages: seq<Stage>, steps: seq<Step>, i: nat)
    requires Chain(stages) && i < |stages| && stages[i].Batching?
    ensures |Run(Init(stages), steps).nodes| == |stages|
    ensures FullButLast(Run(Init(stages), steps).nodes[i].sent, stages[i].size, Timers(steps, i))
  {
    RunFewShort(stages, steps, i);
    RunKeeps(stages, steps);
    var s := Run(Init(stages), steps);
    assert SoundNode(s.nodes, i);
    SentAreFull(s.nodes[i], stages[i].size, Timers(steps, i));
  }

  lemma CollectedAreFull(stages: seq<Stage>, steps: seq<Step>)
    requires Chain(stages) && stages[|stages| - 1].Batching? && Run(Init(stages), steps).finished
    ensures FullButLast(Run(Init(stages), steps).out, stages[|stages| - 1].size, Timers(steps, |stages| - 1))
  {
    RunKeeps(stages, steps);
    BatchesAreFull(stages, steps, |stages| - 1);
  }

  lemma SentAreFull(nd: Node, size: nat, timers: nat)
    requires nd.stage == Batching(size) && FewShort(nd, timers) && Batches(nd.sent + nd.hold, size) && |nd.hold| <= 1
    ensures FullButLast(nd.sent, size, timers)
  {
    var ys := nd.sent + nd.hold;
    var body := Body(ys, nd.ending);
    if ys != [] {
      ShortBody(ys, size);
      if nd.hold == [] {
        assert ys == nd.sent;
      } else {
        assert ys[..|ys| - 1] == nd.sent;
      }
    }
    if timers == 0 {
      forall k | 0 <= k < |nd.sent| - 1
        ensures nd.sent[k].Pack? && |nd.sent[k].items| == if size < 1 then 1 else size
      {
        assert body[k] == ys[k] == nd.sent[k];
        NoneShort(body, size, k);
      }
    }
  }

  // ------------------------------------------------------------------ it finishes

  /** An open channel with nothing in it is served by its goroutine or one before it. */
  lemma {:induction false} SomeNodeMoves(s: State, stages: seq<Stage>, i: nat) returns (step: Step)
    requires Inv(s, stages) && i < |stages|
    requires !s.nodes[i].closed && |s.nodes[i].sent| == Taken(s, i)
    ensures Enabled(s, step)
  {
    var nd := s.nodes[i];
    assert SoundNode(s.nodes, i);
    if nd.hold != [] {
      step := Send(i);
    } else if nd.ending {
      step := Close(i);
    } else if nd.pos < |Input(s.nodes, i)| {
      step := Receive(i);
    } else if InputClosed(s.nodes, i) {
      step := SeeClosed(i);
    } else {
      step := SomeNodeMoves(s, stages, i - 1);
    }
  }

  /** Until Collect returns, some goroutine can move, whatever the buffers hold. */
  lemma NeverStuck(stages: seq<Stage>, steps: seq<Step>) returns (step: Step)
    requires Chain(stages) && !Run(Init(stages), steps).finished
    ensures Enabled(Run(Init(stages), steps), step)
  {
    var s := Run(Init(stages), steps);
    RunKeeps(stages, steps);
    var last := s.nodes[|s.nodes| - 1];
    if |s.out| < |last.sent| {
      step := Collect;
    } else if last.closed {
      step := Finish;
    } else {
      step := SomeNodeMoves(s, stages, |stages| - 1);
    }
  }

  function Count(b: bool): nat { if b then 1 else 0 }

  /** Work done by a node: items received, made and sent, and its two last acts. */
  function Done(nd: Node): nat {
    nd.pos + (|nd.sent| + |nd.hold|) + |nd.sent| + Count(nd.ending) + Count(nd.closed)
  }

  function AllDone(nodes: seq<Node>): nat {
    if nodes == [] then 0 else AllDone(nodes[..|nodes| - 1]) + Done(nodes[|nodes| - 1])
  }

  lemma {:induction false} AllDoneUpdate(nodes: seq<Node>, i: nat, nd: Node)
    requires i < |nodes|
    ensures AllDone(nodes[i := nd]) == AllDone(nodes) - Done(nodes[i]) + Done(nd)
  {
    var nodes' := nodes[i := nd];
    if i == |nodes| - 1 {
      assert nodes'[..|nodes| - 1] == nodes[..|nodes| - 1];
    } else {
      AllDoneUpdate(nodes[..|nodes| - 1], i, nd);
      assert nodes'[..|nodes| - 1] == nodes[..|nodes| - 1][i := nd];
    }
  }

  lemma {:induction false} AllDoneBound(nodes: seq<Node>, b: nat)
    requires forall i :: 0 <= i < |nodes| ==> Done(nodes[i]) <= b
    ensures AllDone(nodes) <= |nodes| * b
  {
    if nodes != [] {
      AllDoneBound(nodes[..|nodes| - 1], b);
      assert |nodes| * b == (|nodes| - 1) * b + b;
    }
  }

  function Progress(s: State): nat { AllDone(s.nodes) + |s.out| + Count(s.finished) }

  lemma MoveCounts(nodes: seq<Node>, step: Step, s: State)
    requires s.nodes == nodes && Enabled(s, step) && !step.Collect? && !step.Finish?
    ensures Done(Moved(nodes, step)) > Done(nodes[step.i])
  {
  }

  lemma StepCounts(s: State, step: Step)
    requires Enabled(s, step)
    ensures Progress(Next(s, step)) > Progress(s)
  {
    if !step.Collect? && !step.Finish? {
      MoveCounts(s.nodes, step, s);
      AllDoneUpdate(s.nodes, step.i, Moved(s.nodes, step));
      assert Next(s, step) == s.(nodes := s.nodes[step.i := Moved(s.nodes, step)]);
    }
  }

  /** The steps of a run that did something. */
  function Work(s: State, steps: seq<Step>): nat {
    if steps == [] then 0
    else Work(s, steps[..|steps| - 1]) + Count(Enabled(Run(s, steps[..|steps| - 1]), steps[|steps| - 1]))
  }

  lemma {:induction false} WorkIsProgress(s: State, steps: seq<Step>)
    ensures Work(s, steps) + Progress(s) <= Progress(Run(s, steps))
  {
    if steps != [] {
      var s1 := Run(s, steps[..|steps| - 1]);
      WorkIsProgress(s, steps[..|steps| - 1]);
      if Enabled(s1, steps[|steps| - 1]) {
        StepCounts(s1, steps[|steps| - 1]);
      }
    }
  }

  /** No node receives more items than the slice has. */
  lemma {:induction false} FewReceived(s: State, stages: seq<Stage>, i: nat)
    requires Inv(s, stages) && i < |stages|
    ensures |s.nodes[i].sent| + |s.nodes[i].hold| <= s.nodes[i].pos <= |stages[0].items|
  {
    assert SoundNode(s.nodes, i);
    if i > 0 {
      FewReceived(s, stages, i - 1);
    }
  }

  /** Whatever the schedule, a chain of k stages over n items does at most k(3n + 2) + n + 1 steps. */
  lemma RunIsBounded(stages: seq<Stage>, steps: seq<Step>)
    requires Chain(stages)
    ensures var n := |stages[0].items|;
            Work(Init(stages), steps) <= |stages| * (3 * n + 2) + n + 1
  {
    var n := |stages[0].items|;
    var s := Run(Init(stages), steps);
    RunKeeps(stages, steps);
    WorkIsProgress(Init(stages), steps);
    forall i | 0 <= i < |s.nodes| ensures Done(s.nodes[i]) <= 3 * n + 2 {
      FewReceived(s, stages, i);
    }
    AllDoneBound(s.nodes, 3 * n + 2);
    FewReceived(s, stages, |stages| - 1);
  }

  // ------------------------------------------------------------------ what is left behind a Take

  /** How many items a Take of n receives at most: it returns on the one after the n-th. */
  function Reads(n: int): nat {
    if n < 0 then 1 else n + 1
  }

  /** The channel holds no more than its capacity, and a Take reads no further than the item that ends it. */
  ghost predicate Within(s: State, stages: seq<Stage>, i: nat)
    requires i < |s.nodes| == |stages|
  {
    && s.nodes[i].cap == Capacity(stages, i)
    && |s.nodes[i].sent| <= Taken(s, i) + s.nodes[i].cap
    && (s.nodes[i].stage.Taking? ==> s.nodes[i].pos <= Reads(s.nodes[i].stage.n))
  }

  ghost predicate AllWithin(s: State, stages: seq<Stage>)
    requires |s.nodes| == |stages|
  {
    forall i: nat :: i < |stages| ==> Within(s, stages, i)
  }

  lemma MoveWithin(s: State, stages: seq<Stage>, step: Step, k: nat)
    requires Inv(s, stages) && k < |stages| && Within(s, stages, k)
    requires Enabled(s, step) && !step.Collect? && !step.Finish?
    ensures |Next(s, step).nodes| == |stages| && Within(Next(s, step), stages, k)
  {
    var nd := Moved(s.nodes, step);
    assert SoundNode(s.nodes, step.i);
    assert nd.cap == s.nodes[step.i].cap && nd.pos >= s.nodes[step.i].pos && nd.stage == s.nodes[step.i].stage;
    assert Next(s, step) == s.(nodes := s.nodes[step.i := nd]);
  }

  lemma StepWithin(s: State, stages: seq<Stage>, step: Step)
    requires Inv(s, stages) && AllWithin(s, stages)
    ensures |Next(s, step).nodes| == |stages| && AllWithin(Next(s, step), stages)
  {
    if Enabled(s, step) && !step.Collect? && !step.Finish? {
      forall k: nat | k < |stages| ensures |Next(s, step).nodes| == |stages| && Within(Next(s, step), stages, k) {
        MoveWithin(s, stages, step, k);
      }
    } else {
      assert Next(s, step).nodes == s.nodes && |Next(s, step).out| >= |s.out|;
      forall k: nat | k < |stages| ensures Within(Next(s, step), stages, k) {
        assert Within(s, stages, k);
      }
    }
  }

  lemma {:induction false} RunWithin(stages: seq<Stage>, steps: seq<Step>)
    requires Chain(stages)
    ensures |Run(Init(stages), steps).nodes| == |stages| && AllWithin(Run(Init(stages), steps), stages)
    decreases |steps|
  {
    if steps != [] {
      RunWithin(stages, steps[..|steps| - 1]);
      RunKeeps(stages, steps[..|steps| - 1]);
      StepWithin(Run(Init(stages), steps[..|steps| - 1]), stages, steps[|steps| - 1]);
    }
  }

  /** Nothing more can happen. */
  ghost predicate AtRest(s: State) {
    forall step :: !Enabled(s, step)
  }

  ghost predicate AllClosed(s: State) {
    forall i :: 0 <= i < |s.nodes| ==> s.nodes[i].closed
  }

  /** What the stage before each Take has made fits into what the Take reads and the buffer between them. */
  ghost predicate AllFit(s: State) {
    forall i :: 0 <= i < |s.nodes| - 1 && s.nodes[i + 1].stage.Taking? ==>
      |s.nodes[i].sent| + |s.nodes[i].hold| <= Reads(s.nodes[i + 1].stage.n) + s.nodes[i].cap
  }

  lemma ClosedFits(s: State, stages: seq<Stage>)
    requires Inv(s, stages) && AllWithin(s, stages) && AllClosed(s)
    ensures AllFit(s)
  {
    forall i | 0 <= i < |s.nodes| - 1 && s.nodes[i + 1].stage.Taking?
      ensures |s.nodes[i].sent| + |s.nodes[i].hold| <= Reads(s.nodes[i + 1].stage.n) + s.nodes[i].cap
    {
      assert SoundNode(s.nodes, i) && Within(s, stages, i) && Within(s, stages, i + 1);
    }
  }

  /** When nothing moves, a node whose successor is closed is closed itself, unless it is stuck at a full channel. */
  lemma ClosedBefore(s: State, stages: seq<Stage>, i: nat)
    requires Inv(s, stages) && AllWithin(s, stages) && AtRest(s) && AllFit(s)
    requires i + 1 < |stages| && s.nodes[i + 1].closed
    ensures s.nodes[i].closed
  {
    assert SoundNode(s.nodes, i) && SoundNode(s.nodes, i + 1) && Within(s, stages, i + 1);
    assert !Enabled(s, Send(i)) && !Enabled(s, Close(i)) && !Enabled(s, Receive(i)) && !Enabled(s, SeeClosed(i));
    if !s.nodes[i].closed {
      assert s.nodes[i + 1].stage.Taking? && s.nodes[i + 1].pos == Reads(s.nodes[i + 1].stage.n);
      assert s.nodes[i].hold == [];
      assert |s.nodes[i - 1].sent| == s.nodes[i].pos;
      var _ := SomeNodeMoves(s, stages, i - 1);
    }
  }

  lemma {:induction false} ClosedDownTo(s: State, stages: seq<Stage>, i: nat)
    requires Inv(s, stages) && AllWithin(s, stages) && AtRest(s) && AllFit(s) && s.finished && i < |stages|
    ensures s.nodes[i].closed
    decreases |stages| - i
  {
    if i + 1 < |stages| {
      ClosedDownTo(s, stages, i + 1);
      ClosedBefore(s, stages, i);
    }
  }

  /** When Collect has returned and nothing more can happen, every goroutine of the chain has ended if and only if
      what the stage before each Take has made fits into what the Take reads and the buffer between them; otherwise
      some are blocked for good. */
  lemma AllEndIff(stages: seq<Stage>, steps: seq<Step>)
    requires Chain(stages) && Run(Init(stages), steps).finished && AtRest(Run(Init(stages), steps))
    ensures AllClosed(Run(Init(stages), steps)) <==> AllFit(Run(Init(stages), steps))
  {
    var s := Run(Init(stages), steps);
    RunKeeps(stages, steps);
    RunWithin(stages, steps);
    if AllFit(s) {
      forall i | 0 <= i < |s.nodes| ensures s.nodes[i].closed {
        ClosedDownTo(s, stages, i);
      }
    }
    if AllClosed(s) {
      ClosedFits(s, stages);
    }
  }

  /** The same, on the slice and the capacities alone: what the list functions before each Take give. */
  ghost predicate ProgramFits(stages: seq<Stage>)
    requires Chain(stages) && forall k :: 0 < k < |stages| ==> !stages[k].Batching?
  {
    forall i: nat :: i + 1 < |stages| && stages[i + 1].Taking? ==>
      |Composed(stages, i)| <= Reads(stages[i + 1].n) + Capacity(stages, i)
  }

  lemma MadeOfProgram(s: State, stages: seq<Stage>, i: nat)
    requires Inv(s, stages) && i < |stages| && forall k :: 0 < k < |stages| ==> !stages[k].Batching?
    ensures s.nodes[i].sent + s.nodes[i].hold <= Composed(stages, i)
    ensures s.nodes[i].closed ==> s.nodes[i].sent == Composed(stages, i)
  {
    var full := Partial(s, stages, i);
    MeansComposed(stages, i, full);
    assert SoundNode(s.nodes, i);
    assert s.nodes[i].closed ==> s.nodes[i].sent + s.nodes[i].hold == s.nodes[i].sent;
  }

  lemma ProgramFitsMeansFit(s: State, stages: seq<Stage>)
    requires Inv(s, stages) && AllWithin(s, stages) && forall k :: 0 < k < |stages| ==> !stages[k].Batching?
    ensures ProgramFits(stages) ==> AllFit(s)
    ensures AllClosed(s) ==> ProgramFits(stages)
  {
    forall i: nat | i + 1 < |stages| && stages[i + 1].Taking?
      ensures |Composed(stages, i)| <= Reads(stages[i + 1].n) + Capacity(stages, i) ==>
                |s.nodes[i].sent| + |s.nodes[i].hold| <= Reads(stages[i + 1].n) + s.nodes[i].cap
      ensures s.nodes[i].closed ==> |Composed(stages, i)| <= Reads(stages[i + 1].n) + Capacity(stages, i)
    {
      MadeOfProgram(s, stages, i);
      assert Within(s, stages, i) && Within(s, stages, i + 1);
    }
  }

  /** Without Batch, whether goroutines are left behind does not depend on the schedule: none is if and only if what
      the list functions before each Take give has at most max(0, n) + 1 + capacity items. */
  lemma NoneLeftBehindIff(stages: seq<Stage>, steps: seq<Step>)
    requires Chain(stages) && forall k :: 0 < k < |stages| ==> !stages[k].Batching?
    requires Run(Init(stages), steps).finished && AtRest(Run(Init(stages), steps))
    ensures AllClosed(Run(Init(stages), steps)) <==> ProgramFits(stages)
  {
    RunKeeps(stages, steps);
    RunWithin(stages, steps);
    AllEndIff(stages, steps);
    ProgramFitsMeansFit(Run(Init(stages), steps), stages);
  }

  // ------------------------------------------------------------------ Batch's buffer, in place

  ghost function Fired(fires: seq<bool>): nat {
    if fires == [] then 0 else Fired(fires[..|fires| - 1]) + (if fires[|fires| - 1] then 1 else 0)
  }

  /** What the last flush adds. */
  lemma EndsFull(ys: seq<Val>, buf: seq<Val>, size: nat, timers: nat)
    requires Batches(ys, size) && Short(ys, size) <= timers
    ensures FullButLast(ys + Flushed(buf), size, timers)
  {
    ShortFlush(ys, buf, size);
    if timers == 0 {
      forall k | 0 <= k < |ys|
        ensures ys[k].Pack? && |ys[k].items| == if size < 1 then 1 else size
      {
        NoneShort(ys, size, k);
      }
    }
  }

  /** The goroutine of Batch: one buffer that is filled and truncated over and over, and the arrays it has sent,
      each a copy.  `sent` records what each array held when it was sent; Valid() says that all of them still do,
      whatever has gone through the buffer since. */
  class Batcher {
    const size: nat
    var buf: array<Val>
    var len: nat
    var batches: seq<array<Val>>
    ghost var sent: seq<Val>

    ghost predicate Intact()
      reads this, batches
    {
      |sent| == |batches| && forall k :: 0 <= k < |batches| ==> sent[k] == Pack(batches[k][..])
    }

    ghost predicate Valid()
      reads this, batches
    {
      buf.Length == Limit(size) && len < buf.Length && buf !in batches && Intact()
    }

    ghost function Held(): seq<Val>
      requires len <= buf.Length
      reads this, buf
    {
      buf[..len]
    }

    constructor (size: nat)
      ensures Valid() && this.size == size && len == 0 && sent == [] && fresh(buf)
    {
      this.size := size;
      this.buf := new Val[if size < 1 then 1 else size](_ => Atom(0));
      this.len := 0;
      this.batches := [];
      this.sent := [];
    }

    /** Sends a copy of the buffer if it holds anything, and truncates it. */
    method Flush()
      requires buf.Length == Limit(size) && len <= buf.Length && buf !in batches && Intact()
      modifies this`len, this`batches, this`sent
      ensures Valid() && len == 0
      ensures sent == old(sent) + Flushed(old(Held()))
    {
      if len > 0 {
        var batch := new Val[len](i requires 0 <= i < len <= buf.Length reads this, buf => buf[i]);
        assert batch[..] == buf[..len];
        batches := batches + [batch];
        sent := sent + [Pack(buf[..len])];
        len := 0;
      }
    }

    /** Appends an item, flushing when the buffer is full: what is sent and what is kept are those of the chain's
        node. */
    method Add(v: Val)
      requires Valid()
      modifies this`len, this`batches, this`sent, buf
      ensures Valid()
      ensures sent == old(sent) + BatchSends(size, old(Held()), v) && Held() == BatchKeeps(size, old(Held()), v)
      ensures if old(len) + 1 < size then sent == old(sent) && Held() == old(Held()) + [v]
              else sent == old(sent) + [Pack(old(Held()) + [v])] && len == 0
    {
      ghost var held := Held();
      buf[len] := v;
      len := len + 1;
      assert Held() == held + [v];
      if len >= size {
        Flush();
      }
    }

    /** A timer firing between two items. */
    method Fire(ghost xs: seq<Val>, ghost n: nat)
      requires Valid() && Made(Batching(size), xs, sent, Held()) && Short(sent, size) <= n
      modifies this`len, this`batches, this`sent
      ensures Valid() && Made(Batching(size), xs, sent, Held()) && Short(sent, size) <= n + 1
    {
      FlushMakes(Batching(size), xs, sent, Held());
      ShortFlush(sent, Held(), size);
      Flush();
    }

    method Item(v: Val, ghost xs: seq<Val>, ghost n: nat)
      requires Valid() && Made(Batching(size), xs, sent, Held()) && Short(sent, size) <= n
      modifies this`len, this`batches, this`sent, buf
      ensures Valid() && Made(Batching(size), xs + [v], sent, Held()) && Short(sent, size) <= n
    {
      BatchMakes(size, xs, sent, Held(), v);
      ShortAccept(size, sent, Held(), v);
      Add(v);
    }

    /** The end of the input. */
    method End(ghost xs: seq<Val>, ghost n: nat)
      requires Valid() && Made(Batching(size), xs, sent, Held()) && Short(sent, size) <= n
      modifies this`len, this`batches, this`sent
      ensures Valid() && len == 0 && Batches(sent, size) && Flat(sent) == xs && FullButLast(sent, size, n)
    {
      EndsFull(sent, Held(), size, n);
      FlushMakes(Batching(size), xs, sent, Held());
      Flush();
      assert Flat(sent) + [] == Flat(sent);
    }

    /** What is sent and held is made of the first i items, with a short batch for a firing at most. */
    ghost predicate MadeOf(items: seq<Val>, fires: seq<bool>, i: nat)
      requires i <= |items| && i <= |fires| && len <= buf.Length
      reads this, buf
    {
      Made(Batching(size), items[..i], sent, Held()) && Short(sent, size) <= Fired(fires[..i])
    }

    /** A turn of the loop; `fires[i]` says whether the timer fired before item i. */
    method Turn(items: seq<Val>, fires: seq<bool>, i: nat)
      requires i < |items| == |fires| && Valid() && MadeOf(items, fires, i)
      modifies this`len, this`batches, this`sent, buf
      ensures Valid() && MadeOf(items, fires, i + 1)
    {
      assert fires[..i + 1][..i] == fires[..i];
      if fires[i] {
        Fire(items[..i], Fired(fires[..i]));
      }
      Item(items[i], items[..i], Fired(fires[..i + 1]));
      assert items[..i + 1] == items[..i] + [items[i]];
    }

    /** The goroutine's loop until the input closes.  What was sent is batches of the input, all of it, and they are
        full but for one a firing and the last. */
    method Loop(items: seq<Val>, fires: seq<bool>)
      requires Valid() && len == 0 && sent == [] && |fires| == |items|
      modifies this`len, this`batches, this`sent, buf
      ensures Valid() && len == 0
      ensures Batches(sent, size) && Flat(sent) == items
      ensures FullButLast(sent, size, Fired(fires))
    {
      var i := 0;
      while i < |items|
        invariant 0 <= i <= |items| && Valid() && MadeOf(items, fires, i)
      {
        Turn(items, fires, i);
        i := i + 1;
      }
      assert items[..i] == items && fires[..i] == fires;
      End(items, Fired(fires));
    }
  }
}

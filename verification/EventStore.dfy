/** pkg/eventstore/eventstore.go over a Postgres events table with PRIMARY KEY (stream_id, version).

    Any number of transactions are open at once; each runs Append calls one after the other (several,
    when the caller's own transaction is re-used), and each Append reads MAX(version) without a lock
    and inserts its rows one statement at a time.  A statement sees committed rows and the
    transaction's own.  An INSERT waits while another open transaction has inserted the same key, and
    fails when the key is committed.  A step that is not enabled leaves the state as it is, so every
    sequence of steps is a run. */
module EventStore {
  import opened Common

  type Stream = string

  datatype EventData = EventData(kind: string, data: string, metadata: string)

  datatype Key = Key(stream: Stream, version: int)

  type Table = map<Key, EventData>

  const EXPECTED_NEW := -1
  const EXPECTED_ANY := -2

  /** The switch in Append. */
  predicate VersionOk(expected: int, current: int) {
    if expected == EXPECTED_NEW then current < 0
    else if expected == EXPECTED_ANY then true
    else current == expected
  }

  ghost function Versions(table: Table, stream: Stream): set<int> {
    set k | k in table && k.stream == stream :: k.version
  }

  /** The largest version of the stream, -1 without one. */
  ghost function CurrentVersion(table: Table, stream: Stream): int {
    MaxOf(Versions(table, stream))
  }

  // ------------------------------------------------------------------ the protocol

  /** An Append call in progress; `current` is the version it read, `done` the rows inserted so far. */
  datatype Call =
    | NoCall
    | Reading(stream: Stream, events: seq<EventData>, expected: int)
    | Inserting(stream: Stream, events: seq<EventData>, expected: int, current: int, done: nat)

  /** The rows one Append wrote, as events `first`, `first` + 1, ... of the stream: of the list `asked` that it was
      given it has inserted `events`, and `ok` says that it returned nil.  `strict` is that of its transaction. */
  datatype Block = Block(
    stream: Stream,
    first: int,
    events: seq<EventData>,
    expected: int,
    asked: seq<EventData>,
    ok: bool,
    strict: bool)

  /** An Append that returned nil. */
  datatype Request = Request(stream: Stream, events: seq<EventData>, expected: int)

  /** `aborted` once a statement has failed in the transaction, `failed` once an Append has returned an error in
      it, `acked` the Appends that returned nil.  A strict transaction is rolled back when an Append in it fails:
      the one that Append opens itself, and a caller's whose body returns the error. */
  datatype Tx = Tx(
    strict: bool,
    pending: Table,
    call: Call,
    blocks: seq<Block>,
    aborted: bool,
    failed: bool,
    acked: seq<Request>)

  /** `history` and `acked` are those of the committed transactions, in commit order. */
  datatype State = State(rows: Table, open: map<nat, Tx>, history: seq<Block>, acked: seq<Request>)

  const Init := State(map[], map[], [], [])

  datatype Step =
    | Begin(tx: nat, strict: bool)
    | CallAppend(tx: nat, stream: Stream, events: seq<EventData>, expected: int)
    | Read(tx: nat)
    | Insert(tx: nat)
    | Return(tx: nat)         // Append returns nil
    | MarshalError(tx: nat)   // Append returns an error between two inserts
    | StatementError(tx: nat) // the database refuses a statement
    | Commit(tx: nat)
    | Rollback(tx: nat)

  ghost function NextKey(c: Call): Key
    requires c.Inserting?
  {
    Key(c.stream, c.current + 1 + c.done)
  }

  /** Another open transaction has inserted the key. */
  ghost predicate HeldByOther(s: State, tx: nat, k: Key) {
    exists u :: u in s.open && u != tx && k in s.open[u].pending
  }

  /** What the Append being carried out has written. */
  ghost function Current(t: Tx): Block
    requires t.call.Inserting? && t.call.done <= |t.call.events|
  {
    var c := t.call;
    Block(c.stream, c.current + 1, c.events[..c.done], c.expected, c.events, false, t.strict)
  }

  /** All blocks of the transaction, the one being written included. */
  ghost function Blocks(t: Tx): seq<Block> {
    if t.call.Inserting? && t.call.done > 0 && t.call.done <= |t.call.events| then t.blocks + [Current(t)] else t.blocks
  }

  ghost predicate Enabled(s: State, step: Step) {
    match step
    case Begin(tx, _) => tx !in s.open
    case CallAppend(tx, _, events, _) => tx in s.open && s.open[tx].call.NoCall? && !s.open[tx].aborted && events != []
    case Read(tx) => tx in s.open && s.open[tx].call.Reading?
    case Insert(tx) =>
      && tx in s.open && s.open[tx].call.Inserting? && s.open[tx].call.done < |s.open[tx].call.events|
      && !HeldByOther(s, tx, NextKey(s.open[tx].call))
    case Return(tx) => tx in s.open && s.open[tx].call.Inserting? && s.open[tx].call.done == |s.open[tx].call.events|
    case MarshalError(tx) => tx in s.open && s.open[tx].call.Inserting? && s.open[tx].call.done < |s.open[tx].call.events|
    case StatementError(tx) => tx in s.open && !(s.open[tx].call.Inserting? && s.open[tx].call.done == |s.open[tx].call.events|)
    case Commit(tx) =>
      && tx in s.open && s.open[tx].call.NoCall? && !s.open[tx].aborted
      && (s.open[tx].strict ==> !s.open[tx].failed)
    case Rollback(tx) => tx in s.open
  }

  ghost function AfterRead(s: State, t: Tx): Tx
    requires t.call.Reading?
  {
    var c := t.call;
    var current := CurrentVersion(s.rows + t.pending, c.stream);
    if VersionOk(c.expected, current)
    then t.(call := Inserting(c.stream, c.events, c.expected, current, 0))
    else t.(call := NoCall, failed := true)  // ErrVersionConflict
  }

  ghost function AfterInsert(s: State, t: Tx): Tx
    requires t.call.Inserting? && t.call.done < |t.call.events|
  {
    var k := NextKey(t.call);
    if k in s.rows || k in t.pending
    then Ended(t).(aborted := true)  // unique violation
    else Inserted(t)
  }

  /** Append returns an error. */
  ghost function Ended(t: Tx): Tx {
    t.(call := NoCall, blocks := Blocks(t), failed := true)
  }

  /** Append returns nil. */
  ghost function Returned(t: Tx): Tx
    requires t.call.Inserting? && t.call.done <= |t.call.events|
  {
    var c := t.call;
    t.(call := NoCall, blocks := t.blocks + [Current(t).(ok := true)],
       acked := t.acked + [Request(c.stream, c.events, c.expected)])
  }

  ghost function AfterTx(s: State, step: Step): Tx
    requires Enabled(s, step) && !step.Commit? && !step.Rollback?
  {
    match step
    case Begin(_, strict) => Tx(strict, map[], NoCall, [], false, false, [])
    case CallAppend(tx, stream, events, expected) => s.open[tx].(call := Reading(stream, events, expected))
    case Read(tx) => AfterRead(s, s.open[tx])
    case Insert(tx) => AfterInsert(s, s.open[tx])
    case Return(tx) => Returned(s.open[tx])
    case MarshalError(tx) => Ended(s.open[tx])
    case StatementError(tx) => Ended(s.open[tx]).(aborted := true)
  }

  ghost function Next(s: State, step: Step): State {
    if !Enabled(s, step) then s
    else match step
      case Commit(tx) =>
        State(s.rows + s.open[tx].pending, s.open - {tx}, s.history + s.open[tx].blocks, s.acked + s.open[tx].acked)
      case Rollback(tx) => s.(open := s.open - {tx})
      case _ => s.(open := s.open[step.tx := AfterTx(s, step)])
  }

  ghost function Run(s: State, steps: seq<Step>): State {
    if steps == [] then s else Next(Run(s, steps[..|steps| - 1]), steps[|steps| - 1])
  }

  // ------------------------------------------------------------------ the log that it should be

  /** Streams as lists of events. */
  type Log = map<Stream, seq<EventData>>

  ghost function Events(log: Log, stream: Stream): seq<EventData> {
    if stream in log then log[stream] else []
  }

  /** The block goes at the end of its stream, whose version satisfies the block's expectation. */
  ghost predicate Fits(log: Log, b: Block) {
    && b.events != []
    && b.first == |Events(log, b.stream)|
    && VersionOk(b.expected, |Events(log, b.stream)| - 1)
  }

  /** One atomic Append. */
  ghost function Appended(log: Log, b: Block): Log {
    log[b.stream := Events(log, b.stream) + b.events]
  }

  /** Blocks appended one at a time, each atomically; None if one does not fit when its turn comes. */
  ghost function Serial(log: Log, blocks: seq<Block>): Option<Log>
    decreases |blocks|
  {
    if blocks == [] then Some(log)
    else if Fits(log, blocks[0]) then Serial(Appended(log, blocks[0]), blocks[1..])
    else None
  }

  /** The table holds the log: each stream's versions are exactly 0..n-1, with its events. */
  ghost predicate Represents(table: Table, log: Log) {
    && (forall k: Key :: k in table <==> 0 <= k.version < |Events(log, k.stream)|)
    && (forall k: Key :: k in table ==> table[k] == Events(log, k.stream)[k.version])
  }

  // ------------------------------------------------------------------ facts about serial appends

  ghost predicate Writes(blocks: seq<Block>, stream: Stream) {
    exists i :: 0 <= i < |blocks| && blocks[i].stream == stream
  }

  lemma {:induction false} SerialAppend(log: Log, a: seq<Block>, b: seq<Block>)
    ensures Serial(log, a).Some? ==> Serial(log, a + b) == Serial(Serial(log, a).value, b)
    ensures Serial(log, a).None? ==> Serial(log, a + b).None?
    decreases |a|
  {
    if a == [] {
      assert a + b == b;
    } else {
      assert (a + b)[1..] == a[1..] + b;
      SerialAppend(Appended(log, a[0]), a[1..], b);
    }
  }

  /** Serial appends extend the streams they write and leave the others alone. */
  lemma {:induction false} SerialExtends(log: Log, blocks: seq<Block>, stream: Stream)
    requires Serial(log, blocks).Some?
    ensures Events(log, stream) <= Events(Serial(log, blocks).value, stream)
    ensures Writes(blocks, stream) <==> |Events(log, stream)| < |Events(Serial(log, blocks).value, stream)|
    decreases |blocks|
  {
    if blocks != [] {
      var log', rest := Appended(log, blocks[0]), blocks[1..];
      SerialExtends(log', rest, stream);
      if blocks[0].stream == stream {
        assert Writes(blocks, stream);
      } else {
        if Writes(rest, stream) {
          var i :| 0 <= i < |rest| && rest[i].stream == stream;
          assert blocks[i + 1].stream == stream;
        }
        if Writes(blocks, stream) {
          var i :| 0 <= i < |blocks| && blocks[i].stream == stream;
          assert rest[i - 1].stream == stream;
        }
      }
    }
  }

  /** Whether blocks fit, and what they make of a stream, depends only on the streams they write. */
  lemma {:induction false} SerialFrame(log: Log, log': Log, blocks: seq<Block>)
    requires Serial(log, blocks).Some?
    requires forall stream :: Writes(blocks, stream) ==> Events(log, stream) == Events(log', stream)
    ensures Serial(log', blocks).Some?
    ensures forall stream :: Writes(blocks, stream) ==>
              Events(Serial(log, blocks).value, stream) == Events(Serial(log', blocks).value, stream)
    decreases |blocks|
  {
    if blocks != [] {
      var b, rest := blocks[0], blocks[1..];
      assert Writes(blocks, b.stream);
      forall stream | Writes(rest, stream) ensures Writes(blocks, stream) {
        var i :| 0 <= i < |rest| && rest[i].stream == stream;
        assert blocks[i + 1].stream == stream;
      }
      SerialFrame(Appended(log, b), Appended(log', b), rest);
      forall stream | Writes(blocks, stream) && stream != b.stream ensures Writes(rest, stream) {
        var i :| 0 <= i < |blocks| && blocks[i].stream == stream;
        assert rest[i - 1].stream == stream;
      }
      SerialExtendsUnwritten(Appended(log, b), rest, b.stream);
      SerialExtendsUnwritten(Appended(log', b), rest, b.stream);
    }
  }

  lemma SerialExtendsUnwritten(log: Log, blocks: seq<Block>, stream: Stream)
    requires Serial(log, blocks).Some?
    ensures !Writes(blocks, stream) ==> Events(Serial(log, blocks).value, stream) == Events(log, stream)
  {
    SerialExtends(log, blocks, stream);
  }

  /** On a table that holds a log, MAX(version) is the log's last index. */
  lemma CurrentVersionIsLast(table: Table, log: Log, stream: Stream)
    requires Represents(table, log)
    ensures CurrentVersion(table, stream) == |Events(log, stream)| - 1
  {
    var n := |Events(log, stream)|;
    if n > 0 {
      assert Key(stream, n - 1) in table;
      assert n - 1 in Versions(table, stream);
    }
    var m := MaxOf(Versions(table, stream));
    if exists v :: v in Versions(table, stream) {
      var k :| k in table && k.stream == stream && k.version == m;
    }
  }

  // ------------------------------------------------------------------ the invariant

  ghost function CommittedLog(s: State): Option<Log> {
    Serial(map[], s.history)
  }

  /** What the transaction's blocks make of a log. */
  ghost predicate TxOk(rows: Table, log: Log, t: Tx) {
    && (forall k :: k in t.pending ==> k !in rows)
    && (t.call.NoCall? || t.call.events != [])
    && Serial(log, Blocks(t)).Some?
    && Represents(rows + t.pending, Serial(log, Blocks(t)).value)
    && (t.call.Inserting? ==>
          && t.call.done <= |t.call.events|
          && VersionOk(t.call.expected, t.call.current)
          && t.call.current >= -1
          && t.call.current + 1 + t.call.done <= |Events(Serial(log, Blocks(t)).value, t.call.stream)|)
  }

  ghost predicate Disjoint(s: State) {
    forall t, u, k :: t in s.open && u in s.open && k in s.open[t].pending && k in s.open[u].pending ==> t == u
  }

  ghost predicate Inv(s: State) {
    && CommittedLog(s).Some?
    && Represents(s.rows, CommittedLog(s).value)
    && (forall t :: t in s.open ==> TxOk(s.rows, CommittedLog(s).value, s.open[t]))
    && Disjoint(s)
  }

  /** A transaction has inserted into a stream exactly when one of its blocks writes it, and then it
      holds the stream's next key. */
  lemma PendingMeansWrites(rows: Table, log: Log, t: Tx, stream: Stream)
    requires Represents(rows, log) && TxOk(rows, log, t)
    ensures Writes(Blocks(t), stream) ==> Key(stream, |Events(log, stream)|) in t.pending
    ensures forall k :: k in t.pending && k.stream == stream ==> Writes(Blocks(t), stream)
  {
    SerialExtends(log, Blocks(t), stream);
    var k := Key(stream, |Events(log, stream)|);
    assert k !in rows;
    if Writes(Blocks(t), stream) { assert k in rows + t.pending; }
    forall k | k in t.pending && k.stream == stream ensures Writes(Blocks(t), stream) {
      assert k in rows + t.pending;
    }
  }

  /** Two open transactions never write the same stream. */
  lemma OneWriter(s: State, t: nat, u: nat, stream: Stream)
    requires Inv(s) && t in s.open && u in s.open
    requires Writes(Blocks(s.open[t]), stream) && Writes(Blocks(s.open[u]), stream)
    ensures t == u
  {
    PendingMeansWrites(s.rows, CommittedLog(s).value, s.open[t], stream);
    PendingMeansWrites(s.rows, CommittedLog(s).value, s.open[u], stream);
  }

  // ------------------------------------------------------------------ every step keeps the invariant

  lemma ReadKeeps(s: State, t: Tx, log: Log)
    requires TxOk(s.rows, log, t) && t.call.Reading?
    ensures TxOk(s.rows, log, AfterRead(s, t))
  {
    CurrentVersionIsLast(s.rows + t.pending, Serial(log, t.blocks).value, t.call.stream);
    assert Blocks(AfterRead(s, t)) == t.blocks == Blocks(t);
  }

  /** The version read is still the stream's version when the insert finds its key free. */
  lemma InsertFits(s: State, t: Tx, log: Log)
    requires TxOk(s.rows, log, t) && t.call.Inserting? && t.call.done < |t.call.events|
    requires NextKey(t.call) !in s.rows && NextKey(t.call) !in t.pending
    ensures Serial(log, t.blocks).Some?
    ensures |Events(Serial(log, t.blocks).value, t.call.stream)| == t.call.current + 1
    ensures |Events(Serial(log, Blocks(t)).value, t.call.stream)| == t.call.current + 1 + t.call.done
    ensures t.call.done > 0 ==> Serial(log, Blocks(t)).value == Appended(Serial(log, t.blocks).value, Blocks(t)[|t.blocks|])
  {
    var c := t.call;
    assert NextKey(c) !in s.rows + t.pending;
    if c.done > 0 {
      SerialAppend(log, t.blocks, [Blocks(t)[|t.blocks|]]);
    }
  }

  lemma RepresentsOneMore(table: Table, was: Log, now: Log, k: Key, e: EventData)
    requires Represents(table, was) && k.version == |Events(was, k.stream)|
    requires Events(now, k.stream) == Events(was, k.stream) + [e]
    requires forall stream :: stream != k.stream ==> Events(now, stream) == Events(was, stream)
    ensures Represents(table[k := e], now)
  {
  }

  ghost function Inserted(t: Tx): Tx
    requires t.call.Inserting? && t.call.done < |t.call.events|
  {
    t.(pending := t.pending[NextKey(t.call) := t.call.events[t.call.done]], call := t.call.(done := t.call.done + 1))
  }

  /** A free key extends the block being written by one event. */
  lemma InsertExtends(t: Tx, log: Log)
    requires t.call.Inserting? && t.call.done < |t.call.events|
    requires Serial(log, t.blocks).Some? && Serial(log, Blocks(t)).Some?
    requires |Events(Serial(log, t.blocks).value, t.call.stream)| == t.call.current + 1
    requires VersionOk(t.call.expected, t.call.current)
    requires t.call.done > 0 ==> Serial(log, Blocks(t)).value == Appended(Serial(log, t.blocks).value, Blocks(t)[|t.blocks|])
    ensures var was, blocks' := Serial(log, Blocks(t)).value, Blocks(Inserted(t));
            && Serial(log, blocks').Some?
            && Events(Serial(log, blocks').value, t.call.stream) == Events(was, t.call.stream) + [t.call.events[t.call.done]]
            && forall other :: other != t.call.stream ==> Events(Serial(log, blocks').value, other) == Events(was, other)
  {
    var c := t.call;
    SerialOneMore(log, t.blocks, Current(Inserted(t)));
    BlockGrows(Serial(log, t.blocks).value, t);
  }

  lemma BlockGrows(log: Log, t: Tx)
    requires t.call.Inserting? && t.call.done < |t.call.events|
    ensures var c := t.call;
            var now := Appended(log, Current(Inserted(t)));
            var was := if c.done == 0 then log else Appended(log, Current(t));
            && Events(now, c.stream) == Events(was, c.stream) + [c.events[c.done]]
            && forall other :: other != c.stream ==> Events(now, other) == Events(was, other)
  {
    var c := t.call;
    assert c.events[..c.done + 1] == c.events[..c.done] + [c.events[c.done]];
  }

  lemma SerialOneMore(log: Log, blocks: seq<Block>, b: Block)
    requires Serial(log, blocks).Some? && Fits(Serial(log, blocks).value, b)
    ensures Serial(log, blocks + [b]) == Some(Appended(Serial(log, blocks).value, b))
  {
    SerialAppend(log, blocks, [b]);
    assert [b][1..] == [];
  }

  lemma InsertRepresents(s: State, t: Tx, log: Log)
    requires TxOk(s.rows, log, t) && t.call.Inserting? && t.call.done < |t.call.events|
    requires NextKey(t.call) !in s.rows && NextKey(t.call) !in t.pending
    ensures Serial(log, Blocks(AfterInsert(s, t))).Some?
    ensures Represents(s.rows + AfterInsert(s, t).pending, Serial(log, Blocks(AfterInsert(s, t))).value)
  {
    var k, e := NextKey(t.call), t.call.events[t.call.done];
    InsertFits(s, t, log);
    InsertExtends(t, log);
    RepresentsOneMore(s.rows + t.pending, Serial(log, Blocks(t)).value, Serial(log, Blocks(AfterInsert(s, t))).value, k, e);
    MergeUpdate(s.rows, t.pending, k, e);
  }

  lemma MergeUpdate(a: Table, b: Table, k: Key, e: EventData)
    ensures a + b[k := e] == (a + b)[k := e]
  {
  }

  lemma InsertFreeKeeps(s: State, t: Tx, log: Log)
    requires TxOk(s.rows, log, t) && t.call.Inserting? && t.call.done < |t.call.events|
    requires NextKey(t.call) !in s.rows && NextKey(t.call) !in t.pending
    ensures TxOk(s.rows, log, AfterInsert(s, t))
  {
    InsertFits(s, t, log);
    InsertExtends(t, log);
    InsertRepresents(s, t, log);
  }

  lemma InsertKeeps(s: State, t: Tx, log: Log)
    requires TxOk(s.rows, log, t) && t.call.Inserting? && t.call.done < |t.call.events|
    ensures TxOk(s.rows, log, AfterInsert(s, t))
  {
    if NextKey(t.call) !in s.rows && NextKey(t.call) !in t.pending {
      InsertFreeKeeps(s, t, log);
    } else {
      assert Blocks(AfterInsert(s, t)) == Blocks(t);
    }
  }

  /** Ending a call leaves the rows and the blocks of the transaction as they are. */
  lemma EndCallKeeps(rows: Table, log: Log, t: Tx, t': Tx)
    requires TxOk(rows, log, t) && t'.call.NoCall? && t'.pending == t.pending && t'.blocks == Blocks(t)
    ensures TxOk(rows, log, t')
  {
    assert Blocks(t') == Blocks(t);
  }

  /** That an Append returned nil does not matter to the log. */
  lemma ReturnKeeps(rows: Table, log: Log, t: Tx)
    requires TxOk(rows, log, t) && t.call.Inserting? && t.call.done == |t.call.events| > 0
    ensures TxOk(rows, log, Returned(t))
  {
    var b := Current(t);
    SerialSplit(log, Blocks(t), |t.blocks|);
    assert Blocks(t)[..|t.blocks|] == t.blocks && Blocks(t)[|t.blocks| + 1..] == [];
    SerialOneMore(log, t.blocks, b.(ok := true));
    assert Appended(Serial(log, t.blocks).value, b.(ok := true)) == Appended(Serial(log, t.blocks).value, b);
  }

  lemma StepTxKeeps(s: State, step: Step)
    requires Inv(s) && Enabled(s, step) && !step.Commit? && !step.Rollback?
    ensures TxOk(s.rows, CommittedLog(s).value, AfterTx(s, step))
  {
    var log := CommittedLog(s).value;
    match step
    case Begin(_, _) => assert s.rows + map[] == s.rows;
    case CallAppend(tx, _, _, _) => assert TxOk(s.rows, log, s.open[tx]);
    case Read(tx) => ReadKeeps(s, s.open[tx], log);
    case Insert(tx) => InsertKeeps(s, s.open[tx], log);
    case Return(tx) => ReturnKeeps(s.rows, log, s.open[tx]);
    case MarshalError(tx) => EndCallKeeps(s.rows, log, s.open[tx], AfterTx(s, step));
    case StatementError(tx) => EndCallKeeps(s.rows, log, s.open[tx], AfterTx(s, step));
  }

  /** Only an insert adds a pending row, and one that no other open transaction has. */
  lemma StepKeepsDisjoint(s: State, step: Step)
    requires Disjoint(s) && Enabled(s, step) && !step.Commit? && !step.Rollback?
    ensures Disjoint(Next(s, step))
  {
    var s' := Next(s, step);
    var was := if step.tx in s.open then s.open[step.tx].pending else map[];
    var now := s'.open[step.tx].pending;
    forall t, k | t in s.open && t != step.tx && k in now ensures k !in s.open[t].pending {
      if k !in was { assert !HeldByOther(s, step.tx, k); }
    }
  }

  lemma LocalStepKeeps(s: State, step: Step)
    requires Inv(s) && Enabled(s, step) && !step.Commit? && !step.Rollback?
    ensures Inv(Next(s, step))
  {
    StepTxKeeps(s, step);
    StepKeepsDisjoint(s, step);
    assert Next(s, step) == s.(open := s.open[step.tx := AfterTx(s, step)]);
  }

  /** A transaction stays consistent with the log when another one, writing other streams, commits. */
  lemma CommitKeepsOther(s: State, tx: nat, t: nat)
    requires Inv(s) && Enabled(s, Commit(tx)) && t in s.open && t != tx
    ensures CommittedLog(Next(s, Commit(tx))).Some?
    ensures TxOk(s.rows + s.open[tx].pending, CommittedLog(Next(s, Commit(tx))).value, s.open[t])
  {
    var log, u, v := CommittedLog(s).value, s.open[tx], s.open[t];
    SerialAppend(map[], s.history, u.blocks);
    var log' := Serial(log, u.blocks).value;
    var rows' := s.rows + u.pending;
    forall stream | Writes(Blocks(v), stream) ensures Events(log, stream) == Events(log', stream) {
      if Writes(u.blocks, stream) { OneWriter(s, tx, t, stream); }
      SerialExtendsUnwritten(log, u.blocks, stream);
    }
    SerialFrame(log, log', Blocks(v));
    var mine, mine' := Serial(log, Blocks(v)).value, Serial(log', Blocks(v)).value;
    forall k: Key
      ensures k in rows' + v.pending <==> 0 <= k.version < |Events(mine', k.stream)|
      ensures k in rows' + v.pending ==> (rows' + v.pending)[k] == Events(mine', k.stream)[k.version]
    {
      PendingMeansWrites(s.rows, log, v, k.stream);
      PendingMeansWrites(s.rows, log, u, k.stream);
      SerialExtendsUnwritten(log', Blocks(v), k.stream);
      if Writes(Blocks(v), k.stream) {
        assert k !in u.pending;
        assert k in rows' + v.pending <==> k in s.rows + v.pending;
      } else {
        assert k !in v.pending;
      }
    }
    if v.call.Inserting? {
      SerialExtends(log, u.blocks, v.call.stream);
      SerialExtendsUnwritten(log, Blocks(v), v.call.stream);
      SerialExtends(log', Blocks(v), v.call.stream);
    }
  }

  lemma CommitKeeps(s: State, tx: nat)
    requires Inv(s) && Enabled(s, Commit(tx))
    ensures Inv(Next(s, Commit(tx)))
  {
    SerialAppend(map[], s.history, s.open[tx].blocks);
    forall t | t in s.open && t != tx
      ensures TxOk(s.rows + s.open[tx].pending, CommittedLog(Next(s, Commit(tx))).value, s.open[t])
    {
      CommitKeepsOther(s, tx, t);
    }
  }

  lemma StepKeeps(s: State, step: Step)
    requires Inv(s)
    ensures Inv(Next(s, step))
  {
    if Enabled(s, step) {
      if step.Commit? {
        CommitKeeps(s, step.tx);
      } else if !step.Rollback? {
        LocalStepKeeps(s, step);
      }
    }
  }

  lemma {:induction false} RunKeeps(s: State, steps: seq<Step>)
    requires Inv(s)
    ensures Inv(Run(s, steps))
    decreases |steps|
  {
    if steps != [] {
      RunKeeps(s, steps[..|steps| - 1]);
      StepKeeps(Run(s, steps[..|steps| - 1]), steps[|steps| - 1]);
    }
  }

  // ------------------------------------------------------------------ what holds in every run

  lemma Reachable(steps: seq<Step>)
    ensures Inv(Run(Init, steps))
  {
    assert Represents(map[], map[]);
    assert Serial(map[], []) == Some(map[]);
    RunKeeps(Init, steps);
  }

  /** In every interleaving, the committed table is what one gets by appending the blocks of the committed
      transactions one at a time, in commit order, with every version check passing; in particular the versions
      of each stream are exactly 0..n-1.  CommittedAppend says how much of its Append each block is. */
  lemma Serializable(steps: seq<Step>)
    ensures CommittedLog(Run(Init, steps)).Some?
    ensures Represents(Run(Init, steps).rows, CommittedLog(Run(Init, steps)).value)
  {
    Reachable(steps);
  }

  // ------------------------------------------------------------------ all of an Append, or a part of it

  /** Part of the list the Append was given, and all of it if and only if Append returned nil. */
  ghost predicate WellMade(b: Block) {
    b.events != [] && b.events <= b.asked && (b.ok <==> b.events == b.asked)
  }

  /** The Appends among the blocks that returned nil. */
  ghost function Acked(blocks: seq<Block>): seq<Request> {
    if blocks == [] then []
    else
      var b := blocks[|blocks| - 1];
      Acked(blocks[..|blocks| - 1]) + (if b.ok then [Request(b.stream, b.asked, b.expected)] else [])
  }

  lemma {:induction false} AckedAppend(a: seq<Block>, b: seq<Block>)
    ensures Acked(a + b) == Acked(a) + Acked(b)
    decreases |b|
  {
    if b == [] {
      assert a + b == a;
    } else {
      assert (a + b)[..|a + b| - 1] == a + b[..|b| - 1];
      AckedAppend(a, b[..|b| - 1]);
    }
  }

  ghost predicate TxWhole(t: Tx) {
    && (forall i :: 0 <= i < |t.blocks| ==>
          WellMade(t.blocks[i]) && t.blocks[i].strict == t.strict && (!t.blocks[i].ok ==> t.failed))
    && Acked(t.blocks) == t.acked
    && (t.call.NoCall? || t.call.events != [])
    && (t.call.Inserting? ==> t.call.done <= |t.call.events|)
  }

  ghost predicate Whole(s: State) {
    && (forall j :: 0 <= j < |s.history| ==> WellMade(s.history[j]) && (s.history[j].strict ==> s.history[j].ok))
    && Acked(s.history) == s.acked
    && (forall t :: t in s.open ==> TxWhole(s.open[t]))
  }

  lemma EndedWhole(t: Tx)
    requires TxWhole(t) && !(t.call.Inserting? && t.call.done == |t.call.events|)
    ensures TxWhole(Ended(t))
  {
    if Blocks(t) != t.blocks {
      AckedAppend(t.blocks, [Current(t)]);
      assert [Current(t)][..0] == [];
    }
  }

  lemma ReturnedWhole(t: Tx)
    requires TxWhole(t) && t.call.Inserting? && t.call.done == |t.call.events|
    ensures TxWhole(Returned(t))
  {
    var b := Current(t).(ok := true);
    AckedAppend(t.blocks, [b]);
    assert [b][..0] == [];
  }

  lemma InsertWhole(s: State, t: Tx)
    requires TxWhole(t) && t.call.Inserting? && t.call.done < |t.call.events|
    ensures TxWhole(AfterInsert(s, t))
  {
    EndedWhole(t);
  }

  lemma TxStepWhole(s: State, step: Step)
    requires Whole(s) && Enabled(s, step) && !step.Commit? && !step.Rollback?
    ensures TxWhole(AfterTx(s, step))
  {
    if !step.Begin? {
      assert TxWhole(s.open[step.tx]);
    }
    match step
    case Insert(tx) => InsertWhole(s, s.open[tx]);
    case MarshalError(tx) => EndedWhole(s.open[tx]);
    case StatementError(tx) => EndedWhole(s.open[tx]);
    case Return(tx) => ReturnedWhole(s.open[tx]);
    case _ =>
  }

  lemma CommitWhole(s: State, tx: nat)
    requires Whole(s) && Enabled(s, Commit(tx))
    ensures Whole(Next(s, Commit(tx)))
  {
    assert TxWhole(s.open[tx]);
    AckedAppend(s.history, s.open[tx].blocks);
  }

  lemma StepKeepsWhole(s: State, step: Step)
    requires Whole(s)
    ensures Whole(Next(s, step))
  {
    if Enabled(s, step) {
      if step.Commit? {
        CommitWhole(s, step.tx);
      } else if !step.Rollback? {
        TxStepWhole(s, step);
        assert Next(s, step) == s.(open := s.open[step.tx := AfterTx(s, step)]);
      }
    }
  }

  lemma {:induction false} RunKeepsWhole(steps: seq<Step>)
    ensures Whole(Run(Init, steps))
    decreases |steps|
  {
    if steps != [] {
      RunKeepsWhole(steps[..|steps| - 1]);
      StepKeepsWhole(Run(Init, steps[..|steps| - 1]), steps[|steps| - 1]);
    }
  }

  /** Every committed block is a nonempty prefix of the list its Append was given, and the whole list if and only if
      that Append returned nil; in a transaction that is rolled back when an Append fails it is always the whole
      list. */
  lemma CommittedAppend(steps: seq<Step>, j: nat)
    requires j < |Run(Init, steps).history|
    ensures var b := Run(Init, steps).history[j];
            && b.events != [] && b.events <= b.asked
            && (b.events == b.asked <==> b.ok)
            && (b.strict ==> b.events == b.asked)
  {
    RunKeepsWhole(steps);
  }

  /** The Appends that returned nil in committed transactions are, in order, exactly the blocks that hold their
      whole list: none is lost and none is partial. */
  lemma AcknowledgedIsCommitted(steps: seq<Step>)
    ensures Acked(Run(Init, steps).history) == Run(Init, steps).acked
    ensures forall j :: 0 <= j < |Run(Init, steps).history| && Run(Init, steps).history[j].ok ==>
              Run(Init, steps).history[j].events == Run(Init, steps).history[j].asked
  {
    RunKeepsWhole(steps);
  }

  /** An Append that fails between two inserts, in a transaction whose body goes on and commits, leaves the part
      that it had written. */
  lemma SwallowedErrorSplitsAppend(stream: Stream, events: seq<EventData>)
    requires |events| >= 2
    ensures var steps := [Begin(0, false), CallAppend(0, stream, events, EXPECTED_ANY), Read(0), Insert(0), MarshalError(0), Commit(0)];
            var s := Run(Init, steps);
            && s.rows == map[Key(stream, 0) := events[0]]
            && s.history == [Block(stream, 0, events[..1], EXPECTED_ANY, events, false, false)]
            && s.acked == []
  {
    var begin, call := Begin(0, false), CallAppend(0, stream, events, EXPECTED_ANY);
    RunSix(Init, begin, call, Read(0), Insert(0), MarshalError(0), Commit(0));
    FirstRead(stream, events);
    OneRowOfMany(stream, events);
  }

  lemma FirstRead(stream: Stream, events: seq<EventData>)
    requires |events| >= 2
    ensures Next(Next(Next(Init, Begin(0, false)), CallAppend(0, stream, events, EXPECTED_ANY)), Read(0)) == HasRead(stream, events)
  {
    CurrentVersionIsLast(map[] + map[], map[], stream);
  }

  ghost function HasRead(stream: Stream, events: seq<EventData>): State {
    State(map[], map[0 := Tx(false, map[], Inserting(stream, events, EXPECTED_ANY, -1, 0), [], false, false, [])], [], [])
  }

  lemma OneRowOfMany(stream: Stream, events: seq<EventData>)
    requires |events| >= 2
    ensures var s := Next(Next(Next(HasRead(stream, events), Insert(0)), MarshalError(0)), Commit(0));
            && s.rows == map[Key(stream, 0) := events[0]]
            && s.history == [Block(stream, 0, events[..1], EXPECTED_ANY, events, false, false)]
            && s.acked == []
  {
    var s := Next(HasRead(stream, events), Insert(0));
    assert s.open[0].pending == map[Key(stream, 0) := events[0]];
    var s' := Next(s, MarshalError(0));
    assert s'.open[0].blocks == [Block(stream, 0, events[..1], EXPECTED_ANY, events, false, false)];
    assert map[] + s'.open[0].pending == s'.open[0].pending;
  }

  lemma RunSix(s: State, a: Step, b: Step, c: Step, d: Step, e: Step, f: Step)
    ensures Run(s, [a, b, c, d, e, f]) == Next(Next(Next(Next(Next(Next(s, a), b), c), d), e), f)
  {
    assert [a, b, c, d, e, f][..5] == [a, b, c, d, e];
    assert [a, b, c, d, e][..4] == [a, b, c, d];
    assert [a, b, c, d][..3] == [a, b, c];
    assert [a, b, c][..2] == [a, b];
    assert [a, b][..1] == [a];
    assert [a][..0] == [];
    assert Run(s, [a]) == Next(s, a);
    assert Run(s, [a, b]) == Next(Run(s, [a]), b);
    assert Run(s, [a, b, c]) == Next(Run(s, [a, b]), c);
    assert Run(s, [a, b, c, d]) == Next(Run(s, [a, b, c]), d);
    assert Run(s, [a, b, c, d, e]) == Next(Run(s, [a, b, c, d]), e);
  }

  // ------------------------------------------------------------------ blocks in the table

  /** The log holds the block's events at the block's versions. */
  ghost predicate Contains(events: seq<EventData>, b: Block) {
    0 <= b.first && b.first + |b.events| <= |events| && events[b.first..b.first + |b.events|] == b.events
  }

  /** The table holds the block's events under the block's versions. */
  ghost predicate Holds(table: Table, b: Block) {
    forall i :: 0 <= i < |b.events| ==>
      Key(b.stream, b.first + i) in table && table[Key(b.stream, b.first + i)] == b.events[i]
  }

  lemma ContainsHolds(table: Table, log: Log, b: Block)
    requires Represents(table, log) && Contains(Events(log, b.stream), b)
    ensures Holds(table, b)
  {
    var events := Events(log, b.stream);
    forall i | 0 <= i < |b.events|
      ensures Key(b.stream, b.first + i) in table && table[Key(b.stream, b.first + i)] == b.events[i]
    {
      assert events[b.first..b.first + |b.events|][i] == events[b.first + i];
    }
  }

  /** A serial log holds each of its blocks where the block says. */
  lemma BlockInLog(blocks: seq<Block>, j: nat)
    requires Serial(map[], blocks).Some? && j < |blocks|
    ensures Contains(Events(Serial(map[], blocks).value, blocks[j].stream), blocks[j])
  {
    var b := blocks[j];
    SerialSplit(map[], blocks, j);
    var before := Serial(map[], blocks[..j]).value;
    LaterContains(before, b, blocks[j + 1..]);
  }

  lemma LaterContains(before: Log, b: Block, after: seq<Block>)
    requires Fits(before, b) && Serial(Appended(before, b), after).Some?
    ensures Contains(Events(Serial(Appended(before, b), after).value, b.stream), b)
  {
    var log := Appended(before, b);
    SerialExtends(log, after, b.stream);
    AppendedContains(before, b);
    PrefixContains(Events(log, b.stream), Events(Serial(log, after).value, b.stream), b);
  }

  lemma AppendedContains(before: Log, b: Block)
    requires Fits(before, b)
    ensures Contains(Events(Appended(before, b), b.stream), b)
  {
  }

  lemma PrefixContains(some: seq<EventData>, all: seq<EventData>, b: Block)
    requires Contains(some, b) && some <= all
    ensures Contains(all, b)
  {
    assert all[b.first..b.first + |b.events|] == some[b.first..b.first + |b.events|];
  }

  /** Each committed block was the end of its stream when its turn came, its expectation held there,
      and its rows are in the table, unchanged, ever after. */
  lemma CommittedBlock(steps: seq<Step>, j: nat)
    requires j < |Run(Init, steps).history|
    ensures var s, b := Run(Init, steps), Run(Init, steps).history[j];
            && Serial(map[], s.history[..j]).Some?
            && Fits(Serial(map[], s.history[..j]).value, b)
            && Holds(s.rows, b)
  {
    Serializable(steps);
    var s := Run(Init, steps);
    SerialSplit(map[], s.history, j);
    BlockInLog(s.history, j);
    ContainsHolds(s.rows, CommittedLog(s).value, s.history[j]);
  }

  /** What a committed Append expected is what it found: at a version from 0 on it follows that version, a stream that
      should be new starts with it, and only an Append that expects no version, -2, may come anywhere. */
  lemma ExpectationMet(steps: seq<Step>, j: nat)
    requires j < |Run(Init, steps).history|
    ensures var b := Run(Init, steps).history[j];
            && b.expected >= -2
            && (b.expected >= 0 ==> b.first == b.expected + 1)
            && (b.expected == -1 ==> b.first == 0)
  {
    CommittedBlock(steps, j);
  }

  lemma SerialSplit(log: Log, blocks: seq<Block>, j: nat)
    requires Serial(log, blocks).Some? && j < |blocks|
    ensures Serial(log, blocks[..j]).Some? && Fits(Serial(log, blocks[..j]).value, blocks[j])
    ensures Serial(Appended(Serial(log, blocks[..j]).value, blocks[j]), blocks[j + 1..]) == Serial(log, blocks)
  {
    assert blocks == blocks[..j] + blocks[j..];
    SerialAppend(log, blocks[..j], blocks[j..]);
    assert blocks[j..][1..] == blocks[j + 1..];
  }

  lemma SerialOrder(blocks: seq<Block>, i: nat, j: nat)
    requires Serial(map[], blocks).Some? && i < j < |blocks| && blocks[i].stream == blocks[j].stream
    ensures 0 <= blocks[i].first && blocks[i].first + |blocks[i].events| <= blocks[j].first
    ensures |blocks[i].events| > 0
    ensures VersionOk(blocks[i].expected, blocks[i].first - 1) && VersionOk(blocks[j].expected, blocks[j].first - 1)
  {
    SerialSplit(map[], blocks, j);
    SerialSplit(map[], blocks[..j], i);
    assert blocks[..j][..i] == blocks[..i];
    var before := Serial(map[], blocks[..i]).value;
    SerialExtends(Appended(before, blocks[i]), blocks[..j][i + 1..], blocks[i].stream);
  }

  /** No lost update: of the Appends to a stream that expect the same version (or that it is new), at
      most one ever commits, although the version is read without a lock. */
  lemma NoLostUpdate(steps: seq<Step>, i: nat, j: nat)
    requires i < j < |Run(Init, steps).history|
    requires Run(Init, steps).history[i].stream == Run(Init, steps).history[j].stream
    ensures var a, b := Run(Init, steps).history[i], Run(Init, steps).history[j];
            a.first + |a.events| <= b.first && (a.expected == b.expected ==> a.expected < EXPECTED_NEW)
  {
    Serializable(steps);
    SerialOrder(Run(Init, steps).history, i, j);
  }

  /** The versions of a stream in the table are exactly n..m-1. */
  ghost predicate VersionsAre(table: Table, stream: Stream, n: int, m: int) {
    forall v :: Key(stream, v) in table <==> n <= v < m
  }

  /** What an open transaction has inserted into a stream is one run of versions starting at the
      stream's committed length. */
  lemma PendingIsBlockAtEnd(steps: seq<Step>, t: nat, stream: Stream)
    requires t in Run(Init, steps).open
    ensures CommittedLog(Run(Init, steps)).Some?
    ensures var s := Run(Init, steps);
            exists m :: VersionsAre(s.open[t].pending, stream, |Events(CommittedLog(s).value, stream)|, m)
  {
    Reachable(steps);
    var s := Run(Init, steps);
    var log, x := CommittedLog(s).value, s.open[t];
    var n, m := |Events(log, stream)|, |Events(Serial(log, Blocks(x)).value, stream)|;
    forall v ensures Key(stream, v) in x.pending <==> n <= v < m {
      assert Key(stream, v) in s.rows <==> 0 <= v < n;
      assert Key(stream, v) in s.rows + x.pending <==> 0 <= v < m;
    }
    assert VersionsAre(x.pending, stream, n, m);
  }

  /** Only one open transaction at a time can have rows in a stream: the primary key is the lock. */
  lemma KeyIsTheLock(steps: seq<Step>, t: nat, u: nat, k: Key, l: Key)
    requires t in Run(Init, steps).open && u in Run(Init, steps).open && k.stream == l.stream
    requires k in Run(Init, steps).open[t].pending && l in Run(Init, steps).open[u].pending
    ensures t == u
  {
    Reachable(steps);
    var s := Run(Init, steps);
    PendingMeansWrites(s.rows, CommittedLog(s).value, s.open[t], k.stream);
    PendingMeansWrites(s.rows, CommittedLog(s).value, s.open[u], k.stream);
    OneWriter(s, t, u, k.stream);
  }

  /** A rolled-back transaction leaves nothing behind: the rows are those before, and nobody waits for its keys any
      more. */
  lemma RollbackReleases(steps: seq<Step>, tx: nat, u: nat, k: Key)
    requires tx in Run(Init, steps).open && k in Run(Init, steps).open[tx].pending
    ensures var s, s' := Run(Init, steps), Next(Run(Init, steps), Rollback(tx));
            s'.rows == s.rows && s'.history == s.history && s'.acked == s.acked && !HeldByOther(s', u, k)
  {
    var s := Run(Init, steps);
    forall t | t in s.open && k in s.open[t].pending ensures t == tx {
      KeyIsTheLock(steps, t, tx, k, k);
    }
  }

  /** Once an Append's first row is in, its remaining inserts neither wait nor conflict. */
  lemma OnlyFirstInsertCompetes(steps: seq<Step>, tx: nat)
    requires tx in Run(Init, steps).open && Run(Init, steps).open[tx].call.Inserting?
    requires 0 < Run(Init, steps).open[tx].call.done < |Run(Init, steps).open[tx].call.events|
    ensures Enabled(Run(Init, steps), Insert(tx))
    ensures !AfterInsert(Run(Init, steps), Run(Init, steps).open[tx]).aborted || Run(Init, steps).open[tx].aborted
  {
    Reachable(steps);
    var s := Run(Init, steps);
    var log, x := CommittedLog(s).value, s.open[tx];
    var c, k := x.call, NextKey(x.call);
    SerialSplit(log, Blocks(x), |x.blocks|);
    assert Blocks(x)[..|x.blocks|] == x.blocks && Blocks(x)[|x.blocks| + 1..] == [];
    assert |Events(Serial(log, Blocks(x)).value, c.stream)| == k.version;
    assert k !in s.rows + x.pending;
    assert Writes(Blocks(x), c.stream) by { assert Blocks(x)[|x.blocks|].stream == c.stream; }
    PendingMeansWrites(s.rows, log, x, c.stream);
    var first := Key(c.stream, |Events(log, c.stream)|);
    if HeldByOther(s, tx, k) {
      var u :| u in s.open && u != tx && k in s.open[u].pending;
      PendingMeansWrites(s.rows, log, s.open[u], c.stream);
      assert false;
    }
  }

  /** The version check lets an Append through if and only if it expects no version, or none and there is none, or the
      one that is the largest the transaction sees. */
  lemma RefusedIff(s: State, tx: nat)
    requires tx in s.open && s.open[tx].call.Reading?
    ensures var expected := s.open[tx].call.expected;
            var current := CurrentVersion(s.rows + s.open[tx].pending, s.open[tx].call.stream);
            && tx in Next(s, Read(tx)).open
            && (Next(s, Read(tx)).open[tx].call.Inserting? <==>
                  expected == -2 || (expected == -1 && current < 0) || (expected != -1 && current == expected))
            && (Next(s, Read(tx)).open[tx].call.Inserting? || Next(s, Read(tx)).open[tx].call.NoCall?)
  {
    assert Enabled(s, Read(tx));
  }

  /** The first insert hits an existing key exactly when the stream has moved on since it was read. */
  lemma ConflictIffStale(steps: seq<Step>, tx: nat)
    requires tx in Run(Init, steps).open && Run(Init, steps).open[tx].call.Inserting?
    requires Run(Init, steps).open[tx].call.done == 0
    ensures var s, x := Run(Init, steps), Run(Init, steps).open[tx];
            NextKey(x.call) in s.rows + x.pending <==> CurrentVersion(s.rows + x.pending, x.call.stream) != x.call.current
  {
    Reachable(steps);
    var s := Run(Init, steps);
    var x := s.open[tx];
    CurrentVersionIsLast(s.rows + x.pending, Serial(CommittedLog(s).value, Blocks(x)).value, x.call.stream);
  }

  // ------------------------------------------------------------------ loading and snapshots

  /** A row as Load returns it. */
  datatype Event = Event(version: int, data: EventData)

  datatype LoadResult = Loaded(events: seq<Event>) | StreamNotFound

  /** The rows of a stream with versions from `from` to `to`, in order. */
  ghost function Rows(table: Table, stream: Stream, from: int, to: int): seq<Event>
    decreases to - from
  {
    if from > to then []
    else (if Key(stream, from) in table then [Event(from, table[Key(stream, from)])] else [])
         + Rows(table, stream, from + 1, to)
  }

  ghost function Load(table: Table, stream: Stream, from: int): LoadResult {
    var rows := Rows(table, stream, from, CurrentVersion(table, stream));
    if rows == [] && from == 0 then StreamNotFound else Loaded(rows)
  }

  ghost function Payloads(r: LoadResult): seq<EventData> {
    if r.StreamNotFound? then [] else seq(|r.events|, i requires 0 <= i < |r.events| => r.events[i].data)
  }

  lemma {:induction false} RowsAreSuffix(table: Table, log: Log, stream: Stream, from: int)
    requires Represents(table, log)
    ensures var n, m := |Events(log, stream)|, if from < 0 then 0 else from;
            var rows := Rows(table, stream, from, n - 1);
            && |rows| == (if m < n then n - m else 0)
            && forall i :: 0 <= i < |rows| ==> rows[i] == Event(m + i, Events(log, stream)[m + i])
    decreases |Events(log, stream)| - from
  {
    var n := |Events(log, stream)|;
    if from <= n - 1 {
      RowsAreSuffix(table, log, stream, from + 1);
      assert Key(stream, from) in table <==> 0 <= from;
    }
  }

  lemma LoadIsRows(table: Table, log: Log, stream: Stream, from: int)
    requires Represents(table, log)
    ensures var n := |Events(log, stream)|;
            var rows := Rows(table, stream, from, n - 1);
            Load(table, stream, from) == if rows == [] && from == 0 then StreamNotFound else Loaded(rows)
  {
    CurrentVersionIsLast(table, log, stream);
  }

  ghost predicate Numbered(rows: seq<Event>, m: int, events: seq<EventData>) {
    |rows| == |events| && forall i :: 0 <= i < |rows| ==> rows[i] == Event(m + i, events[i])
  }

  ghost function Tail(events: seq<EventData>, from: int): seq<EventData> {
    if from < 0 then events else if from < |events| then events[from..] else []
  }

  lemma RowsNumbered(table: Table, log: Log, stream: Stream, from: int)
    requires Represents(table, log)
    ensures Numbered(Rows(table, stream, from, |Events(log, stream)| - 1), if from < 0 then 0 else from,
                     Tail(Events(log, stream), from))
  {
    RowsAreSuffix(table, log, stream, from);
  }

  lemma PayloadsAre(rows: seq<Event>, m: int, events: seq<EventData>)
    requires Numbered(rows, m, events)
    ensures Payloads(Loaded(rows)) == events
  {
  }

  /** Load returns the stream's events from `from` on, each with its version; it reports a missing
      stream exactly when a load from 0 finds nothing. */
  lemma LoadReturnsSuffix(table: Table, log: Log, stream: Stream, from: int)
    requires Represents(table, log)
    ensures var r, events := Load(table, stream, from), Events(log, stream);
            && (r.StreamNotFound? <==> from == 0 && events == [])
            && Payloads(r) == Tail(events, from)
            && (r.Loaded? ==> Numbered(r.events, if from < 0 then 0 else from, Tail(events, from)))
  {
    var events := Events(log, stream);
    var rows := Rows(table, stream, from, |events| - 1);
    LoadIsRows(table, log, stream, from);
    RowsNumbered(table, log, stream, from);
    PayloadsAre(rows, if from < 0 then 0 else from, Tail(events, from));
  }

  ghost function Replay<S>(apply: (S, EventData) -> S, zero: S, events: seq<EventData>): S {
    if events == [] then zero
    else apply(Replay(apply, zero, events[..|events| - 1]), events[|events| - 1])
  }

  lemma {:induction false} ReplaySplit<S>(apply: (S, EventData) -> S, zero: S, a: seq<EventData>, b: seq<EventData>)
    ensures Replay(apply, zero, a + b) == Replay(apply, Replay(apply, zero, a), b)
    decreases |b|
  {
    if b == [] {
      assert a + b == a;
    } else {
      assert (a + b)[..|a + b| - 1] == a + b[..|b| - 1];
      ReplaySplit(apply, zero, a, b[..|b| - 1]);
    }
  }

  /** Committed events are never changed or removed. */
  lemma {:induction false} LogGrows(s: State, steps: seq<Step>, stream: Stream)
    requires Inv(s)
    ensures Inv(Run(s, steps))
    ensures Events(CommittedLog(s).value, stream) <= Events(CommittedLog(Run(s, steps)).value, stream)
    decreases |steps|
  {
    RunKeeps(s, steps);
    if steps != [] {
      LogGrows(s, steps[..|steps| - 1], stream);
      var s', step := Run(s, steps[..|steps| - 1]), steps[|steps| - 1];
      if Enabled(s', step) && step.Commit? {
        SerialAppend(map[], s'.history, s'.open[step.tx].blocks);
        SerialExtends(CommittedLog(s').value, s'.open[step.tx].blocks, stream);
      }
    }
  }

  lemma TailReplays<S>(apply: (S, EventData) -> S, zero: S, events: seq<EventData>, version: int)
    requires -1 <= version < |events|
    ensures Replay(apply, Replay(apply, zero, events[..version + 1]), Tail(events, version + 1))
            == Replay(apply, zero, Tail(events, 0))
  {
    assert events == events[..version + 1] + Tail(events, version + 1);
    ReplaySplit(apply, zero, events[..version + 1], Tail(events, version + 1));
    assert events == Tail(events, 0);
  }

  lemma LoadReplays<S>(
    apply: (S, EventData) -> S, zero: S, table: Table, log: Log, stream: Stream, version: int, snapshot: S)
    requires Represents(table, log) && -1 <= version < |Events(log, stream)|
    requires snapshot == Replay(apply, zero, Events(log, stream)[..version + 1])
    ensures Replay(apply, snapshot, Payloads(Load(table, stream, version + 1))) ==
            Replay(apply, zero, Payloads(Load(table, stream, 0)))
  {
    LoadReturnsSuffix(table, log, stream, version + 1);
    LoadReturnsSuffix(table, log, stream, 0);
    TailReplays(apply, zero, Events(log, stream), version);
  }

  /** The events a stream had are a prefix of those it has later, and the table holds the later ones. */
  lemma LaterLog(before: seq<Step>, after: seq<Step>, stream: Stream)
    ensures var s, s' := Run(Init, before), Run(Run(Init, before), after);
            && CommittedLog(s).Some? && CommittedLog(s').Some?
            && Represents(s'.rows, CommittedLog(s').value)
            && Events(CommittedLog(s).value, stream) <= Events(CommittedLog(s').value, stream)
  {
    Reachable(before);
    LogGrows(Run(Init, before), after, stream);
  }

  /** A snapshot that was right when it was taken at `version`, plus Load(version + 1) at any later time,
      replays to the same state as the full stream does at that time, whatever ran in between. */
  lemma SnapshotReplay<S>(
    apply: (S, EventData) -> S, zero: S, before: seq<Step>, after: seq<Step>, stream: Stream, version: int, snapshot: S)
    requires CommittedLog(Run(Init, before)).Some?
    requires -1 <= version < |Events(CommittedLog(Run(Init, before)).value, stream)|
    requires snapshot == Replay(apply, zero, Events(CommittedLog(Run(Init, before)).value, stream)[..version + 1])
    ensures var rows := Run(Run(Init, before), after).rows;
            Replay(apply, snapshot, Payloads(Load(rows, stream, version + 1))) ==
            Replay(apply, zero, Payloads(Load(rows, stream, 0)))
  {
    LaterLog(before, after, stream);
    var s' := Run(Run(Init, before), after);
    var was := Events(CommittedLog(Run(Init, before)).value, stream);
    var now := Events(CommittedLog(s').value, stream);
    assert was[..version + 1] == now[..version + 1];
    LoadReplays(apply, zero, s'.rows, CommittedLog(s').value, stream, version, snapshot);
  }

  // ------------------------------------------------------------------ Append, statement by statement

  /** What stops an iteration of Append's loop besides a taken key: json.Marshal or the statement fails. */
  datatype Fault = Fine | MarshalFails | ExecFails

  datatype AppendResult = AppendOk | ReadError | VersionConflict | MarshalFailed | ExecFailed | DuplicateKey

  /** The log with events added to the end of one stream. */
  ghost function Grown(log: Log, stream: Stream, events: seq<EventData>): Log {
    log[stream := Events(log, stream) + events]
  }

  /** The table with events added under consecutive versions. */
  function Added(table: Table, stream: Stream, first: int, events: seq<EventData>): Table {
    if events == [] then table
    else Added(table, stream, first, events[..|events| - 1])[Key(stream, first + |events| - 1) := events[|events| - 1]]
  }

  lemma {:induction false} AddedKeys(table: Table, stream: Stream, first: int, events: seq<EventData>)
    ensures forall k :: k in Added(table, stream, first, events) <==>
              k in table || (k.stream == stream && first <= k.version < first + |events|)
    decreases |events|
  {
    if events != [] {
      AddedKeys(table, stream, first, events[..|events| - 1]);
    }
  }

  lemma {:induction false} MergeAdded(rows: Table, pending: Table, stream: Stream, first: int, events: seq<EventData>)
    ensures rows + Added(pending, stream, first, events) == Added(rows + pending, stream, first, events)
    decreases |events|
  {
    if events != [] {
      var init := events[..|events| - 1];
      MergeAdded(rows, pending, stream, first, init);
      MergeUpdate(rows, Added(pending, stream, first, init), Key(stream, first + |events| - 1), events[|events| - 1]);
    }
  }

  lemma GrownByOne(log: Log, stream: Stream, events: seq<EventData>)
    requires events != []
    ensures var was, now := Grown(log, stream, events[..|events| - 1]), Grown(log, stream, events);
            && Events(now, stream) == Events(was, stream) + [events[|events| - 1]]
            && forall other :: other != stream ==> Events(now, other) == Events(was, other)
  {
    assert Events(log, stream) + events == (Events(log, stream) + events[..|events| - 1]) + [events[|events| - 1]];
  }

  /** On a table that holds a log, rows added after the last version extend the log. */
  lemma {:induction false} AddedIsGrown(table: Table, log: Log, stream: Stream, events: seq<EventData>)
    requires Represents(table, log)
    ensures Represents(Added(table, stream, |Events(log, stream)|, events), Grown(log, stream, events))
    decreases |events|
  {
    if events == [] {
      assert forall s :: Events(Grown(log, stream, []), s) == Events(log, s);
    } else {
      var init, e := events[..|events| - 1], events[|events| - 1];
      AddedIsGrown(table, log, stream, init);
      GrownByOne(log, stream, events);
      RepresentsOneMore(Added(table, stream, |Events(log, stream)|, init), Grown(log, stream, init),
                        Grown(log, stream, events), Key(stream, |Events(log, stream)| + |events| - 1), e);
    }
  }

  /** The key of the next event is not among the rows added before it. */
  lemma NextIsNotMine(pending: Table, stream: Stream, current: int, events: seq<EventData>, i: nat)
    requires i < |events| && forall k :: k in pending && k.stream == stream ==> k.version <= current
    ensures var k := Key(stream, current + 1 + i);
            && k !in Added(pending, stream, current + 1, events[..i])
            && Added(pending, stream, current + 1, events[..i + 1])
               == Added(pending, stream, current + 1, events[..i])[k := events[i]]
  {
    AddedKeys(pending, stream, current + 1, events[..i]);
    assert events[..i + 1][..i] == events[..i];
  }

  lemma NoneLater(rows: Table, pending: Table, stream: Stream)
    ensures forall k :: k in pending && k.stream == stream ==> k.version <= CurrentVersion(rows + pending, stream)
  {
    forall k | k in pending && k.stream == stream ensures k.version <= CurrentVersion(rows + pending, stream) {
      assert k in rows + pending && k.version in Versions(rows + pending, stream);
    }
  }

  /** The committed rows once the first i batches of `commits` have been committed by others. */
  function Seen(rows: Table, commits: seq<Table>, i: nat): Table
    requires i <= |commits|
  {
    if i == 0 then rows else Seen(rows, commits, i - 1) + commits[i - 1]
  }

  /** The i-th insert of a call that read `current` goes through. */
  ghost predicate Inserts(rows: Table, stream: Stream, current: int, faults: seq<Fault>, commits: seq<Table>, i: nat)
    requires i < |faults| == |commits|
  {
    faults[i].Fine? && Key(stream, current + 1 + i) !in Seen(rows, commits, i + 1)
  }

  /** One connection inside a transaction: the committed rows it sees, which others add to, and its own. */
  class Conn {
    var rows: Table
    var pending: Table

    constructor (rows: Table)
      ensures this.rows == rows && pending == map[]
    {
      this.rows, pending := rows, map[];
    }

    method ReadVersion(stream: Stream) returns (v: int)
      ensures v == CurrentVersion(rows + pending, stream)
    {
      var table := rows + pending;
      var todo, found := table.Keys, false;
      v := -1;
      ghost var seen: set<int> := {};
      while todo != {}
        invariant todo <= table.Keys
        invariant forall x :: x in seen <==> Key(stream, x) in table && Key(stream, x) !in todo
        invariant if found then v in seen && (forall x :: x in seen ==> x <= v) else v == -1 && forall x :: x !in seen
        decreases todo
      {
        var k :| k in todo;
        if k.stream == stream {
          if !found || k.version > v {
            v := k.version;
          }
          found, seen := true, seen + {k.version};
        }
        todo := todo - {k};
      }
      assert forall x :: x in Versions(table, stream) <==> x in seen by {
        forall x | x in seen ensures x in Versions(table, stream) { assert Key(stream, x) in table; }
        forall x | x in Versions(table, stream) ensures x in seen {
          var k :| k in table && k.stream == stream && k.version == x;
        }
      }
    }

    /** One INSERT: it fails exactly when the key is taken. */
    method Insert(k: Key, e: EventData) returns (ok: bool)
      modifies this`pending
      ensures ok <==> k !in old(rows + pending)
      ensures pending == if ok then old(pending)[k := e] else old(pending)
    {
      ok := k !in rows && k !in pending;
      if ok {
        pending := pending[k := e];
      }
    }

    /** Append inside a transaction, on any table, with everything that can stop it: `readOk` says whether the
        version could be read, `faults[i]` what else happens to the i-th event, and `commits[i]` are the rows that
        other transactions commit before its insert.  The rows added are the first n events, from the version read
        on, and nothing else; n is the first insert that does not go through, and the result says why. */
    method Append(stream: Stream, events: seq<EventData>, expected: int, readOk: bool, faults: seq<Fault>, commits: seq<Table>)
      returns (r: AppendResult, ghost n: nat)
      requires |faults| == |commits| == |events|
      modifies this
      ensures n <= |events| && (r.AppendOk? <==> n == |events|)
      ensures var current := CurrentVersion(old(rows + pending), stream);
              && pending == Added(old(pending), stream, current + 1, events[..n])
              && (r.ReadError? <==> events != [] && !readOk)
              && (r.VersionConflict? <==>
                    && events != [] && readOk
                    && ((expected == -1 && current >= 0) || (expected != -1 && expected != -2 && current != expected)))
              && (r.ReadError? || r.VersionConflict? ==> n == 0)
              && (forall i: nat :: i < n ==> Inserts(old(rows), stream, current, faults, commits, i))
              && (n < |events| && readOk && !r.VersionConflict? ==>
                    && !Inserts(old(rows), stream, current, faults, commits, n)
                    && r == match faults[n]
                            case MarshalFails => MarshalFailed
                            case ExecFails => ExecFailed
                            case Fine => DuplicateKey)
    {
      n := 0;
      if |events| == 0 {
        return AppendOk, 0;
      }
      if !readOk {
        return ReadError, 0;
      }
      var current := ReadVersion(stream);
      if !VersionOk(expected, current) {
        return VersionConflict, 0;
      }
      NoneLater(rows, pending, stream);
      r, n := InsertAll(stream, events, current, faults, commits);
    }

    /** The inserting loop of an Append that read the largest version there is. */
    method InsertAll(stream: Stream, events: seq<EventData>, current: int, faults: seq<Fault>, commits: seq<Table>)
      returns (r: AppendResult, ghost n: nat)
      requires |faults| == |commits| == |events|
      requires forall k :: k in pending && k.stream == stream ==> k.version <= current
      modifies this
      ensures n <= |events| && (r.AppendOk? <==> n == |events|)
      ensures pending == Added(old(pending), stream, current + 1, events[..n])
      ensures forall i: nat :: i < n ==> Inserts(old(rows), stream, current, faults, commits, i)
      ensures n < |events| ==>
                && !Inserts(old(rows), stream, current, faults, commits, n)
                && r == match faults[n]
                        case MarshalFails => MarshalFailed
                        case ExecFails => ExecFailed
                        case Fine => DuplicateKey
    {
      var nextVersion := current + 1;
      n := 0;
      for i := 0 to |events|
        invariant n == i && nextVersion == current + 1 + i
        invariant rows == Seen(old(rows), commits, i)
        invariant pending == Added(old(pending), stream, current + 1, events[..i])
        invariant forall j: nat :: j < i ==> Inserts(old(rows), stream, current, faults, commits, j)
      {
        if faults[i].MarshalFails? {
          return MarshalFailed, i;
        }
        rows := rows + commits[i];
        if faults[i].ExecFails? {
          return ExecFailed, i;
        }
        NextIsNotMine(old(pending), stream, current, events, i);
        var ok := Insert(Key(stream, nextVersion), events[i]);
        if !ok {
          return DuplicateKey, i;
        }
        nextVersion, n := nextVersion + 1, i + 1;
      }
      return AppendOk, |events|;
    }
  }

  /** Run to the n-th insert on a table that holds a log, Append has added its first n events to the end of the
      stream: all of them, or a part, as one run of versions. */
  lemma AppendGrowsLog(rows: Table, pending: Table, log: Log, stream: Stream, current: int, events: seq<EventData>, n: nat)
    requires Represents(rows + pending, log) && n <= |events| && current == CurrentVersion(rows + pending, stream)
    ensures Represents(rows + Added(pending, stream, current + 1, events[..n]), Grown(log, stream, events[..n]))
  {
    CurrentVersionIsLast(rows + pending, log, stream);
    MergeAdded(rows, pending, stream, current + 1, events[..n]);
    AddedIsGrown(rows + pending, log, stream, events[..n]);
  }
}

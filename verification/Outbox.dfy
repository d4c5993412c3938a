/** pkg/outbox/outbox.go: business transactions that store events in the outbox table, and any number of
    relays that claim unpublished rows with FOR UPDATE SKIP LOCKED, publish them one by one, mark them and
    commit.  A publish call or a commit can fail at any point, and a failed publish may have delivered.
    A step that is not enabled leaves the state as it is. */
module Outbox {
  type Id = int
  type TxId = int

  datatype Row = Row(topic: string, payload: string, createdAt: int, published: bool)

  /** One delivery to the broker, with the transaction that made it. */
  datatype Delivery = Delivery(id: Id, topic: string, payload: string, tx: TxId)

  /** A row as relay reads it. */
  datatype Event = Event(id: Id, topic: string, payload: string)

  /** A relay transaction: the rows it locked, how many it has published, whether it has run the bulk
      UPDATE, and whether it can only be rolled back. */
  datatype Relay = Relay(events: seq<Event>, sent: nat, marked: bool, failed: bool)

  datatype State = State(
    rows: map<Id, Row>,
    storing: map<TxId, map<Id, Row>>,
    relays: map<TxId, Relay>,
    usedIds: set<Id>,
    usedTxs: set<TxId>,
    committed: set<TxId>,
    delivered: seq<Delivery>)

  const Init := State(map[], map[], map[], {}, {}, {}, [])

  datatype Step =
    | BeginStore(tx: TxId)
    | Store(tx: TxId, id: Id, topic: string, payload: string, createdAt: int)
    | CommitStore(tx: TxId)
    | RollbackStore(tx: TxId)
    | Fetch(tx: TxId, ids: seq<Id>, batchSize: int)
    | Publish(tx: TxId)
    | PublishFails(tx: TxId, delivered: bool)
    | Mark(tx: TxId)
    | CommitRelay(tx: TxId)
    | RollbackRelay(tx: TxId)

  ghost predicate Locked(s: State, id: Id) {
    exists tx :: tx in s.relays && Claims(s.relays[tx], id)
  }

  ghost predicate Claims(r: Relay, id: Id) {
    exists i :: 0 <= i < |r.events| && r.events[i].id == id
  }

  ghost predicate Unpublished(s: State, id: Id) {
    id in s.rows && !s.rows[id].published && !Locked(s, id)
  }

  /** The oldest unpublished rows nobody has locked, at most batchSize of them. */
  ghost predicate Selects(s: State, ids: seq<Id>, batchSize: int) {
    && |ids| <= (if batchSize < 0 then 0 else batchSize)
    && (forall i :: 0 <= i < |ids| ==> Unpublished(s, ids[i]))
    && (forall i, j :: 0 <= i < j < |ids| ==> ids[i] != ids[j] && s.rows[ids[i]].createdAt <= s.rows[ids[j]].createdAt)
    && (forall id :: Unpublished(s, id) && id !in ids ==>
          |ids| >= batchSize && forall i :: 0 <= i < |ids| ==> s.rows[ids[i]].createdAt <= s.rows[id].createdAt)
  }

  ghost predicate Enabled(s: State, step: Step) {
    match step
    case BeginStore(tx) => tx !in s.usedTxs
    case Store(tx, id, _, _, _) => tx in s.storing && id !in s.usedIds
    case CommitStore(tx) => tx in s.storing
    case RollbackStore(tx) => tx in s.storing
    case Fetch(tx, ids, batchSize) => tx !in s.usedTxs && Selects(s, ids, batchSize)
    case Publish(tx) => tx in s.relays && !s.relays[tx].failed && s.relays[tx].sent < |s.relays[tx].events|
    case PublishFails(tx, _) => tx in s.relays && !s.relays[tx].failed && s.relays[tx].sent < |s.relays[tx].events|
    case Mark(tx) => tx in s.relays && !s.relays[tx].failed && !s.relays[tx].marked && s.relays[tx].sent == |s.relays[tx].events|
    case CommitRelay(tx) =>
      tx in s.relays && !s.relays[tx].failed && (s.relays[tx].marked || s.relays[tx].events == [])
    case RollbackRelay(tx) => tx in s.relays
  }

  ghost function NextDelivery(s: State, tx: TxId): Delivery
    requires tx in s.relays && s.relays[tx].sent < |s.relays[tx].events|
  {
    var e := s.relays[tx].events[s.relays[tx].sent];
    Delivery(e.id, e.topic, e.payload, tx)
  }

  /** The table once a relay that ran its bulk update has committed. */
  ghost function Marked(rows: map<Id, Row>, r: Relay): map<Id, Row> {
    map id | id in rows :: if r.marked && Claims(r, id) then rows[id].(published := true) else rows[id]
  }

  ghost function Next(s: State, step: Step): State {
    if !Enabled(s, step) then s
    else match step
      case BeginStore(tx) => s.(storing := s.storing[tx := map[]], usedTxs := s.usedTxs + {tx})
      case Store(tx, id, topic, payload, createdAt) =>
        s.(storing := s.storing[tx := s.storing[tx][id := Row(topic, payload, createdAt, false)]], usedIds := s.usedIds + {id})
      case CommitStore(tx) => s.(rows := s.rows + s.storing[tx], storing := s.storing - {tx})
      case RollbackStore(tx) => s.(storing := s.storing - {tx})
      case Fetch(tx, ids, _) =>
        var events := seq(|ids|, i requires 0 <= i < |ids| && ids[i] in s.rows =>
                            Event(ids[i], s.rows[ids[i]].topic, s.rows[ids[i]].payload));
        s.(relays := s.relays[tx := Relay(events, 0, false, false)], usedTxs := s.usedTxs + {tx})
      case Publish(tx) =>
        s.(delivered := s.delivered + [NextDelivery(s, tx)],
           relays := s.relays[tx := s.relays[tx].(sent := s.relays[tx].sent + 1)])
      case PublishFails(tx, delivered) =>
        s.(delivered := if delivered then s.delivered + [NextDelivery(s, tx)] else s.delivered,
           relays := s.relays[tx := s.relays[tx].(failed := true)])
      case Mark(tx) => s.(relays := s.relays[tx := s.relays[tx].(marked := true)])
      case CommitRelay(tx) =>
        s.(rows := Marked(s.rows, s.relays[tx]), relays := s.relays - {tx}, committed := s.committed + {tx})
      case RollbackRelay(tx) => s.(relays := s.relays - {tx})
  }

  ghost function Run(s: State, steps: seq<Step>): State {
    if steps == [] then s else Next(Run(s, steps[..|steps| - 1]), steps[|steps| - 1])
  }

  // ------------------------------------------------------------------ counting deliveries

  /** Deliveries of the row made by transactions in the set. */
  ghost function CountIn(ds: seq<Delivery>, id: Id, txs: set<TxId>): nat {
    if ds == [] then 0
    else CountIn(ds[..|ds| - 1], id, txs) + (if ds[|ds| - 1].id == id && ds[|ds| - 1].tx in txs then 1 else 0)
  }

  lemma {:induction false} CountSplit(ds: seq<Delivery>, id: Id, txs: set<TxId>, tx: TxId)
    requires tx !in txs
    ensures CountIn(ds, id, txs + {tx}) == CountIn(ds, id, txs) + CountIn(ds, id, {tx})
    decreases |ds|
  {
    if ds != [] { CountSplit(ds[..|ds| - 1], id, txs, tx); }
  }

  lemma CountOneMore(ds: seq<Delivery>, d: Delivery, id: Id, txs: set<TxId>)
    ensures CountIn(ds + [d], id, txs) == CountIn(ds, id, txs) + (if d.id == id && d.tx in txs then 1 else 0)
  {
    assert (ds + [d])[..|ds|] == ds;
  }

  lemma {:induction false} CountZero(ds: seq<Delivery>, id: Id, txs: set<TxId>)
    requires forall i :: 0 <= i < |ds| ==> ds[i].id != id || ds[i].tx !in txs
    ensures CountIn(ds, id, txs) == 0
    decreases |ds|
  {
    if ds != [] { CountZero(ds[..|ds| - 1], id, txs); }
  }

  lemma {:induction false} CountFinds(ds: seq<Delivery>, id: Id, txs: set<TxId>) returns (i: nat)
    requires CountIn(ds, id, txs) > 0
    ensures i < |ds| && ds[i].id == id && ds[i].tx in txs
    decreases |ds|
  {
    if ds[|ds| - 1].id == id && ds[|ds| - 1].tx in txs {
      i := |ds| - 1;
    } else {
      i := CountFinds(ds[..|ds| - 1], id, txs);
    }
  }

  // ------------------------------------------------------------------ invariant

  ghost predicate SentBefore(r: Relay, id: Id) {
    exists i :: 0 <= i < r.sent && i < |r.events| && r.events[i].id == id
  }

  ghost predicate EventsOk(rows: map<Id, Row>, events: seq<Event>) {
    && (forall i, j :: 0 <= i < j < |events| ==> events[i].id != events[j].id)
    && (forall i :: 0 <= i < |events| ==>
          && events[i].id in rows && !rows[events[i].id].published
          && events[i].topic == rows[events[i].id].topic && events[i].payload == rows[events[i].id].payload)
  }

  ghost predicate RelayOk(rows: map<Id, Row>, delivered: seq<Delivery>, tx: TxId, r: Relay) {
    && EventsOk(rows, r.events)
    && r.sent <= |r.events| && (r.marked ==> r.sent == |r.events|)
    && (!r.failed ==> forall id :: CountIn(delivered, id, {tx}) == if SentBefore(r, id) then 1 else 0)
  }

  ghost predicate RelaysOk(s: State) {
    && (forall tx :: tx in s.relays ==> tx in s.usedTxs && tx !in s.committed && tx !in s.storing)
    && (forall tx :: tx in s.relays ==> RelayOk(s.rows, s.delivered, tx, s.relays[tx]))
    && (forall t, u, id :: t in s.relays && u in s.relays && Claims(s.relays[t], id) && Claims(s.relays[u], id) ==> t == u)
  }

  ghost predicate StoringOk(storing: map<TxId, map<Id, Row>>, usedIds: set<Id>, usedTxs: set<TxId>, rows: map<Id, Row>) {
    && (forall tx :: tx in storing ==> tx in usedTxs)
    && (forall tx, id :: tx in storing && id in storing[tx] ==> id in usedIds && id !in rows && !storing[tx][id].published)
    && (forall t, u, id :: t in storing && u in storing && id in storing[t] && id in storing[u] ==> t == u)
  }

  ghost predicate DeliveredOk(rows: map<Id, Row>, delivered: seq<Delivery>, usedTxs: set<TxId>) {
    forall i :: 0 <= i < |delivered| ==>
      && delivered[i].tx in usedTxs && delivered[i].id in rows
      && delivered[i].topic == rows[delivered[i].id].topic && delivered[i].payload == rows[delivered[i].id].payload
  }

  /** A row is marked exactly when one committed relay has delivered it, once. */
  ghost predicate Conserved(rows: map<Id, Row>, delivered: seq<Delivery>, committed: set<TxId>) {
    forall id :: id in rows ==> CountIn(delivered, id, committed) == if rows[id].published then 1 else 0
  }

  ghost predicate Inv(s: State) {
    && s.rows.Keys <= s.usedIds && s.committed <= s.usedTxs
    && StoringOk(s.storing, s.usedIds, s.usedTxs, s.rows)
    && RelaysOk(s)
    && DeliveredOk(s.rows, s.delivered, s.usedTxs)
    && Conserved(s.rows, s.delivered, s.committed)
  }

  // ------------------------------------------------------------------ steps that store

  lemma StoreStepKeeps(s: State, step: Step)
    requires Inv(s) && Enabled(s, step) && (step.BeginStore? || step.Store? || step.RollbackStore?)
    ensures Inv(Next(s, step))
  {
    var s' := Next(s, step);
    forall tx, id | tx in s'.storing && id in s'.storing[tx]
      ensures id in s'.usedIds && id !in s'.rows && !s'.storing[tx][id].published
    {
      assert (step.Store? && tx == step.tx && id == step.id)
             || (tx in s.storing && id in s.storing[tx] && s'.storing[tx][id] == s.storing[tx][id]);
    }
    assert StoringOk(s'.storing, s'.usedIds, s'.usedTxs, s'.rows);
  }

  lemma EventsUnaffected(rows: map<Id, Row>, rows': map<Id, Row>, events: seq<Event>)
    requires EventsOk(rows, events)
    requires forall i :: 0 <= i < |events| ==> events[i].id in rows' && rows'[events[i].id] == rows[events[i].id]
    ensures EventsOk(rows', events)
  {
  }

  lemma CommitStoreKeeps(s: State, tx: TxId)
    requires Inv(s) && tx in s.storing
    ensures Inv(Next(s, CommitStore(tx)))
  {
    var s' := Next(s, CommitStore(tx));
    assert s'.rows.Keys == s.rows.Keys + s.storing[tx].Keys;
    assert forall id :: id in s.storing[tx] ==> id in s.usedIds;
    forall t | t in s'.relays ensures RelayOk(s'.rows, s'.delivered, t, s'.relays[t]) {
      assert RelayOk(s.rows, s.delivered, t, s.relays[t]);
      EventsUnaffected(s.rows, s'.rows, s.relays[t].events);
    }
    forall id | id in s'.rows
      ensures CountIn(s'.delivered, id, s'.committed) == if s'.rows[id].published then 1 else 0
    {
      if id !in s.rows { CountZero(s.delivered, id, s.committed); }
    }
  }

  // ------------------------------------------------------------------ steps of relays

  lemma FetchKeeps(s: State, tx: TxId, ids: seq<Id>, batchSize: int)
    requires Inv(s) && Enabled(s, Fetch(tx, ids, batchSize))
    ensures Inv(Next(s, Fetch(tx, ids, batchSize)))
  {
    var s' := Next(s, Fetch(tx, ids, batchSize));
    var r := s'.relays[tx];
    forall id ensures CountIn(s.delivered, id, {tx}) == 0 { CountZero(s.delivered, id, {tx}); }
    assert RelayOk(s'.rows, s'.delivered, tx, r);
    forall id | Claims(r, id) ensures !Locked(s, id) {
      var i :| 0 <= i < |r.events| && r.events[i].id == id;
      assert Unpublished(s, ids[i]);
    }
    forall t, id | t in s.relays && Claims(s.relays[t], id) ensures !Claims(r, id) { assert Locked(s, id); }
  }

  /** A delivery by one relay leaves the counts of all other transactions alone. */
  lemma DeliveryCounts(ds: seq<Delivery>, d: Delivery, txs: set<TxId>)
    requires d.tx !in txs
    ensures forall id :: CountIn(ds + [d], id, txs) == CountIn(ds, id, txs)
  {
    forall id ensures CountIn(ds + [d], id, txs) == CountIn(ds, id, txs) { CountOneMore(ds, d, id, txs); }
  }

  /** Publishing the next event counts it once. */
  lemma PublishCounts(s: State, tx: TxId)
    requires Inv(s) && Enabled(s, Publish(tx))
    ensures RelayOk(s.rows, s.delivered + [NextDelivery(s, tx)], tx, s.relays[tx].(sent := s.relays[tx].sent + 1))
  {
    var r, d := s.relays[tx], NextDelivery(s, tx);
    var r' := r.(sent := r.sent + 1);
    assert RelayOk(s.rows, s.delivered, tx, r);
    forall id ensures CountIn(s.delivered + [d], id, {tx}) == if SentBefore(r', id) then 1 else 0 {
      CountOneMore(s.delivered, d, id, {tx});
      if SentBefore(r, id) {
        var i :| 0 <= i < r.sent && i < |r.events| && r.events[i].id == id;
        assert r'.events[i].id == id;
      }
      if id == d.id {
        assert r'.events[r.sent].id == id;
      }
    }
  }

  /** Replacing one relay's record and adding its delivery keeps everything else as it was. */
  lemma RelayStepKeeps(s: State, tx: TxId, r': Relay, ds: seq<Delivery>)
    requires Inv(s) && tx in s.relays && r'.events == s.relays[tx].events
    requires ds == [] || (s.relays[tx].sent < |s.relays[tx].events| && ds == [NextDelivery(s, tx)])
    requires RelayOk(s.rows, s.delivered + ds, tx, r')
    ensures Inv(s.(relays := s.relays[tx := r'], delivered := s.delivered + ds))
  {
    var s' := s.(relays := s.relays[tx := r'], delivered := s.delivered + ds);
    assert RelayOk(s.rows, s.delivered, tx, s.relays[tx]);
    if ds == [] {
      assert s.delivered + ds == s.delivered;
    } else {
      DeliveryCounts(s.delivered, ds[0], s.committed);
      forall t | t in s.relays && t != tx ensures RelayOk(s.rows, s.delivered + ds, t, s.relays[t]) {
        assert RelayOk(s.rows, s.delivered, t, s.relays[t]);
        DeliveryCounts(s.delivered, ds[0], {t});
      }
    }
    forall id ensures Claims(r', id) <==> Claims(s.relays[tx], id) {}
  }

  lemma PublishKeeps(s: State, tx: TxId)
    requires Inv(s) && Enabled(s, Publish(tx))
    ensures Inv(Next(s, Publish(tx)))
  {
    var r := s.relays[tx];
    PublishCounts(s, tx);
    RelayStepKeeps(s, tx, r.(sent := r.sent + 1), [NextDelivery(s, tx)]);
  }

  lemma PublishFailsKeeps(s: State, tx: TxId, delivered: bool)
    requires Inv(s) && Enabled(s, PublishFails(tx, delivered))
    ensures Inv(Next(s, PublishFails(tx, delivered)))
  {
    var r := s.relays[tx];
    assert RelayOk(s.rows, s.delivered, tx, r);
    assert s.delivered + [] == s.delivered;
    RelayStepKeeps(s, tx, r.(failed := true), if delivered then [NextDelivery(s, tx)] else []);
  }

  lemma MarkKeeps(s: State, tx: TxId)
    requires Inv(s) && Enabled(s, Mark(tx))
    ensures Inv(Next(s, Mark(tx)))
  {
    var r := s.relays[tx];
    assert RelayOk(s.rows, s.delivered, tx, r);
    assert s.delivered + [] == s.delivered;
    MarkCounts(s.rows, s.delivered, tx, r);
    RelayStepKeeps(s, tx, r.(marked := true), []);
  }

  lemma MarkCounts(rows: map<Id, Row>, delivered: seq<Delivery>, tx: TxId, r: Relay)
    requires RelayOk(rows, delivered, tx, r) && r.sent == |r.events|
    ensures RelayOk(rows, delivered, tx, r.(marked := true))
  {
    forall id ensures SentBefore(r.(marked := true), id) <==> SentBefore(r, id) {}
  }

  /** Committing a relay marks exactly the rows it delivered, each of which it delivered once. */
  lemma CommitConserves(s: State, tx: TxId, id: Id)
    requires Inv(s) && Enabled(s, CommitRelay(tx)) && id in s.rows
    ensures var s' := Next(s, CommitRelay(tx));
            && id in s'.rows
            && CountIn(s.delivered, id, s.committed + {tx}) == (if s'.rows[id].published then 1 else 0)
            && s'.rows[id] == if Claims(s.relays[tx], id) then s.rows[id].(published := true) else s.rows[id]
  {
    var r := s.relays[tx];
    assert RelayOk(s.rows, s.delivered, tx, r);
    CountSplit(s.delivered, id, s.committed, tx);
    assert r.sent == |r.events|;
    if Claims(r, id) {
      var i :| 0 <= i < |r.events| && r.events[i].id == id;
      assert SentBefore(r, id) && !s.rows[id].published && r.marked;
    } else {
      assert !SentBefore(r, id);
    }
  }

  lemma CommitRelayKeeps(s: State, tx: TxId)
    requires Inv(s) && Enabled(s, CommitRelay(tx))
    ensures Inv(Next(s, CommitRelay(tx)))
  {
    var s' := Next(s, CommitRelay(tx));
    assert s'.rows.Keys == s.rows.Keys;
    forall id | id in s'.rows
      ensures CountIn(s'.delivered, id, s'.committed) == if s'.rows[id].published then 1 else 0
    {
      CommitConserves(s, tx, id);
    }
    forall t | t in s'.relays ensures RelayOk(s'.rows, s'.delivered, t, s'.relays[t]) {
      CommitSparesOthers(s, tx, t);
    }
    assert DeliveredOk(s'.rows, s'.delivered, s'.usedTxs);
  }

  lemma CommitSparesOthers(s: State, tx: TxId, t: TxId)
    requires Inv(s) && Enabled(s, CommitRelay(tx)) && t in s.relays && t != tx
    ensures RelayOk(Next(s, CommitRelay(tx)).rows, s.delivered, t, s.relays[t])
  {
    var s', r := Next(s, CommitRelay(tx)), s.relays[t];
    assert RelayOk(s.rows, s.delivered, t, r);
    forall i | 0 <= i < |r.events| ensures r.events[i].id in s'.rows && s'.rows[r.events[i].id] == s.rows[r.events[i].id] {
      assert Claims(r, r.events[i].id);
      CommitConserves(s, tx, r.events[i].id);
    }
    EventsUnaffected(s.rows, s'.rows, r.events);
  }

  lemma StepKeeps(s: State, step: Step)
    requires Inv(s)
    ensures Inv(Next(s, step))
  {
    if Enabled(s, step) {
      match step
      case BeginStore(_) => StoreStepKeeps(s, step);
      case Store(_, _, _, _, _) => StoreStepKeeps(s, step);
      case CommitStore(tx) => CommitStoreKeeps(s, tx);
      case RollbackStore(_) => StoreStepKeeps(s, step);
      case Fetch(tx, ids, batchSize) => FetchKeeps(s, tx, ids, batchSize);
      case Publish(tx) => PublishKeeps(s, tx);
      case PublishFails(tx, delivered) => PublishFailsKeeps(s, tx, delivered);
      case Mark(tx) => MarkKeeps(s, tx);
      case CommitRelay(tx) => CommitRelayKeeps(s, tx);
      case RollbackRelay(_) =>
    }
  }

  lemma {:induction false} RunKeeps(s: State, steps: seq<Step>)
    requires Inv(s)
    ensures Inv(Run(s, steps))
    decreases |steps|
  {
    if steps != [] {
      RunKeeps(s, steps[..|steps| - 1]);
      StepKeeps(Run(s, steps[..|steps| - 1]), steps[|steps| - 1]);
    }
  }

  // ------------------------------------------------------------------ what holds in every run

  lemma Reachable(steps: seq<Step>)
    ensures Inv(Run(Init, steps))
  {
    RunKeeps(Init, steps);
  }

  /** A row marked published has been delivered, with its stored topic and payload, by a relay that
      committed. */
  lemma PublishedWasDelivered(steps: seq<Step>, id: Id)
    requires id in Run(Init, steps).rows && Run(Init, steps).rows[id].published
    ensures var s := Run(Init, steps);
            exists i :: 0 <= i < |s.delivered| && s.delivered[i].tx in s.committed
                        && s.delivered[i] == Delivery(id, s.rows[id].topic, s.rows[id].payload, s.delivered[i].tx)
  {
    Reachable(steps);
    var s := Run(Init, steps);
    var i := CountFinds(s.delivered, id, s.committed);
  }

  /** Committed relays deliver a row once if it is marked and never if it is not, so every further
      delivery was made by a relay that did not commit. */
  lemma ExtraDeliveriesAreUncommitted(steps: seq<Step>, id: Id)
    requires id in Run(Init, steps).rows
    ensures var s := Run(Init, steps);
            && CountIn(s.delivered, id, s.committed) == (if s.rows[id].published then 1 else 0)
            && CountIn(s.delivered, id, s.usedTxs) ==
                 CountIn(s.delivered, id, s.usedTxs - s.committed) + (if s.rows[id].published then 1 else 0)
  {
    Reachable(steps);
    var s := Run(Init, steps);
    CountDisjoint(s.delivered, id, s.usedTxs - s.committed, s.committed);
    assert (s.usedTxs - s.committed) + s.committed == s.usedTxs;
  }

  lemma {:induction false} CountDisjoint(ds: seq<Delivery>, id: Id, a: set<TxId>, b: set<TxId>)
    requires a !! b
    ensures CountIn(ds, id, a + b) == CountIn(ds, id, a) + CountIn(ds, id, b)
    decreases |ds|
  {
    if ds != [] { CountDisjoint(ds[..|ds| - 1], id, a, b); }
  }

  /** Each row is in at most one committed batch: two committed deliveries of a row are the same one. */
  lemma OneCommittedBatch(steps: seq<Step>, i: nat, j: nat)
    requires i < |Run(Init, steps).delivered| && j < |Run(Init, steps).delivered|
    requires Run(Init, steps).delivered[i].id == Run(Init, steps).delivered[j].id
    requires Run(Init, steps).delivered[i].tx in Run(Init, steps).committed
    requires Run(Init, steps).delivered[j].tx in Run(Init, steps).committed
    ensures i == j
  {
    Reachable(steps);
    var s := Run(Init, steps);
    if i < j {
      CountTwo(s.delivered, i, j, s.committed);
    } else if j < i {
      CountTwo(s.delivered, j, i, s.committed);
    }
  }

  lemma {:induction false} CountAt(ds: seq<Delivery>, i: nat, txs: set<TxId>)
    requires i < |ds| && ds[i].tx in txs
    ensures CountIn(ds, ds[i].id, txs) >= 1
    decreases |ds|
  {
    if i < |ds| - 1 { CountAt(ds[..|ds| - 1], i, txs); }
  }

  lemma {:induction false} CountTwo(ds: seq<Delivery>, i: nat, j: nat, txs: set<TxId>)
    requires i < j < |ds| && ds[i].id == ds[j].id && ds[i].tx in txs && ds[j].tx in txs
    ensures CountIn(ds, ds[i].id, txs) >= 2
    decreases |ds|
  {
    if j == |ds| - 1 {
      CountAt(ds[..|ds| - 1], i, txs);
    } else {
      CountTwo(ds[..|ds| - 1], i, j, txs);
    }
  }

  lemma GoneStaysGone(s: State, step: Step, id: Id)
    requires Inv(s) && id in s.usedIds && id !in s.rows && forall t :: t in s.storing ==> id !in s.storing[t]
    ensures id in Next(s, step).usedIds && id !in Next(s, step).rows
    ensures forall t :: t in Next(s, step).storing ==> id !in Next(s, step).storing[t]
  {
  }

  lemma {:induction false} RolledBackIsGone(before: seq<Step>, tx: TxId, after: seq<Step>, id: Id)
    requires tx in Run(Init, before).storing && id in Run(Init, before).storing[tx]
    ensures var s := Run(Init, before + [RollbackStore(tx)] + after);
            && id in s.usedIds && id !in s.rows
            && forall t :: t in s.storing ==> id !in s.storing[t]
    decreases |after|
  {
    var mid := before + [RollbackStore(tx)];
    Reachable(before);
    if after == [] {
      assert mid + after == mid && mid[..|mid| - 1] == before;
    } else {
      var init := after[..|after| - 1];
      RolledBackIsGone(before, tx, init, id);
      assert (mid + after)[..|mid + after| - 1] == mid + init;
      Reachable(mid + init);
      GoneStaysGone(Run(Init, mid + init), after[|after| - 1], id);
    }
  }

  /** An event stored in a transaction that was rolled back is never delivered, whatever runs later. */
  lemma RolledBackNeverDelivered(before: seq<Step>, tx: TxId, after: seq<Step>, id: Id)
    requires tx in Run(Init, before).storing && id in Run(Init, before).storing[tx]
    ensures var s := Run(Init, before + [RollbackStore(tx)] + after);
            forall i :: 0 <= i < |s.delivered| ==> s.delivered[i].id != id
  {
    RolledBackIsGone(before, tx, after, id);
    Reachable(before + [RollbackStore(tx)] + after);
  }

  /** A stored event keeps its topic and payload, and once marked stays marked. */
  lemma RowsAreStable(s: State, step: Step, id: Id)
    requires Inv(s) && id in s.rows
    ensures id in Next(s, step).rows
    ensures Next(s, step).rows[id] == s.rows[id].(published := Next(s, step).rows[id].published)
    ensures s.rows[id].published ==> Next(s, step).rows[id].published
  {
    if Enabled(s, step) && step.CommitStore? { assert id !in s.storing[step.tx]; }
  }

  /** When a relay is rolled back, the rows it had claimed can be claimed again, and are still unpublished. */
  lemma RollbackReleases(steps: seq<Step>, tx: TxId, id: Id)
    requires tx in Run(Init, steps).relays && Claims(Run(Init, steps).relays[tx], id)
    ensures var s, s' := Run(Init, steps), Next(Run(Init, steps), RollbackRelay(tx));
            Unpublished(s', id) && s'.rows == s.rows
  {
    Reachable(steps);
    var s := Run(Init, steps);
    assert RelayOk(s.rows, s.delivered, tx, s.relays[tx]);
  }

  lemma {:induction false} AsManyIds(ids: seq<Id>, all: set<Id>)
    requires (forall i, j :: 0 <= i < j < |ids| ==> ids[i] != ids[j]) && forall i :: 0 <= i < |ids| ==> ids[i] in all
    ensures |ids| <= |all|
    decreases |ids|
  {
    if ids != [] {
      var last := ids[|ids| - 1];
      AsManyIds(ids[..|ids| - 1], all - {last});
    }
  }

  /** The other unpublished, unlocked rows that are as old as this one. */
  ghost function AsOld(s: State, id: Id): set<Id>
    requires id in s.rows
  {
    set k | k in s.rows && k != id && Unpublished(s, k) && s.rows[k].createdAt <= s.rows[id].createdAt
  }

  /** A relay claims at most batchSize rows, the oldest first, and an unpublished row that nobody has locked is among
      them unless batchSize others are as old. */
  lemma OldestAreClaimed(s: State, tx: TxId, ids: seq<Id>, batchSize: int, id: Id)
    requires Enabled(s, Fetch(tx, ids, batchSize)) && Unpublished(s, id)
    ensures var events := Next(s, Fetch(tx, ids, batchSize)).relays[tx].events;
            && |events| <= (if batchSize < 0 then 0 else batchSize)
            && (forall i, j :: 0 <= i < j < |events| && events[i].id in s.rows && events[j].id in s.rows ==>
                  s.rows[events[i].id].createdAt <= s.rows[events[j].id].createdAt)
            && (|AsOld(s, id)| < batchSize ==> Claims(Next(s, Fetch(tx, ids, batchSize)).relays[tx], id))
  {
    var r := Next(s, Fetch(tx, ids, batchSize)).relays[tx];
    assert forall i :: 0 <= i < |ids| ==> r.events[i].id == ids[i];
    if |AsOld(s, id)| < batchSize {
      if id !in ids {
        forall i | 0 <= i < |ids| ensures ids[i] in AsOld(s, id) {
          assert Unpublished(s, ids[i]);
        }
        AsManyIds(ids, AsOld(s, id));
        assert false;
      }
      var i :| 0 <= i < |ids| && ids[i] == id;
      assert r.events[i].id == id;
    }
  }

  /** Step j stored the event in the transaction, with this topic, payload and creation time. */
  ghost predicate StoredBy(steps: seq<Step>, j: nat, tx: TxId, id: Id, row: Row)
    requires j < |steps|
  {
    steps[j] == Store(tx, id, row.topic, row.payload, row.createdAt) && Enabled(Run(Init, steps[..j]), steps[j])
  }

  /** And step c committed that transaction. */
  ghost predicate CommittedBy(steps: seq<Step>, j: nat, c: nat, id: Id, row: Row) {
    j < c < |steps| && steps[c].CommitStore? && StoredBy(steps, j, steps[c].tx, id, row)
  }

  lemma {:induction false} StoringWasStored(steps: seq<Step>, tx: TxId, id: Id) returns (j: nat)
    requires tx in Run(Init, steps).storing && id in Run(Init, steps).storing[tx]
    ensures j < |steps| && StoredBy(steps, j, tx, id, Run(Init, steps).storing[tx][id])
    decreases |steps|
  {
    var init, step := steps[..|steps| - 1], steps[|steps| - 1];
    var s, row := Run(Init, init), Run(Init, steps).storing[tx][id];
    if Enabled(s, step) && step.Store? && step.tx == tx && step.id == id {
      j := |steps| - 1;
    } else {
      assert tx in s.storing && id in s.storing[tx] && s.storing[tx][id] == row;
      j := StoringWasStored(init, tx, id);
      assert init[..j] == steps[..j];
    }
  }

  /** Every row is the one a Store step stored, in a transaction that committed later. */
  lemma {:induction false} RowIsAsStored(steps: seq<Step>, id: Id) returns (j: nat, c: nat)
    requires id in Run(Init, steps).rows
    ensures CommittedBy(steps, j, c, id, Run(Init, steps).rows[id])
    decreases |steps|
  {
    var init, step := steps[..|steps| - 1], steps[|steps| - 1];
    var s := Run(Init, init);
    Reachable(init);
    if id in s.rows {
      j, c := RowIsAsStored(init, id);
      RowsAreStable(s, step, id);
    } else {
      j := StoringWasStored(init, step.tx, id);
      c := |init|;
    }
    assert init[..j] == steps[..j];
  }

  /** What is delivered is what was stored: the topic and payload that a Store step gave for this event, in a
      transaction that has committed. */
  lemma DeliveredWasStored(steps: seq<Step>, k: nat) returns (j: nat, c: nat)
    requires k < |Run(Init, steps).delivered|
    ensures j < c < |steps| && steps[j].Store? && steps[c] == CommitStore(steps[j].tx)
    ensures Enabled(Run(Init, steps[..j]), steps[j])
    ensures var d := Run(Init, steps).delivered[k];
            d.id == steps[j].id && d.topic == steps[j].topic && d.payload == steps[j].payload
  {
    Reachable(steps);
    j, c := RowIsAsStored(steps, Run(Init, steps).delivered[k].id);
  }

  // ------------------------------------------------------------------ relay

  datatype RelayResult = Relayed | PublishError | MarkError

  /** What one relay call has handed to the publisher, and the ids it marks. */
  class RelayTx {
    var published: seq<Event>
    var marked: seq<Id>

    constructor ()
      ensures published == [] && marked == []
    {
      published, marked := [], [];
    }

    /** relay on the fetched events; `ok[i]` says whether Publish of the i-th succeeds, `markOk` whether the bulk
        update does.  It stops at the first failure without marking anything, and otherwise marks exactly the events,
        all published; nothing to relay is no work. */
    method Relay(events: seq<Event>, ok: seq<bool>, markOk: bool) returns (r: RelayResult)
      requires |ok| >= |events| && published == [] && marked == []
      modifies this
      ensures published <= events
      ensures r.Relayed? <==> (events == [] || markOk) && forall i :: 0 <= i < |events| ==> ok[i]
      ensures r.PublishError? <==> exists i :: 0 <= i < |events| && !ok[i]
      ensures r.Relayed? ==> published == events && |marked| == |events| && forall i :: 0 <= i < |events| ==> marked[i] == events[i].id
      ensures r.PublishError? ==> marked == [] && |published| < |events| && !ok[|published|]
      ensures r.MarkError? ==> marked == [] && published == events && events != []
    {
      if |events| == 0 {
        return Relayed;
      }
      for i := 0 to |events|
        invariant published == events[..i] && marked == []
        invariant forall j :: 0 <= j < i ==> ok[j]
      {
        if !ok[i] {
          return PublishError;
        }
        published := published + [events[i]];
      }
      var ids: seq<Id> := [];
      for i := 0 to |events|
        invariant |ids| == i && forall j :: 0 <= j < i ==> ids[j] == events[j].id
      {
        ids := ids + [events[i].id];
      }
      if !markOk {
        return MarkError;
      }
      marked := ids;
      return Relayed;
    }
  }
}

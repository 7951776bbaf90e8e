/**
 Backfill of per-contract event attribution.

 The code empties its cache of transactions' actions as soon as it holds more than 10,000 of them, just before
 indexing the entry it has just inserted. So it panics on exactly the stores whose contract events span more
 transactions than that; on all others it attributes every contract event as the live writer does.
 */
module ContractEvents {
  import opened Prelude
  import opened IndexModel

  const COMMIT_EVERY: nat := 1_000
  const CACHE_LIMIT: nat := 10_000

  datatype Error = EventWithoutAddress | MissingTransaction | MissingAction | Panic

  // ---------- what the backfill should produce ----------

  predicate IsContract(e: Event) {
    e.grouping.Contract?
  }

  /** The stored actions of a transaction, as far as attribution looks at them. */
  function StoredActions(ids: seq<nat>, actions: map<nat, ActionRecord>): seq<Action>
    requires forall i :: i in ids ==> i in actions
  {
    seq(|ids|, k requires 0 <= k < |ids| => Action(actions[ids[k]].address, actions[ids[k]].attributes, None, []))
  }

  predicate Traceable(txs: map<nat, TxRecord>, actions: map<nat, ActionRecord>, tx: nat) {
    tx in txs && forall i :: i in txs[tx].actionIds ==> i in actions
  }

  function Attributed(r: EventRecord, txs: map<nat, TxRecord>, actions: map<nat, ActionRecord>): EventRecord
    requires Traceable(txs, actions, r.tx)
  {
    var ids := txs[r.tx].actionIds;
    r.(event := r.event.(actionId := EmitterId(r.event, StoredActions(ids, actions), ids)))
  }

  /** Every contract event below `n` names its contract and its transaction and actions are stored. */
  ghost predicate Clean(events: map<nat, EventRecord>, txs: map<nat, TxRecord>, actions: map<nat, ActionRecord>,
                        n: nat) {
    forall e :: 0 <= e < n && e in events && IsContract(events[e].event) ==>
      events[e].event.address.Some? && Traceable(txs, actions, events[e].tx)
  }

  /** The transactions that contract events below `n` belong to. */
  ghost function ContractTxs(events: map<nat, EventRecord>, n: nat): set<nat> {
    set e | 0 <= e < n && e in events && events[e].event.grouping.Contract? :: events[e].tx
  }

  /** The cache never overflows on the events below `n`. */
  ghost predicate Fits(events: map<nat, EventRecord>, n: nat) {
    |ContractTxs(events, n)| <= 10_000
  }

  /** Row `e` after events below `n` have been attributed. */
  ghost predicate RowDone(before: Rows, now: Rows, txs: map<nat, TxRecord>, actions: map<nat, ActionRecord>, n: nat,
                          e: nat)
    requires e in before.events && e in now.events
  {
    if e < n && IsContract(before.events[e].event) then
      Traceable(txs, actions, before.events[e].tx) && now.events[e] == Attributed(before.events[e], txs, actions)
    else now.events[e] == before.events[e]
  }

  /** The index entry of a contract event below `n`. */
  predicate Entry(events: map<nat, EventRecord>, n: nat, a: Bytes, e: nat) {
    e < n && e in events && IsContract(events[e].event) && events[e].event.address == Some(a)
  }

  /** Events below `n` attributed, the rest as before; and the index entries of those events added. */
  ghost predicate Backfilled(before: Rows, now: Rows, txs: map<nat, TxRecord>, actions: map<nat, ActionRecord>,
                             n: nat) {
    && now.events.Keys == before.events.Keys
    && (forall e {:trigger RowDone(before, now, txs, actions, n, e)} ::
          e in before.events ==> RowDone(before, now, txs, actions, n, e))
    && (forall a, e: nat :: (a, e) in now.byContract <==> (a, e) in before.byContract || Entry(before.events, n, a, e))
  }

  /** Attribution looks only at the event's address and attributes, and attributing twice changes nothing. */
  lemma {:induction false} EmittersIgnoreId(e: Event, id: Option<nat>, acts: seq<Action>)
    ensures Emitters(e.(actionId := id), acts) == Emitters(e, acts)
  {
    if acts != [] {
      EmittersIgnoreId(e, id, acts[..|acts| - 1]);
    }
  }

  lemma AttributedTwice(r: EventRecord, txs: map<nat, TxRecord>, actions: map<nat, ActionRecord>)
    requires Traceable(txs, actions, r.tx)
    ensures Attributed(Attributed(r, txs, actions), txs, actions) == Attributed(r, txs, actions)
  {
    var ids := txs[r.tx].actionIds;
    var acts := StoredActions(ids, actions);
    EmittersIgnoreId(r.event, EmitterId(r.event, acts, ids), acts);
  }

  // ---------- the store ----------

  datatype Rows = Rows(events: map<nat, EventRecord>, byContract: set<(Bytes, nat)>)

  datatype Op = PutByContract(address: Bytes, event: nat) | PutEvent(event: nat, record: EventRecord)

  function Apply(r: Rows, op: Op): Rows {
    match op
    case PutByContract(a, e) => r.(byContract := r.byContract + {(a, e)})
    case PutEvent(e, x) => r.(events := r.events[e := x])
  }

  function ApplyAll(r: Rows, ops: seq<Op>): Rows {
    if ops == [] then r else Apply(ApplyAll(r, ops[..|ops| - 1]), ops[|ops| - 1])
  }

  lemma ApplyMore(r: Rows, ops: seq<Op>, op: Op)
    ensures ApplyAll(r, ops + [op]) == Apply(ApplyAll(r, ops), op)
  {
    assert (ops + [op])[..|ops|] == ops;
  }

  class Store {
    const txs: map<nat, TxRecord>
    const actions: map<nat, ActionRecord>
    var rows: Rows

    constructor (txs: map<nat, TxRecord>, actions: map<nat, ActionRecord>, rows: Rows)
      ensures this.txs == txs && this.actions == actions && this.rows == rows
    {
      this.txs, this.actions, this.rows := txs, actions, rows;
    }

    method Commit(batch: seq<Op>)
      modifies this
      ensures rows == ApplyAll(old(rows), batch)
    {
      var i := 0;
      while i < |batch|
        invariant 0 <= i <= |batch|
        invariant rows == ApplyAll(old(rows), batch[..i])
      {
        assert batch[..i + 1][..i] == batch[..i];
        rows := Apply(rows, batch[i]);
        i := i + 1;
      }
      assert batch[..i] == batch;
    }
  }

  method LoadActions(store: Store, tx: nat) returns (r: Result<seq<Action>, Error>)
    ensures r.Ok? <==> Traceable(store.txs, store.actions, tx)
    ensures r.Ok? ==> r.value == StoredActions(store.txs[tx].actionIds, store.actions)
    ensures r.Err? ==> r.error != Panic
  {
    if tx !in store.txs {
      return Err(MissingTransaction);
    }
    var ids := store.txs[tx].actionIds;
    var acts: seq<Action> := [];
    var k := 0;
    while k < |ids|
      invariant 0 <= k <= |ids| == |store.txs[tx].actionIds| && |acts| == k
      invariant forall j :: 0 <= j < k ==> ids[j] in store.actions
      invariant forall j :: 0 <= j < k ==>
        acts[j] == Action(store.actions[ids[j]].address, store.actions[ids[j]].attributes, None, [])
    {
      if ids[k] !in store.actions {
        assert ids[k] in store.txs[tx].actionIds;
        return Err(MissingAction);
      }
      acts := acts + [Action(store.actions[ids[k]].address, store.actions[ids[k]].attributes, None, [])];
      k := k + 1;
    }
    r := Ok(acts);
  }

  /** Cached action lists are those of their transactions. */
  ghost predicate CacheOk(cache: map<nat, seq<Action>>, txs: map<nat, TxRecord>, actions: map<nat, ActionRecord>) {
    forall tx :: tx in cache ==> Traceable(txs, actions, tx) && cache[tx] == StoredActions(txs[tx].actionIds, actions)
  }

  ghost predicate CacheState(cache: map<nat, seq<Action>>, txs: map<nat, TxRecord>, actions: map<nat, ActionRecord>,
                             events: map<nat, EventRecord>, n: nat)
  {
    CacheOk(cache, txs, actions) && cache.Keys == ContractTxs(events, n) && Fits(events, n)
  }

  /** Cache lookup as the code does it: fill, clear when over the limit, then index. */
  method Lookup(store: Store, cache0: map<nat, seq<Action>>, tx: nat)
    returns (r: Result<seq<Action>, Error>, cache: map<nat, seq<Action>>)
    requires CacheOk(cache0, store.txs, store.actions) && |cache0| <= CACHE_LIMIT
    ensures CacheOk(cache, store.txs, store.actions) && |cache| <= CACHE_LIMIT
    ensures r.Ok? ==> Traceable(store.txs, store.actions, tx) && r.value == StoredActions(store.txs[tx].actionIds, store.actions)
    ensures r.Ok? ==> cache.Keys == cache0.Keys + {tx}
    ensures Traceable(store.txs, store.actions, tx) ==> (r == Err(Panic) || r.Ok?)
    ensures r == Err(Panic) <==> Traceable(store.txs, store.actions, tx) && |cache0.Keys + {tx}| > CACHE_LIMIT
  {
    cache := cache0;
    if tx !in cache {
      var loaded := LoadActions(store, tx);
      if loaded.Err? {
        return Err(loaded.error), cache;
      }
      cache := cache[tx := loaded.value];
      assert cache.Keys == cache0.Keys + {tx};
      if |cache| > CACHE_LIMIT {
        assert |cache0.Keys + {tx}| > CACHE_LIMIT;
        cache := map[];
      }
    } else {
      assert cache0.Keys + {tx} == cache0.Keys;
    }
    r := if tx in cache then Ok(cache[tx]) else Err(Panic);
  }

  // ---------- one event ----------

  lemma ContractTxsGrow(events: map<nat, EventRecord>, n: nat)
    ensures ContractTxs(events, n + 1) ==
            ContractTxs(events, n) + if n in events && IsContract(events[n].event) then {events[n].tx} else {}
  {
  }

  lemma CardinalityMonotone(a: set<nat>, b: set<nat>)
    requires a <= b
    ensures |a| <= |b|
  {
    assert b == a + (b - a);
  }

  /** The operations for one contract event advance the result by exactly that event. */
  lemma BackfilledStep(before: Rows, now: Rows, txs: map<nat, TxRecord>, actions: map<nat, ActionRecord>, e: nat,
                       next: Rows)
    requires Backfilled(before, now, txs, actions, e) && e in before.events && IsContract(before.events[e].event)
    requires before.events[e].event.address.Some? && Traceable(txs, actions, before.events[e].tx)
    requires next.byContract == now.byContract + {(before.events[e].event.address.value, e)}
    requires next.events == now.events[e := Attributed(before.events[e], txs, actions)]
    ensures Backfilled(before, next, txs, actions, e + 1)
  {
    forall x | x in before.events ensures RowDone(before, next, txs, actions, e + 1, x) {
      assert RowDone(before, now, txs, actions, e, x);
    }
    forall a, x: nat ensures (a, x) in next.byContract <==> (a, x) in before.byContract || Entry(before.events, e + 1, a, x) {
      assert (a, x) in now.byContract <==> (a, x) in before.byContract || Entry(before.events, e, a, x);
    }
  }

  /** Other events leave the rows as they are. */
  lemma BackfilledSkip(before: Rows, now: Rows, txs: map<nat, TxRecord>, actions: map<nat, ActionRecord>, e: nat)
    requires Backfilled(before, now, txs, actions, e) && !(e in before.events && IsContract(before.events[e].event))
    ensures Backfilled(before, now, txs, actions, e + 1)
  {
    forall x | x in before.events ensures RowDone(before, now, txs, actions, e + 1, x) {
      assert RowDone(before, now, txs, actions, e, x);
    }
    forall a, x: nat ensures (a, x) in now.byContract <==> (a, x) in before.byContract || Entry(before.events, e + 1, a, x) {
      assert (a, x) in now.byContract <==> (a, x) in before.byContract || Entry(before.events, e, a, x);
    }
  }

  method QueueEvent(store: Store, e: nat, record: EventRecord, acts: seq<Action>, batch0: seq<Op>, ghost now0: Rows)
    returns (batch: seq<Op>, ghost now: Rows)
    requires record.event.address.Some? && Traceable(store.txs, store.actions, record.tx)
    requires acts == StoredActions(store.txs[record.tx].actionIds, store.actions)
    requires now0 == ApplyAll(store.rows, batch0) && e in now0.events && now0.events[e] == record
    ensures now == ApplyAll(store.rows, batch)
    ensures now == Rows(now0.events[e := Attributed(record, store.txs, store.actions)],
                        now0.byContract + {(record.event.address.value, e)})
  {
    var add := PutByContract(record.event.address.value, e);
    ApplyMore(store.rows, batch0, add);
    batch, now := batch0 + [add], Apply(now0, add);
    var ids := store.txs[record.tx].actionIds;
    var actionId := EmitterId(record.event, acts, ids);
    if record.event.actionId != actionId {
      var rewrite := PutEvent(e, record.(event := record.event.(actionId := actionId)));
      ApplyMore(store.rows, batch, rewrite);
      batch, now := batch + [rewrite], Apply(now, rewrite);
    } else {
      assert now.events == now.events[e := record];
    }
  }

  /** One event of the scan: skipped, or looked up and queued. */
  method ProcessEvent(store: Store, snapshot: map<nat, EventRecord>, e: nat, cache0: map<nat, seq<Action>>,
                      batch0: seq<Op>,
                      ghost before: Rows, ghost now0: Rows)
    returns (r: Result<(), Error>, cache: map<nat, seq<Action>>, batch: seq<Op>, ghost now: Rows)
    requires before.events == snapshot && Backfilled(before, now0, store.txs, store.actions, e)
    requires now0 == ApplyAll(store.rows, batch0)
    requires CacheState(cache0, store.txs, store.actions, snapshot, e)
    ensures r.Ok? ==>
      && Backfilled(before, now, store.txs, store.actions, e + 1) && now == ApplyAll(store.rows, batch)
      && CacheState(cache, store.txs, store.actions, snapshot, e + 1)
    ensures r == Err(Panic) ==> !Fits(snapshot, e + 1)
    ensures r.Err? && r != Err(Panic) ==> !Clean(snapshot, store.txs, store.actions, e + 1)
  {
    cache, batch, now := cache0, batch0, now0;
    ContractTxsGrow(snapshot, e);
    if e in snapshot && IsContract(snapshot[e].event) {
      var record := snapshot[e];
      if record.event.address.None? {
        return Err(EventWithoutAddress), cache, batch, now;
      }
      var acts;
      acts, cache := Lookup(store, cache0, record.tx);
      if acts.Err? {
        return Err(acts.error), cache, batch, now;
      }
      assert RowDone(before, now0, store.txs, store.actions, e, e);
      batch, now := QueueEvent(store, e, record, acts.value, batch0, now0);
      BackfilledStep(before, now0, store.txs, store.actions, e, now);
    } else {
      BackfilledSkip(before, now0, store.txs, store.actions, e);
    }
    r := Ok(());
  }

  /**
     On a clean log (`n` is one past its last event id) the backfill succeeds if and only if its contract events belong to
     at most 10,000 transactions; otherwise it panics, having committed the work for some prefix of the log.
   */
  method BackfillContractEvents(store: Store, n: nat) returns (r: Result<(), Error>, ghost committed: nat)
    requires forall e :: e in store.rows.events ==> e < n
    modifies store
    ensures committed <= n && Backfilled(old(store.rows), store.rows, store.txs, store.actions, committed)
    ensures r.Ok? ==> committed == n
    ensures Clean(old(store.rows).events, store.txs, store.actions, n) ==>
              r == if Fits(old(store.rows).events, n) then Ok(()) else Err(Panic)
  {
    var snapshot := store.rows.events;
    ghost var before, now := store.rows, store.rows;
    committed := 0;
    var cache: map<nat, seq<Action>> := map[];
    var batch: seq<Op> := [];
    var e := 0;
    NothingDone(before, store.txs, store.actions);
    while e < n
      invariant e <= n && committed <= e
      invariant now == ApplyAll(store.rows, batch)
      invariant Backfilled(before, now, store.txs, store.actions, e)
      invariant Backfilled(before, store.rows, store.txs, store.actions, committed)
      invariant CacheState(cache, store.txs, store.actions, snapshot, e)
    {
      PrefixFits(snapshot, store.txs, store.actions, e + 1, n);
      var outcome;
      outcome, cache, batch, now := ProcessEvent(store, snapshot, e, cache, batch, before, now);
      if outcome.Err? {
        return outcome, committed;
      }
      if |batch| >= COMMIT_EVERY {
        store.Commit(batch);
        batch, committed := [], e + 1;
      }
      e := e + 1;
    }
    store.Commit(batch);
    r, committed := Ok(()), n;
  }

  lemma NothingDone(rows: Rows, txs: map<nat, TxRecord>, actions: map<nat, ActionRecord>)
    ensures Backfilled(rows, rows, txs, actions, 0)
    ensures CacheState(map[], txs, actions, rows.events, 0)
  {
    assert ContractTxs(rows.events, 0) == {};
  }

  lemma PrefixFits(events: map<nat, EventRecord>, txs: map<nat, TxRecord>, actions: map<nat, ActionRecord>, m: nat,
                   n: nat)
    requires m <= n
    ensures Fits(events, n) ==> Fits(events, m)
    ensures Clean(events, txs, actions, n) ==> Clean(events, txs, actions, m)
  {
    CardinalityMonotone(ContractTxs(events, m), ContractTxs(events, n));
  }

  /** A rerun after a crash or a panic completes the job: what was committed before does not show in the result. */
  lemma Resume(before: Rows, mid: Rows, now: Rows, txs: map<nat, TxRecord>, actions: map<nat, ActionRecord>, m: nat,
               n: nat)
    requires m <= n && Backfilled(before, mid, txs, actions, m) && Backfilled(mid, now, txs, actions, n)
    ensures Backfilled(before, now, txs, actions, n)
  {
    forall e | e in before.events ensures RowDone(before, now, txs, actions, n, e) {
      assert RowDone(before, mid, txs, actions, m, e) && RowDone(mid, now, txs, actions, n, e);
      if e < m && IsContract(before.events[e].event) {
        AttributedTwice(before.events[e], txs, actions);
      }
    }
    forall a, e: nat ensures Entry(mid.events, n, a, e) <==> Entry(before.events, n, a, e) {
      assert e in before.events ==> RowDone(before, mid, txs, actions, m, e);
    }
  }

  // ---------- a store on which it panics ----------

  ghost function ManyEvents(): map<nat, EventRecord> {
    map e: nat | 0 <= e < CACHE_LIMIT + 1 :: EventRecord(Event(Contract, ContractLog([]), Some([]), None, []), e, 0)
  }

  ghost function ManyTxs(): map<nat, TxRecord> {
    map i: nat | 0 <= i < CACHE_LIMIT + 1 :: TxRecord([], 0, 0, Regular, [], [], i, 1, [], [], [])
  }

  lemma {:induction false} ManyContractTxs(n: nat)
    requires n <= CACHE_LIMIT + 1
    ensures |ContractTxs(ManyEvents(), n)| == n && forall i :: i in ContractTxs(ManyEvents(), n) ==> i < n
  {
    if n > 0 {
      ManyContractTxs(n - 1);
      ContractTxsGrow(ManyEvents(), n - 1);
      assert ManyEvents()[n - 1].tx == n - 1;
    } else {
      assert ContractTxs(ManyEvents(), 0) == {};
    }
  }

  /** One contract event in each of 10,001 transactions is a clean log that the backfill cannot get through. */
  lemma PanicWitness()
    ensures Clean(ManyEvents(), ManyTxs(), map[], CACHE_LIMIT + 1)
    ensures !Fits(ManyEvents(), CACHE_LIMIT + 1)
  {
    ManyContractTxs(CACHE_LIMIT + 1);
  }
}

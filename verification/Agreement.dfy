/** Stores that the live writer reaches are what the backfills, the migration and the wallet feeds assume. */
module Agreement {
  import opened Prelude
  import opened IndexModel
  import opened UtxoInvariant
  import opened ContractInvariant
  import opened EventInvariant
  import opened RangeInvariant
  import opened IndexInvariants
  import BlockWriter
  import WalletSidecars
  import ShieldedSync
  import ContractEvents
  import Migration = ContractStatesMigration

  // ---------- balances ----------

  /** While live totals stay below 2^127 no balance is out of the range in which the writer's arithmetic is exact. */
  lemma LiveTotalsInRange(sha: Digest, run: seq<Input>, stores: seq<Db>, k: nat)
    requires History(sha, run, stores) && k <= |run|
    requires forall a :: Total(LiveValues(stores[k].utxo.utxos, a)) < TWO_127
    ensures BlockWriter.InRange(stores[k].utxo)
  {
    assert UtxoInv(stores[k].utxo) by { ReachableInv(sha, run, stores, k); }
    TotalsInRange(stores[k].utxo);
  }

  /**
     A valid block on a reachable store that leaves live totals below 2^127 is written without "balance underflow": all
     spent UTXOs are found and all balances are in range, which is what the writer's refinement asks for.
   */
  lemma NoUnderflow(sha: Digest, run: seq<Input>, stores: seq<Db>, k: nat, b: Block, txs: seq<AppliedTx>)
    requires History(sha, run, stores) && k <= |run| && ValidBlock(sha, stores[k], b, txs)
    requires var d := stores[k]; var direct := IndexTxs(d, txs, d.meta.ids, b.height, b.version);
      direct.Some? ==> forall a :: Total(LiveValues(direct.value.utxo.utxos, a)) < TWO_127
    ensures var d := stores[k]; var direct := IndexTxs(d, txs, d.meta.ids, b.height, b.version);
      direct.Some? && BlockWriter.InRange(direct.value.utxo)
  {
    var d := stores[k];
    assert TxsInv(sha, d, d.meta.ids) by { ReachableInv(sha, run, stores, k); }
    IndexTxsKeep(sha, d, txs, d.meta.ids, b.height, b.version);
    TotalsInRange(IndexTxs(d, txs, d.meta.ids, b.height, b.version).value.utxo);
  }

  /**
     The batched writer, one block after the other on a new store, passes through the stores of the history: it never
     stops, and no state blob is written twice in the whole run, while live totals stay below 2^127.
   */
  method IndexRun(sha: Digest, run: seq<Input>, ghost stores: seq<Db>)
    returns (store: BlockWriter.Store, outcome: Result<Ids, BlockWriter.WriteError>)
    requires History(sha, run, stores)
    requires forall k :: 0 <= k < |stores| ==> TotalsBounded(stores[k])
    ensures fresh(store) && store.Valid() && store.db == stores[|run|]
    ensures outcome == Ok(stores[|run|].meta.ids)
  {
    store := new BlockWriter.Store();
    outcome := Ok(Ids(0, 0, 0));
    var k := 0;
    while k < |run|
      invariant 0 <= k <= |run| && fresh(store) && store.Valid()
      invariant store.db == stores[k] && outcome == Ok(stores[k].meta.ids)
    {
      StepInRange(sha, run, stores, k);
      var i := run[k];
      outcome := store.WriteBlock(i.block, i.txs, i.key, i.window, outcome.value);
      k := k + 1;
    }
  }

  ghost predicate TotalsBounded(d: Db) {
    forall a :: Total(LiveValues(d.utxo.utxos, a)) < TWO_127
  }

  /** Each block of the history meets the conditions under which the batched writer is exact. */
  lemma StepInRange(sha: Digest, run: seq<Input>, stores: seq<Db>, k: nat)
    requires History(sha, run, stores) && k < |run| && TotalsBounded(stores[k + 1])
    ensures var d, i := stores[k], run[k];
      var direct := IndexTxs(d, i.txs, d.meta.ids, i.block.height, i.block.version);
      && direct.Some? && BlockWriter.InRange(direct.value.utxo)
      && IndexBlock(d, i.block, i.txs, i.key, i.window, d.meta.ids) == Some(stores[k + 1])
      && stores[k + 1].meta.ids == IdsAfter(d.meta.ids, i.txs)
  {
    assert StepAt(run, stores, Next(sha), k);
    assert Indexes(sha, stores[k], run[k], stores[k + 1]);
    LiveTotalsInRange(sha, run, stores, k + 1);
  }

  lemma TotalsInRange(p: UtxoPart)
    requires UtxoInv(p) && forall a :: Total(LiveValues(p.utxos, a)) < TWO_127
    ensures BlockWriter.InRange(p)
  {
    forall a | a in p.balances ensures 0 <= p.balances[a] < TWO_127 {
      BalancesNonNegative(p, a);
      assert BalanceOf(p, a) == Total(LiveValues(p.utxos, a));
    }
  }

  /** The DUST indexes of a reachable store are what the rebuild from its event log produces. */
  lemma DustMatchesLive(sha: Digest, run: seq<Input>, stores: seq<Db>, k: nat)
    requires History(sha, run, stores) && k <= |run|
    ensures var d := stores[k]; var rebuilt := Rebuild(d.event.events, d.meta.ids.event);
      rebuilt.dustGeneration == d.event.dustGeneration && rebuilt.dustByOwner == d.event.dustByOwner
  {
    ReachableEvents(sha, run, stores, k);
  }

  // ---------- wallet sidecars and the shielded feed ----------

  lemma TxFacts(sha: Digest, d: Db)
    requires Inv(sha, d)
    ensures RangeInv(d.tx.txs, d.tx.byHash, d.contract.actions, d.event.events, d.meta.ids)
    ensures WalletInv(d.tx, d.event.events, d.meta.ids) && BlobsExact(sha, d.contract)
  {
  }

  lemma IndexedFrom(d: Db)
    requires RangeInv(d.tx.txs, d.tx.byHash, d.contract.actions, d.event.events, d.meta.ids)
    requires WalletInv(d.tx, d.event.events, d.meta.ids) && EventInv(d.event, d.meta.ids.event)
    requires forall i: nat :: i < d.meta.ids.tx ==> VersionRow(d, i)
    ensures WalletSidecars.Indexed(d)
  {
    RebuildContains(d.event.events, d.meta.ids.event);
    forall i | 0 <= i < d.meta.ids.tx
      ensures d.tx.txs[i].height in d.block.blocks
      ensures d.block.blocks[d.tx.txs[i].height].version == d.tx.walletTx[i].version
    {
      assert VersionRow(d, i);
    }
  }

  /** The side-index backfill can rebuild what the live writer has. */
  lemma LiveStoreIndexed(sha: Digest, run: seq<Input>, stores: seq<Db>, k: nat)
    requires History(sha, run, stores) && k <= |run|
    ensures WalletSidecars.Indexed(stores[k])
  {
    var d := stores[k];
    assert Inv(sha, d) by { ReachableInv(sha, run, stores, k); }
    TxFacts(sha, d);
    assert EventInv(d.event, d.meta.ids.event) by { ReachableEvents(sha, run, stores, k); }
    forall i: nat | i < d.meta.ids.tx ensures VersionRow(d, i) {
      ReachableVersions(sha, run, stores, k, i);
    }
    IndexedFrom(d);
  }

  /** The rows the shielded feed walks are in order: each transaction starts where the one before it ended. */
  lemma LiveRowsOrdered(sha: Digest, run: seq<Input>, stores: seq<Db>, k: nat)
    requires History(sha, run, stores) && k <= |run|
    ensures var d := stores[k]; ShieldedSync.Ordered(d.tx.walletTx, d.meta.ids.tx)
  {
    var d := stores[k];
    assert Inv(sha, d) by { ReachableInv(sha, run, stores, k); }
    TxFacts(sha, d);
    OrderedFrom(d.tx, d.event.events, d.meta.ids);
  }

  lemma OrderedFrom(p: TxPart, events: map<nat, EventRecord>, ids: Ids)
    requires WalletInv(p, events, ids)
    ensures ShieldedSync.Ordered(p.walletTx, ids.tx)
  {
    forall i: nat | i < ids.tx ensures ShieldedSync.RowInOrder(p.walletTx, i) {
      assert WalletRow(p.txs, p.walletTx, events, i);
    }
  }

  // ---------- contract event attribution ----------

  function Unattributed(r: EventRecord): EventRecord {
    r.(event := r.event.(actionId := None))
  }

  /** Event `r` carries what attribution computes from the stored rows of its transaction. */
  predicate AttributedRow(txs: map<nat, TxRecord>, actions: map<nat, ActionRecord>, r: EventRecord) {
    && WellFormed(r.event)
    && ContractEvents.Traceable(txs, actions, r.tx)
    && ContractEvents.Attributed(Unattributed(r), txs, actions) == r
  }

  ghost predicate AllAttributed(d: Db) {
    forall e :: e in d.event.events ==> AttributedRow(d.tx.txs, d.contract.actions, d.event.events[e])
  }

  /** An event names a contract exactly when it is a contract event. */
  predicate WellFormed(e: Event) {
    e.address.Some? <==> ContractEvents.IsContract(e)
  }

  /** Replay hands over events as their constructors build them, without an action id. */
  predicate Raw(t: AppliedTx) {
    forall i :: 0 <= i < |t.events| ==> t.events[i].actionId.None? && WellFormed(t.events[i])
  }

  lemma {:induction false} SameEmitters(e: Event, f: Event, a: seq<Action>, b: seq<Action>)
    requires |a| == |b| && e.address == f.address && e.attributes == f.attributes
    requires forall i :: 0 <= i < |a| ==> a[i].address == b[i].address && a[i].attributes == b[i].attributes
    ensures Emitters(e, a) == Emitters(f, b)
  {
    if a != [] {
      SameEmitters(e, f, a[..|a| - 1], b[..|b| - 1]);
    }
  }

  predicate StoredAs(actions: map<nat, ActionRecord>, id: nat, a: Action) {
    id in actions && actions[id].address == a.address && actions[id].attributes == a.attributes
  }

  /** The actions of one transaction are stored from id `first` on. */
  predicate HoldsActions(actions: map<nat, ActionRecord>, acts: seq<Action>, first: nat) {
    forall k :: 0 <= k < |acts| ==> StoredAs(actions, first + k, acts[k])
  }

  /** The stored rows of the transaction just indexed attribute its events as the writer did. */
  lemma NewRowAttributed(txs: map<nat, TxRecord>, actions: map<nat, ActionRecord>, t: AppliedTx, k: nat, ids: Ids,
                         height: nat)
    requires k < |t.events| && Raw(t)
    requires ids.tx in txs && txs[ids.tx].actionIds == IdRange(ids.action, |t.actions|)
    requires HoldsActions(actions, t.actions, ids.action)
    ensures AttributedRow(txs, actions, EventRecord(EventOf(t, k, ids.action), ids.tx, height))
  {
    var range := IdRange(ids.action, |t.actions|);
    var r := EventRecord(EventOf(t, k, ids.action), ids.tx, height);
    forall i | i in range ensures i in actions {
      IdRangeHas(ids.action, |t.actions|, i);
      assert StoredAs(actions, i, t.actions[i - ids.action]);
    }
    SameEmitters(t.events[k], Unattributed(r).event, t.actions, ContractEvents.StoredActions(range, actions));
  }

  lemma OldRowAttributed(txs: map<nat, TxRecord>, actions: map<nat, ActionRecord>, txs': map<nat, TxRecord>,
                         actions': map<nat, ActionRecord>, r: EventRecord)
    requires AttributedRow(txs, actions, r)
    requires r.tx in txs' && txs'[r.tx] == txs[r.tx]
    requires forall a :: a in actions ==> a in actions' && actions'[a] == actions[a]
    ensures AttributedRow(txs', actions', r)
  {
    var ids := txs[r.tx].actionIds;
    assert ContractEvents.StoredActions(ids, actions) == ContractEvents.StoredActions(ids, actions');
  }

  ghost predicate EventsHaveTx(d: Db, ids: Ids) {
    Dense(d.tx.txs, ids.tx) && forall e :: e in d.event.events ==> d.event.events[e].tx in d.tx.txs
  }

  lemma IndexTxAttributes(d: Db, t: AppliedTx, ids: Ids, height: nat, index: nat, version: nat)
    requires EventsHaveTx(d, ids) && AllAttributed(d) && Raw(t) && IndexTx(d, t, ids, height, index, version).Some?
    requires Dense(d.contract.actions, ids.action)
    ensures AllAttributed(IndexTx(d, t, ids, height, index, version).value)
  {
    var q := IndexTx(d, t, ids, height, index, version).value;
    ActionsAfter(d.contract, t, ids, height);
    EventsAttributed(d, t, ids, height, q.tx.txs, q.contract.actions, q.event);
  }

  lemma ActionsAfter(p: ContractPart, t: AppliedTx, ids: Ids, height: nat)
    requires Dense(p.actions, ids.action)
    ensures var actions := IndexActions(p, t.actions, ids.action, ids.tx, height).actions;
      && (forall a :: a in p.actions ==> a in actions && actions[a] == p.actions[a])
      && HoldsActions(actions, t.actions, ids.action)
  {
    forall a: nat {
      IndexActionsAt(p, t.actions, ids.action, ids.tx, height, a);
    }
    var actions := IndexActions(p, t.actions, ids.action, ids.tx, height).actions;
    forall k | 0 <= k < |t.actions| ensures StoredAs(actions, ids.action + k, t.actions[k]) {
      IndexActionsAt(p, t.actions, ids.action, ids.tx, height, ids.action + k);
    }
  }

  lemma EventsAttributed(d: Db, t: AppliedTx, ids: Ids, height: nat, txs: map<nat, TxRecord>,
                         actions: map<nat, ActionRecord>,
                         event: EventPart)
    requires EventsHaveTx(d, ids) && AllAttributed(d) && Raw(t)
    requires event == IndexEvents(d.event, t, |t.events|, ids, height)
    requires ids.tx in txs && txs[ids.tx].actionIds == IdRange(ids.action, |t.actions|)
    requires forall i :: i in d.tx.txs ==> i in txs && txs[i] == d.tx.txs[i]
    requires forall a :: a in d.contract.actions ==> a in actions && actions[a] == d.contract.actions[a]
    requires HoldsActions(actions, t.actions, ids.action)
    ensures forall e :: e in event.events ==> AttributedRow(txs, actions, event.events[e])
  {
    forall e | e in event.events ensures AttributedRow(txs, actions, event.events[e]) {
      IndexEventsAt(d.event, t, |t.events|, ids, height, e);
      if ids.event <= e < ids.event + |t.events| {
        assert AttributedRow(txs, actions, event.events[e]) by {
          NewRowAttributed(txs, actions, t, e - ids.event, ids, height);
        }
      } else {
        assert AttributedRow(d.tx.txs, d.contract.actions, d.event.events[e]);
        OldRowAttributed(d.tx.txs, d.contract.actions, txs, actions, d.event.events[e]);
      }
    }
  }

  lemma {:induction false} IndexTxsAttribute(sha: Digest, d: Db, txs: seq<AppliedTx>, ids: Ids, height: nat,
                                             version: nat)
    requires TxsInv(sha, d, ids) && AllAttributed(d) && ValidTxs(sha, d, txs, ids, height, version)
    requires forall i :: 0 <= i < |txs| ==> Raw(txs[i])
    ensures IndexTxs(d, txs, ids, height, version).Some? && AllAttributed(IndexTxs(d, txs, ids, height, version).value)
  {
    if txs != [] {
      var n := |txs| - 1;
      assert IndexTxs(d, txs, ids, height, version).Some? by { IndexTxsKeep(sha, d, txs, ids, height, version); }
      IndexTxsAttribute(sha, d, txs[..n], ids, height, version);
      var p := IndexTxs(d, txs[..n], ids, height, version).value;
      assert TxsInv(sha, p, IdsAfter(ids, txs[..n])) by { IndexTxsKeep(sha, d, txs[..n], ids, height, version); }
      HaveTx(sha, p, IdsAfter(ids, txs[..n]));
      IndexTxAttributes(p, txs[n], IdsAfter(ids, txs[..n]), height, n, version);
    }
  }

  lemma HaveTx(sha: Digest, d: Db, ids: Ids)
    requires TxsInv(sha, d, ids)
    ensures EventsHaveTx(d, ids) && Dense(d.contract.actions, ids.action)
  {
  }

  predicate RawRun(run: seq<Input>) {
    forall i, k :: 0 <= i < |run| && 0 <= k < |run[i].txs| ==> Raw(run[i].txs[k])
  }

  /** In a reachable store every event is attributed as the stored actions of its transaction say. */
  lemma ReachableAttributed(sha: Digest, run: seq<Input>, stores: seq<Db>, k: nat)
    requires History(sha, run, stores) && RawRun(run) && k <= |run|
    ensures AllAttributed(stores[k])
  {
    var P := d => Inv(sha, d) && AllAttributed(d);
    assert P(EmptyDb()) by { InitialInv(sha, EmptyDb()); }
    forall d, i, q | i in run && P(d) && Indexes(sha, d, i, q) ensures P(q) {
      StepInv(sha, d, i, q);
      StepAttributed(sha, d, i, q);
    }
    ChainKeeps(run, stores, Next(sha), k, P);
  }

  lemma StepAttributed(sha: Digest, d: Db, i: Input, q: Db)
    requires TxsInv(sha, d, d.meta.ids) && AllAttributed(d) && RawRun([i]) && Indexes(sha, d, i, q)
    ensures AllAttributed(q)
  {
    assert i == [i][0];
    IndexTxsAttribute(sha, d, i.txs, d.meta.ids, i.block.height, i.block.version);
  }

  /** The stored action at position `i` of the row's transaction calls the entry point that the event names. */
  predicate StoredCall(d: Db, r: EventRecord, i: int)
    requires r.tx in d.tx.txs
  {
    var ids := d.tx.txs[r.tx].actionIds;
    && 0 <= i < |ids| && ids[i] in d.contract.actions && r.event.address.Some? && r.event.attributes.ContractLog?
    && d.contract.actions[ids[i]].address == r.event.address.value
    && d.contract.actions[ids[i]].attributes == Call(r.event.attributes.entryPoint)
  }

  /** A stored event names an action exactly when that is the only one of its transaction that can have emitted it. */
  lemma ReachableEmitter(sha: Digest, run: seq<Input>, stores: seq<Db>, k: nat, e: nat, x: nat)
    requires History(sha, run, stores) && RawRun(run) && k <= |run| && e in stores[k].event.events
    ensures var d := stores[k]; var r := d.event.events[e];
      && r.tx in d.tx.txs
      && (r.event.actionId == Some(x) <==>
          exists i {:trigger StoredCall(d, r, i)} :: StoredCall(d, r, i) && x == d.tx.txs[r.tx].actionIds[i]
            && forall j :: StoredCall(d, r, j) ==> j == i)
  {
    assert AllAttributed(stores[k]) by { ReachableAttributed(sha, run, stores, k); }
    EmitterOfRow(stores[k], stores[k].event.events[e], x);
  }

  lemma EmitterOfRow(d: Db, r: EventRecord, x: nat)
    requires AttributedRow(d.tx.txs, d.contract.actions, r)
    ensures r.event.actionId == Some(x) <==>
      exists i {:trigger StoredCall(d, r, i)} :: StoredCall(d, r, i) && x == d.tx.txs[r.tx].actionIds[i]
        && forall j :: StoredCall(d, r, j) ==> j == i
  {
    var ids, plain := d.tx.txs[r.tx].actionIds, Unattributed(r).event;
    var acts := ContractEvents.StoredActions(ids, d.contract.actions);
    EmitterIdIs(plain, acts, ids);
    forall i: nat ensures OnlyCall(plain, acts, i) <==> StoredCall(d, r, i) && forall j :: StoredCall(d, r, j) ==> j == i {
      forall j | 0 <= j < |ids|
        ensures acts[j].address == d.contract.actions[ids[j]].address
        ensures acts[j].attributes == d.contract.actions[ids[j]].attributes
      {
        assert ids[j] in ids;
      }
      OnlyStored(d, r, acts, i);
    }
    if i: nat :| OnlyCall(plain, acts, i) {
      assert r.event.actionId == Some(ids[i]) && StoredCall(d, r, i);
    }
  }

  lemma OnlyStored(d: Db, r: EventRecord, acts: seq<Action>, i: nat)
    requires r.tx in d.tx.txs && |acts| == |d.tx.txs[r.tx].actionIds|
    requires forall j :: 0 <= j < |acts| ==>
      var id := d.tx.txs[r.tx].actionIds[j];
      id in d.contract.actions && acts[j].address == d.contract.actions[id].address
      && acts[j].attributes == d.contract.actions[id].attributes
    ensures OnlyCall(Unattributed(r).event, acts, i) <==> StoredCall(d, r, i) && forall j :: StoredCall(d, r, j) ==> j == i
  {
    forall j ensures StoredCall(d, r, j) <==>
      && 0 <= j < |acts| && r.event.address.Some? && r.event.attributes.ContractLog?
      && acts[j].address == r.event.address.value && acts[j].attributes == Call(r.event.attributes.entryPoint)
    {
    }
  }

  /** Stored rows as a writer that knew no attribution would have left them. */
  ghost function Plain(d: Db): ContractEvents.Rows {
    ContractEvents.Rows(map e | e in d.event.events ::
                          if ContractEvents.IsContract(d.event.events[e].event) then Unattributed(d.event.events[e])
                          else d.event.events[e], {})
  }

  /**
     From rows without attribution, or from its own result, the backfill of contract events produces the rows and the
     index entries of the live writer.
   */
  lemma BackfillMatchesLive(sha: Digest, run: seq<Input>, stores: seq<Db>, k: nat, before: ContractEvents.Rows,
                            now: ContractEvents.Rows)
    requires History(sha, run, stores) && RawRun(run) && k <= |run|
    requires var d := stores[k]; before == Plain(d) || before == ContractEvents.Rows(d.event.events, d.event.byContract)
    requires var d := stores[k];
      ContractEvents.Backfilled(before, now, d.tx.txs, d.contract.actions, d.meta.ids.event)
    ensures var d := stores[k]; now == ContractEvents.Rows(d.event.events, d.event.byContract)
  {
    var d := stores[k];
    assert EventInv(d.event, d.meta.ids.event) by { ReachableEvents(sha, run, stores, k); }
    assert AllAttributed(d) by { ReachableAttributed(sha, run, stores, k); }
    RowsMatch(d, before, now);
  }

  lemma RowsMatch(d: Db, before: ContractEvents.Rows, now: ContractEvents.Rows)
    requires EventInv(d.event, d.meta.ids.event) && AllAttributed(d)
    requires before == Plain(d) || before == ContractEvents.Rows(d.event.events, d.event.byContract)
    requires ContractEvents.Backfilled(before, now, d.tx.txs, d.contract.actions, d.meta.ids.event)
    ensures now == ContractEvents.Rows(d.event.events, d.event.byContract)
  {
    EventsMatch(d, before, now);
    forall a, e: nat ensures (a, e) in now.byContract <==> (a, e) in d.event.byContract {
      EntryIsLive(d, before, now, a, e);
    }
    SameEntries(now.byContract, d.event.byContract);
  }

  lemma SameEntries(s: set<(Bytes, nat)>, t: set<(Bytes, nat)>)
    requires forall a, e: nat :: (a, e) in s <==> (a, e) in t
    ensures s == t
  {
    forall x | x in s + t ensures x in s && x in t {
      assert x == (x.0, x.1);
    }
  }

  lemma EventsMatch(d: Db, before: ContractEvents.Rows, now: ContractEvents.Rows)
    requires AllAttributed(d) && forall e :: e in d.event.events ==> e < d.meta.ids.event
    requires before == Plain(d) || before == ContractEvents.Rows(d.event.events, d.event.byContract)
    requires ContractEvents.Backfilled(before, now, d.tx.txs, d.contract.actions, d.meta.ids.event)
    ensures now.events == d.event.events
  {
    assert now.events.Keys == d.event.events.Keys by {
      assert before.events.Keys == d.event.events.Keys;
    }
    forall e | e in d.event.events ensures e in now.events && now.events[e] == d.event.events[e] {
      RowMatches(d, before, now, e);
    }
    SameRows(now.events, d.event.events);
  }

  lemma SameRows(a: map<nat, EventRecord>, b: map<nat, EventRecord>)
    requires a.Keys == b.Keys && forall e :: e in b ==> e in a && a[e] == b[e]
    ensures a == b
  {
  }

  lemma EntryIsLive(d: Db, before: ContractEvents.Rows, now: ContractEvents.Rows, a: Bytes, e: nat)
    requires EventInv(d.event, d.meta.ids.event) && AllAttributed(d)
    requires before == Plain(d) || before == ContractEvents.Rows(d.event.events, d.event.byContract)
    requires ContractEvents.Backfilled(before, now, d.tx.txs, d.contract.actions, d.meta.ids.event)
    ensures (a, e) in now.byContract <==> (a, e) in d.event.byContract
  {
    var n := d.meta.ids.event;
    RebuildContains(d.event.events, n);
    assert (a, e) in now.byContract <==> (a, e) in before.byContract || ContractEvents.Entry(before.events, n, a, e);
    if e in d.event.events {
      assert AttributedRow(d.tx.txs, d.contract.actions, d.event.events[e]);
    }
  }

  lemma RowMatches(d: Db, before: ContractEvents.Rows, now: ContractEvents.Rows, e: nat)
    requires AllAttributed(d) && e in d.event.events && e < d.meta.ids.event
    requires before == Plain(d) || before == ContractEvents.Rows(d.event.events, d.event.byContract)
    requires ContractEvents.Backfilled(before, now, d.tx.txs, d.contract.actions, d.meta.ids.event)
    ensures e in now.events && now.events[e] == d.event.events[e]
  {
    var r := d.event.events[e];
    assert AttributedRow(d.tx.txs, d.contract.actions, r);
    assert e in before.events && ContractEvents.RowDone(before, now, d.tx.txs, d.contract.actions, d.meta.ids.event, e);
    ContractEvents.AttributedTwice(Unattributed(r), d.tx.txs, d.contract.actions);
  }

  /**
     Every reachable store is clean, and so are its rows without attribution: there the backfill fails only when its cache
     overflows.
   */
  lemma ReachableClean(sha: Digest, run: seq<Input>, stores: seq<Db>, k: nat)
    requires History(sha, run, stores) && RawRun(run) && k <= |run|
    ensures var d := stores[k];
      && ContractEvents.Clean(d.event.events, d.tx.txs, d.contract.actions, d.meta.ids.event)
      && ContractEvents.Clean(Plain(d).events, d.tx.txs, d.contract.actions, d.meta.ids.event)
      && ContractEvents.Fits(Plain(d).events, d.meta.ids.event) == ContractEvents.Fits(d.event.events, d.meta.ids.event)
  {
    assert AllAttributed(stores[k]) by { ReachableAttributed(sha, run, stores, k); }
    var d := stores[k];
    AttributedClean(d);
    CleanAlike(d.event.events, Plain(d).events, d.tx.txs, d.contract.actions, d.meta.ids.event);
  }

  lemma AttributedClean(d: Db)
    requires AllAttributed(d)
    ensures ContractEvents.Clean(d.event.events, d.tx.txs, d.contract.actions, d.meta.ids.event)
  {
    forall e | e in d.event.events && ContractEvents.IsContract(d.event.events[e].event)
      ensures d.event.events[e].event.address.Some?
      ensures ContractEvents.Traceable(d.tx.txs, d.contract.actions, d.event.events[e].tx)
    {
      assert AttributedRow(d.tx.txs, d.contract.actions, d.event.events[e]);
    }
  }

  /** Rows that differ in their action ids only. */
  predicate SameButIds(rows: map<nat, EventRecord>, plain: map<nat, EventRecord>) {
    plain.Keys == rows.Keys && forall e :: e in rows ==>
      && plain[e].tx == rows[e].tx && plain[e].event.address == rows[e].event.address
      && plain[e].event.grouping == rows[e].event.grouping
  }

  lemma CleanAlike(rows: map<nat, EventRecord>, plain: map<nat, EventRecord>, txs: map<nat, TxRecord>,
                   actions: map<nat, ActionRecord>, n: nat)
    requires SameButIds(rows, plain) && ContractEvents.Clean(rows, txs, actions, n)
    ensures ContractEvents.Clean(plain, txs, actions, n)
    ensures ContractEvents.ContractTxs(plain, n) == ContractEvents.ContractTxs(rows, n)
  {
    assert forall e :: e in plain <==> e in rows;
  }

  // ---------- migration ----------

  /** A live store's actions as schema 1 would have held them, with the state inline. */
  ghost function Inline(p: ContractPart): map<nat, Migration.LegacyRecord>
    requires forall id :: id in p.actions && p.actions[id].stateHash.Some? ==> p.actions[id].stateHash.value in p.states
  {
    map id | id in p.actions ::
      Migration.LegacyRecord(p.actions[id].address, p.actions[id].attributes,
                             if p.actions[id].stateHash.None? then [] else p.states[p.actions[id].stateHash.value],
                             p.actions[id].tx, p.actions[id].height)
  }

  /** Migrating the inline form of a live store gives the live store's action records. */
  lemma MigrationMatchesLive(sha: Digest, run: seq<Input>, stores: seq<Db>, k: nat)
    requires History(sha, run, stores) && k <= |run|
    ensures var p := stores[k].contract;
      && (forall id :: id in p.actions && p.actions[id].stateHash.Some? ==> p.actions[id].stateHash.value in p.states)
      && Migration.ImageOf(sha, Inline(p)) == p.actions
  {
    assert Inv(sha, stores[k]) by { ReachableInv(sha, run, stores, k); }
    TxFacts(sha, stores[k]);
    InlineBack(sha, stores[k].contract);
  }

  lemma InlineBack(sha: Digest, p: ContractPart)
    requires BlobsExact(sha, p)
    ensures Migration.ImageOf(sha, Inline(p)) == p.actions
  {
  }

  /** A schema-1 store that was never migrated is where the migration can start. */
  lemma UnmigratedSound(sha: Digest, d: Migration.Disk, n: nat)
    requires Migration.SchemaOf(d.schema) < Migration.SCHEMA_CURRENT && d.cursor.None? && d.v2 == map[]
    requires Migration.BlobsOk(sha, d.legacy, d.states)
    ensures Migration.Sound(sha, d.legacy, n, d, true)
  {
  }
}

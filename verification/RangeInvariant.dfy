/** Transaction, action and event ids partition their ranges, with matching pointers in both directions. */
module RangeInvariant {
  import opened Prelude
  import opened IndexModel
  import ContractInvariant
  import EventInvariant

  function EventEnd(r: TxRecord): nat {
    r.firstEvent + r.eventCount
  }

  predicate InEvents(r: TxRecord, e: int) {
    r.firstEvent <= e < EventEnd(r)
  }

  ghost predicate Dense<V>(m: map<nat, V>, n: nat) {
    forall i :: i in m <==> 0 <= i < n
  }

  /** The first event of transaction `i`, or the next event id when `i` is not indexed yet. */
  function FirstEvent(txs: map<nat, TxRecord>, ids: Ids, i: nat): nat {
    if i in txs then txs[i].firstEvent else ids.event
  }

  /** Event ranges follow one another without gap or overlap, from 0 to the next event id. */
  ghost predicate Consecutive(txs: map<nat, TxRecord>, ids: Ids) {
    && FirstEvent(txs, ids, 0) == 0
    && (forall i {:trigger EventEnd(txs[i])} :: i in txs ==> EventEnd(txs[i]) == FirstEvent(txs, ids, i + 1))
  }

  /** An event belongs to the transaction whose range holds it. */
  ghost predicate EventPointers(txs: map<nat, TxRecord>, events: map<nat, EventRecord>) {
    && (forall e :: e in events ==> events[e].tx in txs && InEvents(txs[events[e].tx], e))
    && (forall i, e: nat :: i in txs && InEvents(txs[i], e) ==>
          e in events && events[e].tx == i && events[e].height == txs[i].height)
  }

  ghost predicate ActionPointers(txs: map<nat, TxRecord>, actions: map<nat, ActionRecord>) {
    && (forall a :: a in actions ==> actions[a].tx in txs && a in txs[actions[a].tx].actionIds)
    && (forall i, a :: i in txs && a in txs[i].actionIds ==>
          a in actions && actions[a].tx == i && actions[a].height == txs[i].height)
  }

  ghost predicate HashIndex(txs: map<nat, TxRecord>, byHash: set<(Bytes, nat)>) {
    forall h, i :: (h, i) in byHash <==> i in txs && txs[i].hash == h
  }

  ghost predicate RangeInv(txs: map<nat, TxRecord>, byHash: set<(Bytes, nat)>, actions: map<nat, ActionRecord>,
                     events: map<nat, EventRecord>, ids: Ids)
  {
    && Dense(txs, ids.tx) && Dense(actions, ids.action) && Dense(events, ids.event)
    && Consecutive(txs, ids)
    && EventPointers(txs, events)
    && ActionPointers(txs, actions)
    && HashIndex(txs, byHash)
  }

  /** `m'` is `m` plus rows for [lo, hi). */
  ghost predicate AddsRows<V>(m: map<nat, V>, m': map<nat, V>, lo: nat, hi: nat) {
    && Dense(m, lo) && Dense(m', hi) && lo <= hi
    && forall id :: id in m ==> m'[id] == m[id]
  }

  lemma NewEvents(p: EventPart, t: AppliedTx, ids: Ids, height: nat)
    requires Dense(p.events, ids.event)
    ensures
      var events := IndexEvents(p, t, |t.events|, ids, height).events;
      && AddsRows(p.events, events, ids.event, ids.event + |t.events|)
      && forall e :: ids.event <= e < ids.event + |t.events| ==>
           && events[e].tx == ids.tx && events[e].height == height
           && events[e].event.attributes == t.events[e - ids.event].attributes
  {
    forall id: nat {
      EventInvariant.IndexEventsAt(p, t, |t.events|, ids, height, id);
    }
  }

  lemma NewActions(p: ContractPart, t: AppliedTx, ids: Ids, height: nat)
    requires Dense(p.actions, ids.action)
    ensures
      var actions := IndexActions(p, t.actions, ids.action, ids.tx, height).actions;
      && AddsRows(p.actions, actions, ids.action, ids.action + |t.actions|)
      && forall a :: ids.action <= a < ids.action + |t.actions| ==> actions[a].tx == ids.tx && actions[a].height == height
  {
    forall id: nat {
      ContractInvariant.IndexActionsAt(p, t.actions, ids.action, ids.tx, height, id);
    }
  }

  lemma EventPointersKeep(txs: map<nat, TxRecord>, events: map<nat, EventRecord>, events': map<nat, EventRecord>,
                          n: nat, r: TxRecord)
    requires EventPointers(txs, events) && n !in txs
    requires AddsRows(events, events', r.firstEvent, EventEnd(r))
    requires forall e :: InEvents(r, e) ==> events'[e].tx == n && events'[e].height == r.height
    ensures EventPointers(txs[n := r], events')
  {
    var txs' := txs[n := r];
    forall e | e in events' ensures events'[e].tx in txs' && InEvents(txs'[events'[e].tx], e) {
      assert e in events || InEvents(r, e);
    }
    forall i, e: nat | i in txs' && InEvents(txs'[i], e)
      ensures e in events' && events'[e].tx == i && events'[e].height == txs'[i].height
    {
      assert i != n ==> e in events && events'[e] == events[e];
    }
  }

  lemma IdRangeHas(first: nat, n: nat, id: nat)
    ensures id in IdRange(first, n) <==> first <= id < first + n
  {
    if first <= id < first + n {
      assert IdRange(first, n)[id - first] == id;
    }
  }

  lemma ActionPointersKeep(txs: map<nat, TxRecord>, actions: map<nat, ActionRecord>, actions': map<nat, ActionRecord>,
                           n: nat, r: TxRecord, first: nat, count: nat)
    requires ActionPointers(txs, actions) && n !in txs && r.actionIds == IdRange(first, count)
    requires AddsRows(actions, actions', first, first + count)
    requires forall a :: first <= a < first + count ==> actions'[a].tx == n && actions'[a].height == r.height
    ensures ActionPointers(txs[n := r], actions')
  {
    var txs' := txs[n := r];
    forall a | a in actions' ensures actions'[a].tx in txs' && a in txs'[actions'[a].tx].actionIds {
      IdRangeHas(first, count, a);
    }
    forall i, a | i in txs' && a in txs'[i].actionIds
      ensures a in actions' && actions'[a].tx == i && actions'[a].height == txs'[i].height
    {
      IdRangeHas(first, count, a);
    }
  }

  lemma ConsecutiveKeeps(txs: map<nat, TxRecord>, ids: Ids, ids': Ids, r: TxRecord)
    requires Dense(txs, ids.tx) && Consecutive(txs, ids)
    requires r.firstEvent == ids.event && EventEnd(r) == ids'.event && ids'.tx == ids.tx + 1
    ensures Dense(txs[ids.tx := r], ids'.tx) && Consecutive(txs[ids.tx := r], ids')
  {
    var txs' := txs[ids.tx := r];
    forall i | i in txs' ensures EventEnd(txs'[i]) == FirstEvent(txs', ids', i + 1) {
      assert i in txs ==> EventEnd(txs[i]) == FirstEvent(txs, ids, i + 1);
    }
  }

  /** What one transaction adds keeps every range and pointer. */
  lemma IndexTxKeepsRanges(d: Db, t: AppliedTx, ids: Ids, height: nat, index: nat, version: nat,
                           tx: TxPart, contract: ContractPart, event: EventPart)
    requires RangeInv(d.tx.txs, d.tx.byHash, d.contract.actions, d.event.events, ids)
    requires |t.events| < TWO_32
    requires tx == IndexTxPart(d.tx, t, ids, height, index, version)
    requires contract == IndexActions(d.contract, t.actions, ids.action, ids.tx, height)
    requires event == IndexEvents(d.event, t, |t.events|, ids, height)
    ensures RangeInv(tx.txs, tx.byHash, contract.actions, event.events, IdsAfterTx(ids, t))
  {
    var r := TxRecordOf(t, ids, height, index);
    assert EventEnd(r) == ids.event + |t.events|;
    NewEvents(d.event, t, ids, height);
    NewActions(d.contract, t, ids, height);
    RangesStep(d.tx.txs, d.tx.byHash, d.contract.actions, d.event.events, ids, r, contract.actions, event.events,
               |t.actions|);
  }

  lemma RangesStep(txs: map<nat, TxRecord>, byHash: set<(Bytes, nat)>, actions: map<nat, ActionRecord>,
                   events: map<nat, EventRecord>, ids: Ids, r: TxRecord,
                   actions': map<nat, ActionRecord>, events': map<nat, EventRecord>, count: nat)
    requires RangeInv(txs, byHash, actions, events, ids)
    requires r.firstEvent == ids.event && r.actionIds == IdRange(ids.action, count)
    requires AddsRows(events, events', r.firstEvent, EventEnd(r))
    requires forall e :: InEvents(r, e) ==> events'[e].tx == ids.tx && events'[e].height == r.height
    requires AddsRows(actions, actions', ids.action, ids.action + count)
    requires forall a :: ids.action <= a < ids.action + count ==> actions'[a].tx == ids.tx && actions'[a].height == r.height
    ensures RangeInv(txs[ids.tx := r], byHash + {(r.hash, ids.tx)}, actions', events',
                     Ids(ids.tx + 1, ids.action + count, EventEnd(r)))
  {
    EventPointersKeep(txs, events, events', ids.tx, r);
    ActionPointersKeep(txs, actions, actions', ids.tx, r, ids.action, count);
    ConsecutiveKeeps(txs, ids, Ids(ids.tx + 1, ids.action + count, EventEnd(r)), r);
  }

  // ---------- Zswap positions ----------

  /** ZswapOutput events among `n` entries of the log from `first`. */
  function Outputs(events: map<nat, EventRecord>, first: nat, n: nat): nat {
    if n == 0 then 0 else Outputs(events, first, n - 1) + OutputAt(events, first + n - 1)
  }

  function OutputAt(events: map<nat, EventRecord>, e: nat): nat {
    if e in events && events[e].event.attributes.ZswapOutput? then 1 else 0
  }

  function OutputsOf(events: seq<Event>): nat {
    if events == [] then 0
    else OutputsOf(events[..|events| - 1]) + if events[|events| - 1].attributes.ZswapOutput? then 1 else 0
  }

  /** Transaction `i` advances the tree by its ZswapOutput events, starting where its predecessor ended. */
  ghost predicate WalletRow(txs: map<nat, TxRecord>, walletTx: map<nat, WalletTxIndex>, events: map<nat, EventRecord>,
                            i: nat) {
    && i in txs && i in walletTx
    && (forall e: nat :: InEvents(txs[i], e) ==> e in events)
    && walletTx[i].end == walletTx[i].start + Outputs(events, txs[i].firstEvent, txs[i].eventCount)
    && (0 < i ==> i - 1 in walletTx && walletTx[i].start == walletTx[i - 1].end)
  }

  ghost predicate WalletInv(p: TxPart, events: map<nat, EventRecord>, ids: Ids) {
    Dense(p.walletTx, ids.tx) && forall i :: 0 <= i < ids.tx ==> WalletRow(p.txs, p.walletTx, events, i)
  }

  lemma {:induction false} OutputsFrame(events: map<nat, EventRecord>, events': map<nat, EventRecord>, first: nat,
                                        n: nat)
    requires forall e :: first <= e < first + n ==> e in events && e in events' && events[e] == events'[e]
    ensures Outputs(events, first, n) == Outputs(events', first, n)
  {
    if n > 0 {
      OutputsFrame(events, events', first, n - 1);
    }
  }

  lemma {:induction false} OutputsLogged(events: map<nat, EventRecord>, log: seq<Event>, first: nat)
    requires forall e :: first <= e < first + |log| ==> e in events && events[e].event.attributes == log[e - first].attributes
    ensures Outputs(events, first, |log|) == OutputsOf(log)
  {
    if log != [] {
      OutputsLogged(events, log[..|log| - 1], first);
    }
  }

  /** What the ledger guarantees about the Zswap positions of the next transaction. */
  predicate ValidZswap(p: TxPart, t: AppliedTx, ids: Ids) {
    && t.zswapEnd == t.zswapStart + OutputsOf(t.events)
    && (0 < ids.tx && ids.tx - 1 in p.walletTx ==> t.zswapStart == p.walletTx[ids.tx - 1].end)
  }

  lemma IndexTxKeepsWallet(d: Db, t: AppliedTx, ids: Ids, height: nat, index: nat, version: nat,
                           tx: TxPart, event: EventPart)
    requires Dense(d.tx.txs, ids.tx) && Dense(d.event.events, ids.event)
    requires WalletInv(d.tx, d.event.events, ids) && ValidZswap(d.tx, t, ids)
    requires |t.events| < TWO_32
    requires tx == IndexTxPart(d.tx, t, ids, height, index, version)
    requires event == IndexEvents(d.event, t, |t.events|, ids, height)
    ensures WalletInv(tx, event.events, IdsAfterTx(ids, t))
  {
    NewEvents(d.event, t, ids, height);
    WalletStep(d.tx, d.event.events, event.events, t.events, ids, TxRecordOf(t, ids, height, index),
               WalletTxIndex(t.zswapStart, t.zswapEnd, version), tx);
  }

  lemma WalletStep(p: TxPart, events: map<nat, EventRecord>, events': map<nat, EventRecord>, log: seq<Event>, ids: Ids,
                   r: TxRecord, w: WalletTxIndex, q: TxPart)
    requires Dense(p.txs, ids.tx) && WalletInv(p, events, ids)
    requires r.firstEvent == ids.event && r.eventCount == |log|
    requires AddsRows(events, events', ids.event, ids.event + |log|)
    requires forall e :: ids.event <= e < ids.event + |log| ==> events'[e].event.attributes == log[e - ids.event].attributes
    requires w.end == w.start + OutputsOf(log) && (0 < ids.tx ==> w.start == p.walletTx[ids.tx - 1].end)
    requires q.txs == p.txs[ids.tx := r] && q.walletTx == p.walletTx[ids.tx := w]
    ensures forall i :: 0 <= i < ids.tx + 1 ==> WalletRow(q.txs, q.walletTx, events', i)
  {
    WalletRowNew(q.txs, q.walletTx, events', log, ids.tx, r);
    forall i | 0 <= i < ids.tx ensures WalletRow(q.txs, q.walletTx, events', i) {
      WalletRowKeeps(p.txs, p.walletTx, events, i, q.txs, q.walletTx, events');
    }
  }

  lemma WalletRowNew(txs: map<nat, TxRecord>, walletTx: map<nat, WalletTxIndex>, events: map<nat, EventRecord>,
                     log: seq<Event>, i: nat, r: TxRecord)
    requires i in txs && txs[i] == r && r.eventCount == |log|
    requires forall e :: InEvents(r, e) ==> e in events && events[e].event.attributes == log[e - r.firstEvent].attributes
    requires i in walletTx && walletTx[i].end == walletTx[i].start + OutputsOf(log)
    requires 0 < i ==> i - 1 in walletTx && walletTx[i].start == walletTx[i - 1].end
    ensures WalletRow(txs, walletTx, events, i)
  {
    OutputsLogged(events, log, r.firstEvent);
  }

  lemma WalletRowKeeps(txs: map<nat, TxRecord>, walletTx: map<nat, WalletTxIndex>, events: map<nat, EventRecord>,
                       i: nat,
                       txs': map<nat, TxRecord>, walletTx': map<nat, WalletTxIndex>, events': map<nat, EventRecord>)
    requires WalletRow(txs, walletTx, events, i)
    requires i in txs' && txs'[i] == txs[i]
    requires forall j :: j in walletTx ==> j in walletTx' && (j <= i ==> walletTx'[j] == walletTx[j])
    requires forall e :: e in events ==> e in events' && events'[e] == events[e]
    ensures WalletRow(txs', walletTx', events', i)
  {
    OutputsFrame(events, events', txs[i].firstEvent, txs[i].eventCount);
  }
}

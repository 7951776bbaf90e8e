/** The listings of a store that the block writer reaches: consistent, and growing only above the tip. */
module LiveListings {
  import opened Prelude
  import opened IndexModel
  import opened UtxoInvariant
  import opened ContractInvariant
  import opened EventInvariant
  import opened RangeInvariant
  import opened IndexInvariants
  import R = TransactionRows
  import K = KeyEncoding
  import C = Cursor
  import P = Pagination
  import W = PageWalk

  // ---------- rows are only ever added, above the tip ----------

  /** `m'` keeps every row of `m`. */
  ghost predicate Keeps<V(!new)>(m: map<nat, V>, m': map<nat, V>) {
    forall i :: i in m ==> i in m' && m'[i] == m[i]
  }

  /** Index entries are kept, and new ones point to ids in [lo, hi). */
  ghost predicate KeepsEntries(s: set<(Bytes, nat)>, s': set<(Bytes, nat)>, lo: nat, hi: nat) {
    s <= s' && forall x :: x in s' && x !in s ==> lo <= x.1 < hi
  }

  lemma {:induction false} CreateAllEntries(p: UtxoPart, us: seq<Utxo>, tx: nat)
    ensures KeepsEntries(p.addrTxs, CreateAll(p, us, tx).addrTxs, tx, tx + 1)
  {
    if us != [] {
      CreateAllEntries(p, us[..|us| - 1], tx);
    }
  }

  lemma {:induction false} SpendAllEntries(p: UtxoPart, us: seq<Utxo>, tx: nat)
    requires SpendAll(p, us, tx).Some?
    ensures KeepsEntries(p.addrTxs, SpendAll(p, us, tx).value.addrTxs, tx, tx + 1)
  {
    if us != [] {
      SpendAllEntries(p, us[..|us| - 1], tx);
    }
  }

  lemma IndexTxKeepsRows(d: Db, t: AppliedTx, ids: Ids, height: nat, index: nat, version: nat)
    requires IndexTx(d, t, ids, height, index, version).Some?
    requires Dense(d.event.events, ids.event) && Dense(d.contract.actions, ids.action)
    ensures var q := IndexTx(d, t, ids, height, index, version).value;
      && Keeps(d.event.events, q.event.events) && Keeps(d.contract.actions, q.contract.actions)
      && Dense(q.event.events, IdsAfterTx(ids, t).event) && Dense(q.contract.actions, IdsAfterTx(ids, t).action)
      && KeepsEntries(d.utxo.addrTxs, q.utxo.addrTxs, ids.tx, ids.tx + 1)
  {
    NewEvents(d.event, t, ids, height);
    NewActions(d.contract, t, ids, height);
    CreateAllEntries(d.utxo, t.created, ids.tx);
    SpendAllEntries(CreateAll(d.utxo, t.created, ids.tx), t.spent, ids.tx);
  }

  lemma {:induction false} IndexTxsKeepRows(d: Db, txs: seq<AppliedTx>, ids: Ids, height: nat, version: nat)
    requires IndexTxs(d, txs, ids, height, version).Some?
    requires Dense(d.event.events, ids.event) && Dense(d.contract.actions, ids.action)
    ensures var q := IndexTxs(d, txs, ids, height, version).value;
      && Keeps(d.event.events, q.event.events) && Keeps(d.contract.actions, q.contract.actions)
      && Dense(q.event.events, IdsAfter(ids, txs).event) && Dense(q.contract.actions, IdsAfter(ids, txs).action)
      && KeepsEntries(d.utxo.addrTxs, q.utxo.addrTxs, ids.tx, IdsAfter(ids, txs).tx)
  {
    if txs != [] {
      var n := |txs| - 1;
      IndexTxsKeepRows(d, txs[..n], ids, height, version);
      IdsAfterTxs(ids, txs[..n]);
      IdsAfterTxs(ids, txs);
      IndexTxKeepsRows(IndexTxs(d, txs[..n], ids, height, version).value, txs[n], IdsAfter(ids, txs[..n]), height, n, version);
    }
  }

  /** Everything in `d` is kept in `q`, and what `q` adds is above the tip of `d`. */
  ghost predicate Later(d: Db, q: Db) {
    && Keeps(d.tx.txs, q.tx.txs) && Keeps(d.event.events, q.event.events) && Keeps(d.contract.actions, q.contract.actions)
    && Keeps(d.block.blocks, q.block.blocks)
    && KeepsEntries(d.utxo.addrTxs, q.utxo.addrTxs, d.meta.ids.tx, q.meta.ids.tx)
    && NextHeight(d.meta) <= NextHeight(q.meta) && d.meta.ids.tx <= q.meta.ids.tx
    && (forall i :: i in q.tx.txs && i !in d.tx.txs ==> q.tx.txs[i].height >= NextHeight(d.meta))
  }

  lemma LaterTransitive(a: Db, b: Db, c: Db)
    requires Later(a, b) && Later(b, c)
    ensures Later(a, c)
  {
  }

  /** What a block adds to. */
  ghost predicate Base(d: Db) {
    && Dense(d.tx.txs, d.meta.ids.tx) && Dense(d.event.events, d.meta.ids.event)
    && Dense(d.contract.actions, d.meta.ids.action) && Dense(d.block.blocks, NextHeight(d.meta))
  }

  lemma InvBase(sha: Digest, d: Db)
    requires Inv(sha, d)
    ensures Base(d) && ContractInv(sha, d.contract, d.meta.ids.action)
    ensures EventPointers(d.tx.txs, d.event.events) && ActionPointers(d.tx.txs, d.contract.actions)
  {
  }

  lemma BlockIsLater(d: Db, b: Block, txs: seq<AppliedTx>, key: Bytes, window: seq<Bytes>)
    requires Base(d) && b.height == NextHeight(d.meta) && |txs| < TWO_32
    requires IndexBlock(d, b, txs, key, window, d.meta.ids).Some?
    ensures Later(d, IndexBlock(d, b, txs, key, window, d.meta.ids).value)
  {
    var p := IndexTxs(d, txs, d.meta.ids, b.height, b.version).value;
    IndexTxsKeepRows(d, txs, d.meta.ids, b.height, b.version);
    IndexTxsRows(d, txs, d.meta.ids, b.height, b.version, p);
    forall i | i in p.tx.txs && i !in d.tx.txs ensures p.tx.txs[i].height == b.height {
      assert TxRow(p.tx.txs[i], b.height, i - d.meta.ids.tx, txs[i - d.meta.ids.tx]);
    }
  }

  lemma ReachableBase(sha: Digest, run: seq<Input>, stores: seq<Db>, k: nat)
    requires History(sha, run, stores) && k <= |run|
    ensures Base(stores[k])
  {
    ReachableInv(sha, run, stores, k);
    InvBase(sha, stores[k]);
  }

  lemma NextIsLater(sha: Digest, run: seq<Input>, stores: seq<Db>, k: nat)
    requires History(sha, run, stores) && k < |run|
    ensures Later(stores[k], stores[k + 1])
  {
    var i := run[k];
    ReachableBase(sha, run, stores, k);
    assert StepAt(run, stores, Next(sha), k);
    assert Indexes(sha, stores[k], i, stores[k + 1]);
    BlockIsLater(stores[k], i.block, i.txs, i.key, i.window);
  }

  /** A store is later than every store the run passed through before. */
  lemma {:induction false} RunIsLater(sha: Digest, run: seq<Input>, stores: seq<Db>, j: nat, k: nat)
    requires History(sha, run, stores) && j <= k <= |run|
    ensures Later(stores[j], stores[k])
  {
    if j < k {
      RunIsLater(sha, run, stores, j, k - 1);
      NextIsLater(sha, run, stores, k - 1);
      LaterTransitive(stores[j], stores[k - 1], stores[k]);
    }
  }

  // ---------- what a listing reads ----------

  /** The entries of a listing's index: prefix and id. */
  ghost function Entries(d: Db, e: P.Endpoint): set<(Bytes, nat)> {
    match e
    case AddressTxs(_, _) => d.utxo.addrTxs
    case ContractActions(_) => d.contract.byAddress
    case ContractEvents(_, _) => d.event.byContract
    case LedgerEvents(_) => set id | id in d.event.events :: ([], id)
  }

  /** What a listing is for: the transactions of an owner, the actions or events of a contract, or all events. */
  ghost predicate Lists(d: Db, e: P.Endpoint, id: nat) {
    match e
    case AddressTxs(owner, from) => from <= id && id in d.tx.txs && R.Touches(d.tx.txs[id], owner)
    case ContractActions(address) => id in d.contract.actions && d.contract.actions[id].address == address
    case ContractEvents(address, from) =>
      from <= id && id in d.event.events && d.event.events[id].event.address == Some(address)
    case LedgerEvents(from) => from <= id && id in d.event.events
  }

  /** Heights of the records that the listing's ids point to. */
  ghost function Heights(d: Db, e: P.Endpoint): map<nat, nat> {
    match e
    case AddressTxs(_, _) => map i | i in d.tx.txs :: d.tx.txs[i].height
    case ContractActions(_) => map i | i in d.contract.actions :: d.contract.actions[i].height
    case ContractEvents(_, _) => map i | i in d.event.events :: d.event.events[i].height
    case LedgerEvents(_) => map i | i in d.event.events :: d.event.events[i].height
  }

  ghost function Owners(d: Db, e: P.Endpoint): map<nat, Bytes> {
    match e
    case ContractActions(_) => map i | i in d.contract.actions :: d.contract.actions[i].address
    case ContractEvents(_, _) =>
      map i | i in d.event.events && d.event.events[i].event.address.Some? :: d.event.events[i].event.address.value
    case _ => map[]
  }

  /** `s` is what a listing of the store `d` reads: byte keys in order, and the records they point to. */
  ghost predicate Reads(s: P.Store, d: Db, e: P.Endpoint) {
    && s.Typed()
    && (forall x :: x in Entries(d, e) ==> K.PrefixedU64Key(x.0, x.1) in s.keys)
    && (forall k :: k in s.keys ==> IsEntry(d, e, k))
    && s.heights == Heights(d, e) && s.owners == Owners(d, e)
    && s.blocks == (map h | h in d.block.blocks :: d.block.blocks[h].hash)
    && s.last == d.meta.lastHeight
  }

  ghost predicate IsEntry(d: Db, e: P.Endpoint, k: Bytes) {
    exists x :: x in Entries(d, e) && k == K.PrefixedU64Key(x.0, x.1)
  }

  /** Ids are u64, and addresses of the history index have 32 bytes. */
  ghost predicate Typed(d: Db) {
    && d.meta.ids.tx < K.TWO_64 && d.meta.ids.action < K.TWO_64 && d.meta.ids.event < K.TWO_64
    && forall x :: x in d.utxo.addrTxs ==> |x.0| == 32
  }

  /** An entry's id has a record, with the entry's prefix as its address where the listing checks it. */
  ghost predicate EntriesOk(d: Db, e: P.Endpoint) {
    forall x :: x in Entries(d, e) ==>
      && x.1 < K.TWO_64 && x.1 in Heights(d, e)
      && (if e.ChecksOwner() then x.1 in Owners(d, e) && Owners(d, e)[x.1] == x.0 else |x.0| == |e.Prefix()|)
  }

  /** The history index points to stored transactions. */
  lemma HistoryEntries(sha: Digest, run: seq<Input>, stores: seq<Db>, k: nat)
    requires History(sha, run, stores) && k <= |run|
    ensures forall x :: x in stores[k].utxo.addrTxs ==> x.1 < stores[k].meta.ids.tx
  {
    RunIsLater(sha, run, stores, 0, k);
  }

  lemma LiveEntries(sha: Digest, d: Db, e: P.Endpoint)
    requires ContractInv(sha, d.contract, d.meta.ids.action) && EventInv(d.event, d.meta.ids.event)
    requires Dense(d.tx.txs, d.meta.ids.tx) && Typed(d) && e.Valid()
    requires forall x :: x in d.utxo.addrTxs ==> x.1 < d.meta.ids.tx
    ensures EntriesOk(d, e)
  {
    RebuildContains(d.event.events, d.meta.ids.event);
  }

  lemma EntriesIndexed(s: P.Store, d: Db, e: P.Endpoint)
    requires EntriesOk(d, e) && Reads(s, d, e)
    ensures P.Indexed(s, e)
  {
    forall k | k in s.keys ensures P.IndexedKey(s, e, k) {
      var x :| x in Entries(d, e) && k == K.PrefixedU64Key(x.0, x.1);
      K.PrefixedKeys(x.0, x.1, x.0, x.1);
    }
  }

  /** In a reachable store a listing's index says which rows are meant. */
  lemma EntriesMean(sha: Digest, run: seq<Input>, stores: seq<Db>, k: nat, e: P.Endpoint, id: nat)
    requires History(sha, run, stores) && k <= |run|
    ensures Lists(stores[k], e, id) <==> (e.Prefix(), id) in Entries(stores[k], e) && e.First() <= id
  {
    var d := stores[k];
    StoreFacts(sha, run, stores, k);
    assert R.OwnerIndex(d.tx.txs, d.utxo.addrTxs) by { R.ReachableRows(sha, run, stores, k); }
    IndexesMean(sha, d, e, id);
  }

  lemma IndexesMean(sha: Digest, d: Db, e: P.Endpoint, id: nat)
    requires ContractInv(sha, d.contract, d.meta.ids.action) && EventInv(d.event, d.meta.ids.event)
    requires R.OwnerIndex(d.tx.txs, d.utxo.addrTxs)
    ensures Lists(d, e, id) <==> (e.Prefix(), id) in Entries(d, e) && e.First() <= id
  {
    match e
    case AddressTxs(_, _) =>
    case ContractActions(_) =>
    case ContractEvents(_, _) => RebuildContains(d.event.events, d.meta.ids.event);
    case LedgerEvents(_) =>
  }

  lemma EntriesKnown(sha: Digest, run: seq<Input>, stores: seq<Db>, k: nat, e: P.Endpoint)
    requires History(sha, run, stores) && k <= |run| && Typed(stores[k]) && e.Valid()
    ensures EntriesOk(stores[k], e)
  {
    StoreFacts(sha, run, stores, k);
    HistoryEntries(sha, run, stores, k);
    LiveEntries(sha, stores[k], e);
  }

  /** Every listing of a reachable store is consistent. */
  lemma LiveListingIndexed(sha: Digest, run: seq<Input>, stores: seq<Db>, k: nat, s: P.Store, e: P.Endpoint)
    requires History(sha, run, stores) && k <= |run| && Typed(stores[k]) && e.Valid() && Reads(s, stores[k], e)
    ensures P.Indexed(s, e)
  {
    EntriesKnown(sha, run, stores, k, e);
    EntriesIndexed(s, stores[k], e);
  }

  // ---------- listings grow above the tip ----------

  /** A new event or action belongs to a new transaction, so it is above the old tip. */
  lemma NewEventAbove(d: Db, q: Db, i: nat)
    requires Later(d, q) && EventPointers(d.tx.txs, d.event.events) && EventPointers(q.tx.txs, q.event.events)
    requires i in q.event.events && i !in d.event.events
    ensures q.event.events[i].height >= NextHeight(d.meta)
  {
    assert InEvents(q.tx.txs[q.event.events[i].tx], i);
    assert q.event.events[i].tx !in d.tx.txs;
  }

  lemma NewActionAbove(d: Db, q: Db, i: nat)
    requires Later(d, q) && ActionPointers(d.tx.txs, d.contract.actions) && ActionPointers(q.tx.txs, q.contract.actions)
    requires i in q.contract.actions && i !in d.contract.actions
    ensures q.contract.actions[i].height >= NextHeight(d.meta)
  {
    assert i in q.tx.txs[q.contract.actions[i].tx].actionIds;
    assert q.contract.actions[i].tx !in d.tx.txs;
  }

  /** Entries are kept, and a new entry's record is above the old tip. */
  ghost predicate EntriesGrow(d: Db, q: Db, e: P.Endpoint) {
    && Entries(d, e) <= Entries(q, e) && Keeps(Heights(d, e), Heights(q, e))
    && forall x :: x in Entries(q, e) && x !in Entries(d, e) ==>
         x.1 in Heights(q, e) && Heights(q, e)[x.1] >= NextHeight(d.meta)
  }

  lemma EntriesGrowAbove(sha: Digest, d: Db, q: Db, e: P.Endpoint)
    requires Later(d, q) && Base(d) && Base(q)
    requires ContractInv(sha, d.contract, d.meta.ids.action) && ContractInv(sha, q.contract, q.meta.ids.action)
    requires EventInv(d.event, d.meta.ids.event) && EventInv(q.event, q.meta.ids.event)
    requires forall i :: i in q.event.events && i !in d.event.events ==> q.event.events[i].height >= NextHeight(d.meta)
    requires forall i :: i in q.contract.actions && i !in d.contract.actions ==>
      q.contract.actions[i].height >= NextHeight(d.meta)
    ensures EntriesGrow(d, q, e)
  {
    RebuildContains(d.event.events, d.meta.ids.event);
    RebuildContains(q.event.events, q.meta.ids.event);
    forall x | x in Entries(d, e) ensures x in Entries(q, e) {
      assert x == (x.0, x.1);
    }
  }

  lemma ReadsGrow(s: P.Store, t: P.Store, d: Db, q: Db, e: P.Endpoint)
    requires Reads(s, d, e) && Reads(t, q, e) && EntriesGrow(d, q, e) && Keeps(d.block.blocks, q.block.blocks)
    requires d.meta.lastHeight.Some? && forall x :: x in Entries(q, e) ==> x.1 < K.TWO_64
    ensures W.Grows(s, t)
  {
    forall k | k in s.keys ensures k in t.keys {
      assert IsEntry(d, e, k);
    }
    forall k | k in t.keys && k !in s.keys ensures W.NewRow(s, t, k) {
      var x :| x in Entries(q, e) && k == K.PrefixedU64Key(x.0, x.1);
      K.PrefixedKeys(x.0, x.1, x.0, x.1);
      assert x !in Entries(d, e);
    }
  }

  /** Between two stores of one run, every listing grows as a walk over its pages expects. */
  lemma LiveListingGrows(sha: Digest, run: seq<Input>, stores: seq<Db>, j: nat, k: nat, s: P.Store, t: P.Store,
                         e: P.Endpoint)
    requires History(sha, run, stores) && 0 < j <= k <= |run| && Typed(stores[k]) && e.Valid()
    requires Reads(s, stores[j], e) && Reads(t, stores[k], e)
    ensures W.Grows(s, t)
  {
    var d, q := stores[j], stores[k];
    RunIsLater(sha, run, stores, j, k);
    StoreFacts(sha, run, stores, j);
    StoreFacts(sha, run, stores, k);
    forall i | i in q.event.events && i !in d.event.events ensures q.event.events[i].height >= NextHeight(d.meta) {
      NewEventAbove(d, q, i);
    }
    forall i | i in q.contract.actions && i !in d.contract.actions
      ensures q.contract.actions[i].height >= NextHeight(d.meta)
    {
      NewActionAbove(d, q, i);
    }
    EntriesGrowAbove(sha, d, q, e);
    EntriesKnown(sha, run, stores, k, e);
    ReadsGrow(s, t, d, q, e);
  }

  lemma StoreFacts(sha: Digest, run: seq<Input>, stores: seq<Db>, k: nat)
    requires History(sha, run, stores) && k <= |run|
    ensures var d := stores[k];
      && Base(d) && ContractInv(sha, d.contract, d.meta.ids.action) && EventInv(d.event, d.meta.ids.event)
      && EventPointers(d.tx.txs, d.event.events) && ActionPointers(d.tx.txs, d.contract.actions)
      && (k > 0 ==> d.meta.lastHeight.Some?)
  {
    ReachableInv(sha, run, stores, k);
    InvBase(sha, stores[k]);
    ReachableEvents(sha, run, stores, k);
    if k > 0 {
      assert StepAt(run, stores, Next(sha), k - 1);
      assert Indexes(sha, stores[k - 1], run[k - 1], stores[k]);
    }
  }

  // ---------- walks over a live store ----------

  /** Records of a reachable store are at or below its tip. */
  lemma HeightsBelowTip(sha: Digest, run: seq<Input>, stores: seq<Db>, k: nat, e: P.Endpoint, id: nat)
    requires History(sha, run, stores) && k <= |run| && id in Heights(stores[k], e)
    ensures Heights(stores[k], e)[id] < NextHeight(stores[k].meta)
  {
    var d := stores[k];
    StoreFacts(sha, run, stores, k);
    assert BlocksInv(d) by { ReachableInv(sha, run, stores, k); }
    if id in d.event.events {
      assert InEvents(d.tx.txs[d.event.events[id].tx], id);
    }
    if id in d.contract.actions {
      assert id in d.tx.txs[d.contract.actions[id].tx].actionIds;
    }
  }

  /** What a listing of a reachable store shows at its own tip: every entry of its prefix from the first id on. */
  lemma VisibleAtTip(sha: Digest, run: seq<Input>, stores: seq<Db>, k: nat, s: P.Store, e: P.Endpoint, id: nat)
    requires History(sha, run, stores) && 0 < k <= |run| && Typed(stores[k]) && e.Valid()
    requires Reads(s, stores[k], e) && s.CurrentTip().Ok? && s.CurrentTip().value.Some?
    ensures id in P.Visible(s, e, s.CurrentTip().value) <==> (e.Prefix(), id) in Entries(stores[k], e) && e.First() <= id
  {
    var d := stores[k];
    EntriesKnown(sha, run, stores, k, e);
    if id < K.TWO_64 {
      KeyIsEntry(s, d, e, id);
    }
    if id in Heights(d, e) {
      HeightsBelowTip(sha, run, stores, k, e, id);
    }
  }

  lemma VisibleIsListed(sha: Digest, run: seq<Input>, stores: seq<Db>, k: nat, s: P.Store, e: P.Endpoint, id: nat)
    requires History(sha, run, stores) && 0 < k <= |run| && Typed(stores[k]) && e.Valid()
    requires Reads(s, stores[k], e) && s.CurrentTip().Ok? && s.CurrentTip().value.Some?
    ensures id in P.Visible(s, e, s.CurrentTip().value) <==> Lists(stores[k], e, id)
  {
    VisibleAtTip(sha, run, stores, k, s, e, id);
    EntriesMean(sha, run, stores, k, e, id);
  }

  lemma KeyIsEntry(s: P.Store, d: Db, e: P.Endpoint, id: nat)
    requires Reads(s, d, e) && EntriesOk(d, e) && id < K.TWO_64
    ensures K.PrefixedU64Key(e.Prefix(), id) in s.keys <==> (e.Prefix(), id) in Entries(d, e)
  {
    var entry := (e.Prefix(), id);
    assert entry in Entries(d, e) ==> K.PrefixedU64Key(entry.0, entry.1) in s.keys;
    if K.PrefixedU64Key(e.Prefix(), id) in s.keys {
      var x :| x in Entries(d, e) && K.PrefixedU64Key(e.Prefix(), id) == K.PrefixedU64Key(x.0, x.1);
      K.PrefixedKeys(e.Prefix(), id, x.0, x.1);
      assert x == entry;
    }
  }

  /**
     Step `i` of a walk checks its tip or cursor in the store after `at[i]` blocks of the run, and reads its rows from the
     store after `until[i]` blocks.
   */
  ghost predicate ReadsAt(codec: C.Codec, stores: seq<Db>, at: seq<nat>, until: seq<nat>, e: P.Endpoint, order: K.Order,
                          steps: seq<W.Step>, i: nat)
    requires codec.Valid() && i < |at| == |until| == |steps|
  {
    && 0 < at[0] <= at[i] <= until[i] < |stores| && Typed(stores[at[i]]) && Typed(stores[until[i]])
    && Reads(steps[i].first, stores[at[i]], e) && Reads(steps[i].store, stores[until[i]], e)
    && (i > 0 ==> steps[i - 1].page.next.Some?)
    && P.Answers(codec, steps[i].first, steps[i].store, e,
                 P.Request(steps[i].count, order, if i == 0 then None else steps[i - 1].page.next, None), steps[i].page,
                 steps[i].more)
  }

  lemma ReadsAtIsStep(codec: C.Codec, sha: Digest, run: seq<Input>, stores: seq<Db>, at: seq<nat>, until: seq<nat>,
                      e: P.Endpoint, order: K.Order, steps: seq<W.Step>, i: nat)
    requires codec.Valid() && History(sha, run, stores) && i < |at| == |until| == |steps| && e.Valid()
    requires ReadsAt(codec, stores, at, until, e, order, steps, 0) && ReadsAt(codec, stores, at, until, e, order, steps, i)
    ensures W.IsStep(codec, e, order, steps, i)
  {
    Listed(sha, run, stores, at[0], at[i], steps[0].first, steps[i].first, e);
    Listed(sha, run, stores, at[0], until[i], steps[0].first, steps[i].store, e);
  }

  lemma Listed(sha: Digest, run: seq<Input>, stores: seq<Db>, j: nat, k: nat, s: P.Store, t: P.Store, e: P.Endpoint)
    requires History(sha, run, stores) && 0 < j <= k <= |run| && e.Valid()
    requires Typed(stores[j]) && Typed(stores[k]) && Reads(s, stores[j], e) && Reads(t, stores[k], e)
    ensures P.Indexed(t, e) && W.Grows(s, t)
  {
    LiveListingIndexed(sha, run, stores, k, t, e);
    LiveListingGrows(sha, run, stores, j, k, s, t, e);
  }

  /**
     While the writer goes on appending blocks, between requests and within them, a client that follows `next_cursor` to
     the end gets exactly the entries that its listing had when the first request read its tip, once each and in order.
   */
  lemma LiveWalk(codec: C.Codec, sha: Digest, run: seq<Input>, stores: seq<Db>, at: seq<nat>, until: seq<nat>,
                 e: P.Endpoint, order: K.Order, steps: seq<W.Step>)
    requires codec.Valid() && History(sha, run, stores) && 0 < |at| == |until| == |steps| && at[0] <= |run| && e.Valid()
    requires forall i :: 0 <= i < |steps| ==> ReadsAt(codec, stores, at, until, e, order, steps, i)
    requires steps[|steps| - 1].page.next.None?
    ensures P.InOrder(order, W.Delivered(steps))
    ensures forall id :: id in W.Delivered(steps) <==> Lists(stores[at[0]], e, id)
  {
    WalkSteps(codec, sha, run, stores, at, until, e, order, steps);
    W.WalkComplete(codec, e, order, steps);
    forall id: nat ensures id in W.Delivered(steps) <==> Lists(stores[at[0]], e, id) {
      VisibleIsListed(sha, run, stores, at[0], steps[0].first, e, id);
    }
  }

  /** The requests form a walk from the tip of the first store. */
  lemma WalkSteps(codec: C.Codec, sha: Digest, run: seq<Input>, stores: seq<Db>, at: seq<nat>, until: seq<nat>,
                  e: P.Endpoint, order: K.Order, steps: seq<W.Step>)
    requires codec.Valid() && History(sha, run, stores) && 0 < |at| == |until| == |steps| && at[0] <= |run| && e.Valid()
    requires forall i :: 0 <= i < |steps| ==> ReadsAt(codec, stores, at, until, e, order, steps, i)
    ensures forall i :: 0 <= i < |steps| ==> W.IsStep(codec, e, order, steps, i)
    ensures ReadsAt(codec, stores, at, until, e, order, steps, 0) && stores[at[0]].meta.lastHeight.Some?
    ensures steps[0].first.CurrentTip().Ok? && steps[0].first.CurrentTip().value == steps[0].page.tip
  {
    assert ReadsAt(codec, stores, at, until, e, order, steps, 0);
    forall i: nat | i < |steps| ensures W.IsStep(codec, e, order, steps, i) {
      ReadsAtIsStep(codec, sha, run, stores, at, until, e, order, steps, i);
    }
    assert stores[at[0]].meta.lastHeight.Some? by { StoreFacts(sha, run, stores, at[0]); }
    W.FirstTip(codec, e, order, steps);
  }
}

/** What holds in every store that the block writer can reach. */
module IndexInvariants {
  import opened Prelude
  import opened IndexModel
  import opened UtxoInvariant
  import opened ContractInvariant
  import opened EventInvariant
  import opened RangeInvariant

  // ---------- one transaction ----------

  ghost predicate TxsInv(sha: Digest, d: Db, ids: Ids) {
    && UtxoInv(d.utxo)
    && ContractInv(sha, d.contract, ids.action)
    && RangeInv(d.tx.txs, d.tx.byHash, d.contract.actions, d.event.events, ids)
    && WalletInv(d.tx, d.event.events, ids)
  }

  /** What ledger replay guarantees about a transaction's outcome in the state it is applied to. */
  predicate ValidTx(sha: Digest, d: Db, t: AppliedTx, ids: Ids) {
    && ValidUtxos(d.utxo, t, ids.tx)
    && (forall i :: 0 <= i < |t.actions| ==> Hashed(sha, t.actions[i]))
    && ValidZswap(d.tx, t, ids)
    && |t.events| < TWO_32
  }

  lemma IndexTxKeeps(sha: Digest, d: Db, t: AppliedTx, ids: Ids, height: nat, index: nat, version: nat)
    requires TxsInv(sha, d, ids) && ValidTx(sha, d, t, ids)
    ensures IndexTx(d, t, ids, height, index, version).Some?
    ensures TxsInv(sha, IndexTx(d, t, ids, height, index, version).value, IdsAfterTx(ids, t))
  {
    IndexUtxosKeeps(d.utxo, t, ids.tx);
    var q := IndexTx(d, t, ids, height, index, version).value;
    assert ContractInv(sha, q.contract, IdsAfterTx(ids, t).action) by {
      IndexActionsKeep(sha, d.contract, t.actions, ids.action, ids.tx, height);
    }
    assert RangeInv(q.tx.txs, q.tx.byHash, q.contract.actions, q.event.events, IdsAfterTx(ids, t)) by {
      IndexTxKeepsRanges(d, t, ids, height, index, version, q.tx, q.contract, q.event);
    }
    assert WalletInv(q.tx, q.event.events, IdsAfterTx(ids, t)) by {
      IndexTxKeepsWallet(d, t, ids, height, index, version, q.tx, q.event);
    }
  }

  // ---------- the transactions of a block ----------

  predicate ValidTxs(sha: Digest, d: Db, txs: seq<AppliedTx>, ids: Ids, height: nat, version: nat) {
    txs == [] ||
    var n := |txs| - 1;
    && ValidTxs(sha, d, txs[..n], ids, height, version)
    && IndexTxs(d, txs[..n], ids, height, version).Some?
    && ValidTx(sha, IndexTxs(d, txs[..n], ids, height, version).value, txs[n], IdsAfter(ids, txs[..n]))
  }

  lemma {:induction false} IndexTxsKeep(sha: Digest, d: Db, txs: seq<AppliedTx>, ids: Ids, height: nat, version: nat)
    requires TxsInv(sha, d, ids) && ValidTxs(sha, d, txs, ids, height, version)
    ensures IndexTxs(d, txs, ids, height, version).Some?
    ensures TxsInv(sha, IndexTxs(d, txs, ids, height, version).value, IdsAfter(ids, txs))
  {
    if txs != [] {
      var n := |txs| - 1;
      IndexTxsKeep(sha, d, txs[..n], ids, height, version);
      IndexTxKeeps(sha, IndexTxs(d, txs[..n], ids, height, version).value, txs[n], IdsAfter(ids, txs[..n]),
                   height, n, version);
    }
  }

  /** A row of the `k`-th transaction of the block at `height`: what replay handed over, field by field. */
  predicate TxRow(r: TxRecord, height: nat, k: int, t: AppliedTx) {
    && r.height == height && r.indexInBlock == k
    && r.hash == t.hash && r.variant == t.variant && r.identifiers == t.identifiers && r.raw == t.raw
    && r.created == t.created && r.spent == t.spent
  }

  lemma LastTx(d: Db, txs: seq<AppliedTx>, ids: Ids, height: nat, version: nat) returns (p: Db, q: Db)
    requires txs != [] && IndexTxs(d, txs, ids, height, version).Some?
    ensures
      var n := |txs| - 1;
      && IndexTxs(d, txs[..n], ids, height, version) == Some(p)
      && IndexTxs(d, txs, ids, height, version) == Some(q)
      && q.block == p.block && q.meta == p.meta
      && q.tx.txs == p.tx.txs[IdsAfter(ids, txs[..n]).tx := TxRecordOf(txs[n], IdsAfter(ids, txs[..n]), height, n)]
  {
    p := IndexTxs(d, txs[..|txs| - 1], ids, height, version).value;
    q := IndexTxs(d, txs, ids, height, version).value;
  }

  /** `rows` are the records of `txs`, indexed at `height` from id `first`. */
  ghost predicate TxRows(rows: map<nat, TxRecord>, txs: seq<AppliedTx>, first: nat, height: nat) {
    forall i :: first <= i < first + |txs| ==> i in rows && TxRow(rows[i], height, i - first, txs[i - first])
  }

  /** A block's transactions get the next ids, in order; earlier rows never change. */
  lemma {:induction false} IndexTxsRows(d: Db, txs: seq<AppliedTx>, ids: Ids, height: nat, version: nat, q: Db)
    requires IndexTxs(d, txs, ids, height, version) == Some(q) && Dense(d.tx.txs, ids.tx) && |txs| <= TWO_32
    ensures IdsAfter(ids, txs).tx == ids.tx + |txs|
    ensures q.block == d.block && q.meta == d.meta
    ensures AddsRows(d.tx.txs, q.tx.txs, ids.tx, ids.tx + |txs|)
    ensures TxRows(q.tx.txs, txs, ids.tx, height)
  {
    if txs != [] {
      var n := |txs| - 1;
      var p, q' := LastTx(d, txs, ids, height, version);
      IndexTxsRows(d, txs[..n], ids, height, version, p);
      RowsGrow(d.tx.txs, p.tx.txs, q.tx.txs, txs, ids, height, IdsAfter(ids, txs[..n]));
    }
  }

  lemma RowsGrow(rows0: map<nat, TxRecord>, rows: map<nat, TxRecord>, rows': map<nat, TxRecord>, txs: seq<AppliedTx>,
                 ids: Ids, height: nat, last: Ids)
    requires 0 < |txs| <= TWO_32 && last.tx == ids.tx + |txs| - 1
    requires AddsRows(rows0, rows, ids.tx, last.tx) && TxRows(rows, txs[..|txs| - 1], ids.tx, height)
    requires rows' == rows[last.tx := TxRecordOf(txs[|txs| - 1], last, height, |txs| - 1)]
    ensures AddsRows(rows0, rows', ids.tx, last.tx + 1) && TxRows(rows', txs, ids.tx, height)
  {
    TxRowsGrow(rows, txs, ids.tx, height, rows'[last.tx]);
  }

  lemma TxRowsGrow(rows: map<nat, TxRecord>, txs: seq<AppliedTx>, first: nat, height: nat, r: TxRecord)
    requires txs != [] && TxRows(rows, txs[..|txs| - 1], first, height)
    requires TxRow(r, height, |txs| - 1, txs[|txs| - 1])
    ensures TxRows(rows[first + |txs| - 1 := r], txs, first, height)
  {
    var n := |txs| - 1;
    forall i | first <= i < first + n ensures TxRow(rows[i], height, i - first, txs[i - first]) {
      assert txs[..n][i - first] == txs[i - first];
    }
  }

  // ---------- blocks ----------

  function NextHeight(m: Meta): nat {
    if m.lastHeight.Some? then m.lastHeight.value + 1 else 0
  }

  /** The first transaction of block `h`, or the next transaction id when `h` is not indexed yet. */
  function FirstTx(blocks: map<nat, BlockRecord>, ids: Ids, h: nat): nat {
    if h in blocks then blocks[h].firstTx else ids.tx
  }

  /** Block `h` owns exactly the transactions [firstTx, firstTx + txCount), in their order in the block. */
  ghost predicate BlockRow(blocks: map<nat, BlockRecord>, txs: map<nat, TxRecord>, ids: Ids, h: nat)
    requires h in blocks
  {
    && blocks[h].firstTx + blocks[h].txCount == FirstTx(blocks, ids, h + 1)
    && forall i :: blocks[h].firstTx <= i < blocks[h].firstTx + blocks[h].txCount ==>
         i in txs && txs[i].height == h && txs[i].indexInBlock == i - blocks[h].firstTx
  }

  /** Stored heights form one hash-linked chain. */
  ghost predicate Linked(blocks: map<nat, BlockRecord>, n: nat) {
    Dense(blocks, n) && forall h {:trigger ChildOf(blocks, h)} :: 0 <= h < n - 1 ==> ChildOf(blocks, h)
  }

  predicate ChildOf(blocks: map<nat, BlockRecord>, h: nat) {
    h in blocks && h + 1 in blocks && blocks[h + 1].parent == blocks[h].hash
  }

  ghost predicate BlocksInv(d: Db) {
    var n := NextHeight(d.meta);
    && Linked(d.block.blocks, n)
    && FirstTx(d.block.blocks, d.meta.ids, 0) == 0
    && (forall h {:trigger BlockRow(d.block.blocks, d.tx.txs, d.meta.ids, h)} ::
          h in d.block.blocks ==> BlockRow(d.block.blocks, d.tx.txs, d.meta.ids, h))
    && (forall i :: i in d.tx.txs ==> d.tx.txs[i].height < n)
    && d.meta.walletTxThrough == d.meta.ids.tx
    && d.meta.walletDustThrough == d.meta.ids.event
    && (n > 0 ==> d.meta.tipTimestamp == d.block.blocks[n - 1].timestamp)
    && (d.meta.genesis == if n > 0 then Some(d.block.blocks[0].hash) else None)
  }

  ghost predicate Inv(sha: Digest, d: Db) {
    TxsInv(sha, d, d.meta.ids) && BlocksInv(d)
  }

  lemma InitialInv(sha: Digest, d: Db)
    requires d == EmptyDb()
    ensures Inv(sha, d)
  {
    var p := d.utxo;
    forall a ensures BalanceOf(p, a) == Total(LiveValues(p.utxos, a)) {
      assert LiveValues(p.utxos, a) == map[];
    }
  }

  /** A block the node stream lets through: the next height, on top of the stored tip. */
  predicate Extends(d: Db, b: Block) {
    && b.height == NextHeight(d.meta)
    && (b.height > 0 && b.height - 1 in d.block.blocks ==> b.parent == d.block.blocks[b.height - 1].hash)
  }

  predicate ValidBlock(sha: Digest, d: Db, b: Block, txs: seq<AppliedTx>) {
    Extends(d, b) && |txs| < TWO_32 && ValidTxs(sha, d, txs, d.meta.ids, b.height, b.version)
  }

  lemma LinkedKeeps(blocks: map<nat, BlockRecord>, n: nat, r: BlockRecord)
    requires Linked(blocks, n) && (n > 0 ==> r.parent == blocks[n - 1].hash)
    ensures Linked(blocks[n := r], n + 1)
  {
    var blocks' := blocks[n := r];
    forall h: nat | h < n ensures ChildOf(blocks', h) {
      assert h < n - 1 ==> ChildOf(blocks, h);
    }
  }

  lemma BlockRowKeeps(blocks: map<nat, BlockRecord>, txs: map<nat, TxRecord>, ids: Ids, h: nat, n: nat, r: BlockRecord,
                      txs': map<nat, TxRecord>, ids': Ids)
    requires Dense(blocks, n) && h < n && BlockRow(blocks, txs, ids, h)
    requires AddsRows(txs, txs', ids.tx, ids'.tx) && r.firstTx == ids.tx
    ensures BlockRow(blocks[n := r], txs', ids', h)
  {
    forall i | blocks[h].firstTx <= i < blocks[h].firstTx + blocks[h].txCount
      ensures i in txs' && txs'[i].height == h && txs'[i].indexInBlock == i - blocks[h].firstTx
    {
      assert i in txs;
    }
  }

  lemma BlocksKeep(d: Db, q: Db, b: Block, txs: seq<AppliedTx>, ids: Ids, window: seq<Bytes>)
    requires BlocksInv(d) && Extends(d, b) && |txs| < TWO_32
    requires AddsRows(d.tx.txs, q.tx.txs, d.meta.ids.tx, d.meta.ids.tx + |txs|) && ids.tx == d.meta.ids.tx + |txs|
    requires TxRows(q.tx.txs, txs, d.meta.ids.tx, b.height)
    requires q.block == IndexBlockPart(d.block, b, d.meta.ids.tx, |txs|)
    requires q.meta == MetaAfter(d.meta, b, ids, window)
    ensures BlocksInv(q)
  {
    var r := q.block.blocks[b.height];
    LinkedKeeps(d.block.blocks, b.height, r);
    forall h | h in q.block.blocks ensures BlockRow(q.block.blocks, q.tx.txs, q.meta.ids, h) {
      if h < b.height {
        BlockRowKeeps(d.block.blocks, d.tx.txs, d.meta.ids, h, b.height, r, q.tx.txs, ids);
      }
    }
    forall i | i in q.tx.txs ensures q.tx.txs[i].height <= b.height {
      assert i in d.tx.txs || TxRow(q.tx.txs[i], b.height, i - d.meta.ids.tx, txs[i - d.meta.ids.tx]);
    }
  }

  /** Indexing one valid block keeps everything. */
  lemma IndexBlockKeeps(sha: Digest, d: Db, b: Block, txs: seq<AppliedTx>, key: Bytes, window: seq<Bytes>)
    requires Inv(sha, d) && ValidBlock(sha, d, b, txs)
    ensures IndexBlock(d, b, txs, key, window, d.meta.ids).Some?
    ensures Inv(sha, IndexBlock(d, b, txs, key, window, d.meta.ids).value)
  {
    IndexTxsKeep(sha, d, txs, d.meta.ids, b.height, b.version);
    var p := IndexTxs(d, txs, d.meta.ids, b.height, b.version).value;
    IndexTxsRows(d, txs, d.meta.ids, b.height, b.version, p);
    var q := IndexBlock(d, b, txs, key, window, d.meta.ids).value;
    BlocksKeep(d, q, b, txs, IdsAfter(d.meta.ids, txs), Trim(window + [key]));
  }

  // ---------- whole runs ----------

  datatype Input = Input(block: Block, txs: seq<AppliedTx>, key: Bytes, window: seq<Bytes>)

  /**
     The stores a run from scratch passes through, each block valid in the store its predecessors left. A crash between
     blocks leaves one of these stores.
   */
  ghost predicate History(sha: Digest, run: seq<Input>, stores: seq<Db>) {
    Chain(run, stores, Next(sha)) && stores[0] == EmptyDb()
  }

  /** Each state follows from its predecessor by one step. */
  ghost predicate Chain<S(!new), I(!new)>(run: seq<I>, states: seq<S>, next: (S, I, S) -> bool) {
    && |states| == |run| + 1
    && forall k {:trigger StepAt(run, states, next, k)} :: 0 <= k < |run| ==> StepAt(run, states, next, k)
  }

  ghost predicate StepAt<S, I>(run: seq<I>, states: seq<S>, next: (S, I, S) -> bool, k: int)
    requires 0 <= k < |run| && |states| == |run| + 1
  {
    next(states[k], run[k], states[k + 1])
  }

  /** What the first state has and every step keeps, every state has. */
  lemma {:induction false} ChainKeeps<S(!new), I(!new)>(run: seq<I>, states: seq<S>, next: (S, I, S) -> bool,
                                                        k: nat, P: S -> bool)
    requires Chain(run, states, next) && k <= |run| && P(states[0])
    requires forall s, i, t :: i in run && P(s) && next(s, i, t) ==> P(t)
    ensures P(states[k])
  {
    if k > 0 {
      ChainKeeps(run, states, next, k - 1, P);
      assert run[k - 1] in run && StepAt(run, states, next, k - 1);
    }
  }

  /** As above from the `j`-th state on, in a chain all of whose states are good. */
  lemma {:induction false} ChainKeepsFrom<S(!new), I(!new)>(run: seq<I>, states: seq<S>, next: (S, I, S) -> bool,
                                                            good: S -> bool, j: nat, m: nat, P: S -> bool)
    requires Chain(run, states, next) && j <= m <= |run| && P(states[j])
    requires forall k :: 0 <= k <= |run| ==> good(states[k])
    requires forall s, i, t :: good(s) && P(s) && next(s, i, t) ==> P(t)
    ensures P(states[m])
  {
    if j < m {
      ChainKeepsFrom(run, states, next, good, j, m - 1, P);
      assert StepAt(run, states, next, m - 1);
    }
  }

  lemma ChainExtends<S(!new), I(!new)>(run: seq<I>, states: seq<S>, next: (S, I, S) -> bool, i: I, t: S)
    requires Chain(run, states, next) && next(states[|run|], i, t)
    ensures Chain(run + [i], states + [t], next)
  {
    forall k: nat | k < |run + [i]| ensures StepAt(run + [i], states + [t], next, k) {
      if k < |run| {
        assert StepAt(run, states, next, k);
      }
    }
  }

  ghost function Next(sha: Digest): (Db, Input, Db) -> bool {
    (d, i, q) => Indexes(sha, d, i, q)
  }

  predicate Indexes(sha: Digest, d: Db, i: Input, q: Db) {
    && ValidBlock(sha, d, i.block, i.txs)
    && IndexBlock(d, i.block, i.txs, i.key, i.window, d.meta.ids) == Some(q)
  }

  /** Main result: every store reachable from scratch satisfies every invariant. */
  lemma ReachableInv(sha: Digest, run: seq<Input>, stores: seq<Db>, k: nat)
    requires History(sha, run, stores) && k <= |run|
    ensures Inv(sha, stores[k])
  {
    var P := d => Inv(sha, d);
    assert P(EmptyDb()) by { InitialInv(sha, EmptyDb()); }
    forall d, i, q | P(d) && Indexes(sha, d, i, q) ensures P(q) {
      StepInv(sha, d, i, q);
    }
    ChainKeeps(run, stores, Next(sha), k, P);
  }

  lemma StepInv(sha: Digest, d: Db, i: Input, q: Db)
    requires Inv(sha, d) && Indexes(sha, d, i, q)
    ensures Inv(sha, q)
  {
    IndexBlockKeeps(sha, d, i.block, i.txs, i.key, i.window);
  }

  /** Indexing never gets stuck: every run goes on with every block that is valid in the store reached. */
  lemma RunGoesOn(sha: Digest, run: seq<Input>, stores: seq<Db>, i: Input)
    requires History(sha, run, stores) && ValidBlock(sha, stores[|run|], i.block, i.txs)
    ensures IndexBlock(stores[|run|], i.block, i.txs, i.key, i.window, stores[|run|].meta.ids).Some?
    ensures
      var next := IndexBlock(stores[|run|], i.block, i.txs, i.key, i.window, stores[|run|].meta.ids).value;
      History(sha, run + [i], stores + [next])
  {
    var d := stores[|run|];
    assert Inv(sha, d) by { ReachableInv(sha, run, stores, |run|); }
    var next := IndexBlock(d, i.block, i.txs, i.key, i.window, d.meta.ids);
    assert next.Some? by { IndexBlockKeeps(sha, d, i.block, i.txs, i.key, i.window); }
    ChainExtends(run, stores, Next(sha), i, next.value);
  }

  /** In a reachable store every event belongs to exactly one transaction, and every transaction to exactly one block. */
  lemma EventHasOneTx(sha: Digest, d: Db, e: nat, i: nat)
    requires Inv(sha, d) && e < d.meta.ids.event && i < d.meta.ids.tx
    ensures InEvents(d.tx.txs[i], e) <==> d.event.events[e].tx == i
  {
  }

  lemma {:induction false} TxHasOneBlock(sha: Digest, d: Db, i: nat, h: nat)
    requires Inv(sha, d) && i < d.meta.ids.tx && h in d.block.blocks
    ensures d.block.blocks[h].firstTx <= i < d.block.blocks[h].firstTx + d.block.blocks[h].txCount <==>
            d.tx.txs[i].height == h
  {
    assert BlockRow(d.block.blocks, d.tx.txs, d.meta.ids, h);
    var g := BlockOf(d, i, NextHeight(d.meta));
    assert BlockRow(d.block.blocks, d.tx.txs, d.meta.ids, g);
  }

  lemma {:induction false} BlockOf(d: Db, i: nat, n: nat) returns (g: nat)
    requires BlocksInv(d) && n <= NextHeight(d.meta) && i < FirstTx(d.block.blocks, d.meta.ids, n)
    ensures g in d.block.blocks
    ensures d.block.blocks[g].firstTx <= i < d.block.blocks[g].firstTx + d.block.blocks[g].txCount
  {
    assert BlockRow(d.block.blocks, d.tx.txs, d.meta.ids, n - 1);
    if d.block.blocks[n - 1].firstTx <= i {
      g := n - 1;
    } else {
      g := BlockOf(d, i, n - 1);
    }
  }

  // ---------- side indexes as functions of the log ----------

  lemma {:induction false} IndexTxsKeepEvents(d: Db, txs: seq<AppliedTx>, ids: Ids, height: nat, version: nat)
    requires EventInv(d.event, ids.event) && IndexTxs(d, txs, ids, height, version).Some?
    ensures EventInv(IndexTxs(d, txs, ids, height, version).value.event, IdsAfter(ids, txs).event)
  {
    if txs != [] {
      var n := |txs| - 1;
      IndexTxsKeepEvents(d, txs[..n], ids, height, version);
      var p := IndexTxs(d, txs[..n], ids, height, version).value;
      IndexEventsKeep(p.event, txs[n], |txs[n].events|, IdsAfter(ids, txs[..n]), height);
    }
  }

  /** In any store built from scratch, every event side index is the fold of the event log. */
  lemma ReachableEvents(sha: Digest, run: seq<Input>, stores: seq<Db>, k: nat)
    requires History(sha, run, stores) && k <= |run|
    ensures EventInv(stores[k].event, stores[k].meta.ids.event)
  {
    var P := (d: Db) => EventInv(d.event, d.meta.ids.event);
    forall d, i, q | P(d) && Indexes(sha, d, i, q) ensures P(q) {
      StepEvents(sha, d, i, q);
    }
    ChainKeeps(run, stores, Next(sha), k, P);
  }

  lemma StepEvents(sha: Digest, d: Db, i: Input, q: Db)
    requires Indexes(sha, d, i, q) && EventInv(d.event, d.meta.ids.event)
    ensures EventInv(q.event, q.meta.ids.event)
  {
    IndexTxsKeepEvents(d, i.txs, d.meta.ids, i.block.height, i.block.version);
  }

  /** The wallet index row of a transaction carries its block's protocol version. */
  ghost predicate VersionRow(d: Db, i: nat) {
    && i in d.tx.txs && i in d.tx.walletTx && d.tx.txs[i].height in d.block.blocks
    && d.tx.walletTx[i].version == d.block.blocks[d.tx.txs[i].height].version
  }

  lemma {:induction false} IndexTxsVersions(d: Db, txs: seq<AppliedTx>, ids: Ids, height: nat, version: nat, i: nat)
    requires IndexTxs(d, txs, ids, height, version).Some?
    ensures IdsAfter(ids, txs).tx == ids.tx + |txs|
    ensures
      var q := IndexTxs(d, txs, ids, height, version).value;
      if ids.tx <= i < ids.tx + |txs| then
        i in q.tx.txs && q.tx.txs[i].height == height && i in q.tx.walletTx && q.tx.walletTx[i].version == version
      else
        && (i in d.tx.txs ==> i in q.tx.txs && q.tx.txs[i] == d.tx.txs[i])
        && (i in d.tx.walletTx ==> i in q.tx.walletTx && q.tx.walletTx[i] == d.tx.walletTx[i])
  {
    if txs != [] {
      var p, q := LastTx(d, txs, ids, height, version);
      IndexTxsVersions(d, txs[..|txs| - 1], ids, height, version, i);
    }
  }

  lemma VersionRowKeeps(d: Db, b: Block, txs: seq<AppliedTx>, key: Bytes, window: seq<Bytes>, i: nat)
    requires IndexBlock(d, b, txs, key, window, d.meta.ids).Some? && b.height !in d.block.blocks
    requires i < d.meta.ids.tx + |txs| && (i < d.meta.ids.tx ==> VersionRow(d, i))
    ensures VersionRow(IndexBlock(d, b, txs, key, window, d.meta.ids).value, i)
  {
    var p := IndexTxs(d, txs, d.meta.ids, b.height, b.version).value;
    IndexTxsVersions(d, txs, d.meta.ids, b.height, b.version, i);
    IndexTxsFrame(d, txs, d.meta.ids, b.height, b.version);
  }

  lemma {:induction false} IndexTxsFrame(d: Db, txs: seq<AppliedTx>, ids: Ids, height: nat, version: nat)
    requires IndexTxs(d, txs, ids, height, version).Some?
    ensures var q := IndexTxs(d, txs, ids, height, version).value; q.block == d.block && q.meta == d.meta
  {
    if txs != [] {
      IndexTxsFrame(d, txs[..|txs| - 1], ids, height, version);
    }
  }

  lemma {:induction false} IdsAfterTxs(ids: Ids, txs: seq<AppliedTx>)
    ensures IdsAfter(ids, txs).tx == ids.tx + |txs|
  {
    if txs != [] {
      IdsAfterTxs(ids, txs[..|txs| - 1]);
    }
  }

  lemma ReachableVersions(sha: Digest, run: seq<Input>, stores: seq<Db>, k: nat, i: nat)
    requires History(sha, run, stores) && k <= |run| && i < stores[k].meta.ids.tx
    ensures VersionRow(stores[k], i)
  {
    var P := (d: Db) => Inv(sha, d) && (i < d.meta.ids.tx ==> VersionRow(d, i));
    assert P(EmptyDb()) by { InitialInv(sha, EmptyDb()); }
    forall d, b, q | P(d) && Indexes(sha, d, b, q) ensures P(q) {
      StepInv(sha, d, b, q);
      StepVersions(sha, d, b, q, i);
    }
    ChainKeeps(run, stores, Next(sha), k, P);
  }

  lemma StepVersions(sha: Digest, d: Db, b: Input, q: Db, i: nat)
    requires BlocksInv(d) && Indexes(sha, d, b, q) && (i < d.meta.ids.tx ==> VersionRow(d, i))
    ensures i < q.meta.ids.tx ==> VersionRow(q, i)
  {
    IdsAfterTxs(d.meta.ids, b.txs);
    if i < q.meta.ids.tx {
      VersionRowKeeps(d, b.block, b.txs, b.key, b.window, i);
    }
  }
}

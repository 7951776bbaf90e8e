/**
 The block writer: one deferred batch per block.

 Batches are write-only, so the writer cannot read what it has queued. Overlays carry the effects of
 earlier transactions of the block; balances and address history are queued once, after all transactions.
 */
module BlockWriter {
  import opened Prelude
  import opened IndexModel

  // ---------- batches ----------

  datatype UtxoOp =
    | PutUtxo(key: UtxoKey, record: UtxoRecord)
    | PutUnspent(unspentKey: UnspentKey, utxoKey: UtxoKey)
    | DelUnspent(unspentKey: UnspentKey)
    | PutBalance(account: Account, balance: int)
    | PutAddrTx(owner: Bytes, id: nat)

  datatype ContractOp =
    | PutAction(id: nat, action: ActionRecord)
    | PutActionByAddress(address: Bytes, id: nat)
    | PutState(hash: Bytes, state: Bytes)
    | PutContract(address: Bytes, contract: ContractRecord)

  datatype EventOp =
    | PutEvent(id: nat, event: EventRecord)
    | PutEventByContract(address: Bytes, id: nat)
    | PutDustFeed(id: nat)
    | PutDustGeneration(hash: Bytes, dust: DustRecord)
    | PutDustByOwner(owner: Bytes, hash: Bytes)

  datatype TxOp =
    | PutTx(id: nat, tx: TxRecord)
    | PutTxByHash(hash: Bytes, id: nat)
    | PutTxByIdentifier(identifier: Bytes, id: nat)
    | PutWalletTx(id: nat, index: WalletTxIndex)

  datatype BlockOp =
    | PutBlock(height: nat, block: BlockRecord)
    | PutBlockByHash(hash: Bytes, height: nat)

  datatype MetaOp =
    | PutCursor(height: nat, timestamp: nat, ids: Ids, window: seq<Bytes>)
    | PutGenesis(hash: Bytes)

  datatype Op = U(u: UtxoOp) | C(c: ContractOp) | E(e: EventOp) | T(t: TxOp) | B(b: BlockOp) | M(m: MetaOp)

  function ApplyUtxo(p: UtxoPart, op: UtxoOp): UtxoPart {
    match op
    case PutUtxo(k, r) => p.(utxos := p.utxos[k := r])
    case PutUnspent(k, v) => p.(unspent := p.unspent[k := v])
    case DelUnspent(k) => p.(unspent := p.unspent - {k})
    case PutBalance(a, b) => p.(balances := p.balances[a := b])
    case PutAddrTx(o, id) => p.(addrTxs := p.addrTxs + {(o, id)})
  }

  function ApplyContract(p: ContractPart, op: ContractOp): ContractPart {
    match op
    case PutAction(id, r) => p.(actions := p.actions[id := r])
    case PutActionByAddress(a, id) => p.(byAddress := p.byAddress + {(a, id)})
    case PutState(h, s) => p.(states := p.states[h := s])
    case PutContract(a, r) => p.(contracts := p.contracts[a := r])
  }

  function ApplyEvent(p: EventPart, op: EventOp): EventPart {
    match op
    case PutEvent(id, r) => p.(events := p.events[id := r])
    case PutEventByContract(a, id) => p.(byContract := p.byContract + {(a, id)})
    case PutDustFeed(id) => p.(dustFeed := p.dustFeed + {id})
    case PutDustGeneration(h, r) => p.(dustGeneration := p.dustGeneration[h := r])
    case PutDustByOwner(o, h) => p.(dustByOwner := p.dustByOwner + {(o, h)})
  }

  function ApplyTx(p: TxPart, op: TxOp): TxPart {
    match op
    case PutTx(id, r) => p.(txs := p.txs[id := r])
    case PutTxByHash(h, id) => p.(byHash := p.byHash + {(h, id)})
    case PutTxByIdentifier(i, id) => p.(byIdentifier := p.byIdentifier + {(i, id)})
    case PutWalletTx(id, r) => p.(walletTx := p.walletTx[id := r])
  }

  function ApplyBlock(p: BlockPart, op: BlockOp): BlockPart {
    match op
    case PutBlock(h, r) => p.(blocks := p.blocks[h := r])
    case PutBlockByHash(h, n) => p.(byHash := p.byHash[h := n])
  }

  function ApplyMeta(m: Meta, op: MetaOp): Meta {
    match op
    case PutCursor(h, t, ids, w) => Meta(Some(h), t, ids, ids.tx, ids.event, w, m.genesis)
    case PutGenesis(h) => m.(genesis := Some(h))
  }

  function ApplyOp(db: Db, op: Op): Db {
    match op
    case U(u) => db.(utxo := ApplyUtxo(db.utxo, u))
    case C(c) => db.(contract := ApplyContract(db.contract, c))
    case E(e) => db.(event := ApplyEvent(db.event, e))
    case T(t) => db.(tx := ApplyTx(db.tx, t))
    case B(b) => db.(block := ApplyBlock(db.block, b))
    case M(m) => db.(meta := ApplyMeta(db.meta, m))
  }

  /** A batch applies in order; the last operation on a key wins. */
  function ApplyAll(db: Db, ops: seq<Op>): Db {
    if ops == [] then db else ApplyOp(ApplyAll(db, ops[..|ops| - 1]), ops[|ops| - 1])
  }

  lemma ApplyMore(db: Db, ops: seq<Op>, op: Op)
    ensures ApplyAll(db, ops + [op]) == ApplyOp(ApplyAll(db, ops), op)
  {
    assert (ops + [op])[..|ops|] == ops;
  }

  /** The blob log after an operation. */
  function Log(blobs: seq<Bytes>, op: Op): seq<Bytes> {
    if op.C? && op.c.PutState? then blobs + [op.c.hash] else blobs
  }

  /** Hashes of the state blobs a batch writes, in order. */
  function StateWrites(ops: seq<Op>): seq<Bytes> {
    if ops == [] then []
    else
      Log(StateWrites(ops[..|ops| - 1]), ops[|ops| - 1])
  }

  lemma StateWritesMore(ops: seq<Op>, op: Op)
    ensures StateWrites(ops + [op]) == Log(StateWrites(ops), op)
  {
    assert (ops + [op])[..|ops|] == ops;
  }

  predicate NoDuplicates<T(==)>(s: seq<T>) {
    forall i, j :: 0 <= i < j < |s| ==> s[i] != s[j]
  }

  // ---------- in-block overlays ----------

  function Get<K(==), V>(m: map<K, V>, k: K, default: V): V {
    if k in m then m[k] else default
  }

  /** In-block caches for UTXOs, net i128 balance changes, and touched addresses. */
  datatype UtxoOverlay = UtxoOverlay(created: map<UtxoKey, UtxoRecord>, deltas: map<Account, int>,
                                     touched: map<Bytes, seq<nat>>)

  /** `exact` holds the net changes in unbounded arithmetic; the code's i128 deltas are their wrapped values. */
  ghost predicate Wraps(deltas: map<Account, int>, exact: map<Account, int>) {
    deltas.Keys == exact.Keys && forall a :: a in deltas ==> deltas[a] == AsI128(exact[a])
  }

  ghost predicate TracksBalances(base: UtxoPart, exact: map<Account, int>, p: UtxoPart) {
    && p.balances.Keys == base.balances.Keys + exact.Keys
    && forall a :: a in p.balances ==> p.balances[a] == BalanceOf(base, a) + Get(exact, a, 0)
  }

  ghost predicate TracksHistory(base: UtxoPart, touched: map<Bytes, seq<nat>>, p: UtxoPart) {
    forall w, id :: (w, id) in p.addrTxs <==> (w, id) in base.addrTxs || id in Get(touched, w, [])
  }

  /** The UTXO part that direct application would have reached, split between queued operations and overlay. */
  ghost predicate TracksUtxos(base: UtxoPart, queued: UtxoPart, o: UtxoOverlay, exact: map<Account, int>, p: UtxoPart) {
    && queued == UtxoPart(p.utxos, p.unspent, base.balances, base.addrTxs)
    && p.utxos == base.utxos + o.created
    && Wraps(o.deltas, exact)
    && TracksBalances(base, exact, p)
    && TracksHistory(base, o.touched, p)
  }

  function Bump(deltas: map<Account, int>, a: Account, change: int): map<Account, int> {
    deltas[a := Get(deltas, a, 0) + change]
  }

  function Touch(o: UtxoOverlay, u: Utxo, record: UtxoRecord, change: int, tx: nat): UtxoOverlay {
    UtxoOverlay(o.created[u.key := record],
                o.deltas[u.account := AsI128(Get(o.deltas, u.account, 0) + change)],
                o.touched[u.account.owner := Get(o.touched, u.account.owner, []) + [tx]])
  }

  lemma WrapsBump(deltas: map<Account, int>, exact: map<Account, int>, a: Account, c: int, change: int)
    requires Wraps(deltas, exact)
    requires AsI128(c) == AsI128(change)
    ensures Wraps(deltas[a := AsI128(Get(deltas, a, 0) + c)], Bump(exact, a, change))
  {
    var e := Get(exact, a, 0);
    AsI128Sum(e, change);
    AsI128Sum(AsI128(e), c);
    AsI128Sum(e, 0);
  }

  lemma SameHistory(base: UtxoPart, touched: map<Bytes, seq<nat>>, p: UtxoPart, q: UtxoPart)
    requires TracksHistory(base, touched, p) && TracksHistory(base, touched, q)
    ensures p.addrTxs == q.addrTxs
  {
    forall x: (Bytes, nat) ensures x in p.addrTxs <==> x in q.addrTxs {
      assert x == (x.0, x.1);
    }
  }

  lemma HistoryTouch(base: UtxoPart, touched: map<Bytes, seq<nat>>, p: UtxoPart, q: UtxoPart, owner: Bytes, tx: nat)
    requires TracksHistory(base, touched, p)
    requires q.addrTxs == p.addrTxs + {(owner, tx)}
    ensures TracksHistory(base, touched[owner := Get(touched, owner, []) + [tx]], q)
  {
  }

  /** The effect of one created or spent UTXO on the part itself. */
  function Move(p: UtxoPart, u: Utxo, record: UtxoRecord, unspent: map<UnspentKey, UtxoKey>, change: int,
                tx: nat): UtxoPart {
    UtxoPart(p.utxos[u.key := record], unspent, p.balances[u.account := BalanceOf(p, u.account) + change],
             p.addrTxs + {(u.account.owner, tx)})
  }

  lemma BalancesBump(base: UtxoPart, exact: map<Account, int>, p: UtxoPart, q: UtxoPart, a: Account, change: int)
    requires TracksBalances(base, exact, p) && q.balances == p.balances[a := BalanceOf(p, a) + change]
    ensures TracksBalances(base, Bump(exact, a, change), q)
  {
  }

  /** The parts of `MovesAlike` that do not concern wrapped arithmetic. */
  lemma MovesRest(base: UtxoPart, o: UtxoOverlay, exact: map<Account, int>, p: UtxoPart, u: Utxo, record: UtxoRecord,
                  unspent: map<UnspentKey, UtxoKey>, change: int, tx: nat)
    requires p.utxos == base.utxos + o.created && TracksBalances(base, exact, p) && TracksHistory(base, o.touched, p)
    ensures var q := Move(p, u, record, unspent, change, tx);
      && q.utxos == base.utxos + o.created[u.key := record]
      && TracksBalances(base, Bump(exact, u.account, change), q)
      && TracksHistory(base, o.touched[u.account.owner := Get(o.touched, u.account.owner, []) + [tx]], q)
  {
    var q := Move(p, u, record, unspent, change, tx);
    HistoryTouch(base, o.touched, p, q, u.account.owner, tx);
    BalancesBump(base, exact, p, q, u.account, change);
  }

  /** One UTXO moves both views alike: its record, its unspent entry, its owner's history and its balance. */
  lemma TouchTracks(base: UtxoPart, queued: UtxoPart, o: UtxoOverlay, exact: map<Account, int>, p: UtxoPart,
                    u: Utxo, record: UtxoRecord, unspent: map<UnspentKey, UtxoKey>, c: int, change: int, tx: nat)
    requires TracksUtxos(base, queued, o, exact, p)
    requires AsI128(c) == AsI128(change)
    ensures TracksUtxos(base, queued.(utxos := p.utxos[u.key := record], unspent := unspent),
                        Touch(o, u, record, c, tx), Bump(exact, u.account, change),
                        Move(p, u, record, unspent, change, tx))
  {
    MovesRest(base, o, exact, p, u, record, unspent, change, tx);
    WrapsBump(o.deltas, exact, u.account, c, change);
  }

  // ---------- writing one transaction's parts ----------

  /** A batch under construction: its operations, and what they will leave behind in each part. */
  class Batch {
    const base: Db
    var ops: seq<Op>
    ghost var utxo: UtxoPart
    ghost var contract: ContractPart
    ghost var event: EventPart
    ghost var tx: TxPart
    ghost var block: BlockPart
    ghost var meta: Meta
    ghost var blobs: seq<Bytes>
    /** The effect of every prefix of `ops`. */
    ghost var effects: seq<(Db, seq<Bytes>)>

    ghost predicate Valid()
      reads this
    {
      && |effects| == |ops| + 1
      && effects[0] == (base, [])
      && effects[|ops|] == (Db(utxo, contract, event, tx, block, meta), blobs)
      && forall i {:trigger ops[i]} :: 0 <= i < |ops| ==> effects[i + 1] == Effect(effects[i], ops[i])
    }

    constructor (base: Db)
      ensures Valid() && this.base == base && Db(utxo, contract, event, tx, block, meta) == base && blobs == []
    {
      this.base := base;
      ops, blobs, effects := [], [], [(base, [])];
      utxo, contract, event, tx, block, meta := base.utxo, base.contract, base.event, base.tx, base.block, base.meta;
    }

    method AddUtxo(op: UtxoOp)
      requires Valid()
      modifies this`ops, this`effects, this`utxo
      ensures Valid() && utxo == ApplyUtxo(old(utxo), op)
    {
      ops := ops + [U(op)];
      utxo := ApplyUtxo(utxo, op);
      effects := effects + [(Db(utxo, contract, event, tx, block, meta), blobs)];
    }

    method AddContract(op: ContractOp)
      requires Valid()
      modifies this`ops, this`effects, this`contract, this`blobs
      ensures Valid() && contract == ApplyContract(old(contract), op) && blobs == Log(old(blobs), C(op))
    {
      ops := ops + [C(op)];
      contract := ApplyContract(contract, op);
      blobs := Log(blobs, C(op));
      effects := effects + [(Db(utxo, contract, event, tx, block, meta), blobs)];
    }

    method AddEvent(op: EventOp)
      requires Valid()
      modifies this`ops, this`effects, this`event
      ensures Valid() && event == ApplyEvent(old(event), op)
    {
      ops := ops + [E(op)];
      event := ApplyEvent(event, op);
      effects := effects + [(Db(utxo, contract, event, tx, block, meta), blobs)];
    }

    method AddTx(op: TxOp)
      requires Valid()
      modifies this`ops, this`effects, this`tx
      ensures Valid() && tx == ApplyTx(old(tx), op)
    {
      ops := ops + [T(op)];
      tx := ApplyTx(tx, op);
      effects := effects + [(Db(utxo, contract, event, tx, block, meta), blobs)];
    }

    method AddBlock(op: BlockOp)
      requires Valid()
      modifies this`ops, this`effects, this`block
      ensures Valid() && block == ApplyBlock(old(block), op)
    {
      ops := ops + [B(op)];
      block := ApplyBlock(block, op);
      effects := effects + [(Db(utxo, contract, event, tx, block, meta), blobs)];
    }

    method AddMeta(op: MetaOp)
      requires Valid()
      modifies this`ops, this`effects, this`meta
      ensures Valid() && meta == ApplyMeta(old(meta), op)
    {
      ops := ops + [M(op)];
      meta := ApplyMeta(meta, op);
      effects := effects + [(Db(utxo, contract, event, tx, block, meta), blobs)];
    }

    lemma Meaning(n: nat)
      requires Valid() && n <= |ops|
      ensures effects[n] == (ApplyAll(base, ops[..n]), StateWrites(ops[..n]))
    {
      if n > 0 {
        Meaning(n - 1);
        assert ops[..n][..n - 1] == ops[..n - 1];
      }
    }
  }

  ghost function Effect(before: (Db, seq<Bytes>), op: Op): (Db, seq<Bytes>) {
    (ApplyOp(before.0, op), Log(before.1, op))
  }

  method WriteCreatedOne(batch: Batch, u: Utxo, tx: nat, overlay: UtxoOverlay, ghost exact: map<Account, int>,
                         ghost p: UtxoPart)
    returns (o: UtxoOverlay, ghost net: map<Account, int>)
    requires batch.Valid() && TracksUtxos(batch.base.utxo, batch.utxo, overlay, exact, p)
    modifies batch`ops, batch`effects, batch`utxo
    ensures batch.Valid()
    ensures TracksUtxos(batch.base.utxo, batch.utxo, o, net, Create(p, u, tx))
  {
    var record := UtxoRecord(u, tx, None);
    AsI128Idempotent(u.value);
    TouchTracks(batch.base.utxo, batch.utxo, overlay, exact, p, u, record,
                p.unspent[UnspentKeyOf(u) := u.key], AsI128(u.value), u.value, tx);
    batch.AddUtxo(PutUtxo(u.key, record));
    batch.AddUtxo(PutUnspent(UnspentKeyOf(u), u.key));
    o := Touch(overlay, u, record, AsI128(u.value), tx);
    net := Bump(exact, u.account, u.value);
  }

  method WriteCreated(batch: Batch, us: seq<Utxo>, tx: nat, overlay: UtxoOverlay, ghost exact: map<Account, int>,
                      ghost p: UtxoPart)
    returns (o: UtxoOverlay, ghost net: map<Account, int>)
    requires batch.Valid() && TracksUtxos(batch.base.utxo, batch.utxo, overlay, exact, p)
    modifies batch`ops, batch`effects, batch`utxo
    ensures batch.Valid()
    ensures TracksUtxos(batch.base.utxo, batch.utxo, o, net, CreateAll(p, us, tx))
  {
    o, net := overlay, exact;
    var i := 0;
    while i < |us|
      invariant 0 <= i <= |us|
      invariant batch.Valid()
      invariant TracksUtxos(batch.base.utxo, batch.utxo, o, net, CreateAll(p, us[..i], tx))
    {
      o, net := WriteCreatedOne(batch, us[i], tx, o, net, CreateAll(p, us[..i], tx));
      assert us[..i + 1][..i] == us[..i];
      i := i + 1;
    }
    assert us[..i] == us;
  }

  /** The overlay first, then the store. */
  function FindUtxo(stored: map<UtxoKey, UtxoRecord>, overlay: map<UtxoKey, UtxoRecord>,
                    key: UtxoKey): (r: Option<UtxoRecord>)
    ensures r == if key in stored + overlay then Some((stored + overlay)[key]) else None
  {
    if key in overlay then Some(overlay[key]) else if key in stored then Some(stored[key]) else None
  }

  lemma SpendTracks(base: UtxoPart, queued: UtxoPart, o: UtxoOverlay, exact: map<Account, int>, p: UtxoPart, u: Utxo,
                    record: UtxoRecord, c: int, tx: nat)
    requires TracksUtxos(base, queued, o, exact, p) && u.key in p.utxos
    requires record == p.utxos[u.key].(spendingTx := Some(tx))
    requires AsI128(c) == AsI128(-(u.value as int))
    ensures Spend(p, u, tx).Some?
    ensures TracksUtxos(base, queued.(utxos := queued.utxos[u.key := record], unspent := queued.unspent - {UnspentKeyOf(u)}),
                        Touch(o, u, record, c, tx), Bump(exact, u.account, -(u.value as int)), Spend(p, u, tx).value)
  {
    var unspent, change := p.unspent - {UnspentKeyOf(u)}, -(u.value as int);
    assert Spend(p, u, tx) == Some(Move(p, u, record, unspent, change, tx));
    TouchTracks(base, queued, o, exact, p, u, record, unspent, c, change, tx);
  }

  method WriteSpentOne(batch: Batch, u: Utxo, tx: nat, overlay: UtxoOverlay, ghost exact: map<Account, int>,
                       ghost p: UtxoPart)
    returns (found: bool, o: UtxoOverlay, ghost net: map<Account, int>)
    requires batch.Valid() && TracksUtxos(batch.base.utxo, batch.utxo, overlay, exact, p)
    modifies batch`ops, batch`effects, batch`utxo
    ensures batch.Valid()
    ensures found <==> Spend(p, u, tx).Some?
    ensures found ==> TracksUtxos(batch.base.utxo, batch.utxo, o, net, Spend(p, u, tx).value)
  {
    o, net := overlay, exact;
    var stored := FindUtxo(batch.base.utxo.utxos, overlay.created, u.key);
    if stored.None? {
      return false, o, net;
    }
    found := true;
    var record := stored.value.(spendingTx := Some(tx));
    ghost var change: int := -(u.value as int);
    AsI128Negate(u.value);
    SpendTracks(batch.base.utxo, batch.utxo, overlay, exact, p, u, record, -AsI128(u.value), tx);
    batch.AddUtxo(PutUtxo(u.key, record));
    batch.AddUtxo(DelUnspent(UnspentKeyOf(u)));
    o := Touch(overlay, u, record, -AsI128(u.value), tx);
    net := Bump(exact, u.account, change);
  }

  method WriteSpent(batch: Batch, us: seq<Utxo>, tx: nat, overlay: UtxoOverlay, ghost exact: map<Account, int>,
                    ghost p: UtxoPart)
    returns (found: bool, o: UtxoOverlay, ghost net: map<Account, int>)
    requires batch.Valid() && TracksUtxos(batch.base.utxo, batch.utxo, overlay, exact, p)
    modifies batch`ops, batch`effects, batch`utxo
    ensures batch.Valid()
    ensures found <==> SpendAll(p, us, tx).Some?
    ensures found ==> TracksUtxos(batch.base.utxo, batch.utxo, o, net, SpendAll(p, us, tx).value)
  {
    o, net := overlay, exact;
    var i := 0;
    while i < |us|
      invariant 0 <= i <= |us|
      invariant batch.Valid()
      invariant SpendAll(p, us[..i], tx).Some?
      invariant TracksUtxos(batch.base.utxo, batch.utxo, o, net, SpendAll(p, us[..i], tx).value)
    {
      found, o, net := WriteSpentOne(batch, us[i], tx, o, net, SpendAll(p, us[..i], tx).value);
      assert us[..i + 1][..i] == us[..i];
      if !found {
        SpendAllStops(p, us, i + 1, tx);
        return;
      }
      i := i + 1;
    }
    assert us[..i] == us;
    found := true;
  }

  lemma {:induction false} SpendAllStops(p: UtxoPart, us: seq<Utxo>, i: nat, tx: nat)
    requires i <= |us| && SpendAll(p, us[..i], tx).None?
    ensures SpendAll(p, us, tx).None?
    decreases |us|
  {
    if i < |us| {
      assert us[..|us| - 1][..i] == us[..i];
      SpendAllStops(p, us[..|us| - 1], i, tx);
    } else {
      assert us[..i] == us;
    }
  }

  /** In-block caches for contract pointers and state blobs. */
  datatype ContractOverlay = ContractOverlay(states: set<Bytes>, contracts: map<Bytes, ContractRecord>)

  /** `states` are the blobs this block adds, each written once. */
  ghost predicate TracksStates(base: map<Bytes, Bytes>, full: map<Bytes, Bytes>, states: set<Bytes>,
                               blobs: seq<Bytes>) {
    && full.Keys == base.Keys + states
    && base.Keys !! states
    && NoDuplicates(blobs)
    && (forall h :: h in blobs <==> h in states)
  }

  ghost predicate TracksContracts(base: ContractPart, o: ContractOverlay, blobs: seq<Bytes>, p: ContractPart) {
    && TracksStates(base.states, p.states, o.states, blobs)
    && p.contracts == base.contracts + o.contracts
  }

  method WriteState(batch: Batch, hash: Bytes, state: Bytes, known: set<Bytes>) returns (states: set<Bytes>)
    requires batch.Valid() && TracksStates(batch.base.contract.states, batch.contract.states, known, batch.blobs)
    modifies batch`ops, batch`effects, batch`contract, batch`blobs
    ensures batch.Valid() && TracksStates(batch.base.contract.states, batch.contract.states, states, batch.blobs)
    ensures batch.contract == old(batch.contract).(states :=
      if hash in old(batch.contract).states then old(batch.contract).states else old(batch.contract).states[hash := state])
  {
    states := known;
    if hash !in known && hash !in batch.base.contract.states {
      batch.AddContract(PutState(hash, state));
      states := known + {hash};
    }
  }

  method WritePointer(batch: Batch, address: Bytes, id: nat, known: map<Bytes, ContractRecord>)
    returns (contracts: map<Bytes, ContractRecord>)
    requires batch.Valid() && batch.contract.contracts == batch.base.contract.contracts + known
    modifies batch`ops, batch`effects, batch`contract, batch`blobs
    ensures batch.Valid() && batch.blobs == old(batch.blobs)
    ensures batch.contract.contracts == batch.base.contract.contracts + contracts
    ensures
      var old_ := old(batch.contract).contracts;
      batch.contract == old(batch.contract).(contracts :=
        old_[address := if address in old_ then old_[address].(latest := id) else ContractRecord(id, id)])
  {
    var contract :=
      if address in known then known[address].(latest := id)
      else if address in batch.base.contract.contracts then batch.base.contract.contracts[address].(latest := id)
      else ContractRecord(id, id);
    batch.AddContract(PutContract(address, contract));
    contracts := known[address := contract];
  }

  method WriteAction(batch: Batch, a: Action, id: nat, tx: nat, height: nat, overlay: ContractOverlay)
    returns (o: ContractOverlay)
    requires batch.Valid() && TracksContracts(batch.base.contract, overlay, batch.blobs, batch.contract)
    modifies batch`ops, batch`effects, batch`contract, batch`blobs
    ensures batch.Valid() && batch.contract == IndexAction(old(batch.contract), a, id, tx, height)
    ensures TracksContracts(batch.base.contract, o, batch.blobs, batch.contract)
  {
    batch.AddContract(PutAction(id, ActionRecord(a.address, a.attributes, a.stateHash, tx, height)));
    batch.AddContract(PutActionByAddress(a.address, id));
    if a.stateHash.None? {
      return overlay;
    }
    var states := WriteState(batch, a.stateHash.value, a.state, overlay.states);
    var contracts := WritePointer(batch, a.address, id, overlay.contracts);
    o := ContractOverlay(states, contracts);
  }

  method WriteActions(batch: Batch, acts: seq<Action>, firstId: nat, tx: nat, height: nat, overlay: ContractOverlay)
    returns (o: ContractOverlay)
    requires batch.Valid() && TracksContracts(batch.base.contract, overlay, batch.blobs, batch.contract)
    modifies batch`ops, batch`effects, batch`contract, batch`blobs
    ensures batch.Valid() && batch.contract == IndexActions(old(batch.contract), acts, firstId, tx, height)
    ensures TracksContracts(batch.base.contract, o, batch.blobs, batch.contract)
  {
    o := overlay;
    var i := 0;
    while i < |acts|
      invariant 0 <= i <= |acts|
      invariant batch.Valid() && batch.contract == IndexActions(old(batch.contract), acts[..i], firstId, tx, height)
      invariant TracksContracts(batch.base.contract, o, batch.blobs, batch.contract)
    {
      o := WriteAction(batch, acts[i], firstId + i, tx, height, o);
      assert acts[..i + 1][..i] == acts[..i];
      i := i + 1;
    }
    assert acts[..i] == acts;
  }

  // ---------- events ----------

  lemma {:induction false} NoEmitters(e: Event, acts: seq<Action>)
    requires e.address.None? || !e.attributes.ContractLog?
    ensures Emitters(e, acts) == []
  {
    if acts != [] {
      NoEmitters(e, acts[..|acts| - 1]);
    }
  }

  /** The emitting action: the only match, found in one pass that gives up at the second match. */
  method Correlate(e: Event, acts: seq<Action>, ids: seq<nat>) returns (id: Option<nat>)
    requires |acts| == |ids|
    ensures id.Some? ==> exists i: nat :: OnlyCall(e, acts, i) && id == Some(ids[i])
    ensures id.None? ==> forall i: nat :: !OnlyCall(e, acts, i)
    ensures (if id.Some? then id else e.actionId) == EmitterId(e, acts, ids)
  {
    id := None;
    if e.address.None? || !e.attributes.ContractLog? {
      NoEmitters(e, acts);
      NoOneEmitter(e, acts);
      return;
    }
    var i := 0;
    ghost var at := 0;
    while i < |acts|
      invariant 0 <= i <= |acts|
      invariant id.None? ==> Emitters(e, acts[..i]) == []
      invariant id.Some? ==> at < i && Emitters(e, acts[..i]) == [at] && id == Some(ids[at])
    {
      assert acts[..i + 1][..i] == acts[..i];
      if Emits(acts[i], e) {
        if id.Some? {
          EmittersGrow(e, acts, i + 1);
          NoOneEmitter(e, acts);
          return None;
        }
        id, at := Some(ids[i]), i;
      }
      i := i + 1;
    }
    assert acts[..i] == acts;
    if id.Some? {
      OneEmitter(e, acts, at);
    } else {
      NoOneEmitter(e, acts);
    }
  }

  lemma {:induction false} EmittersGrow(e: Event, acts: seq<Action>, i: nat)
    requires i <= |acts|
    ensures |Emitters(e, acts[..i])| <= |Emitters(e, acts)|
    decreases |acts|
  {
    if i < |acts| {
      assert acts[..|acts| - 1][..i] == acts[..i];
      EmittersGrow(e, acts[..|acts| - 1], i);
    } else {
      assert acts[..i] == acts;
    }
  }

  method WriteDustGeneration(batch: Batch, info: DustInfo, tx: nat)
    requires batch.Valid()
    modifies batch`ops, batch`effects, batch`event
    ensures batch.Valid()
    ensures batch.event == old(batch.event).(
        dustGeneration := old(batch.event).dustGeneration[info.nightUtxoHash := DustRecord(info, tx)],
        dustByOwner := old(batch.event).dustByOwner + {(info.owner, info.nightUtxoHash)})
  {
    batch.AddEvent(PutDustGeneration(info.nightUtxoHash, DustRecord(info, tx)));
    batch.AddEvent(PutDustByOwner(info.owner, info.nightUtxoHash));
  }

  method WriteEvent(batch: Batch, r: EventRecord, id: nat)
    requires batch.Valid()
    modifies batch`ops, batch`effects, batch`event
    ensures batch.Valid()
    ensures batch.event == IndexEvent(old(batch.event), r, id)
  {
    var e := r.event;
    if e.address.Some? {
      batch.AddEvent(PutEventByContract(e.address.value, id));
    }
    batch.AddEvent(PutEvent(id, r));
    if e.grouping.Dust? {
      batch.AddEvent(PutDustFeed(id));
    }
    if IsDustGeneration(e.attributes) {
      WriteDustGeneration(batch, e.attributes.info, r.tx);
    }
  }

  method WriteEventAt(batch: Batch, t: AppliedTx, i: nat, actionIds: seq<nat>, ids: Ids, height: nat)
    requires batch.Valid() && i < |t.events| && actionIds == IdRange(ids.action, |t.actions|)
    modifies batch`ops, batch`effects, batch`event
    ensures batch.Valid()
    ensures batch.event ==
      IndexEvent(old(batch.event), EventRecord(EventOf(t, i, ids.action), ids.tx, height), ids.event + i)
  {
    var e := t.events[i];
    var id := Correlate(e, t.actions, actionIds);
    e := e.(actionId := if id.Some? then id else e.actionId);
    assert e == EventOf(t, i, ids.action);
    WriteEvent(batch, EventRecord(e, ids.tx, height), ids.event + i);
  }

  lemma EventsNext(p: EventPart, t: AppliedTx, i: nat, ids: Ids, height: nat)
    requires i < |t.events|
    ensures IndexEvents(p, t, i + 1, ids, height) ==
      IndexEvent(IndexEvents(p, t, i, ids, height), EventRecord(EventOf(t, i, ids.action), ids.tx, height), ids.event + i)
  {
  }

  method WriteEvents(batch: Batch, t: AppliedTx, ids: Ids, height: nat)
    requires batch.Valid()
    modifies batch`ops, batch`effects, batch`event
    ensures batch.Valid()
    ensures batch.event == IndexEvents(old(batch.event), t, |t.events|, ids, height)
  {
    var actionIds := IdRange(ids.action, |t.actions|);
    ghost var start := batch.event;
    var i := 0;
    while i < |t.events|
      invariant 0 <= i <= |t.events|
      invariant batch.Valid()
      invariant batch.event == IndexEvents(start, t, i, ids, height)
    {
      EventsNext(start, t, i, ids, height);
      WriteEventAt(batch, t, i, actionIds, ids, height);
      i := i + 1;
    }
  }

  // ---------- rows of one transaction, balances and history ----------

  method WriteTx(batch: Batch, t: AppliedTx, ids: Ids, height: nat, index: nat, version: nat)
    requires batch.Valid()
    modifies batch`ops, batch`effects, batch`tx
    ensures batch.Valid() && batch.tx == IndexTxPart(old(batch.tx), t, ids, height, index, version)
  {
    batch.AddTx(PutWalletTx(ids.tx, WalletTxIndex(t.zswapStart, t.zswapEnd, version)));
    batch.AddTx(PutTxByHash(t.hash, ids.tx));
    ghost var before := batch.tx;
    var k := 0;
    while k < |t.identifiers|
      invariant 0 <= k <= |t.identifiers|
      invariant batch.Valid()
      invariant batch.tx == before.(byIdentifier := before.byIdentifier + set i | i in t.identifiers[..k] :: (i, ids.tx))
    {
      batch.AddTx(PutTxByIdentifier(t.identifiers[k], ids.tx));
      k := k + 1;
    }
    assert t.identifiers[..k] == t.identifiers;
    batch.AddTx(PutTx(ids.tx, TxRecordOf(t, ids, height, index)));
  }

  /** What i128 arithmetic on the stored values and net changes yields. */
  ghost predicate Settles(base: UtxoPart, deltas: map<Account, int>, settled: map<Account, int>) {
    && settled.Keys == deltas.Keys
    && forall a :: a in deltas ==> settled[a] == AsI128(AsI128(BalanceOf(base, a)) + deltas[a])
  }

  ghost function Settled(deltas: map<Account, int>, p: UtxoPart): map<Account, int> {
    map a | a in deltas && a in p.balances :: AsI128(p.balances[a])
  }

  lemma SettledBalances(base: UtxoPart, deltas: map<Account, int>, exact: map<Account, int>, p: UtxoPart)
    requires Wraps(deltas, exact) && TracksBalances(base, exact, p)
    ensures Settles(base, deltas, Settled(deltas, p))
  {
    forall a | a in deltas
      ensures a in p.balances && AsI128(p.balances[a]) == AsI128(AsI128(BalanceOf(base, a)) + deltas[a])
    {
      assert a in p.balances;
      AsI128Sum(BalanceOf(base, a), exact[a]);
    }
  }

  method WriteBalances(batch: Batch, deltas: map<Account, int>, ghost settled: map<Account, int>) returns (ok: bool)
    requires batch.Valid() && batch.utxo.balances == batch.base.utxo.balances
    requires Settles(batch.base.utxo, deltas, settled)
    modifies batch`ops, batch`effects, batch`utxo
    ensures batch.Valid()
    ensures ok <==> forall a :: a in settled ==> settled[a] >= 0
    ensures ok ==> batch.utxo == old(batch.utxo).(balances := batch.base.utxo.balances + settled)
  {
    var left := deltas.Keys;
    assert batch.utxo.balances + (settled - left) == batch.utxo.balances;
    while left != {}
      invariant left <= deltas.Keys
      invariant batch.Valid()
      invariant batch.utxo == old(batch.utxo).(balances := batch.base.utxo.balances + (settled - left))
      invariant forall a :: a in settled && a !in left ==> settled[a] >= 0
      decreases left
    {
      var a :| a in left;
      var updated := AsI128(AsI128(BalanceOf(batch.base.utxo, a)) + deltas[a]);
      assert updated == settled[a];
      if updated < 0 {
        return false;
      }
      BalanceSettled(batch.base.utxo.balances, settled, left, a);
      batch.AddUtxo(PutBalance(a, updated));
      left := left - {a};
    }
    assert settled - left == settled;
    ok := true;
  }

  lemma BalanceSettled(base: map<Account, int>, settled: map<Account, int>, left: set<Account>, a: Account)
    requires a in settled && a in left
    ensures (base + (settled - left))[a := settled[a]] == base + (settled - (left - {a}))
  {
  }

  method WriteHistory(batch: Batch, touched: map<Bytes, seq<nat>>)
    requires batch.Valid()
    modifies batch`ops, batch`effects, batch`utxo
    ensures batch.Valid()
    ensures batch.utxo == old(batch.utxo).(addrTxs := batch.utxo.addrTxs)
    ensures forall w, id :: (w, id) in batch.utxo.addrTxs <==> (w, id) in old(batch.utxo).addrTxs || id in Get(touched, w, [])
  {
    var left := touched.Keys;
    while left != {}
      invariant left <= touched.Keys
      invariant batch.Valid()
      invariant batch.utxo == old(batch.utxo).(addrTxs := batch.utxo.addrTxs)
      invariant forall w, id :: (w, id) in batch.utxo.addrTxs <==>
        (w, id) in old(batch.utxo).addrTxs || (w !in left && id in Get(touched, w, []))
      decreases left
    {
      var owner :| owner in left;
      left := left - {owner};
      WriteOwnerHistory(batch, owner, touched[owner]);
    }
  }

  method WriteOwnerHistory(batch: Batch, owner: Bytes, txs: seq<nat>)
    requires batch.Valid()
    modifies batch`ops, batch`effects, batch`utxo
    ensures batch.Valid()
    ensures batch.utxo == old(batch.utxo).(addrTxs := old(batch.utxo).addrTxs + set id | id in txs :: (owner, id))
  {
    var k := 0;
    while k < |txs|
      invariant 0 <= k <= |txs|
      invariant batch.Valid()
      invariant batch.utxo == old(batch.utxo).(addrTxs := old(batch.utxo).addrTxs + set id | id in txs[..k] :: (owner, id))
    {
      batch.AddUtxo(PutAddrTx(owner, txs[k]));
      k := k + 1;
    }
    assert txs[..k] == txs;
  }

  // ---------- transactions ----------

  method WriteTransaction(batch: Batch, t: AppliedTx, ids: Ids, height: nat, index: nat, version: nat,
                          uo0: UtxoOverlay, co0: ContractOverlay, ghost exact: map<Account, int>, ghost p: UtxoPart)
    returns (found: bool, uo: UtxoOverlay, co: ContractOverlay, ghost net: map<Account, int>)
    requires batch.Valid() && TracksUtxos(batch.base.utxo, batch.utxo, uo0, exact, p)
    requires TracksContracts(batch.base.contract, co0, batch.blobs, batch.contract)
    modifies batch`ops, batch`effects, batch`utxo, batch`contract, batch`event, batch`tx, batch`blobs
    ensures batch.Valid()
    ensures found <==> IndexUtxos(p, t, ids.tx).Some?
    ensures found ==>
      && TracksUtxos(batch.base.utxo, batch.utxo, uo, net, IndexUtxos(p, t, ids.tx).value)
      && TracksContracts(batch.base.contract, co, batch.blobs, batch.contract)
      && batch.contract == IndexActions(old(batch.contract), t.actions, ids.action, ids.tx, height)
      && batch.event == IndexEvents(old(batch.event), t, |t.events|, ids, height)
      && batch.tx == IndexTxPart(old(batch.tx), t, ids, height, index, version)
  {
    WriteTx(batch, t, ids, height, index, version);
    uo, net := WriteCreated(batch, t.created, ids.tx, uo0, exact, p);
    co := co0;
    found, uo, net := WriteSpent(batch, t.spent, ids.tx, uo, net, CreateAll(p, t.created, ids.tx));
    if found {
      co := WriteActions(batch, t.actions, ids.action, ids.tx, height, co0);
      WriteEvents(batch, t, ids, height);
    }
  }

  /** Where a batch stands after some transactions, measured against direct application. */
  ghost predicate Tracks(batch: Batch, uo: UtxoOverlay, co: ContractOverlay, exact: map<Account, int>, d: Db)
    reads batch
  {
    && TracksUtxos(batch.base.utxo, batch.utxo, uo, exact, d.utxo)
    && TracksContracts(batch.base.contract, co, batch.blobs, batch.contract)
    && d.(utxo := batch.utxo) == Db(batch.utxo, batch.contract, batch.event, batch.tx, batch.block, batch.meta)
  }

  method WriteTransactions(batch: Batch, txs: seq<AppliedTx>, ids0: Ids, height: nat, version: nat)
    returns (found: bool, ids: Ids, uo: UtxoOverlay, ghost net: map<Account, int>)
    requires batch.Valid() && batch.blobs == []
    requires Db(batch.utxo, batch.contract, batch.event, batch.tx, batch.block, batch.meta) == batch.base
    modifies batch`ops, batch`effects, batch`utxo, batch`contract, batch`event, batch`tx, batch`blobs
    ensures batch.Valid()
    ensures found <==> IndexTxs(batch.base, txs, ids0, height, version).Some?
    ensures found ==> ids == IdsAfter(ids0, txs)
    ensures found ==> exists co :: Tracks(batch, uo, co, net, IndexTxs(batch.base, txs, ids0, height, version).value)
  {
    ids, uo, net := ids0, UtxoOverlay(map[], map[], map[]), map[];
    var co := ContractOverlay({}, map[]);
    var i := 0;
    while i < |txs|
      invariant 0 <= i <= |txs|
      invariant batch.Valid()
      invariant ids == IdsAfter(ids0, txs[..i])
      invariant IndexTxs(batch.base, txs[..i], ids0, height, version).Some?
      invariant Tracks(batch, uo, co, net, IndexTxs(batch.base, txs[..i], ids0, height, version).value)
    {
      ghost var d := IndexTxs(batch.base, txs[..i], ids0, height, version).value;
      assert txs[..i + 1][..i] == txs[..i];
      found, uo, co, net := WriteTransaction(batch, txs[i], ids, height, i, version, uo, co, net, d.utxo);
      if !found {
        IndexTxsStops(batch.base, txs, i + 1, ids0, height, version);
        return;
      }
      ids := IdsAfterTx(ids, txs[i]);
      i := i + 1;
    }
    assert txs[..i] == txs;
    found := true;
  }

  lemma {:induction false} IndexTxsStops(db: Db, txs: seq<AppliedTx>, i: nat, ids: Ids, height: nat, version: nat)
    requires i <= |txs| && IndexTxs(db, txs[..i], ids, height, version).None?
    ensures IndexTxs(db, txs, ids, height, version).None?
    decreases |txs|
  {
    if i < |txs| {
      assert txs[..|txs| - 1][..i] == txs[..i];
      IndexTxsStops(db, txs[..|txs| - 1], i, ids, height, version);
    } else {
      assert txs[..i] == txs;
    }
  }

  datatype WriteError = SpentNotFound | BalanceUnderflow

  /** Every balance fits the i128 arithmetic of the writer. */
  predicate InRange(p: UtxoPart) {
    forall a :: a in p.balances ==> 0 <= p.balances[a] < TWO_127
  }

  method WriteBlockRows(batch: Batch, b: Block, firstTx: nat, count: nat, ids: Ids, window: seq<Bytes>)
    requires batch.Valid()
    modifies batch`ops, batch`effects, batch`block, batch`meta
    ensures batch.Valid()
    ensures batch.block == IndexBlockPart(old(batch.block), b, firstTx, count)
    ensures batch.meta == MetaAfter(old(batch.meta), b, ids, window)
  {
    batch.AddBlock(PutBlock(b.height, BlockRecord(b.hash, b.parent, b.timestamp, b.version, firstTx, AsU32(count))));
    batch.AddBlock(PutBlockByHash(b.hash, b.height));
    batch.AddMeta(PutCursor(b.height, b.timestamp, ids, window));
    if b.height == 0 {
      batch.AddMeta(PutGenesis(b.hash));
    }
  }

  /** The blobs a batch adds: all new to `db`, none written twice, and exactly those that become readable. */
  ghost predicate AddsBlobsOnce(db: Db, ops: seq<Op>) {
    TracksStates(db.contract.states, ApplyAll(db, ops).contract.states, (set h | h in StateWrites(ops)), StateWrites(ops))
  }

  /** Queues what was deferred: net balance changes, then address history. */
  method WriteSettled(batch: Batch, uo: UtxoOverlay, ghost exact: map<Account, int>,
                      ghost p: UtxoPart) returns (ok: bool)
    requires batch.Valid() && TracksUtxos(batch.base.utxo, batch.utxo, uo, exact, p)
    modifies batch`ops, batch`effects, batch`utxo
    ensures batch.Valid()
    ensures InRange(p) ==> ok && batch.utxo == p
  {
    ghost var settled := Settled(uo.deltas, p);
    SettledBalances(batch.base.utxo, uo.deltas, exact, p);
    ghost var fits := InRange(p);
    if fits {
      SettlesExactly(batch.base.utxo, uo.deltas, exact, p);
    }
    ok := WriteBalances(batch, uo.deltas, settled);
    if ok {
      WriteHistory(batch, uo.touched);
      SameHistory(batch.base.utxo, uo.touched, p, batch.utxo);
    }
  }

  method QueueBlock(db: Db, b: Block, txs: seq<AppliedTx>, key: Bytes, window: seq<Bytes>, ids: Ids)
    returns (outcome: Result<(seq<Op>, Ids), WriteError>)
    ensures outcome == Err(SpentNotFound) <==> IndexTxs(db, txs, ids, b.height, b.version).None?
    ensures outcome.Ok? ==> outcome.value.1 == IdsAfter(ids, txs) && AddsBlobsOnce(db, outcome.value.0)
    ensures
      var direct := IndexTxs(db, txs, ids, b.height, b.version);
      direct.Some? && InRange(direct.value.utxo) ==>
        outcome.Ok? && Some(ApplyAll(db, outcome.value.0)) == IndexBlock(db, b, txs, key, window, ids)
  {
    var batch := new Batch(db);
    var found, ids', uo;
    ghost var net;
    found, ids', uo, net := WriteTransactions(batch, txs, ids, b.height, b.version);
    if !found {
      return Err(SpentNotFound);
    }
    ghost var direct := IndexTxs(db, txs, ids, b.height, b.version).value;
    ghost var co :| Tracks(batch, uo, co, net, direct);
    var ok := WriteSettled(batch, uo, net, direct.utxo);
    if !ok {
      return Err(BalanceUnderflow);
    }
    WriteBlockRows(batch, b, ids.tx, |txs|, ids', Trim(window + [key]));
    batch.Meaning(|batch.ops|);
    assert batch.ops[..|batch.ops|] == batch.ops;
    assert co.states == set h | h in batch.blobs;
    outcome := Ok((batch.ops, ids'));
  }

  /** Wrapping is harmless when the exact balances fit. */
  lemma SettlesExactly(base: UtxoPart, deltas: map<Account, int>, exact: map<Account, int>, p: UtxoPart)
    requires Wraps(deltas, exact) && TracksBalances(base, exact, p) && InRange(p)
    ensures forall a :: a in Settled(deltas, p) ==> Settled(deltas, p)[a] >= 0
    ensures base.balances + Settled(deltas, p) == p.balances
  {
    forall a | a in p.balances ensures AsI128(p.balances[a]) == p.balances[a] {
    }
  }

  lemma AppendKeepsDistinct(log: seq<Bytes>, more: seq<Bytes>)
    requires NoDuplicates(log) && NoDuplicates(more) && forall h :: h in more ==> h !in log
    ensures NoDuplicates(log + more)
  {
    forall i, j | 0 <= i < j < |log + more| ensures (log + more)[i] != (log + more)[j] {
      if i < |log| <= j {
        assert (log + more)[j] in more;
      }
    }
  }

  // ---------- the store ----------

  class Store {
    var db: Db
    /** Every state blob hash ever written to the key-value separated blob log. */
    ghost var blobLog: seq<Bytes>

    /** No blob is in the log twice, and the log holds exactly the readable blobs. */
    ghost predicate Valid()
      reads this
    {
      NoDuplicates(blobLog) && forall h :: h in blobLog <==> h in db.contract.states
    }

    constructor ()
      ensures Valid() && db == EmptyDb()
    {
      db := EmptyDb();
      blobLog := [];
    }

    method Commit(batch: seq<Op>)
      modifies this
      ensures db == ApplyAll(old(db), batch)
      ensures blobLog == old(blobLog) + StateWrites(batch)
    {
      var i := 0;
      while i < |batch|
        invariant 0 <= i <= |batch|
        invariant db == ApplyAll(old(db), batch[..i])
        invariant blobLog == old(blobLog) + StateWrites(batch[..i])
      {
        ApplyMore(old(db), batch[..i], batch[i]);
        StateWritesMore(batch[..i], batch[i]);
        assert batch[..i] + [batch[i]] == batch[..i + 1];
        db := ApplyOp(db, batch[i]);
        blobLog := Log(blobLog, batch[i]);
        i := i + 1;
      }
      assert batch[..i] == batch;
    }

    /**
     Queues one block and commits it atomically. While balances fit, the store ends up as if the transactions had
     been applied directly, and no error other than a missing spent UTXO can occur.
     */
    method WriteBlock(b: Block, txs: seq<AppliedTx>, key: Bytes, window: seq<Bytes>, ids: Ids)
      returns (outcome: Result<Ids, WriteError>)
      requires Valid()
      modifies this
      ensures Valid() && old(blobLog) <= blobLog
      ensures outcome.Err? ==> db == old(db) && blobLog == old(blobLog)
      ensures outcome == Err(SpentNotFound) <==> IndexTxs(old(db), txs, ids, b.height, b.version).None?
      ensures outcome.Ok? ==> outcome.value == IdsAfter(ids, txs)
      ensures
        var direct := IndexTxs(old(db), txs, ids, b.height, b.version);
        direct.Some? && InRange(direct.value.utxo) ==>
          outcome.Ok? && Some(db) == IndexBlock(old(db), b, txs, key, window, ids)
    {
      var queued := QueueBlock(db, b, txs, key, window, ids);
      if queued.Err? {
        return Err(queued.error);
      }
      var ops := queued.value.0;
      AppendKeepsDistinct(blobLog, StateWrites(ops));
      Commit(ops);
      outcome := Ok(queued.value.1);
    }
  }
}

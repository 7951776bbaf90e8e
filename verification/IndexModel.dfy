/**
 The index store and what one block means for it.

 A store value groups the engine's partitions by the part of a block that fills them. Composite byte
 keys appear here as tuples; module KeyEncoding shows that their byte forms are injective and ordered.
 The `Index...` functions give a block its meaning directly, one transaction after the other; the writer
 in module BlockWriter builds one deferred batch and is proved against them.
 */
module IndexModel {
  import opened Prelude

  // ---------- records ----------

  datatype UtxoKey = UtxoKey(intentHash: Bytes, outputIndex: nat)

  datatype Account = Account(owner: Bytes, token: Bytes)

  datatype Utxo = Utxo(account: Account, value: nat, key: UtxoKey)

  datatype UtxoRecord = UtxoRecord(utxo: Utxo, creatingTx: nat, spendingTx: Option<nat>)

  datatype UnspentKey = UnspentKey(account: Account, key: UtxoKey)

  function UnspentKeyOf(u: Utxo): UnspentKey {
    UnspentKey(u.account, u.key)
  }

  datatype Attributes = Deploy | Call(entryPoint: Bytes) | Update

  /** `stateHash` is None exactly for a failed action, whose state is empty. */
  datatype Action = Action(address: Bytes, attributes: Attributes, stateHash: Option<Bytes>, state: Bytes)

  datatype ActionRecord =
    ActionRecord(address: Bytes, attributes: Attributes, stateHash: Option<Bytes>, tx: nat, height: nat)

  datatype ContractRecord = ContractRecord(deploy: nat, latest: nat)

  datatype Grouping = Zswap | Dust | Contract

  datatype DustInfo = DustInfo(owner: Bytes, nightUtxoHash: Bytes, dtime: nat)

  datatype EventAttributes =
    | ZswapOutput
    | DustInitialUtxo(info: DustInfo)
    | DustGenerationDtimeUpdate(info: DustInfo)
    | ContractLog(entryPoint: Bytes)
    | OtherEvent

  datatype Event = Event(grouping: Grouping, attributes: EventAttributes, address: Option<Bytes>,
                         actionId: Option<nat>, raw: Bytes)

  datatype EventRecord = EventRecord(event: Event, tx: nat, height: nat)

  datatype DustRecord = DustRecord(info: DustInfo, tx: nat)

  datatype Variant = Regular | System

  /** Everything derived from replaying one transaction. */
  datatype AppliedTx = AppliedTx(hash: Bytes, variant: Variant, identifiers: seq<Bytes>, zswapStart: nat, zswapEnd: nat,
                                 created: seq<Utxo>, spent: seq<Utxo>, actions: seq<Action>, events: seq<Event>,
                                 raw: Bytes)

  datatype TxRecord = TxRecord(hash: Bytes, height: nat, indexInBlock: nat, variant: Variant, identifiers: seq<Bytes>,
                               actionIds: seq<nat>, firstEvent: nat, eventCount: nat,
                               created: seq<Utxo>, spent: seq<Utxo>, raw: Bytes)

  datatype WalletTxIndex = WalletTxIndex(start: nat, end: nat, version: nat)

  datatype Block = Block(hash: Bytes, parent: Bytes, height: nat, timestamp: nat, version: nat)

  datatype BlockRecord = BlockRecord(hash: Bytes, parent: Bytes, timestamp: nat, version: nat, firstTx: nat, txCount: nat)

  // ---------- partitions ----------

  datatype UtxoPart = UtxoPart(utxos: map<UtxoKey, UtxoRecord>, unspent: map<UnspentKey, UtxoKey>,
                               balances: map<Account, int>, addrTxs: set<(Bytes, nat)>)

  datatype ContractPart = ContractPart(actions: map<nat, ActionRecord>, byAddress: set<(Bytes, nat)>,
                                       states: map<Bytes, Bytes>, contracts: map<Bytes, ContractRecord>)

  datatype EventPart = EventPart(events: map<nat, EventRecord>, byContract: set<(Bytes, nat)>, dustFeed: set<nat>,
                                 dustGeneration: map<Bytes, DustRecord>, dustByOwner: set<(Bytes, Bytes)>)

  datatype TxPart = TxPart(txs: map<nat, TxRecord>, byHash: set<(Bytes, nat)>, byIdentifier: set<(Bytes, nat)>,
                           walletTx: map<nat, WalletTxIndex>)

  datatype BlockPart = BlockPart(blocks: map<nat, BlockRecord>, byHash: map<Bytes, nat>)

  /** Monotonic id counters. */
  datatype Ids = Ids(tx: nat, action: nat, event: nat)

  datatype Meta = Meta(lastHeight: Option<nat>, tipTimestamp: nat, ids: Ids, walletTxThrough: nat, walletDustThrough: nat,
                       window: seq<Bytes>, genesis: Option<Bytes>)

  datatype Db = Db(utxo: UtxoPart, contract: ContractPart, event: EventPart, tx: TxPart, block: BlockPart, meta: Meta)

  function EmptyDb(): Db {
    Db(UtxoPart(map[], map[], map[], {}), ContractPart(map[], {}, map[], map[]),
       EventPart(map[], {}, {}, map[], {}), TxPart(map[], {}, {}, map[]), BlockPart(map[], map[]),
       Meta(None, 0, Ids(0, 0, 0), 0, 0, [], None))
  }

  const RETENTION: nat := 32

  // ---------- UTXOs ----------

  function BalanceOf(p: UtxoPart, a: Account): int {
    if a in p.balances then p.balances[a] else 0
  }

  function Create(p: UtxoPart, u: Utxo, tx: nat): UtxoPart {
    UtxoPart(p.utxos[u.key := UtxoRecord(u, tx, None)],
             p.unspent[UnspentKeyOf(u) := u.key],
             p.balances[u.account := BalanceOf(p, u.account) + u.value],
             p.addrTxs + {(u.account.owner, tx)})
  }

  function CreateAll(p: UtxoPart, us: seq<Utxo>, tx: nat): UtxoPart {
    if us == [] then p else Create(CreateAll(p, us[..|us| - 1], tx), us[|us| - 1], tx)
  }

  /** The record keeps what its creation stored; only the spending transaction is filled in. */
  function Spend(p: UtxoPart, u: Utxo, tx: nat): Option<UtxoPart> {
    if u.key !in p.utxos then None
    else Some(UtxoPart(p.utxos[u.key := p.utxos[u.key].(spendingTx := Some(tx))],
                       p.unspent - {UnspentKeyOf(u)},
                       p.balances[u.account := BalanceOf(p, u.account) - u.value],
                       p.addrTxs + {(u.account.owner, tx)}))
  }

  function SpendAll(p: UtxoPart, us: seq<Utxo>, tx: nat): Option<UtxoPart> {
    if us == [] then Some(p)
    else
      match SpendAll(p, us[..|us| - 1], tx)
      case None => None
      case Some(q) => Spend(q, us[|us| - 1], tx)
  }

  function IndexUtxos(p: UtxoPart, t: AppliedTx, tx: nat): Option<UtxoPart> {
    SpendAll(CreateAll(p, t.created, tx), t.spent, tx)
  }

  // ---------- contracts ----------

  function IndexAction(p: ContractPart, a: Action, id: nat, tx: nat, height: nat): ContractPart {
    ContractPart(
      p.actions[id := ActionRecord(a.address, a.attributes, a.stateHash, tx, height)],
      p.byAddress + {(a.address, id)},
      if a.stateHash.None? || a.stateHash.value in p.states then p.states else p.states[a.stateHash.value := a.state],
      if a.stateHash.None? then p.contracts
      else p.contracts[a.address :=
        if a.address in p.contracts then p.contracts[a.address].(latest := id) else ContractRecord(id, id)])
  }

  function IndexActions(p: ContractPart, acts: seq<Action>, firstId: nat, tx: nat, height: nat): ContractPart {
    if acts == [] then p
    else
      var n := |acts| - 1;
      IndexAction(IndexActions(p, acts[..n], firstId, tx, height), acts[n], firstId + n, tx, height)
  }

  // ---------- events ----------

  /** An action of the event's transaction that could have emitted it. */
  predicate Emits(a: Action, e: Event) {
    e.address == Some(a.address) && e.attributes.ContractLog? && a.attributes == Call(e.attributes.entryPoint)
  }

  /** Positions of the candidate emitters of `e`. */
  function Emitters(e: Event, acts: seq<Action>): seq<nat> {
    if acts == [] then []
    else
      var n := |acts| - 1;
      Emitters(e, acts[..n]) + if Emits(acts[n], e) then [n] else []
  }

  lemma {:induction false} EmittersAre(e: Event, acts: seq<Action>)
    ensures forall i :: i in Emitters(e, acts) <==>
      && 0 <= i < |acts| && e.address.Some? && e.attributes.ContractLog?
      && acts[i].address == e.address.value && acts[i].attributes == Call(e.attributes.entryPoint)
    ensures forall i, j :: 0 <= i < j < |Emitters(e, acts)| ==> Emitters(e, acts)[i] < Emitters(e, acts)[j]
  {
    if acts != [] {
      var front, es := Emitters(e, acts[..|acts| - 1]), Emitters(e, acts);
      EmittersAre(e, acts[..|acts| - 1]);
      forall i, j | 0 <= i < j < |es| ensures es[i] < es[j] {
        assert front[i] in front;
      }
    }
  }

  /** An event is emitted by position `i` of its transaction's actions when that is the only one that matches. */
  ghost predicate OnlyCall(e: Event, acts: seq<Action>, i: nat) {
    && e.address.Some? && e.attributes.ContractLog?
    && i < |acts| && acts[i].address == e.address.value && acts[i].attributes == Call(e.attributes.entryPoint)
    && forall j :: (0 <= j < |acts| && acts[j].address == e.address.value
                    && acts[j].attributes == Call(e.attributes.entryPoint)) ==> j == i
  }

  lemma {:induction false} Spread(es: seq<nat>)
    requires es != [] && forall i, j :: 0 <= i < j < |es| ==> es[i] < es[j]
    ensures es[|es| - 1] >= es[0] + |es| - 1
  {
    if |es| > 1 {
      Spread(es[..|es| - 1]);
    }
  }

  lemma OneEmitter(e: Event, acts: seq<Action>, i: nat)
    ensures Emitters(e, acts) == [i] <==> OnlyCall(e, acts, i)
    ensures |Emitters(e, acts)| == 1 ==> OnlyCall(e, acts, Emitters(e, acts)[0])
  {
    EmittersAre(e, acts);
    var es := Emitters(e, acts);
    if OnlyCall(e, acts, i) {
      assert i in es;
      forall k | 0 <= k < |es| ensures es[k] == i {
        assert es[k] in es;
      }
      Spread(es);
      assert es == [i];
    }
    if |es| == 1 {
      assert es[0] in es;
      forall j | 0 <= j < |acts| && acts[j].address == e.address.value
                 && acts[j].attributes == Call(e.attributes.entryPoint) ensures j == es[0]
      {
        assert j in es;
      }
    }
  }

  lemma NoOneEmitter(e: Event, acts: seq<Action>)
    requires |Emitters(e, acts)| != 1
    ensures forall i: nat :: !OnlyCall(e, acts, i)
  {
    forall i: nat ensures !OnlyCall(e, acts, i) {
      OneEmitter(e, acts, i);
    }
  }

  /** The id an event gets: that of the one action that matches, and its own when none or several do. */
  lemma EmitterIdIs(e: Event, acts: seq<Action>, ids: seq<nat>)
    requires |acts| == |ids|
    ensures forall i: nat :: OnlyCall(e, acts, i) ==> EmitterId(e, acts, ids) == Some(ids[i])
    ensures (forall i: nat :: !OnlyCall(e, acts, i)) ==> EmitterId(e, acts, ids) == e.actionId
  {
    forall i: nat | OnlyCall(e, acts, i) ensures EmitterId(e, acts, ids) == Some(ids[i]) {
      OneEmitter(e, acts, i);
    }
    if |Emitters(e, acts)| == 1 {
      OneEmitter(e, acts, 0);
    }
  }

  /** The id of the emitting action when it is unambiguous, otherwise the one the event already carried. */
  function EmitterId(e: Event, acts: seq<Action>, ids: seq<nat>): Option<nat>
    requires |acts| == |ids|
  {
    var es := Emitters(e, acts);
    if |es| == 1 && es[0] < |ids| then Some(ids[es[0]]) else e.actionId
  }

  predicate IsDustGeneration(a: EventAttributes) {
    a.DustInitialUtxo? || a.DustGenerationDtimeUpdate?
  }

  function IndexEvent(p: EventPart, r: EventRecord, id: nat): EventPart {
    var e := r.event;
    EventPart(
      p.events[id := r],
      if e.address.Some? then p.byContract + {(e.address.value, id)} else p.byContract,
      if e.grouping.Dust? then p.dustFeed + {id} else p.dustFeed,
      if IsDustGeneration(e.attributes)
      then p.dustGeneration[e.attributes.info.nightUtxoHash := DustRecord(e.attributes.info, r.tx)]
      else p.dustGeneration,
      if IsDustGeneration(e.attributes)
      then p.dustByOwner + {(e.attributes.info.owner, e.attributes.info.nightUtxoHash)}
      else p.dustByOwner)
  }

  /** The ids `n` consecutive actions get, the first being `first`. */
  function IdRange(first: nat, n: nat): seq<nat> {
    seq(n, i requires 0 <= i => first + i)
  }

  /** The same event but for the action it is attributed to. */
  predicate SameEvent(e: Event, f: Event) {
    e.grouping == f.grouping && e.attributes == f.attributes && e.address == f.address && e.raw == f.raw
  }

  /** Event `i` of `t` as it is stored: attributed to the action that emitted it. */
  function EventOf(t: AppliedTx, i: nat, firstAction: nat): Event
    requires i < |t.events|
  {
    t.events[i].(actionId := EmitterId(t.events[i], t.actions, IdRange(firstAction, |t.actions|)))
  }

  /** Indexes the first `n` events of `t`. */
  function IndexEvents(p: EventPart, t: AppliedTx, n: nat, ids: Ids, height: nat): EventPart
    requires n <= |t.events|
  {
    if n == 0 then p
    else
      IndexEvent(IndexEvents(p, t, n - 1, ids, height),
                 EventRecord(EventOf(t, n - 1, ids.action), ids.tx, height),
                 ids.event + n - 1)
  }

  // ---------- transactions and blocks ----------

  function TxRecordOf(t: AppliedTx, ids: Ids, height: nat, index: nat): TxRecord {
    TxRecord(t.hash, height, AsU32(index), t.variant, t.identifiers, IdRange(ids.action, |t.actions|),
             ids.event, AsU32(|t.events|), t.created, t.spent, t.raw)
  }

  function IndexTxPart(p: TxPart, t: AppliedTx, ids: Ids, height: nat, index: nat, version: nat): TxPart {
    TxPart(p.txs[ids.tx := TxRecordOf(t, ids, height, index)],
           p.byHash + {(t.hash, ids.tx)},
           p.byIdentifier + (set i | i in t.identifiers :: (i, ids.tx)),
           p.walletTx[ids.tx := WalletTxIndex(t.zswapStart, t.zswapEnd, version)])
  }

  function IdsAfterTx(ids: Ids, t: AppliedTx): Ids {
    Ids(ids.tx + 1, ids.action + |t.actions|, ids.event + |t.events|)
  }

  function IndexTx(db: Db, t: AppliedTx, ids: Ids, height: nat, index: nat, version: nat): Option<Db> {
    match IndexUtxos(db.utxo, t, ids.tx)
    case None => None
    case Some(u) =>
      Some(Db(u,
              IndexActions(db.contract, t.actions, ids.action, ids.tx, height),
              IndexEvents(db.event, t, |t.events|, ids, height),
              IndexTxPart(db.tx, t, ids, height, index, version),
              db.block, db.meta))
  }

  function IdsAfter(ids: Ids, txs: seq<AppliedTx>): Ids {
    if txs == [] then ids else IdsAfterTx(IdsAfter(ids, txs[..|txs| - 1]), txs[|txs| - 1])
  }

  /** Transactions applied directly, each one reading what the earlier ones wrote. */
  function IndexTxs(db: Db, txs: seq<AppliedTx>, ids: Ids, height: nat, version: nat): Option<Db> {
    if txs == [] then Some(db)
    else
      var n := |txs| - 1;
      match IndexTxs(db, txs[..n], ids, height, version)
      case None => None
      case Some(d) => IndexTx(d, txs[n], IdsAfter(ids, txs[..n]), height, n, version)
  }

  /** The newest RETENTION entries. */
  function Trim<T>(w: seq<T>): seq<T> {
    if |w| > RETENTION then w[|w| - RETENTION..] else w
  }

  function IndexBlockPart(p: BlockPart, b: Block, firstTx: nat, count: nat): BlockPart {
    BlockPart(p.blocks[b.height := BlockRecord(b.hash, b.parent, b.timestamp, b.version, firstTx, AsU32(count))],
              p.byHash[b.hash := b.height])
  }

  function MetaAfter(m: Meta, b: Block, ids: Ids, window: seq<Bytes>): Meta {
    Meta(Some(b.height), b.timestamp, ids, ids.tx, ids.event, window, if b.height == 0 then Some(b.hash) else m.genesis)
  }

  function IndexBlock(db: Db, b: Block, txs: seq<AppliedTx>, key: Bytes, window: seq<Bytes>, ids: Ids): Option<Db> {
    match IndexTxs(db, txs, ids, b.height, b.version)
    case None => None
    case Some(d) =>
      Some(d.(block := IndexBlockPart(d.block, b, ids.tx, |txs|),
              meta := MetaAfter(d.meta, b, IdsAfter(ids, txs), Trim(window + [key]))))
  }
}

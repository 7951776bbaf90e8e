/** Transaction rows, UTXO records and the indexes over them say the same, in both directions. */
module TransactionRows {
  import opened Prelude
  import opened IndexModel
  import opened UtxoInvariant
  import opened ContractInvariant
  import EventInvariant
  import opened RangeInvariant
  import opened IndexInvariants

  // ---------- what the rows say ----------

  /** A row lists as created exactly the UTXOs whose records name it as their creation. */
  ghost predicate CreatedRows(txs: map<nat, TxRecord>, utxos: map<UtxoKey, UtxoRecord>) {
    forall i, u :: i in txs ==>
      (u in txs[i].created <==> u.key in utxos && utxos[u.key].utxo == u && utxos[u.key].creatingTx == i)
  }

  /** A row lists as spent exactly the UTXOs whose records name it as their spending. */
  ghost predicate SpentRows(txs: map<nat, TxRecord>, utxos: map<UtxoKey, UtxoRecord>) {
    forall i, u :: i in txs ==>
      (u in txs[i].spent <==> u.key in utxos && utxos[u.key].utxo == u && utxos[u.key].spendingTx == Some(i))
  }

  /** Records name indexed transactions only. */
  ghost predicate Dated(utxos: map<UtxoKey, UtxoRecord>, n: nat) {
    forall k :: k in utxos ==> utxos[k].creatingTx < n && (utxos[k].spendingTx.Some? ==> utxos[k].spendingTx.value < n)
  }

  /** The row creates or spends a UTXO of the owner. */
  ghost predicate Touches(r: TxRecord, owner: Bytes) {
    exists u :: (u in r.created || u in r.spent) && u.account.owner == owner
  }

  ghost predicate OwnerIndex(txs: map<nat, TxRecord>, addrTxs: set<(Bytes, nat)>) {
    forall a, i :: (a, i) in addrTxs <==> i in txs && Touches(txs[i], a)
  }

  ghost predicate IdentifierIndex(txs: map<nat, TxRecord>, byIdentifier: set<(Bytes, nat)>) {
    forall x, i :: (x, i) in byIdentifier <==> i in txs && x in txs[i].identifiers
  }

  ghost predicate RowsInv(d: Db, ids: Ids) {
    && CreatedRows(d.tx.txs, d.utxo.utxos) && SpentRows(d.tx.txs, d.utxo.utxos) && Dated(d.utxo.utxos, ids.tx)
    && OwnerIndex(d.tx.txs, d.utxo.addrTxs) && IdentifierIndex(d.tx.txs, d.tx.byIdentifier)
  }

  // ---------- what one transaction does to the records ----------

  /** `q` is `p` with the UTXOs created by transaction `tx`. */
  ghost predicate Creates(p: UtxoPart, q: UtxoPart, us: seq<Utxo>, tx: nat) {
    && (forall k :: k in p.utxos ==> k in q.utxos && q.utxos[k] == p.utxos[k])
    && (forall u :: u in us ==> u.key !in p.utxos && u.key in q.utxos && q.utxos[u.key] == UtxoRecord(u, tx, None))
    && (forall k :: k in q.utxos && k !in p.utxos ==> q.utxos[k].utxo in us && q.utxos[k].utxo.key == k)
    && (forall a, i :: (a, i) in q.addrTxs <==> (a, i) in p.addrTxs || (i == tx && Owns(us, a)))
  }

  ghost predicate Owns(us: seq<Utxo>, owner: Bytes) {
    exists u :: u in us && u.account.owner == owner
  }

  /** `q` is `p` with the UTXOs spent by transaction `tx`. */
  ghost predicate Spends(p: UtxoPart, q: UtxoPart, us: seq<Utxo>, tx: nat) {
    && q.utxos.Keys == p.utxos.Keys
    && (forall u :: u in us ==> u.key in p.utxos && p.utxos[u.key].utxo == u && Live(p.utxos[u.key]))
    && (forall k :: k in p.utxos ==>
          q.utxos[k] == if p.utxos[k].utxo in us then p.utxos[k].(spendingTx := Some(tx)) else p.utxos[k])
    && (forall a, i :: (a, i) in q.addrTxs <==> (a, i) in p.addrTxs || (i == tx && Owns(us, a)))
  }

  lemma OwnsMore(us: seq<Utxo>, u: Utxo, a: Bytes)
    ensures Owns(us + [u], a) <==> Owns(us, a) || u.account.owner == a
  {
    var all := us + [u];
    assert forall v :: v in all <==> v in us || v == u;
    assert u in all;
  }

  lemma {:induction false} CreateAllCreates(p: UtxoPart, us: seq<Utxo>, tx: nat)
    requires CreatesFresh(p, us, tx)
    ensures Creates(p, CreateAll(p, us, tx), us, tx)
  {
    if us != [] {
      var front, u := us[..|us| - 1], us[|us| - 1];
      CreateAllCreates(p, front, tx);
      assert us == front + [u];
      CreateOneMore(p, CreateAll(p, front, tx), front, u, tx);
    }
  }

  lemma CreateOneMore(p: UtxoPart, q: UtxoPart, us: seq<Utxo>, u: Utxo, tx: nat)
    requires Creates(p, q, us, tx) && Fresh(q, u)
    ensures Creates(p, Create(q, u, tx), us + [u], tx)
  {
    assert forall v :: v in us + [u] <==> v in us || v == u;
    forall a ensures Owns(us + [u], a) <==> Owns(us, a) || u.account.owner == a {
      OwnsMore(us, u, a);
    }
  }

  lemma {:induction false} SpendAllSpends(p: UtxoPart, us: seq<Utxo>, tx: nat)
    requires SpendsLive(p, us, tx) && forall k :: k in p.utxos ==> p.utxos[k].utxo.key == k
    ensures SpendAll(p, us, tx).Some? && Spends(p, SpendAll(p, us, tx).value, us, tx)
  {
    if us != [] {
      var front, u := us[..|us| - 1], us[|us| - 1];
      SpendAllSpends(p, front, tx);
      assert us == front + [u];
      SpendOneMore(p, SpendAll(p, front, tx).value, front, u, tx);
    }
  }

  lemma SpendOneMore(p: UtxoPart, q: UtxoPart, us: seq<Utxo>, u: Utxo, tx: nat)
    requires Spends(p, q, us, tx) && Spendable(q, u) && forall k :: k in p.utxos ==> p.utxos[k].utxo.key == k
    ensures Spends(p, Spend(q, u, tx).value, us + [u], tx)
  {
    assert forall v :: v in us + [u] <==> v in us || v == u;
    forall a ensures Owns(us + [u], a) <==> Owns(us, a) || u.account.owner == a {
      OwnsMore(us, u, a);
    }
  }

  // ---------- one transaction ----------

  /** The row added says what the transaction created, and so do the records. */
  lemma CreatedRowsKeep(txs: map<nat, TxRecord>, p: UtxoPart, c: UtxoPart, q: UtxoPart, n: nat, r: TxRecord)
    requires Dense(txs, n) && CreatedRows(txs, p.utxos) && Dated(p.utxos, n)
    requires Creates(p, c, r.created, n) && Spends(c, q, r.spent, n)
    ensures CreatedRows(txs[n := r], q.utxos) && Dated(q.utxos, n + 1)
  {
    assert forall k :: k in q.utxos ==> q.utxos[k].utxo == c.utxos[k].utxo && q.utxos[k].creatingTx == c.utxos[k].creatingTx;
  }

  /** And what it spent. */
  lemma SpentRowsKeep(txs: map<nat, TxRecord>, p: UtxoPart, c: UtxoPart, q: UtxoPart, n: nat, r: TxRecord)
    requires Dense(txs, n) && SpentRows(txs, p.utxos) && Dated(p.utxos, n)
    requires Creates(p, c, r.created, n) && Spends(c, q, r.spent, n)
    ensures SpentRows(txs[n := r], q.utxos)
  {
  }

  lemma OwnerIndexKeeps(txs: map<nat, TxRecord>, p: UtxoPart, c: UtxoPart, q: UtxoPart, n: nat, r: TxRecord)
    requires Dense(txs, n) && OwnerIndex(txs, p.addrTxs)
    requires Creates(p, c, r.created, n) && Spends(c, q, r.spent, n)
    ensures OwnerIndex(txs[n := r], q.addrTxs)
  {
    forall a, i ensures (a, i) in q.addrTxs <==> i in txs[n := r] && Touches(txs[n := r][i], a) {
      if i == n {
        assert Touches(r, a) <==> Owns(r.created, a) || Owns(r.spent, a);
        assert (a, i) !in p.addrTxs;
      }
    }
  }

  lemma IdentifierIndexKeeps(p: TxPart, t: AppliedTx, ids: Ids, height: nat, index: nat, version: nat)
    requires Dense(p.txs, ids.tx) && IdentifierIndex(p.txs, p.byIdentifier)
    ensures var q := IndexTxPart(p, t, ids, height, index, version); IdentifierIndex(q.txs, q.byIdentifier)
  {
  }

  lemma IndexTxKeepsRows(d: Db, t: AppliedTx, ids: Ids, height: nat, index: nat, version: nat)
    requires RowsInv(d, ids) && Dense(d.tx.txs, ids.tx) && UtxoInv(d.utxo) && ValidUtxos(d.utxo, t, ids.tx)
    ensures IndexTx(d, t, ids, height, index, version).Some?
    ensures RowsInv(IndexTx(d, t, ids, height, index, version).value, IdsAfterTx(ids, t))
  {
    var c := CreateAll(d.utxo, t.created, ids.tx);
    CreateAllCreates(d.utxo, t.created, ids.tx);
    SpendAllSpends(c, t.spent, ids.tx);
    var q := SpendAll(c, t.spent, ids.tx).value;
    var r := TxRecordOf(t, ids, height, index);
    CreatedRowsKeep(d.tx.txs, d.utxo, c, q, ids.tx, r);
    SpentRowsKeep(d.tx.txs, d.utxo, c, q, ids.tx, r);
    OwnerIndexKeeps(d.tx.txs, d.utxo, c, q, ids.tx, r);
    IdentifierIndexKeeps(d.tx, t, ids, height, index, version);
  }

  // ---------- blocks and runs ----------

  lemma {:induction false} IndexTxsKeepRows(sha: Digest, d: Db, txs: seq<AppliedTx>, ids: Ids, height: nat, version: nat)
    requires TxsInv(sha, d, ids) && RowsInv(d, ids) && ValidTxs(sha, d, txs, ids, height, version)
    ensures IndexTxs(d, txs, ids, height, version).Some?
    ensures RowsInv(IndexTxs(d, txs, ids, height, version).value, IdsAfter(ids, txs))
  {
    if txs != [] {
      var n := |txs| - 1;
      assert IndexTxs(d, txs, ids, height, version).Some? by { IndexTxsKeep(sha, d, txs, ids, height, version); }
      IndexTxsKeepRows(sha, d, txs[..n], ids, height, version);
      var p := IndexTxs(d, txs[..n], ids, height, version).value;
      assert TxsInv(sha, p, IdsAfter(ids, txs[..n])) by { IndexTxsKeep(sha, d, txs[..n], ids, height, version); }
      LastKeepsRows(sha, p, txs[n], IdsAfter(ids, txs[..n]), height, n, version);
    }
  }

  lemma LastKeepsRows(sha: Digest, d: Db, t: AppliedTx, ids: Ids, height: nat, index: nat, version: nat)
    requires TxsInv(sha, d, ids) && RowsInv(d, ids) && ValidTx(sha, d, t, ids)
    ensures IndexTx(d, t, ids, height, index, version).Some?
    ensures RowsInv(IndexTx(d, t, ids, height, index, version).value, IdsAfterTx(ids, t))
  {
    IndexTxKeepsRows(d, t, ids, height, index, version);
  }

  /** A block is found under its hash, under the latest height when hashes repeat; and nothing else is. */
  ghost predicate BlockIndex(p: BlockPart) {
    && (forall x :: x in p.byHash ==> p.byHash[x] in p.blocks && p.blocks[p.byHash[x]].hash == x)
    && (forall h :: h in p.blocks ==> p.blocks[h].hash in p.byHash && h <= p.byHash[p.blocks[h].hash])
  }

  lemma BlockIndexKeeps(p: BlockPart, b: Block, firstTx: nat, count: nat)
    requires Dense(p.blocks, b.height) && BlockIndex(p)
    ensures BlockIndex(IndexBlockPart(p, b, firstTx, count))
  {
  }

  ghost predicate ReachedRows(d: Db) {
    RowsInv(d, d.meta.ids) && BlockIndex(d.block)
  }

  /** In every reachable store rows, records and indexes agree. */
  lemma ReachableRows(sha: Digest, run: seq<Input>, stores: seq<Db>, k: nat)
    requires History(sha, run, stores) && k <= |run|
    ensures ReachedRows(stores[k])
  {
    var P := d => Inv(sha, d) && ReachedRows(d);
    assert P(EmptyDb()) by { InitialInv(sha, EmptyDb()); }
    forall d, i, q | P(d) && Indexes(sha, d, i, q) ensures P(q) {
      StepInv(sha, d, i, q);
      StepRows(sha, d, i, q);
    }
    ChainKeeps(run, stores, Next(sha), k, P);
  }

  lemma StepRows(sha: Digest, d: Db, i: Input, q: Db)
    requires Inv(sha, d) && ReachedRows(d) && Indexes(sha, d, i, q)
    ensures ReachedRows(q)
  {
    IndexTxsKeepRows(sha, d, i.txs, d.meta.ids, i.block.height, i.block.version);
    var p := IndexTxs(d, i.txs, d.meta.ids, i.block.height, i.block.version).value;
    assert p.block == d.block by { IndexTxsRows(d, i.txs, d.meta.ids, i.block.height, i.block.version, p); }
    BlockIndexKeeps(d.block, i.block, d.meta.ids.tx, |i.txs|);
  }

  /**
     The records of a reachable store, field by field: who created and who spent a UTXO, which transactions touch an owner,
     carry an identifier, or have a hash, and which height a block hash stands for.
   */
  lemma ReachableRecords(sha: Digest, run: seq<Input>, stores: seq<Db>, k: nat, i: nat, u: Utxo)
    requires History(sha, run, stores) && k <= |run| && i in stores[k].tx.txs
    ensures var d := stores[k];
      && (u in d.tx.txs[i].created <==>
          u.key in d.utxo.utxos && d.utxo.utxos[u.key].utxo == u && d.utxo.utxos[u.key].creatingTx == i)
      && (u in d.tx.txs[i].spent <==>
          u.key in d.utxo.utxos && d.utxo.utxos[u.key].utxo == u && d.utxo.utxos[u.key].spendingTx == Some(i))
      && (forall a :: (a, i) in d.utxo.addrTxs <==> Touches(d.tx.txs[i], a))
      && (forall x :: (x, i) in d.tx.byIdentifier <==> x in d.tx.txs[i].identifiers)
      && (forall h :: (h, i) in d.tx.byHash <==> d.tx.txs[i].hash == h)
  {
    ReachableRows(sha, run, stores, k);
    assert Inv(sha, stores[k]) by { ReachableInv(sha, run, stores, k); }
  }

  // ---------- the log of a run ----------

  /** Transaction `t`, its events and its actions are stored under id `i` as replay handed them over. */
  ghost predicate Logged(d: Db, i: nat, height: nat, k: nat, t: AppliedTx) {
    && i in d.tx.txs && TxRow(d.tx.txs[i], height, k, t)
    && EventsLogged(d.event.events, d.tx.txs[i].firstEvent, i, t.events)
    && ActionsLogged(d.contract.actions, d.tx.txs[i].actionIds, i, t.actions)
  }

  ghost predicate EventsLogged(events: map<nat, EventRecord>, first: nat, i: nat, log: seq<Event>) {
    forall e {:trigger EventAt(events, first, i, log, e)} :: 0 <= e < |log| ==> EventAt(events, first, i, log, e)
  }

  predicate EventAt(events: map<nat, EventRecord>, first: nat, i: nat, log: seq<Event>, e: nat)
    requires e < |log|
  {
    first + e in events && SameEvent(events[first + e].event, log[e]) && events[first + e].tx == i
  }

  ghost predicate ActionsLogged(actions: map<nat, ActionRecord>, ids: seq<nat>, i: nat, acts: seq<Action>) {
    && |ids| == |acts|
    && forall a :: 0 <= a < |acts| ==>
         && ids[a] in actions && actions[ids[a]].tx == i && actions[ids[a]].address == acts[a].address
         && actions[ids[a]].attributes == acts[a].attributes && actions[ids[a]].stateHash == acts[a].stateHash
  }

  ghost predicate Within<V(!new)>(m: map<nat, V>, m': map<nat, V>) {
    forall k :: k in m ==> k in m' && m'[k] == m[k]
  }

  /** Rows are never changed or lost. */
  ghost predicate LogGrows(d: Db, q: Db) {
    Within(d.tx.txs, q.tx.txs) && Within(d.event.events, q.event.events) && Within(d.contract.actions, q.contract.actions)
  }

  lemma LoggedStays(d: Db, q: Db, i: nat, height: nat, k: nat, t: AppliedTx)
    requires Logged(d, i, height, k, t) && LogGrows(d, q)
    ensures Logged(q, i, height, k, t)
  {
    forall e: nat | e < |t.events| ensures EventAt(q.event.events, d.tx.txs[i].firstEvent, i, t.events, e) {
      assert EventAt(d.event.events, d.tx.txs[i].firstEvent, i, t.events, e);
    }
  }

  lemma EventOfSame(t: AppliedTx, e: nat, firstAction: nat)
    requires e < |t.events|
    ensures SameEvent(EventOf(t, e, firstAction), t.events[e])
  {
  }

  lemma EventsAreLogged(p: EventPart, t: AppliedTx, ids: Ids, height: nat)
    requires Dense(p.events, ids.event)
    ensures var q := IndexEvents(p, t, |t.events|, ids, height);
      && Within(p.events, q.events) && Dense(q.events, ids.event + |t.events|)
      && EventsLogged(q.events, ids.event, ids.tx, t.events)
  {
    var q := IndexEvents(p, t, |t.events|, ids, height);
    NewEvents(p, t, ids, height);
    forall e: nat | e < |t.events| ensures EventAt(q.events, ids.event, ids.tx, t.events, e) {
      EventInvariant.IndexEventsAt(p, t, |t.events|, ids, height, ids.event + e);
      EventOfSame(t, e, ids.action);
    }
  }

  lemma ActionsAreLogged(p: ContractPart, t: AppliedTx, ids: Ids, height: nat)
    requires Dense(p.actions, ids.action)
    ensures var q := IndexActions(p, t.actions, ids.action, ids.tx, height);
      && Within(p.actions, q.actions) && Dense(q.actions, ids.action + |t.actions|)
      && ActionsLogged(q.actions, IdRange(ids.action, |t.actions|), ids.tx, t.actions)
  {
    var q, range := IndexActions(p, t.actions, ids.action, ids.tx, height), IdRange(ids.action, |t.actions|);
    NewActions(p, t, ids, height);
    forall a | 0 <= a < |t.actions|
      ensures range[a] in q.actions
      ensures q.actions[range[a]] ==
              ActionRecord(t.actions[a].address, t.actions[a].attributes, t.actions[a].stateHash, ids.tx, height)
    {
      IndexActionsAt(p, t.actions, ids.action, ids.tx, height, ids.action + a);
    }
  }

  /** The tables hold the ids below the counters. */
  ghost predicate DenseTables(d: Db, ids: Ids) {
    Dense(d.tx.txs, ids.tx) && Dense(d.event.events, ids.event) && Dense(d.contract.actions, ids.action)
  }

  lemma IndexTxLogs(d: Db, t: AppliedTx, ids: Ids, height: nat, index: nat, version: nat, q: Db)
    requires IndexTx(d, t, ids, height, index, version) == Some(q) && index < TWO_32 && DenseTables(d, ids)
    ensures LogGrows(d, q) && Logged(q, ids.tx, height, index, t) && DenseTables(q, IdsAfterTx(ids, t))
  {
    EventsAreLogged(d.event, t, ids, height);
    ActionsAreLogged(d.contract, t, ids, height);
    PartsLog(d, q, t, ids, height, index);
  }

  lemma PartsLog(d: Db, q: Db, t: AppliedTx, ids: Ids, height: nat, index: nat)
    requires Dense(d.tx.txs, ids.tx) && q.tx.txs == d.tx.txs[ids.tx := TxRecordOf(t, ids, height, index)] && index < TWO_32
    requires Within(d.event.events, q.event.events) && EventsLogged(q.event.events, ids.event, ids.tx, t.events)
    requires Within(d.contract.actions, q.contract.actions)
    requires ActionsLogged(q.contract.actions, IdRange(ids.action, |t.actions|), ids.tx, t.actions)
    ensures LogGrows(d, q) && Logged(q, ids.tx, height, index, t) && Dense(q.tx.txs, ids.tx + 1)
  {
  }

  /** What holds before a block's transactions and is kept by each of them holds after them. */
  lemma {:induction false} TxsInduction(d: Db, txs: seq<AppliedTx>, ids: Ids, height: nat, version: nat, m: nat,
                                        R: (Db, Ids, nat) -> bool)
    requires m <= |txs| && IndexTxs(d, txs[..m], ids, height, version).Some? && R(d, ids, 0)
    requires forall p, l, n: nat, q :: n < |txs| && R(p, l, n) && IndexTx(p, txs[n], l, height, n, version) == Some(q) ==>
      R(q, IdsAfterTx(l, txs[n]), n + 1)
    ensures R(IndexTxs(d, txs[..m], ids, height, version).value, IdsAfter(ids, txs[..m]), m)
  {
    if m > 0 {
      assert txs[..m][..m - 1] == txs[..m - 1];
      TxsInduction(d, txs, ids, height, version, m - 1, R);
    }
  }

  /** The tables after `n` transactions of a block: dense, grown, and with the `k`-th transaction once it is indexed. */
  ghost predicate LoggedSoFar(d: Db, txs: seq<AppliedTx>, ids: Ids, height: nat, k: nat, p: Db, l: Ids, n: nat) {
    && LogGrows(d, p) && DenseTables(p, l) && l.tx == ids.tx + n
    && (k < n <= |txs| ==> Logged(p, ids.tx + k, height, k, txs[k]))
  }

  lemma LogStep(d: Db, txs: seq<AppliedTx>, ids: Ids, height: nat, version: nat, k: nat, p: Db, l: Ids, n: nat, q: Db)
    requires n < |txs| < TWO_32 && LoggedSoFar(d, txs, ids, height, k, p, l, n)
    requires IndexTx(p, txs[n], l, height, n, version) == Some(q)
    ensures LoggedSoFar(d, txs, ids, height, k, q, IdsAfterTx(l, txs[n]), n + 1)
  {
    IndexTxLogs(p, txs[n], l, height, n, version, q);
    if k < n {
      LoggedStays(p, q, ids.tx + k, height, k, txs[k]);
    }
  }

  lemma IndexTxsLog(d: Db, txs: seq<AppliedTx>, ids: Ids, height: nat, version: nat, q: Db, k: nat)
    requires DenseTables(d, ids) && |txs| < TWO_32 && IndexTxs(d, txs, ids, height, version) == Some(q)
    ensures LoggedSoFar(d, txs, ids, height, k, q, IdsAfter(ids, txs), |txs|)
  {
    var R := (p: Db, l: Ids, n: nat) => LoggedSoFar(d, txs, ids, height, k, p, l, n);
    forall p, l, n: nat, q | n < |txs| && R(p, l, n) && IndexTx(p, txs[n], l, height, n, version) == Some(q)
      ensures R(q, IdsAfterTx(l, txs[n]), n + 1)
    {
      LogStep(d, txs, ids, height, version, k, p, l, n, q);
    }
    assert txs[..|txs|] == txs;
    TxsInduction(d, txs, ids, height, version, |txs|, R);
  }

  lemma DenseRows(sha: Digest, d: Db)
    requires Inv(sha, d)
    ensures DenseTables(d, d.meta.ids)
  {
  }

  /** Everything that replay handed over in a run is in every later store, unchanged. */
  lemma RunIsLogged(sha: Digest, run: seq<Input>, stores: seq<Db>, j: nat, k: nat, m: nat)
    requires History(sha, run, stores) && j < m <= |run| && k < |run[j].txs|
    ensures Logged(stores[m], stores[j].meta.ids.tx + k, run[j].block.height, k, run[j].txs[k])
  {
    FirstLogged(sha, run, stores, j, k);
    LoggedFromThere(sha, run, stores, j + 1, m, stores[j].meta.ids.tx + k, run[j].block.height, k, run[j].txs[k]);
  }

  lemma FirstLogged(sha: Digest, run: seq<Input>, stores: seq<Db>, j: nat, k: nat)
    requires History(sha, run, stores) && j < |run| && k < |run[j].txs|
    ensures Logged(stores[j + 1], stores[j].meta.ids.tx + k, run[j].block.height, k, run[j].txs[k])
  {
    AllDense(sha, run, stores);
    WritesAt(sha, run, stores, j);
    StepLogs(stores[j], run[j], stores[j + 1], k);
  }

  lemma WritesAt(sha: Digest, run: seq<Input>, stores: seq<Db>, j: nat)
    requires History(sha, run, stores) && j < |run|
    ensures Writes(stores[j], run[j], stores[j + 1])
  {
    assert StepAt(run, stores, Next(sha), j);
  }

  lemma LoggedFromThere(sha: Digest, run: seq<Input>, stores: seq<Db>, j: nat, m: nat, i: nat, height: nat, k: nat,
                        t: AppliedTx)
    requires History(sha, run, stores) && j <= m <= |run| && Logged(stores[j], i, height, k, t)
    ensures Logged(stores[m], i, height, k, t)
  {
    var P, good := (d: Db) => Logged(d, i, height, k, t), (d: Db) => DenseTables(d, d.meta.ids);
    AllDense(sha, run, stores);
    ChainWrites(sha, run, stores);
    forall d, b, q | good(d) && P(d) && Written()(d, b, q) ensures P(q) {
      StepStays(d, b, q, i, height, k, t);
    }
    ChainKeepsFrom(run, stores, Written(), good, j, m, P);
  }

  /** What a block writes, valid or not. */
  predicate Writes(d: Db, i: Input, q: Db) {
    |i.txs| < TWO_32 && IndexBlock(d, i.block, i.txs, i.key, i.window, d.meta.ids) == Some(q)
  }

  ghost function Written(): (Db, Input, Db) -> bool {
    (d, i, q) => Writes(d, i, q)
  }

  lemma ChainWrites(sha: Digest, run: seq<Input>, stores: seq<Db>)
    requires History(sha, run, stores)
    ensures Chain(run, stores, Written())
  {
    forall k: nat | k < |run| ensures StepAt(run, stores, Written(), k) {
      assert StepAt(run, stores, Next(sha), k);
    }
  }

  lemma AllDense(sha: Digest, run: seq<Input>, stores: seq<Db>)
    requires History(sha, run, stores)
    ensures forall k :: 0 <= k <= |run| ==> DenseTables(stores[k], stores[k].meta.ids)
  {
    forall k | 0 <= k <= |run| ensures DenseTables(stores[k], stores[k].meta.ids) {
      assert Inv(sha, stores[k]) by { ReachableInv(sha, run, stores, k); }
      DenseRows(sha, stores[k]);
    }
  }

  lemma StepStays(d: Db, b: Input, q: Db, i: nat, height: nat, k: nat, t: AppliedTx)
    requires DenseTables(d, d.meta.ids) && Writes(d, b, q) && Logged(d, i, height, k, t)
    ensures Logged(q, i, height, k, t)
  {
    assert LogGrows(d, q) by { BlockLogs(d, b.block, b.txs, b.key, b.window, d.meta.ids, q, k); }
    LoggedStays(d, q, i, height, k, t);
  }

  lemma StepLogs(d: Db, i: Input, q: Db, k: nat)
    requires DenseTables(d, d.meta.ids) && Writes(d, i, q) && k < |i.txs|
    ensures Logged(q, d.meta.ids.tx + k, i.block.height, k, i.txs[k])
  {
    BlockLogs(d, i.block, i.txs, i.key, i.window, d.meta.ids, q, k);
  }

  lemma BlockLogs(d: Db, b: Block, txs: seq<AppliedTx>, key: Bytes, window: seq<Bytes>, ids: Ids, q: Db, k: nat)
    requires DenseTables(d, ids) && |txs| < TWO_32 && IndexBlock(d, b, txs, key, window, ids) == Some(q)
    ensures LogGrows(d, q)
    ensures k < |txs| ==> Logged(q, ids.tx + k, b.height, k, txs[k])
  {
    var p := IndexTxs(d, txs, ids, b.height, b.version).value;
    BlockTables(d, b, txs, key, window, ids, p, q);
    TxsLogged(d, txs, ids, b.height, b.version, p, k);
    SameTables(d, p, q, ids.tx + k, b.height, k, txs);
  }

  lemma BlockTables(d: Db, b: Block, txs: seq<AppliedTx>, key: Bytes, window: seq<Bytes>, ids: Ids, p: Db, q: Db)
    requires IndexBlock(d, b, txs, key, window, ids) == Some(q) && IndexTxs(d, txs, ids, b.height, b.version) == Some(p)
    ensures q.tx == p.tx && q.event == p.event && q.contract == p.contract
  {
  }

  lemma TxsLogged(d: Db, txs: seq<AppliedTx>, ids: Ids, height: nat, version: nat, q: Db, k: nat)
    requires DenseTables(d, ids) && |txs| < TWO_32 && IndexTxs(d, txs, ids, height, version) == Some(q)
    ensures LogGrows(d, q) && (k < |txs| ==> Logged(q, ids.tx + k, height, k, txs[k]))
  {
    IndexTxsLog(d, txs, ids, height, version, q, k);
  }

  lemma SameTables(d: Db, p: Db, q: Db, i: nat, height: nat, k: nat, txs: seq<AppliedTx>)
    requires q.tx == p.tx && q.event == p.event && q.contract == p.contract
    requires LogGrows(d, p) && (k < |txs| ==> Logged(p, i, height, k, txs[k]))
    ensures LogGrows(d, q) && (k < |txs| ==> Logged(q, i, height, k, txs[k]))
  {
    if k < |txs| {
      LoggedStays(p, q, i, height, k, txs[k]);
    }
  }
}

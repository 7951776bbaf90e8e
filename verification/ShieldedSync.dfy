/**
 Shielded wallet sync: relevance scanning, the sync response, and a wallet polling it while the chain grows.
 */
module ShieldedSync {
  import opened Prelude
  import opened IndexModel

  // ---------- relevance scanning ----------

  const SCAN_BATCH: nat := 1_000

  /** Trial decryption of a transaction for one viewing key, given its ledger version; None when it cannot be decoded. */
  type Decrypts = (TxRecord, nat) -> Option<bool>

  datatype ScanError = MissingTransaction | MissingIndex | Undecodable

  /** Relevance of transaction `i`; system transactions are never relevant. */
  predicate Relevant(tx: TxPart, decrypts: Decrypts, i: nat) {
    i in tx.txs && tx.txs[i].variant == Regular && i in tx.walletTx &&
    decrypts(tx.txs[i], tx.walletTx[i].version) == Some(true)
  }

  /** A transaction that the scan can process. */
  predicate Scannable(tx: TxPart, decrypts: Decrypts, i: nat) {
    i in tx.txs && (tx.txs[i].variant == Regular ==>
                      i in tx.walletTx && decrypts(tx.txs[i], tx.walletTx[i].version).Some?)
  }

  /** Stored relevance of every viewing-key hash, and how far each has been scanned. */
  datatype Scans = Scans(relevant: set<(Bytes, nat)>, progress: map<Bytes, nat>)

  function Progress(s: Scans, hash: Bytes): nat {
    if hash in s.progress then s.progress[hash] else 0
  }

  /** Below its progress a hash has exactly its relevant transactions; beyond it, none. */
  ghost predicate ScanExact(tx: TxPart, keys: map<Bytes, Decrypts>, s: Scans, hash: Bytes)
    requires hash in keys
  {
    forall i: nat :: (hash, i) in s.relevant <==> i < Progress(s, hash) && Relevant(tx, keys[hash], i)
  }

  ghost predicate ScansExact(tx: TxPart, keys: map<Bytes, Decrypts>, s: Scans) {
    forall h :: h in keys ==> ScanExact(tx, keys, s, h)
  }

  class ScanStore {
    const tx: TxPart
    var scans: Scans
    ghost var commits: seq<Scans>

    constructor (tx: TxPart, scans: Scans)
      ensures this.tx == tx && this.scans == scans && commits == []
    {
      this.tx, this.scans, commits := tx, scans, [];
    }

    /** One atomic batch: the entries found and the progress that covers them. */
    method Commit(hash: Bytes, found: set<nat>, through: nat)
      modifies this
      ensures scans == Scans(old(scans).relevant + (set i | i in found :: (hash, i)), old(scans).progress[hash := through])
      ensures commits == old(commits) + [scans]
    {
      scans := Scans(scans.relevant + (set i | i in found :: (hash, i)), scans.progress[hash := through]);
      commits := commits + [scans];
    }
  }

  method ScanBatch(tx: TxPart, decrypts: Decrypts, from: nat, to: nat) returns (r: Result<set<nat>, ScanError>)
    requires from <= to
    ensures r.Ok? ==> forall i :: i in r.value <==> from <= i < to && Relevant(tx, decrypts, i)
    ensures (forall i :: from <= i < to ==> Scannable(tx, decrypts, i)) ==> r.Ok?
  {
    var found: set<nat> := {};
    var i := from;
    while i < to
      invariant from <= i <= to
      invariant forall j :: j in found <==> from <= j < i && Relevant(tx, decrypts, j)
    {
      if i !in tx.txs {
        assert !Scannable(tx, decrypts, i);
        return Err(MissingTransaction);
      }
      if tx.txs[i].variant == Regular {
        if i !in tx.walletTx {
          assert !Scannable(tx, decrypts, i);
          return Err(MissingIndex);
        }
        var verdict := decrypts(tx.txs[i], tx.walletTx[i].version);
        if verdict.None? {
          assert !Scannable(tx, decrypts, i);
          return Err(Undecodable);
        }
        if verdict.value {
          found := found + {i};
        }
      }
      i := i + 1;
    }
    r := Ok(found);
  }

  /** Scans `hash` up to `target`. After every commit, and so after any crash, all hashes are exact. */
  method ScanRelevance(store: ScanStore, hash: Bytes, decrypts: Decrypts, target: nat, ghost keys: map<Bytes, Decrypts>)
    returns (r: Result<(), ScanError>)
    requires ScansExact(store.tx, keys, store.scans) && hash in keys && keys[hash] == decrypts
    modifies store
    ensures ScansExact(store.tx, keys, store.scans)
    ensures old(store.commits) <= store.commits
    ensures forall k :: |old(store.commits)| <= k < |store.commits| ==> ScansExact(store.tx, keys, store.commits[k])
    ensures r.Ok? ==> Progress(store.scans, hash) >= target
    ensures r.Ok? ==> forall i: nat :: i < target ==>
      ((hash, i) in store.scans.relevant <==>
         && i in store.tx.txs && store.tx.txs[i].variant == Regular && i in store.tx.walletTx
         && decrypts(store.tx.txs[i], store.tx.walletTx[i].version) == Some(true))
    ensures (forall i :: 0 <= i < target ==> Scannable(store.tx, decrypts, i)) ==> r.Ok?
  {
    var scanned := Progress(store.scans, hash);
    while scanned < target
      invariant scanned == Progress(store.scans, hash)
      invariant ScansExact(store.tx, keys, store.scans)
      invariant old(store.commits) <= store.commits
      invariant forall k :: |old(store.commits)| <= k < |store.commits| ==> ScansExact(store.tx, keys, store.commits[k])
      decreases target - scanned
    {
      var end := if target < scanned + SCAN_BATCH then target else scanned + SCAN_BATCH;
      var found := ScanBatch(store.tx, decrypts, scanned, end);
      if found.Err? {
        return Err(found.error);
      }
      ghost var before := store.scans;
      store.Commit(hash, found.value, end);
      ScansStep(store.tx, keys, before, store.scans, hash, found.value, end);
      scanned := end;
    }
    r := Ok(());
  }

  lemma ScansStep(tx: TxPart, keys: map<Bytes, Decrypts>, before: Scans, after: Scans, hash: Bytes, found: set<nat>,
                  end: nat)
    requires ScansExact(tx, keys, before) && hash in keys && Progress(before, hash) <= end
    requires forall i :: i in found <==> Progress(before, hash) <= i < end && Relevant(tx, keys[hash], i)
    requires after == Scans(before.relevant + (set i | i in found :: (hash, i)), before.progress[hash := end])
    ensures ScansExact(tx, keys, after)
  {
    forall h | h in keys ensures ScanExact(tx, keys, after, h) {
      assert ScanExact(tx, keys, before, h);
    }
  }

  /** What a request reads below its target does not depend on how far any scan, its own or another's, went. */
  lemma ReadIndependent(tx: TxPart, keys: map<Bytes, Decrypts>, a: Scans, b: Scans, hash: Bytes, target: nat)
    requires hash in keys && ScansExact(tx, keys, a) && ScansExact(tx, keys, b)
    requires Progress(a, hash) >= target && Progress(b, hash) >= target
    ensures forall i :: 0 <= i < target ==> ((hash, i) in a.relevant <==> (hash, i) in b.relevant)
  {
    assert ScanExact(tx, keys, a, hash) && ScanExact(tx, keys, b, hash);
  }

  // ---------- one response ----------

  datatype Update =
    | Collapsed(from: nat, to: nat)
    | Transaction(from: nat, to: nat, tx: nat)

  datatype SyncError = InsideTransaction | BeyondTree | StateBehind | MissingRow

  /** Updates for the relevant transactions below `n`, and how far they reach. */
  datatype Progressed = Progressed(updates: seq<Update>, applied: nat)

  type Rows = map<nat, WalletTxIndex>

  /** The tree position after the first `n` transactions. */
  function TreeEnd(rows: Rows, n: nat): nat {
    if n > 0 && n - 1 in rows then rows[n - 1].end else 0
  }

  /** Rows of the first `n` transactions, each starting no earlier than its predecessor ended. */
  ghost predicate Ordered(rows: Rows, n: nat) {
    forall i {:trigger RowInOrder(rows, i)} :: 0 <= i < n ==> RowInOrder(rows, i)
  }

  predicate RowInOrder(rows: Rows, i: nat) {
    i in rows && TreeEnd(rows, i) <= rows[i].start <= rows[i].end
  }

  function Step(p: Progressed, row: WalletTxIndex, tx: nat): Result<Progressed, SyncError> {
    if row.end <= p.applied then Ok(p)
    else if row.start < p.applied then Err(InsideTransaction)
    else
      var gap := if p.applied < row.start then [Collapsed(p.applied, row.start)] else [];
      Ok(Progressed(p.updates + gap + [Transaction(row.start, row.end, tx)], row.end))
  }

  /** The relevant transactions below `n`, in order, from tree index `from`. */
  function Deliver(rows: Rows, relevant: set<nat>, n: nat, from: nat): Result<Progressed, SyncError> {
    if n == 0 then Ok(Progressed([], from))
    else
      var prior := Deliver(rows, relevant, n - 1, from);
      if prior.Err? || n - 1 !in relevant then prior
      else if n - 1 !in rows then Err(MissingRow)
      else Step(prior.value, rows[n - 1], n - 1)
  }

  function Close(p: Progressed, highest: nat): Progressed {
    if p.applied < highest then Progressed(p.updates + [Collapsed(p.applied, highest)], highest) else p
  }

  /** The whole response at transaction boundary `target`. */
  function Sync(rows: Rows, relevant: set<nat>, target: nat, from: nat): Result<Progressed, SyncError> {
    if target == 0 then Ok(Progressed([], 0))
    else if target - 1 !in rows then Err(MissingRow)
    else if from > TreeEnd(rows, target) then Err(BeyondTree)
    else
      var delivered := Deliver(rows, relevant, target, from);
      if delivered.Err? then delivered else Ok(Close(delivered.value, TreeEnd(rows, target)))
  }

  /** `entries` is the prefix scan of stored relevant ids, in key order; it may reach past `target`. */
  method ShieldedSync(rows: Rows, entries: seq<nat>, target: nat, from: nat, firstFree: nat, ghost relevant: set<nat>)
    returns (r: Result<Progressed, SyncError>)
    requires forall i, j :: 0 <= i < j < |entries| ==> entries[i] < entries[j]
    requires forall i :: 0 <= i < target ==> (i in entries <==> i in relevant)
    ensures target > 0 && target - 1 in rows && firstFree < TreeEnd(rows, target) ==> r == Err(StateBehind)
    ensures firstFree >= TreeEnd(rows, target) ==> r == Sync(rows, relevant, target, from)
  {
    if target == 0 {
      return Ok(Progressed([], 0));
    }
    if target - 1 !in rows {
      return Err(MissingRow);
    }
    var highest := rows[target - 1].end;
    if firstFree < highest {
      return Err(StateBehind);
    }
    if from > highest {
      return Err(BeyondTree);
    }
    var p := Progressed([], from);
    var k := 0;
    ghost var n: nat := 0;
    while k < |entries| && entries[k] < target
      invariant 0 <= k <= |entries| && n <= target
      invariant k > 0 ==> n == entries[k - 1] + 1
      invariant k == 0 ==> n == 0
      invariant Deliver(rows, relevant, n, from) == Ok(p)
    {
      var tx := entries[k];
      NoneBetween(rows, relevant, entries, k, n, tx, target, from);
      if tx !in rows {
        DeliverStops(rows, relevant, tx + 1, target, from);
        return Err(MissingRow);
      }
      var row := rows[tx];
      assert p.updates + [] == p.updates;
      if row.end > p.applied {
        if row.start < p.applied {
          DeliverStops(rows, relevant, tx + 1, target, from);
          return Err(InsideTransaction);
        }
        if p.applied < row.start {
          p := p.(updates := p.updates + [Collapsed(p.applied, row.start)]);
        }
        p := Progressed(p.updates + [Transaction(row.start, row.end, tx)], row.end);
      }
      n := tx + 1;
      k := k + 1;
    }
    NoneBetween(rows, relevant, entries, k, n, target, target, from);
    if p.applied < highest {
      p := Progressed(p.updates + [Collapsed(p.applied, highest)], highest);
    }
    r := Ok(p);
  }

  /** Ids between two entries are not relevant, so they deliver nothing. */
  lemma {:induction false} NoneBetween(rows: Rows, relevant: set<nat>, entries: seq<nat>, k: nat, n: nat, m: nat,
                                       target: nat,
                                       from: nat)
    requires k <= |entries| && n <= m <= target
    requires forall i, j :: 0 <= i < j < |entries| ==> entries[i] < entries[j]
    requires forall i :: 0 <= i < target ==> (i in entries <==> i in relevant)
    requires k > 0 ==> n == entries[k - 1] + 1
    requires k == 0 ==> n == 0
    requires k < |entries| ==> m <= entries[k]
    ensures Deliver(rows, relevant, m, from) == Deliver(rows, relevant, n, from)
    decreases m - n
  {
    if n < m {
      NoneBetween(rows, relevant, entries, k, n, m - 1, target, from);
      forall i | 0 <= i < |entries| ensures entries[i] != m - 1 {
        assert i < k ==> entries[i] <= entries[k - 1];
        assert i > k ==> entries[k] < entries[i];
      }
    }
  }

  lemma {:induction false} DeliverStops(rows: Rows, relevant: set<nat>, n: nat, target: nat, from: nat)
    requires n <= target && Deliver(rows, relevant, n, from).Err?
    ensures Deliver(rows, relevant, target, from) == Deliver(rows, relevant, n, from)
    decreases target - n
  {
    if n < target {
      DeliverStops(rows, relevant, n, target - 1, from);
    }
  }

  /** A transaction below `n` that a wallet at tree index `from` has half behind it. */
  ghost predicate Straddled(rows: Rows, relevant: set<nat>, n: nat, from: nat, i: nat) {
    i in relevant && i < n && i in rows && rows[i].start < from < rows[i].end
  }

  lemma {:induction false} DeliverRefuses(rows: Rows, relevant: set<nat>, n: nat, from: nat)
    requires Ordered(rows, n)
    ensures var r := Deliver(rows, relevant, n, from);
      && (r == Err(InsideTransaction) <==> exists i: nat :: Straddled(rows, relevant, n, from, i))
      && (r.Err? ==> r == Err(InsideTransaction))
      && (r.Ok? ==> r.value.applied == from || from < r.value.applied <= TreeEnd(rows, n))
  {
    if n > 0 {
      var prior := Deliver(rows, relevant, n - 1, from);
      forall i | 0 <= i < n - 1 ensures RowInOrder(rows, i) {
        assert RowInOrder(rows, i);
      }
      DeliverRefuses(rows, relevant, n - 1, from);
      assert RowInOrder(rows, n - 1);
      if prior.Err? {
        var i: nat :| Straddled(rows, relevant, n - 1, from, i);
        assert Straddled(rows, relevant, n, from, i);
      } else {
        assert forall i: nat :: i < n - 1 && Straddled(rows, relevant, n, from, i) ==> Straddled(rows, relevant, n - 1, from, i);
      }
      if prior.Ok? && n - 1 in relevant {
        assert Straddled(rows, relevant, n, from, n - 1) <==> Step(prior.value, rows[n - 1], n - 1).Err?;
      }
    }
  }

  /** On ordered rows the two refusals are read off the request: beyond the tree, or inside a relevant transaction. */
  lemma SyncRefuses(rows: Rows, relevant: set<nat>, target: nat, from: nat)
    requires Ordered(rows, target)
    ensures var r := Sync(rows, relevant, target, from);
      && (r == Err(BeyondTree) <==> target > 0 && from > TreeEnd(rows, target))
      && (r == Err(InsideTransaction) <==>
            target > 0 && from <= TreeEnd(rows, target) && exists i: nat :: Straddled(rows, relevant, target, from, i))
      && (r.Err? ==> r == Err(BeyondTree) || r == Err(InsideTransaction))
  {
    if target > 0 {
      assert RowInOrder(rows, target - 1);
      DeliverRefuses(rows, relevant, target, from);
    }
  }

  /** The transactions of a chain that are relevant to a key. */
  ghost function RelevantIds(tx: TxPart, decrypts: Decrypts): set<nat> {
    set i | i in tx.txs && Relevant(tx, decrypts, i)
  }

  /** `later` has the transactions of `tx` below `target`. */
  ghost predicate Prefix(tx: TxPart, later: TxPart, target: nat) {
    forall i :: 0 <= i < target ==>
      && (i in tx.txs <==> i in later.txs) && (i in tx.txs ==> tx.txs[i] == later.txs[i])
      && (i in tx.walletTx <==> i in later.walletTx) && (i in tx.walletTx ==> tx.walletTx[i] == later.walletTx[i])
  }

  /** The stored ids of a key in key order. */
  ghost predicate IsListing(s: Scans, hash: Bytes, entries: seq<nat>) {
    && (forall i, j :: 0 <= i < j < |entries| ==> entries[i] < entries[j])
    && forall i :: i in entries <==> (hash, i) in s.relevant
  }

  /** Below the target a scanned key's listing is the relevant ids of the chain, now and however it grows. */
  lemma ListingIsRelevant(tx: TxPart, keys: map<Bytes, Decrypts>, s: Scans, hash: Bytes, entries: seq<nat>, target: nat,
                          later: TxPart)
    requires ScansExact(tx, keys, s) && hash in keys && Progress(s, hash) >= target
    requires IsListing(s, hash, entries) && Prefix(tx, later, target)
    ensures forall i :: 0 <= i < target ==> (i in entries <==> i in RelevantIds(later, keys[hash]))
  {
    assert ScanExact(tx, keys, s, hash);
    forall i | 0 <= i < target ensures i in entries <==> i in RelevantIds(later, keys[hash]) {
      assert i in entries <==> (hash, i) in s.relevant;
      assert Relevant(tx, keys[hash], i) <==> Relevant(later, keys[hash], i);
    }
  }

  /** The stored entries of a key, which end at its progress. */
  method ListEntries(s: Scans, hash: Bytes) returns (entries: seq<nat>)
    requires forall i :: (hash, i) in s.relevant ==> i < Progress(s, hash)
    ensures IsListing(s, hash, entries)
  {
    entries := [];
    var i := 0;
    while i < Progress(s, hash)
      invariant 0 <= i <= Progress(s, hash)
      invariant forall j, k :: 0 <= j < k < |entries| ==> entries[j] < entries[k]
      invariant forall j :: 0 <= j < |entries| ==> entries[j] < i
      invariant forall j :: j in entries <==> j < i && (hash, j) in s.relevant
    {
      if (hash, i) in s.relevant {
        entries := entries + [i];
      }
      i := i + 1;
    }
  }

  /**
     One request: scan up to the target, list the stored entries, answer. However far earlier requests and crashed scans
     came, the answer is that for the relevant transactions of the chain.
   */
  method WalletShieldedSync(store: ScanStore, hash: Bytes, decrypts: Decrypts, target: nat, from: nat, firstFree: nat,
                            ghost keys: map<Bytes, Decrypts>)
    returns (scan: Result<(), ScanError>, r: Result<Progressed, SyncError>)
    requires ScansExact(store.tx, keys, store.scans) && hash in keys && keys[hash] == decrypts
    modifies store
    ensures ScansExact(store.tx, keys, store.scans)
    ensures (forall i :: 0 <= i < target ==> Scannable(store.tx, decrypts, i)) ==> scan.Ok?
    ensures scan.Ok? && TreeEnd(store.tx.walletTx, target) <= firstFree ==>
      r == Sync(store.tx.walletTx, RelevantIds(store.tx, decrypts), target, from)
  {
    r := Ok(Progressed([], from));
    scan := ScanRelevance(store, hash, decrypts, target, keys);
    if scan.Ok? {
      assert ScanExact(store.tx, keys, store.scans, hash);
      var entries := ListEntries(store.scans, hash);
      ListingIsRelevant(store.tx, keys, store.scans, hash, entries, target, store.tx);
      r := ShieldedSync(store.tx.walletTx, entries, target, from, firstFree, RelevantIds(store.tx, decrypts));
    }
  }

  // ---------- what a response contains ----------

  /** The updates cover [from, to) piece by piece, and no collapsed piece is empty. */
  predicate Tiles(us: seq<Update>, from: nat, to: nat) {
    if us == [] then from == to
    else
      var last := us[|us| - 1];
      Tiles(us[..|us| - 1], from, last.from) && last.from <= last.to == to && (last.Collapsed? ==> last.from < last.to)
  }

  /** The transactions delivered, in order. */
  function TxIds(us: seq<Update>): seq<nat> {
    if us == [] then []
    else TxIds(us[..|us| - 1]) + if us[|us| - 1].Transaction? then [us[|us| - 1].tx] else []
  }

  /** Transaction updates carry their own whole range. */
  predicate Whole(us: seq<Update>, rows: Rows) {
    forall i :: 0 <= i < |us| && us[i].Transaction? ==>
      us[i].tx in rows && us[i].from == rows[us[i].tx].start && us[i].to == rows[us[i].tx].end
  }

  lemma TilesMore(us: seq<Update>, from: nat, u: Update)
    requires Tiles(us, from, u.from) && u.from <= u.to && (u.Collapsed? ==> u.from < u.to)
    ensures Tiles(us + [u], from, u.to)
  {
    assert (us + [u])[..|us|] == us;
  }

  lemma TxIdsMore(us: seq<Update>, u: Update)
    ensures TxIds(us + [u]) == TxIds(us) + if u.Transaction? then [u.tx] else []
  {
    assert (us + [u])[..|us|] == us;
  }

  lemma {:induction false} TilesConcat(a: seq<Update>, b: seq<Update>, x: nat, y: nat, z: nat)
    requires Tiles(a, x, y) && Tiles(b, y, z)
    ensures Tiles(a + b, x, z)
    decreases |b|
  {
    if b == [] {
      assert a + b == a;
    } else {
      var n := |b| - 1;
      TilesConcat(a, b[..n], x, y, b[n].from);
      assert (a + b)[..|a + b| - 1] == a + b[..n];
    }
  }

  lemma {:induction false} TxIdsConcat(a: seq<Update>, b: seq<Update>)
    ensures TxIds(a + b) == TxIds(a) + TxIds(b)
    decreases |b|
  {
    if b == [] {
      assert a + b == a;
    } else {
      var n := |b| - 1;
      TxIdsConcat(a, b[..n]);
      assert (a + b)[..|a + b| - 1] == a + b[..n];
    }
  }

  /** A request index that lies on the boundary before transaction `m`. */
  ghost predicate Boundary(rows: Rows, m: nat, from: nat) {
    from == TreeEnd(rows, m)
  }

  lemma {:induction false} TreeEndMonotone(rows: Rows, m: nat, n: nat)
    requires m <= n && Ordered(rows, n)
    ensures TreeEnd(rows, m) <= TreeEnd(rows, n)
    decreases n - m
  {
    if m < n {
      TreeEndMonotone(rows, m, n - 1);
      assert RowInOrder(rows, n - 1);
    }
  }

  /**
     Transaction `i` is delivered to a wallet at `from` exactly when it advances the tree beyond `from` and beyond
     every earlier relevant transaction. So one that added no outputs may be passed over.
   */
  ghost predicate Advances(rows: Rows, relevant: set<nat>, i: nat, from: nat) {
    && i in relevant && i in rows && from < rows[i].end
    && forall j :: j in relevant && j in rows && 0 <= j < i ==> rows[j].end < rows[i].end
  }

  /** The position reached is that of `from` or of the last relevant end, and never inside a later transaction. */
  ghost predicate Reached(rows: Rows, relevant: set<nat>, n: nat, from: nat, applied: nat) {
    && from <= applied && (applied <= from || applied <= TreeEnd(rows, n))
    && (forall j :: j in relevant && 0 <= j < n && j in rows ==> rows[j].end <= applied)
    && (applied == from || exists j :: j in relevant && 0 <= j < n && j in rows && rows[j].end == applied)
  }

  /** From a boundary nothing fails, and the updates tile the range covered. */
  lemma {:induction false} Delivered(rows: Rows, relevant: set<nat>, n: nat, m: nat, t: nat, from: nat)
    requires Ordered(rows, t) && n <= t && m <= t && Boundary(rows, m, from)
    ensures
      var r := Deliver(rows, relevant, n, from);
      && r.Ok? && Tiles(r.value.updates, from, r.value.applied) && Whole(r.value.updates, rows)
      && Reached(rows, relevant, n, from, r.value.applied)
  {
    if n > 0 {
      Delivered(rows, relevant, n - 1, m, t, from);
      if n <= m {
        TreeEndMonotone(rows, n, m);
      } else {
        TreeEndMonotone(rows, m, n - 1);
      }
      assert RowInOrder(rows, n - 1);
      DeliveredStep(Deliver(rows, relevant, n - 1, from).value, rows, relevant, n, from);
    }
  }

  lemma DeliveredStep(p: Progressed, rows: Rows, relevant: set<nat>, n: nat, from: nat)
    requires n > 0 && n - 1 in rows && TreeEnd(rows, n - 1) <= rows[n - 1].start <= rows[n - 1].end
    requires rows[n - 1].end <= from || from <= TreeEnd(rows, n - 1)
    requires Tiles(p.updates, from, p.applied) && Whole(p.updates, rows)
    requires Reached(rows, relevant, n - 1, from, p.applied)
    ensures n - 1 !in relevant ==> Reached(rows, relevant, n, from, p.applied)
    ensures n - 1 in relevant ==>
      var r := Step(p, rows[n - 1], n - 1);
      && r.Ok? && Tiles(r.value.updates, from, r.value.applied) && Whole(r.value.updates, rows)
      && Reached(rows, relevant, n, from, r.value.applied)
  {
    var row := rows[n - 1];
    if n - 1 in relevant && p.applied < row.end {
      var us := p.updates;
      assert us + [] == us;
      if p.applied < row.start {
        TilesMore(us, from, Collapsed(p.applied, row.start));
        us := us + [Collapsed(p.applied, row.start)];
      }
      TilesMore(us, from, Transaction(row.start, row.end, n - 1));
    }
  }

  predicate Ascending(s: seq<nat>) {
    forall i, j :: 0 <= i < j < |s| ==> s[i] < s[j]
  }

  lemma StepIds(p: Progressed, row: WalletTxIndex, tx: nat)
    requires Step(p, row, tx).Ok?
    ensures TxIds(Step(p, row, tx).value.updates) == TxIds(p.updates) + if p.applied < row.end then [tx] else []
  {
    assert p.updates + [] == p.updates;
    if p.applied < row.end {
      var us := p.updates;
      if p.applied < row.start {
        TxIdsMore(us, Collapsed(p.applied, row.start));
        us := us + [Collapsed(p.applied, row.start)];
      }
      TxIdsMore(us, Transaction(row.start, row.end, tx));
    }
  }

  /** The transactions delivered are exactly those that advance the tree, once each and in order. */
  lemma {:induction false} DeliveredIds(rows: Rows, relevant: set<nat>, n: nat, m: nat, t: nat, from: nat)
    requires Ordered(rows, t) && n <= t && m <= t && Boundary(rows, m, from)
    ensures Deliver(rows, relevant, n, from).Ok?
    ensures
      var ids := TxIds(Deliver(rows, relevant, n, from).value.updates);
      Ascending(ids) && forall i: nat :: i in ids <==> i < n && Advances(rows, relevant, i, from)
  {
    Delivered(rows, relevant, n, m, t, from);
    if n > 0 {
      Delivered(rows, relevant, n - 1, m, t, from);
      DeliveredIds(rows, relevant, n - 1, m, t, from);
      assert RowInOrder(rows, n - 1);
      IdsStep(rows, relevant, n, from, Deliver(rows, relevant, n - 1, from).value);
    }
  }

  lemma IdsStep(rows: Rows, relevant: set<nat>, n: nat, from: nat, p: Progressed)
    requires n > 0 && n - 1 in rows && Deliver(rows, relevant, n - 1, from) == Ok(p)
    requires Deliver(rows, relevant, n, from).Ok?
    requires Reached(rows, relevant, n - 1, from, p.applied)
    requires Ascending(TxIds(p.updates))
    requires forall i: nat :: i in TxIds(p.updates) <==> i < n - 1 && Advances(rows, relevant, i, from)
    ensures
      var ids := TxIds(Deliver(rows, relevant, n, from).value.updates);
      Ascending(ids) && forall i: nat :: i in ids <==> i < n && Advances(rows, relevant, i, from)
  {
    AdvancesIff(rows, relevant, n, from, p.applied);
    DeliveredMore(rows, relevant, n, from, p);
    IdsGrow(rows, relevant, n, from, TxIds(p.updates), TxIds(Deliver(rows, relevant, n, from).value.updates));
  }

  lemma DeliveredMore(rows: Rows, relevant: set<nat>, n: nat, from: nat, p: Progressed)
    requires n > 0 && n - 1 in rows && Deliver(rows, relevant, n - 1, from) == Ok(p)
    requires Deliver(rows, relevant, n, from).Ok?
    ensures TxIds(Deliver(rows, relevant, n, from).value.updates) ==
            TxIds(p.updates) + if n - 1 in relevant && p.applied < rows[n - 1].end then [n - 1] else []
  {
    var next := Deliver(rows, relevant, n, from);
    if n - 1 in relevant {
      assert next == Step(p, rows[n - 1], n - 1);
      StepIds(p, rows[n - 1], n - 1);
    } else {
      assert next == Ok(p);
      assert TxIds(p.updates) + [] == TxIds(p.updates);
    }
  }

  lemma IdsGrow(rows: Rows, relevant: set<nat>, n: nat, from: nat, ids: seq<nat>, ids': seq<nat>)
    requires n > 0 && Ascending(ids) && forall i: nat :: i in ids <==> i < n - 1 && Advances(rows, relevant, i, from)
    requires ids' == ids + if Advances(rows, relevant, n - 1, from) then [n - 1] else []
    ensures Ascending(ids') && forall i: nat :: i in ids' <==> i < n && Advances(rows, relevant, i, from)
  {
    assert forall j :: 0 <= j < |ids| ==> ids[j] in ids;
  }

  lemma AdvancesIff(rows: Rows, relevant: set<nat>, n: nat, from: nat, applied: nat)
    requires n > 0 && n - 1 in rows && Reached(rows, relevant, n - 1, from, applied)
    ensures Advances(rows, relevant, n - 1, from) <==> n - 1 in relevant && applied < rows[n - 1].end
  {
  }

  /** Everything about one response to a wallet that stands on a transaction boundary. */
  lemma SyncAtBoundary(rows: Rows, relevant: set<nat>, target: nat, m: nat, from: nat)
    requires Ordered(rows, target) && m <= target && Boundary(rows, m, from)
    ensures
      var r := Sync(rows, relevant, target, from);
      && r.Ok? && r.value.applied == TreeEnd(rows, target)
      && Tiles(r.value.updates, from, r.value.applied) && Whole(r.value.updates, rows)
      && Ascending(TxIds(r.value.updates))
      && forall i: nat :: i in TxIds(r.value.updates) <==> i < target && Advances(rows, relevant, i, from)
  {
    if target > 0 {
      TreeEndMonotone(rows, m, target);
      assert RowInOrder(rows, target - 1);
      Delivered(rows, relevant, target, m, target, from);
      DeliveredIds(rows, relevant, target, m, target, from);
      var p := Deliver(rows, relevant, target, from).value;
      if p.applied < TreeEnd(rows, target) {
        TilesMore(p.updates, from, Collapsed(p.applied, TreeEnd(rows, target)));
        TxIdsMore(p.updates, Collapsed(p.applied, TreeEnd(rows, target)));
      }
    }
  }

  // ---------- a wallet that polls a growing chain ----------

  /** Polls answered at the boundaries `targets`, the first from index 0, each next one from where the last ended. */
  function Run(rows: Rows, relevant: set<nat>, targets: seq<nat>): Result<Progressed, SyncError> {
    if targets == [] then Ok(Progressed([], 0))
    else
      var prior := Run(rows, relevant, targets[..|targets| - 1]);
      if prior.Err? then prior
      else
        var r := Sync(rows, relevant, targets[|targets| - 1], prior.value.applied);
        if r.Err? then r else Ok(Progressed(prior.value.updates + r.value.updates, r.value.applied))
  }

  function LastTarget(targets: seq<nat>): nat {
    if targets == [] then 0 else targets[|targets| - 1]
  }

  predicate Growing(targets: seq<nat>) {
    forall i, j :: 0 <= i < j < |targets| ==> targets[i] <= targets[j]
  }

  /** Poll `k` delivers transaction `i`. */
  ghost predicate DeliveredBy(rows: Rows, relevant: set<nat>, targets: seq<nat>, k: nat, i: nat)
    requires k < |targets|
  {
    i < targets[k] && Advances(rows, relevant, i, TreeEnd(rows, LastTarget(targets[..k])))
  }

  /** Some poll of the run delivers transaction `i`. */
  ghost predicate DeliveredBySome(rows: Rows, relevant: set<nat>, targets: seq<nat>, i: nat) {
    exists k :: 0 <= k < |targets| && DeliveredBy(rows, relevant, targets, k, i)
  }

  lemma LastPollOrEarlier(rows: Rows, relevant: set<nat>, targets: seq<nat>, i: nat)
    requires targets != []
    ensures DeliveredBySome(rows, relevant, targets, i) <==>
      DeliveredBySome(rows, relevant, targets[..|targets| - 1], i) || DeliveredBy(rows, relevant, targets, |targets| - 1, i)
  {
    var n := |targets| - 1;
    forall k: nat | k < n
      ensures DeliveredBy(rows, relevant, targets[..n], k, i) <==> DeliveredBy(rows, relevant, targets, k, i)
    {
      assert targets[..n][..k] == targets[..k];
    }
  }

  /**
     Over any run of polls on a growing chain: no poll fails, the updates tile the tree from 0 without gap or overlap,
     and a transaction is delivered, whole, exactly when it advances the tree at some poll, never twice.
   */
  lemma {:induction false} RunTiles(rows: Rows, relevant: set<nat>, targets: seq<nat>)
    requires Growing(targets) && Ordered(rows, LastTarget(targets))
    ensures
      var r := Run(rows, relevant, targets);
      && r.Ok? && r.value.applied == TreeEnd(rows, LastTarget(targets))
      && Tiles(r.value.updates, 0, r.value.applied) && Whole(r.value.updates, rows)
      && Ascending(TxIds(r.value.updates))
      && (forall i :: i in TxIds(r.value.updates) ==> i < LastTarget(targets))
      && forall i: nat :: i in TxIds(r.value.updates) <==> DeliveredBySome(rows, relevant, targets, i)
  {
    if targets != [] {
      var n := |targets| - 1;
      var prefix, target := targets[..n], targets[n];
      assert n > 0 ==> LastTarget(prefix) == targets[n - 1] <= target;
      OrderedBelow(rows, LastTarget(prefix), target);
      RunTiles(rows, relevant, prefix);
      var prior := Run(rows, relevant, prefix).value;
      SyncAtBoundary(rows, relevant, target, LastTarget(prefix), prior.applied);
      RunStep(rows, relevant, targets, prior, Sync(rows, relevant, target, prior.applied).value);
    }
  }

  lemma OrderedBelow(rows: Rows, m: nat, n: nat)
    requires Ordered(rows, n) && m <= n
    ensures Ordered(rows, m)
  {
  }

  /** One more poll: what it delivers continues what was delivered before. */
  lemma RunStep(rows: Rows, relevant: set<nat>, targets: seq<nat>, prior: Progressed, r: Progressed)
    requires targets != [] && Growing(targets) && Ordered(rows, LastTarget(targets))
    requires Tiles(prior.updates, 0, prior.applied) && Whole(prior.updates, rows)
    requires Tiles(r.updates, prior.applied, r.applied) && Whole(r.updates, rows)
    requires Ascending(TxIds(prior.updates)) && Ascending(TxIds(r.updates))
    requires forall i :: i in TxIds(prior.updates) ==> i < LastTarget(targets[..|targets| - 1])
    requires forall i: nat :: i in TxIds(prior.updates) <==> DeliveredBySome(rows, relevant, targets[..|targets| - 1], i)
    requires forall i: nat :: i in TxIds(r.updates) <==> DeliveredBy(rows, relevant, targets, |targets| - 1, i)
    ensures
      var all := prior.updates + r.updates;
      && Tiles(all, 0, r.applied) && Whole(all, rows) && Ascending(TxIds(all))
      && (forall i :: i in TxIds(all) ==> i < LastTarget(targets))
      && forall i: nat :: i in TxIds(all) <==> DeliveredBySome(rows, relevant, targets, i)
  {
    TilesConcat(prior.updates, r.updates, 0, prior.applied, r.applied);
    TxIdsConcat(prior.updates, r.updates);
    RunIds(rows, relevant, targets, TxIds(prior.updates), TxIds(r.updates));
    var n := |targets| - 1;
    assert n > 0 ==> LastTarget(targets[..n]) == targets[n - 1] <= targets[n];
  }

  lemma RunIds(rows: Rows, relevant: set<nat>, targets: seq<nat>, before: seq<nat>, ids: seq<nat>)
    requires targets != [] && Growing(targets) && Ordered(rows, LastTarget(targets))
    requires Ascending(before) && Ascending(ids)
    requires forall i :: i in before ==> i < LastTarget(targets[..|targets| - 1])
    requires forall i: nat :: i in before <==> DeliveredBySome(rows, relevant, targets[..|targets| - 1], i)
    requires forall i: nat :: i in ids <==> DeliveredBy(rows, relevant, targets, |targets| - 1, i)
    ensures Ascending(before + ids)
    ensures forall i: nat :: i in before + ids <==> DeliveredBySome(rows, relevant, targets, i)
  {
    var m := LastTarget(targets[..|targets| - 1]);
    forall i: nat ensures i in before + ids <==> DeliveredBySome(rows, relevant, targets, i) {
      LastPollOrEarlier(rows, relevant, targets, i);
    }
    forall i | i in ids ensures m <= i {
      LastPollBeyond(rows, relevant, targets, i);
    }
    AscendingConcat(before, ids, m);
  }

  /** The last poll delivers only what lies beyond the boundary of the poll before it. */
  lemma LastPollBeyond(rows: Rows, relevant: set<nat>, targets: seq<nat>, i: nat)
    requires targets != [] && Growing(targets) && Ordered(rows, LastTarget(targets))
    requires DeliveredBy(rows, relevant, targets, |targets| - 1, i)
    ensures LastTarget(targets[..|targets| - 1]) <= i
  {
    var m := LastTarget(targets[..|targets| - 1]);
    if i < m {
      TreeEndMonotone(rows, i + 1, m);
    }
  }

  lemma AscendingConcat(before: seq<nat>, ids: seq<nat>, m: nat)
    requires Ascending(before) && Ascending(ids)
    requires (forall i :: i in before ==> i < m) && forall i :: i in ids ==> m <= i
    ensures Ascending(before + ids)
  {
    forall x, y | 0 <= x < y < |before + ids| ensures (before + ids)[x] < (before + ids)[y] {
      if x < |before| <= y {
        assert before[x] in before && ids[y - |before|] in ids;
      }
    }
  }

  /** A relevant transaction that moved the tree's end is delivered by every run that gets past it. */
  lemma MovingIsDelivered(rows: Rows, relevant: set<nat>, targets: seq<nat>, i: nat)
    requires Growing(targets) && Ordered(rows, LastTarget(targets))
    requires i in relevant && i < LastTarget(targets) && TreeEnd(rows, i) < TreeEnd(rows, i + 1)
    ensures DeliveredBySome(rows, relevant, targets, i)
  {
    var k := FirstAbove(targets, i);
    TreeEndMonotone(rows, LastTarget(targets[..k]), i);
    assert RowInOrder(rows, i);
    forall j | j in relevant && j in rows && 0 <= j < i ensures rows[j].end < rows[i].end {
      TreeEndMonotone(rows, j + 1, i);
    }
    assert DeliveredBy(rows, relevant, targets, k, i);
  }

  /** A run that polls just before and just after a transaction that left the tree's end where it was. */
  lemma StillIsMissed(rows: Rows, relevant: set<nat>, i: nat)
    requires Ordered(rows, i + 1) && TreeEnd(rows, i) == TreeEnd(rows, i + 1)
    ensures Growing([i, i + 1]) && LastTarget([i, i + 1]) == i + 1
    ensures !DeliveredBySome(rows, relevant, [i, i + 1], i)
  {
    var targets := [i, i + 1];
    assert targets[..1] == [i] && targets[..0] == [];
    assert !DeliveredBy(rows, relevant, targets, 0, i);
    assert RowInOrder(rows, i);
    assert !DeliveredBy(rows, relevant, targets, 1, i);
  }

  /** Transaction `i` is delivered by every run that gets past it. */
  ghost predicate AlwaysDelivered(rows: Rows, relevant: set<nat>, i: nat) {
    forall targets :: Growing(targets) && Ordered(rows, LastTarget(targets)) && i < LastTarget(targets) ==>
      Run(rows, relevant, targets).Ok? && i in TxIds(Run(rows, relevant, targets).value.updates)
  }

  /** A relevant transaction is delivered whenever the wallet polls if and only if it moved the tree's end. */
  lemma AlwaysDeliveredIff(rows: Rows, relevant: set<nat>, i: nat)
    requires i in relevant && Ordered(rows, i + 1)
    ensures AlwaysDelivered(rows, relevant, i) <==> TreeEnd(rows, i) < TreeEnd(rows, i + 1)
  {
    assert RowInOrder(rows, i);
    if TreeEnd(rows, i) < TreeEnd(rows, i + 1) {
      forall targets | Growing(targets) && Ordered(rows, LastTarget(targets)) && i < LastTarget(targets)
        ensures Run(rows, relevant, targets).Ok? && i in TxIds(Run(rows, relevant, targets).value.updates)
      {
        MovingIsDelivered(rows, relevant, targets, i);
        RunTiles(rows, relevant, targets);
      }
    } else {
      StillIsMissed(rows, relevant, i);
      RunTiles(rows, relevant, [i, i + 1]);
    }
  }

  /** When every relevant transaction added outputs, each one below the last boundary is delivered exactly once. */
  lemma RunDeliversAll(rows: Rows, relevant: set<nat>, targets: seq<nat>)
    requires Growing(targets) && Ordered(rows, LastTarget(targets))
    requires forall i :: i in relevant && i in rows ==> rows[i].start < rows[i].end
    ensures Run(rows, relevant, targets).Ok?
    ensures forall i: nat :: i in TxIds(Run(rows, relevant, targets).value.updates) <==>
                             i in relevant && i < LastTarget(targets)
  {
    RunTiles(rows, relevant, targets);
    forall i: nat | i in relevant && i < LastTarget(targets)
      ensures DeliveredBySome(rows, relevant, targets, i)
    {
      assert RowInOrder(rows, i);
      MovingIsDelivered(rows, relevant, targets, i);
    }
  }

  lemma {:induction false} FirstAbove(targets: seq<nat>, i: nat) returns (k: nat)
    requires i < LastTarget(targets)
    ensures k < |targets| && LastTarget(targets[..k]) <= i < targets[k]
  {
    var n := |targets| - 1;
    if i < LastTarget(targets[..n]) {
      k := FirstAbove(targets[..n], i);
      assert targets[..n][..k] == targets[..k];
    } else {
      k := n;
    }
  }

  /** A relevant transaction without outputs: whether it is delivered depends on when the wallet happens to poll. */
  lemma EmptyTransactionDependsOnPolls()
    ensures
      var rows := map[0 := WalletTxIndex(0, 1, 1), 1 := WalletTxIndex(1, 1, 1)];
      && Ordered(rows, 2)
      && Run(rows, {1}, [2]) == Ok(Progressed([Collapsed(0, 1), Transaction(1, 1, 1)], 1))
      && Run(rows, {1}, [1, 2]) == Ok(Progressed([Collapsed(0, 1)], 1))
  {
    var rows := map[0 := WalletTxIndex(0, 1, 1), 1 := WalletTxIndex(1, 1, 1)];
    var none: seq<Update>, gap := [], [Collapsed(0, 1)];
    assert none + gap == gap && gap + none == gap && gap + [Transaction(1, 1, 1)] == [Collapsed(0, 1), Transaction(1, 1, 1)];
    assert Deliver(rows, {1}, 1, 0) == Ok(Progressed(none, 0));
    assert Deliver(rows, {1}, 2, 0) == Ok(Progressed(gap + [Transaction(1, 1, 1)], 1)) by {
      assert none + gap + [Transaction(1, 1, 1)] == gap + [Transaction(1, 1, 1)];
    }
    assert [2][..0] == [] && [1, 2][..1] == [1] && [1][..0] == [];
    assert Run(rows, {1}, []) == Ok(Progressed(none, 0));
    assert none + (gap + [Transaction(1, 1, 1)]) == gap + [Transaction(1, 1, 1)];
    assert Run(rows, {1}, [1]) == Ok(Progressed(gap, 1));
    assert Deliver(rows, {1}, 1, 1) == Ok(Progressed(none, 1));
    assert Deliver(rows, {1}, 2, 1) == Ok(Progressed(none, 1));
  }

  /** One more poll of a run. */
  lemma RunGrows(rows: Rows, relevant: set<nat>, targets: seq<nat>, target: nat, received: seq<Update>, applied: nat)
    requires Growing(targets) && LastTarget(targets) <= target && Ordered(rows, target)
    requires Run(rows, relevant, targets) == Ok(Progressed(received, applied))
    ensures Growing(targets + [target])
    ensures var r := Sync(rows, relevant, target, applied);
      && r.Ok? && r.value.applied == TreeEnd(rows, target) && Tiles(r.value.updates, applied, r.value.applied)
      && Run(rows, relevant, targets + [target]) == Ok(Progressed(received + r.value.updates, r.value.applied))
  {
    RunTiles(rows, relevant, targets);
    SyncAtBoundary(rows, relevant, target, LastTarget(targets), applied);
    assert (targets + [target])[..|targets|] == targets;
  }

  /** The wallet side: it remembers how far it is and asks from there. */
  class Wallet {
    var appliedThrough: nat
    ghost var received: seq<Update>
    ghost var targets: seq<nat>

    /** Everything received so far is the run of its polls (`rows` are those of the eventual chain). */
    ghost predicate Valid(rows: Rows, relevant: set<nat>)
      reads this
    {
      Growing(targets) && Run(rows, relevant, targets) == Ok(Progressed(received, appliedThrough))
    }

    constructor ()
      ensures forall rows, relevant :: Valid(rows, relevant)
      ensures received == [] && targets == []
    {
      appliedThrough, received, targets := 0, [], [];
    }

    /** One request to the server, whose chain is `store.tx` now and will be `later`. */
    method Poll(store: ScanStore, hash: Bytes, decrypts: Decrypts, target: nat, firstFree: nat,
                ghost keys: map<Bytes, Decrypts>, ghost later: TxPart)
      returns (r: Result<Progressed, SyncError>)
      requires Valid(later.walletTx, RelevantIds(later, decrypts)) && LastTarget(targets) <= target
      requires Prefix(store.tx, later, target) && ScansExact(store.tx, keys, store.scans)
      requires hash in keys && keys[hash] == decrypts
      requires forall i :: 0 <= i < target ==> Scannable(store.tx, decrypts, i)
      requires Ordered(later.walletTx, target) && TreeEnd(later.walletTx, target) <= firstFree
      modifies this, store
      ensures Valid(later.walletTx, RelevantIds(later, decrypts)) && targets == old(targets) + [target]
      ensures ScansExact(store.tx, keys, store.scans)
      ensures r.Ok? && received == old(received) + r.value.updates
      ensures Tiles(r.value.updates, old(appliedThrough), appliedThrough)
      ensures appliedThrough == TreeEnd(later.walletTx, target)
    {
      var scan;
      scan, r := WalletShieldedSync(store, hash, decrypts, target, appliedThrough, firstFree, keys);
      SyncPrefix(store.tx, later, decrypts, target, appliedThrough);
      RunGrows(later.walletTx, RelevantIds(later, decrypts), targets, target, received, appliedThrough);
      appliedThrough := r.value.applied;
      received, targets := received + r.value.updates, targets + [target];
    }
  }

  /** An answer depends only on the chain below its target. */
  lemma SyncPrefix(tx: TxPart, later: TxPart, decrypts: Decrypts, target: nat, from: nat)
    requires Prefix(tx, later, target)
    ensures TreeEnd(tx.walletTx, target) == TreeEnd(later.walletTx, target)
    ensures Sync(tx.walletTx, RelevantIds(tx, decrypts), target, from) ==
            Sync(later.walletTx, RelevantIds(later, decrypts), target, from)
  {
    DeliverPrefix(tx, later, decrypts, target, target, from);
  }

  lemma {:induction false} DeliverPrefix(tx: TxPart, later: TxPart, decrypts: Decrypts, n: nat, target: nat, from: nat)
    requires Prefix(tx, later, target) && n <= target
    ensures Deliver(tx.walletTx, RelevantIds(tx, decrypts), n, from) ==
            Deliver(later.walletTx, RelevantIds(later, decrypts), n, from)
  {
    if n > 0 {
      DeliverPrefix(tx, later, decrypts, n - 1, target, from);
      assert Relevant(tx, decrypts, n - 1) <==> Relevant(later, decrypts, n - 1);
    }
  }
}

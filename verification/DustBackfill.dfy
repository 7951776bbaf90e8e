/**
 Rebuild of the DUST generation indexes from the event log.

 Removals and insertions are interleaved in shared batches. A crash keeps a prefix of the committed
 batches, so whatever partially migrated index it leaves is just another starting point for a rerun.
 */
module DustBackfill {
  import opened Prelude
  import opened IndexModel
  import opened EventInvariant

  const COMMIT_EVERY: nat := 1_000

  datatype Indexes = Indexes(generation: map<Bytes, DustRecord>, byOwner: set<(Bytes, Bytes)>)

  datatype Op =
    | RemoveGeneration(hash: Bytes)
    | RemoveOwner(owner: (Bytes, Bytes))
    | InsertGeneration(hash: Bytes, record: DustRecord)
    | InsertOwner(owner: (Bytes, Bytes))

  function Apply(x: Indexes, op: Op): Indexes {
    match op
    case RemoveGeneration(h) => x.(generation := x.generation - {h})
    case RemoveOwner(o) => x.(byOwner := x.byOwner - {o})
    case InsertGeneration(h, r) => x.(generation := x.generation[h := r])
    case InsertOwner(o) => x.(byOwner := x.byOwner + {o})
  }

  function ApplyAll(x: Indexes, ops: seq<Op>): Indexes {
    if ops == [] then x else Apply(ApplyAll(x, ops[..|ops| - 1]), ops[|ops| - 1])
  }

  lemma ApplyMore(x: Indexes, ops: seq<Op>, op: Op)
    ensures ApplyAll(x, ops + [op]) == Apply(ApplyAll(x, ops), op)
  {
    assert (ops + [op])[..|ops|] == ops;
  }

  /** Later writes win. */
  function LastWrites(ws: seq<(Bytes, DustRecord)>): map<Bytes, DustRecord> {
    if ws == [] then map[] else LastWrites(ws[..|ws| - 1])[ws[|ws| - 1].0 := ws[|ws| - 1].1]
  }

  lemma {:induction false} LastWriteIsWritten(ws: seq<(Bytes, DustRecord)>, hash: Bytes)
    requires hash in LastWrites(ws)
    ensures exists i :: 0 <= i < |ws| && ws[i] == (hash, LastWrites(ws)[hash])
  {
    var n := |ws| - 1;
    if ws[n].0 == hash {
      assert ws[n] == (hash, LastWrites(ws)[hash]);
    } else {
      LastWriteIsWritten(ws[..n], hash);
      var i :| 0 <= i < n && ws[..n][i] == (hash, LastWrites(ws[..n])[hash]);
      assert ws[i] == (hash, LastWrites(ws)[hash]);
    }
  }

  /** The record that some generation event for `hash` below `n` asks for. */
  ghost predicate Logged(events: map<nat, EventRecord>, n: nat, hash: Bytes, record: DustRecord) {
    exists id: nat :: GenerationFor(events, n, hash, id) &&
      record == DustRecord(events[id].event.attributes.info, events[id].tx)
  }

  function Elements<T>(s: seq<T>): set<T> {
    set x | x in s
  }

  class Store {
    const events: map<nat, EventRecord>
    var indexes: Indexes
    /** The indexes after every commit: what a crash can leave behind. */
    ghost var commits: seq<Indexes>

    constructor (events: map<nat, EventRecord>, indexes: Indexes)
      ensures this.events == events && this.indexes == indexes && commits == []
    {
      this.events, this.indexes, commits := events, indexes, [];
    }

    method Commit(batch: seq<Op>)
      modifies this
      ensures indexes == ApplyAll(old(indexes), batch)
      ensures commits == old(commits) + [indexes]
    {
      var i := 0;
      while i < |batch|
        invariant 0 <= i <= |batch|
        invariant indexes == ApplyAll(old(indexes), batch[..i])
        invariant commits == old(commits)
      {
        assert batch[..i + 1][..i] == batch[..i];
        indexes := Apply(indexes, batch[i]);
        i := i + 1;
      }
      assert batch[..i] == batch;
      commits := commits + [indexes];
    }
  }

  /** The fresh rebuild, in event order. */
  method ScanEvents(events: map<nat, EventRecord>, n: nat)
    returns (generation: seq<(Bytes, DustRecord)>, owners: seq<(Bytes, Bytes)>)
    ensures LastWrites(generation) == Rebuild(events, n).dustGeneration
    ensures Elements(owners) == Rebuild(events, n).dustByOwner
    ensures forall i :: 0 <= i < |generation| ==> Logged(events, n, generation[i].0, generation[i].1)
  {
    generation, owners := [], [];
    var id := 0;
    while id < n
      invariant 0 <= id <= n
      invariant LastWrites(generation) == Rebuild(events, id).dustGeneration
      invariant Elements(owners) == Rebuild(events, id).dustByOwner
      invariant forall i :: 0 <= i < |generation| ==> Logged(events, n, generation[i].0, generation[i].1)
    {
      if id in events && IsDustGeneration(events[id].event.attributes) {
        var info := events[id].event.attributes.info;
        var write := (info.nightUtxoHash, DustRecord(info, events[id].tx));
        assert GenerationFor(events, n, write.0, id);
        assert (generation + [write])[..|generation|] == generation;
        generation := generation + [write];
        owners := owners + [(info.owner, info.nightUtxoHash)];
      }
      id := id + 1;
    }
  }

  method SetToSeq<T>(s: set<T>) returns (r: seq<T>)
    ensures Elements(r) == s
  {
    r := [];
    var left := s;
    while left != {}
      invariant left <= s && Elements(r) == s - left
      decreases left
    {
      var x :| x in left;
      assert Elements(r + [x]) == Elements(r) + {x};
      r, left := r + [x], left - {x};
    }
  }

  /** The four operation streams of a rebuild. */
  datatype Streams = Streams(removed: seq<Bytes>, removedOwners: seq<(Bytes, Bytes)>,
                             generation: seq<(Bytes, DustRecord)>, owners: seq<(Bytes, Bytes)>)
  {
    ghost function Final(): Indexes {
      Indexes(LastWrites(generation), Elements(owners))
    }

    /** Only garbage is removed, so no key is both removed and inserted; and nothing stale survives. */
    ghost predicate Disjoint(start: Indexes) {
      && Elements(removed) == start.generation.Keys - LastWrites(generation).Keys
      && Elements(removedOwners) == start.byOwner - Elements(owners)
    }

    /**
     The indexes after `a`, `b`, `c` and `d` operations of the streams. Each partition depends on its own two
     streams only, so it does not matter how the four were interleaved.
     */
    ghost predicate Merged(start: Indexes, now: Indexes, a: nat, b: nat, c: nat, d: nat) {
      && a <= |removed| && b <= |removedOwners| && c <= |generation| && d <= |owners|
      && now.generation == (start.generation - Elements(removed[..a])) + LastWrites(generation[..c])
      && now.byOwner == (start.byOwner - Elements(removedOwners[..b])) + Elements(owners[..d])
    }

    lemma {:induction false} PrefixKeys(c: nat)
      requires c <= |generation|
      ensures LastWrites(generation[..c]).Keys <= LastWrites(generation).Keys
      decreases |generation| - c
    {
      if c < |generation| {
        assert generation[..c + 1][..c] == generation[..c];
        PrefixKeys(c + 1);
      } else {
        assert generation[..c] == generation;
      }
    }

    lemma RemoveGenerationStep(start: Indexes, now: Indexes, a: nat, b: nat, c: nat, d: nat)
      requires Disjoint(start) && Merged(start, now, a, b, c, d) && a < |removed|
      ensures Merged(start, Apply(now, Op.RemoveGeneration(removed[a])), a + 1, b, c, d)
    {
      PrefixKeys(c);
      assert removed[a] in Elements(removed);
      assert Elements(removed[..a + 1]) == Elements(removed[..a]) + {removed[a]};
    }

    lemma RemoveOwnerStep(start: Indexes, now: Indexes, a: nat, b: nat, c: nat, d: nat)
      requires Disjoint(start) && Merged(start, now, a, b, c, d) && b < |removedOwners|
      ensures Merged(start, Apply(now, Op.RemoveOwner(removedOwners[b])), a, b + 1, c, d)
    {
      assert removedOwners[b] in Elements(removedOwners);
      assert Elements(removedOwners[..b + 1]) == Elements(removedOwners[..b]) + {removedOwners[b]};
      assert Elements(owners[..d]) <= Elements(owners);
    }

    lemma InsertGenerationStep(start: Indexes, now: Indexes, a: nat, b: nat, c: nat, d: nat)
      requires Merged(start, now, a, b, c, d) && c < |generation|
      ensures Merged(start, Apply(now, Op.InsertGeneration(generation[c].0, generation[c].1)), a, b, c + 1, d)
    {
      assert generation[..c + 1][..c] == generation[..c];
    }

    lemma InsertOwnerStep(start: Indexes, now: Indexes, a: nat, b: nat, c: nat, d: nat)
      requires Merged(start, now, a, b, c, d) && d < |owners|
      ensures Merged(start, Apply(now, Op.InsertOwner(owners[d])), a, b, c, d + 1)
    {
      assert Elements(owners[..d + 1]) == Elements(owners[..d]) + {owners[d]};
    }

    lemma Finished(start: Indexes, now: Indexes)
      requires Disjoint(start) && Merged(start, now, |removed|, |removedOwners|, |generation|, |owners|)
      ensures now == Final()
    {
      assert removed[..|removed|] == removed && generation[..|generation|] == generation;
      assert removedOwners[..|removedOwners|] == removedOwners && owners[..|owners|] == owners;
    }

    /** Every record inserted is one that the log asks for. */
    ghost predicate FromLog(events: map<nat, EventRecord>, n: nat) {
      forall i :: 0 <= i < |generation| ==> Logged(events, n, generation[i].0, generation[i].1)
    }

    lemma Halfway(events: map<nat, EventRecord>, n: nat, start: Indexes, now: Indexes, a: nat, b: nat, c: nat, d: nat)
      requires Disjoint(start) && FromLog(events, n) && Merged(start, now, a, b, c, d)
      ensures PartlyMigrated(events, n, start, now, Final())
    {
      assert forall h :: h in removed[..a] ==> h in removed;
      assert forall o :: o in removedOwners[..b] ==> o in removedOwners;
      assert forall o :: o in owners[..d] ==> o in owners;
      PrefixKeys(c);
      forall h | h in now.generation ensures Kept(start, now, h) || Logged(events, n, h, now.generation[h]) {
        if h in LastWrites(generation[..c]) {
          LastWriteIsWritten(generation[..c], h);
          var i :| 0 <= i < c && generation[..c][i] == (h, now.generation[h]);
          assert Logged(events, n, generation[i].0, generation[i].1);
        }
      }
    }
  }

  predicate Kept(start: Indexes, now: Indexes, hash: Bytes) {
    hash in start.generation && hash in now.generation && now.generation[hash] == start.generation[hash]
  }

  /**
     What every commit of a rebuild leaves behind: entries that both indexes have are never missing, no key or owner entry
     is foreign to both, and every record is the old one or one that the log asks for.
   */
  ghost predicate PartlyMigrated(events: map<nat, EventRecord>, n: nat, start: Indexes, now: Indexes, final: Indexes) {
    && start.generation.Keys * final.generation.Keys <= now.generation.Keys <= start.generation.Keys + final.generation.Keys
    && start.byOwner * final.byOwner <= now.byOwner <= start.byOwner + final.byOwner
    && forall h :: h in now.generation ==> Kept(start, now, h) || Logged(events, n, h, now.generation[h])
  }

  method Plan(store: Store, n: nat) returns (s: Streams)
    ensures s.Disjoint(store.indexes) && s.FromLog(store.events, n)
    ensures s.Final() == Indexes(Rebuild(store.events, n).dustGeneration, Rebuild(store.events, n).dustByOwner)
  {
    var generation, owners := ScanEvents(store.events, n);
    var keys := set i | 0 <= i < |generation| :: generation[i].0;
    WriteKeys(generation);
    var removed := SetToSeq(store.indexes.generation.Keys - keys);
    var removedOwners := SetToSeq(store.indexes.byOwner - set o | o in owners);
    s := Streams(removed, removedOwners, generation, owners);
  }

  lemma {:induction false} WriteKeys(ws: seq<(Bytes, DustRecord)>)
    ensures LastWrites(ws).Keys == set i | 0 <= i < |ws| :: ws[i].0
  {
    if ws != [] {
      var n := |ws| - 1;
      WriteKeys(ws[..n]);
      assert forall h :: h in LastWrites(ws) <==> h in LastWrites(ws[..n]) || h == ws[n].0;
      assert forall i :: 0 <= i < n ==> ws[..n][i].0 == ws[i].0;
    }
  }

  /** One round takes the next operation of every stream that still has one. */
  method QueueRound(s: Streams, ghost start: Indexes, ghost now0: Indexes, ghost base: Indexes, batch0: seq<Op>,
                    a0: nat, b0: nat, c0: nat, d0: nat)
    returns (batch: seq<Op>, ghost now: Indexes, a: nat, b: nat, c: nat, d: nat)
    requires s.Disjoint(start) && s.Merged(start, now0, a0, b0, c0, d0) && now0 == ApplyAll(base, batch0)
    ensures s.Merged(start, now, a, b, c, d) && now == ApplyAll(base, batch)
    ensures a == (if a0 < |s.removed| then a0 + 1 else a0) && b == (if b0 < |s.removedOwners| then b0 + 1 else b0)
    ensures c == (if c0 < |s.generation| then c0 + 1 else c0) && d == (if d0 < |s.owners| then d0 + 1 else d0)
  {
    batch, now, a, b, c, d := batch0, now0, a0, b0, c0, d0;
    if a < |s.removed| {
      s.RemoveGenerationStep(start, now, a, b, c, d);
      batch, now := Push(base, batch, RemoveGeneration(s.removed[a]), now);
      a := a + 1;
    }
    if b < |s.removedOwners| {
      s.RemoveOwnerStep(start, now, a, b, c, d);
      batch, now := Push(base, batch, RemoveOwner(s.removedOwners[b]), now);
      b := b + 1;
    }
    if c < |s.generation| {
      s.InsertGenerationStep(start, now, a, b, c, d);
      batch, now := Push(base, batch, InsertGeneration(s.generation[c].0, s.generation[c].1), now);
      c := c + 1;
    }
    if d < |s.owners| {
      s.InsertOwnerStep(start, now, a, b, c, d);
      batch, now := Push(base, batch, InsertOwner(s.owners[d]), now);
      d := d + 1;
    }
  }

  /**
     Whatever the indexes held, and wherever an earlier attempt crashed, the rebuild ends in the fold of the event log,
     which is the index a live writer maintains.
   */
  method BackfillDustGeneration(store: Store, n: nat)
    modifies store
    ensures store.indexes == Indexes(Rebuild(store.events, n).dustGeneration, Rebuild(store.events, n).dustByOwner)
    ensures old(store.commits) <= store.commits
    ensures forall i :: |old(store.commits)| <= i < |store.commits| ==>
              PartlyMigrated(store.events, n, old(store.indexes), store.commits[i], store.indexes)
  {
    var s := Plan(store, n);
    ghost var start, now := store.indexes, store.indexes;
    var a, b, c, d := 0, 0, 0, 0;
    var batch: seq<Op> := [];
    var pending := 0;
    assert s.Merged(start, now, 0, 0, 0, 0);
    while true
      invariant s.Merged(start, now, a, b, c, d)
      invariant now == ApplyAll(store.indexes, batch)
      invariant old(store.commits) <= store.commits
      invariant forall i :: |old(store.commits)| <= i < |store.commits| ==> PartlyMigrated(store.events, n, start, store.commits[i], s.Final())
      decreases |s.removed| - a + |s.removedOwners| - b + |s.generation| - c + |s.owners| - d
    {
      var a', b', c', d';
      batch, now, a', b', c', d' := QueueRound(s, start, now, store.indexes, batch, a, b, c, d);
      var taken := a' - a + b' - b + c' - c + d' - d;
      a, b, c, d, pending := a', b', c', d', pending + taken;
      if taken == 0 {
        break;
      }
      if pending >= COMMIT_EVERY {
        s.Halfway(store.events, n, start, now, a, b, c, d);
        store.Commit(batch);
        batch, pending := [], 0;
      }
    }
    s.Finished(start, now);
    s.Halfway(store.events, n, start, now, a, b, c, d);
    store.Commit(batch);
  }

  method Push(ghost base: Indexes, batch: seq<Op>, op: Op, ghost now: Indexes) returns (more: seq<Op>,
              ghost next: Indexes)
    requires now == ApplyAll(base, batch)
    ensures more == batch + [op] && next == Apply(now, op) == ApplyAll(base, more)
  {
    ApplyMore(base, batch, op);
    more, next := batch + [op], Apply(now, op);
  }
}

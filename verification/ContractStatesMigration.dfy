/**
 Migration of contract actions from inline state blobs (schema 1) to content-addressed states (schema 2).

 Crash model: batches are atomic and a crash keeps some prefix of those committed since the last sync. Opening the store
 recovers that prefix and syncs the journal before anything is read, so what an attempt starts from is durable. Deleting a
 partition is immediate and survives any crash, whatever happens to the journal.
 */
module ContractStatesMigration {
  import opened Prelude
  import opened IndexModel

  const COMMIT_EVERY: nat := 1_000
  const SCHEMA_CURRENT: nat := 2

  /** Schema-1 record, with the state blob inline. */
  datatype LegacyRecord = LegacyRecord(address: Bytes, attributes: Attributes, state: Bytes, tx: nat, height: nat)

  type Digest = Bytes -> Bytes

  /** The journaled contents. `schema` is the stored version key. */
  datatype Disk = Disk(schema: Option<nat>, cursor: Option<nat>, legacy: map<nat, LegacyRecord>,
                       v2: map<nat, ActionRecord>, states: map<Bytes, Bytes>)

  /** The schema of a store that holds blocks: without a version key it predates the key. */
  function SchemaOf(stored: Option<nat>): nat {
    if stored.Some? then stored.value else 1
  }

  function Image(sha: Digest, r: LegacyRecord): ActionRecord {
    ActionRecord(r.address, r.attributes, if r.state == [] then None else Some(sha(r.state)), r.tx, r.height)
  }

  /** What a reader sees for one migrated action. */
  function Inlined(r: ActionRecord, states: map<Bytes, Bytes>): Option<LegacyRecord> {
    if r.stateHash.None? then Some(LegacyRecord(r.address, r.attributes, [], r.tx, r.height))
    else if r.stateHash.value in states then
      Some(LegacyRecord(r.address, r.attributes, states[r.stateHash.value], r.tx, r.height))
    else None
  }

  ghost function InlinedAll(v2: map<nat, ActionRecord>, states: map<Bytes, Bytes>): map<nat, Option<LegacyRecord>> {
    map id | id in v2 :: Inlined(v2[id], states)
  }

  ghost function AllPresent(legacy: map<nat, LegacyRecord>): map<nat, Option<LegacyRecord>> {
    map id | id in legacy :: Some(legacy[id])
  }

  ghost function ImageOf(sha: Digest, legacy: map<nat, LegacyRecord>): map<nat, ActionRecord> {
    map id | id in legacy :: Image(sha, legacy[id])
  }

  /** The actions and states readable through the partition that the schema selects; None where a read would fail. */
  ghost function Readable(d: Disk, legacyExists: bool): Option<map<nat, Option<LegacyRecord>>> {
    if SchemaOf(d.schema) >= SCHEMA_CURRENT then Some(InlinedAll(d.v2, d.states))
    else if legacyExists then Some(AllPresent(d.legacy))
    else None
  }

  /** Blobs are stored under their own hashes, and the hash does not collide on the blobs in play. */
  ghost predicate BlobsOk(sha: Digest, original: map<nat, LegacyRecord>, states: map<Bytes, Bytes>) {
    && (forall h :: h in states ==> sha(states[h]) == h)
    && (forall id, h :: id in original && h in states && sha(original[id].state) == h ==> original[id].state == states[h])
    && (forall i, j :: i in original && j in original && sha(original[i].state) == sha(original[j].state) ==>
          original[i].state == original[j].state)
  }

  /** Actions below `n` are migrated, with their blobs. */
  ghost predicate Migrated(sha: Digest, original: map<nat, LegacyRecord>, d: Disk, n: nat) {
    && (forall id :: id in d.v2 <==> id in original && id < n)
    && (forall id :: id in d.v2 ==> d.v2[id] == Image(sha, original[id]))
    && (forall id :: id in d.v2 && original[id].state != [] ==> sha(original[id].state) in d.states)
    && BlobsOk(sha, original, d.states)
  }

  function Resume(cursor: Option<nat>): nat {
    if cursor.Some? then cursor.value + 1 else 0
  }

  /** A crash image from which the migration can go on (`n` bounds the action ids). */
  ghost predicate Sound(sha: Digest, original: map<nat, LegacyRecord>, n: nat, d: Disk, legacyExists: bool) {
    if SchemaOf(d.schema) >= SCHEMA_CURRENT then
      Migrated(sha, original, d, n)
    else
      legacyExists && d.legacy == original && Resume(d.cursor) <= n && Migrated(sha, original, d, Resume(d.cursor))
  }

  /** Whatever a crash leaves, every action and state is readable and unchanged. */
  lemma SoundReadable(sha: Digest, original: map<nat, LegacyRecord>, n: nat, d: Disk, legacyExists: bool)
    requires Sound(sha, original, n, d, legacyExists) && forall id :: id in original ==> id < n
    ensures Readable(d, legacyExists) == Some(AllPresent(original))
  {
    if SchemaOf(d.schema) >= SCHEMA_CURRENT {
      forall id | id in d.v2 ensures Inlined(d.v2[id], d.states) == Some(original[id]) {
        assert d.v2[id] == Image(sha, original[id]);
      }
      assert InlinedAll(d.v2, d.states) == AllPresent(original);
    }
  }

  lemma SoundCutover(sha: Digest, original: map<nat, LegacyRecord>, n: nat, d: Disk, legacyExists: bool)
    requires Sound(sha, original, n, d, legacyExists) && SchemaOf(d.schema) >= SCHEMA_CURRENT
    requires forall id :: id in original ==> id < n
    ensures d.v2 == ImageOf(sha, original)
  {
  }

  // ---------- the keyspace ----------

  datatype Op =
    | PutState(hash: Bytes, state: Bytes)
    | PutAction(id: nat, record: ActionRecord)
    | PutCursor(id: nat)
    | DelCursor
    | PutSchema(version: nat)

  function Apply(d: Disk, op: Op): Disk {
    match op
    case PutState(h, s) => d.(states := d.states[h := s])
    case PutAction(id, r) => d.(v2 := d.v2[id := r])
    case PutCursor(id) => d.(cursor := Some(id))
    case DelCursor => d.(cursor := None)
    case PutSchema(v) => d.(schema := Some(v))
  }

  function ApplyAll(d: Disk, ops: seq<Op>): Disk {
    if ops == [] then d else Apply(ApplyAll(d, ops[..|ops| - 1]), ops[|ops| - 1])
  }

  lemma ApplyMore(d: Disk, ops: seq<Op>, op: Op)
    ensures ApplyAll(d, ops + [op]) == Apply(ApplyAll(d, ops), op)
  {
    assert (ops + [op])[..|ops|] == ops;
  }

  /** The hashes of the blobs that operations insert, in order. */
  function StateWrites(ops: seq<Op>): seq<Bytes> {
    if ops == [] then []
    else
      var last := ops[|ops| - 1];
      StateWrites(ops[..|ops| - 1]) + if last.PutState? then [last.hash] else []
  }

  /** The blobs of a batch: each is new to the store and queued once, and `hashes` holds exactly them. */
  ghost predicate QueuedOnce(states: map<Bytes, Bytes>, batch: seq<Op>, hashes: set<Bytes>) {
    var writes := StateWrites(batch);
    && (forall i, j :: 0 <= i < j < |writes| ==> writes[i] != writes[j])
    && (forall h :: h in writes <==> h in hashes) && (forall h :: h in hashes ==> h !in states)
  }

  lemma QueuedOnceMore(states: map<Bytes, Bytes>, batch: seq<Op>, hashes: set<Bytes>, op: Op)
    requires QueuedOnce(states, batch, hashes)
    ensures op.PutState? && op.hash !in states && op.hash !in hashes ==>
      QueuedOnce(states, batch + [op], hashes + {op.hash})
    ensures !op.PutState? ==> QueuedOnce(states, batch + [op], hashes)
  {
    assert (batch + [op])[..|batch|] == batch;
    var writes := StateWrites(batch);
    assert forall i :: 0 <= i < |writes| ==> writes[i] in writes;
  }

  /** What a crash may leave: the contents, and whether the legacy partition exists. */
  type CrashImage = (Disk, bool)

  /** An open store. */
  class Keyspace {
    var disk: Disk
    var legacyExists: bool
    /** The contents at the last sync and after every later commit; a crash keeps one of them. */
    var kept: seq<Disk>
    /** Every image that a crash could have left at some moment since the store was opened; the present one is last. */
    var images: seq<CrashImage>

    ghost predicate Valid()
      reads this
    {
      && kept != [] && kept[|kept| - 1] == disk && (forall d :: d in kept ==> (d, legacyExists) in images)
      && images != [] && images[|images| - 1] == (disk, legacyExists)
    }

    /** Opening syncs what it recovers. */
    constructor Open(image: CrashImage)
      ensures Valid() && (disk, legacyExists) == image && kept == [disk] && images == [image]
    {
      disk, legacyExists, kept, images := image.0, image.1, [image.0], [image];
    }

    method Commit(batch: seq<Op>)
      requires Valid()
      modifies this`disk, this`kept, this`images
      ensures Valid() && disk == ApplyAll(old(disk), batch)
      ensures kept == old(kept) + [disk] && images == old(images) + [(disk, legacyExists)]
    {
      var i := 0;
      while i < |batch|
        invariant 0 <= i <= |batch|
        invariant disk == ApplyAll(old(disk), batch[..i])
        invariant kept == old(kept) && images == old(images)
      {
        assert batch[..i + 1][..i] == batch[..i];
        disk := Apply(disk, batch[i]);
        i := i + 1;
      }
      assert batch[..i] == batch;
      kept, images := kept + [disk], images + [(disk, legacyExists)];
    }

    method Sync()
      requires Valid()
      modifies this`kept
      ensures Valid() && kept == [disk]
    {
      kept := [disk];
    }

    method DeleteLegacy()
      requires Valid()
      modifies this`legacyExists, this`images
      ensures Valid() && !legacyExists && images == old(images) + WithoutLegacy(kept)
    {
      legacyExists := false;
      images := images + WithoutLegacy(kept);
      WithoutLegacyHas(kept);
    }
  }

  /** What may come back once the legacy partition is deleted. */
  function WithoutLegacy(kept: seq<Disk>): seq<CrashImage> {
    seq(|kept|, i requires 0 <= i < |kept| => (kept[i], false))
  }

  lemma WithoutLegacyHas(kept: seq<Disk>)
    ensures forall d :: d in kept <==> (d, false) in WithoutLegacy(kept)
    ensures forall i :: i in WithoutLegacy(kept) ==> !i.1 && i.0 in kept
  {
    forall d | d in kept ensures (d, false) in WithoutLegacy(kept) {
      var k :| 0 <= k < |kept| && kept[k] == d;
      assert WithoutLegacy(kept)[k] == (d, false);
    }
  }

  // ---------- the migration ----------

  /** A batch under way: its effect on the store is the migration of the actions below `n`. */
  ghost predicate Pending(sha: Digest, original: map<nat, LegacyRecord>, d: Disk, batch: seq<Op>, now: Disk,
                          pendingHashes: set<Bytes>, n: nat)
  {
    && now == ApplyAll(d, batch)
    && now.schema == d.schema && now.cursor == d.cursor && now.legacy == d.legacy
    && now.states.Keys == d.states.Keys + pendingHashes && QueuedOnce(d.states, batch, pendingHashes)
    && Migrated(sha, original, now, n)
  }

  /** Queues the blob unless it is committed or queued already. */
  method QueueBlob(hash: Bytes, state: Bytes, states: map<Bytes, Bytes>, batch0: seq<Op>, hashes0: set<Bytes>,
                   ghost d: Disk, ghost now0: Disk)
    returns (batch: seq<Op>, hashes: set<Bytes>, ghost now: Disk)
    requires states == d.states && now0 == ApplyAll(d, batch0) && now0.states.Keys == d.states.Keys + hashes0
    requires QueuedOnce(states, batch0, hashes0)
    ensures now == ApplyAll(d, batch) && now.states.Keys == d.states.Keys + hashes
    ensures QueuedOnce(states, batch, hashes)
    ensures hashes == hashes0 + (if hash in states then {} else {hash})
    ensures now == now0.(states := if hash in now0.states then now0.states else now0.states[hash := state])
  {
    batch, hashes, now := batch0, hashes0, now0;
    if hash !in states && hash !in hashes {
      ApplyMore(d, batch, PutState(hash, state));
      QueuedOnceMore(states, batch, hashes, PutState(hash, state));
      batch, hashes, now := batch + [PutState(hash, state)], hashes + {hash}, Apply(now, PutState(hash, state));
    }
  }

  method MigrateOne(sha: Digest, r: LegacyRecord, id: nat, states: map<Bytes, Bytes>, batch0: seq<Op>,
                    hashes0: set<Bytes>,
                    ghost original: map<nat, LegacyRecord>, ghost d: Disk, ghost now0: Disk)
    returns (batch: seq<Op>, hashes: set<Bytes>, ghost now: Disk)
    requires id in original && original[id] == r && states == d.states
    requires Pending(sha, original, d, batch0, now0, hashes0, id)
    ensures Pending(sha, original, d, batch, now, hashes, id + 1)
    ensures hashes == hashes0 + (if r.state == [] || sha(r.state) in states then {} else {sha(r.state)})
  {
    batch, hashes, now := batch0, hashes0, now0;
    if r.state != [] {
      batch, hashes, now := QueueBlob(sha(r.state), r.state, states, batch, hashes, d, now);
    }
    ApplyMore(d, batch, PutAction(id, Image(sha, r)));
    QueuedOnceMore(states, batch, hashes, PutAction(id, Image(sha, r)));
    batch, now := batch + [PutAction(id, Image(sha, r))], Apply(now, PutAction(id, Image(sha, r)));
    MigratedStep(sha, original, now0, now, id);
  }

  lemma MigratedStep(sha: Digest, original: map<nat, LegacyRecord>, before: Disk, now: Disk, id: nat)
    requires id in original && Migrated(sha, original, before, id)
    requires now.v2 == before.v2[id := Image(sha, original[id])]
    requires now.states == before.states ||
             (original[id].state != [] && now.states == before.states[sha(original[id].state) := original[id].state])
    requires original[id].state != [] ==> sha(original[id].state) in now.states
    ensures Migrated(sha, original, now, id + 1)
  {
    assert BlobsOk(sha, original, before.states);
  }

  lemma SkipOne(sha: Digest, original: map<nat, LegacyRecord>, d: Disk, batch: seq<Op>, now: Disk, hashes: set<Bytes>,
                id: nat)
    requires Pending(sha, original, d, batch, now, hashes, id) && id !in original
    ensures Pending(sha, original, d, batch, now, hashes, id + 1)
  {
  }

  /** Everything a crash may have left is sound. */
  ghost predicate AllSound(sha: Digest, original: map<nat, LegacyRecord>, n: nat, images: seq<CrashImage>) {
    forall i :: i in images ==> Sound(sha, original, n, i.0, i.1)
  }

  /**
     One attempt on a store just opened on any sound image: every image a crash can leave on the way is sound, and the
     attempt ends with schema 2, the v2 partition equal to the hashed image of the legacy one, and the legacy partition
     deleted.
   */
  method BackfillContractStates(k: Keyspace, sha: Digest, n: nat, ghost original: map<nat, LegacyRecord>)
    requires k.Valid() && k.kept == [k.disk] && AllSound(sha, original, n, k.images)
    requires forall id :: id in original ==> id < n
    modifies k
    ensures k.Valid() && AllSound(sha, original, n, k.images) && old(k.images) <= k.images
    ensures SchemaOf(k.disk.schema) >= SCHEMA_CURRENT && !k.legacyExists
    ensures k.disk.v2 == ImageOf(sha, original)
  {
    assert (k.disk, k.legacyExists) in k.images;
    if SchemaOf(k.disk.schema) >= SCHEMA_CURRENT {
      SoundCutover(sha, original, n, k.disk, k.legacyExists);
      if k.legacyExists {
        Reclaim(k, sha, n, original);
      }
      return;
    }
    Migrate(k, sha, n, original);
    k.Sync();
    assert (k.disk, k.legacyExists) in k.images;
    SoundCutover(sha, original, n, k.disk, k.legacyExists);
    Reclaim(k, sha, n, original);
  }

  /** After a durable cutover the legacy partition can go: no image from before the cutover can come back. */
  method Reclaim(k: Keyspace, sha: Digest, n: nat, ghost original: map<nat, LegacyRecord>)
    requires k.Valid() && AllSound(sha, original, n, k.images)
    requires forall d :: d in k.kept ==> SchemaOf(d.schema) >= SCHEMA_CURRENT
    modifies k`legacyExists, k`images
    ensures k.Valid() && AllSound(sha, original, n, k.images) && old(k.images) <= k.images
    ensures !k.legacyExists
  {
    forall d | d in k.kept ensures Sound(sha, original, n, d, false) {
      assert (d, k.legacyExists) in k.images;
      assert Sound(sha, original, n, (d, k.legacyExists).0, (d, k.legacyExists).1);
    }
    WithoutLegacyHas(k.kept);
    k.DeleteLegacy();
  }

  /** Nothing was lost: all actions and states are readable, and the legacy partition is there until the cutover is. */
  ghost predicate Intact(original: map<nat, LegacyRecord>, image: CrashImage) {
    && Readable(image.0, image.1) == Some(AllPresent(original))
    && (SchemaOf(image.0.schema) < SCHEMA_CURRENT ==> image.1 && image.0.legacy == original)
  }

  lemma AllIntact(sha: Digest, original: map<nat, LegacyRecord>, n: nat, images: seq<CrashImage>)
    requires AllSound(sha, original, n, images) && forall id :: id in original ==> id < n
    ensures forall i :: i in images ==> Intact(original, i)
  {
    forall i | i in images ensures Intact(original, i) {
      SoundReadable(sha, original, n, i.0, i.1);
    }
  }

  /** The store is opened on an image and an attempt is made. With `crash` it leaves that one of its images. */
  method Attempt(start: CrashImage, crash: Option<nat>, sha: Digest, n: nat, ghost original: map<nat, LegacyRecord>)
    returns (end: CrashImage, ghost left: seq<CrashImage>)
    requires Sound(sha, original, n, start.0, start.1) && forall id :: id in original ==> id < n
    ensures Sound(sha, original, n, end.0, end.1) && end in left && forall i :: i in left ==> Intact(original, i)
    ensures crash.None? ==> Done(sha, original, end)
  {
    var k := new Keyspace.Open(start);
    BackfillContractStates(k, sha, n, original);
    AllIntact(sha, original, n, k.images);
    left, end := k.images, (k.disk, k.legacyExists);
    if crash.Some? && crash.value < |k.images| {
      end := k.images[crash.value];
    }
  }

  ghost predicate Done(sha: Digest, original: map<nat, LegacyRecord>, image: CrashImage) {
    SchemaOf(image.0.schema) >= SCHEMA_CURRENT && !image.1 && image.0.v2 == ImageOf(sha, original)
  }

  /**
     Any number of attempts that crash at any moment (`crashes` says which of the images passed through is left) and a last
     one that completes. `left` collects every image that a crash on the way could have left.
   */
  method RunAttempts(start: CrashImage, crashes: seq<nat>, sha: Digest, n: nat, ghost original: map<nat, LegacyRecord>)
    returns (end: CrashImage, ghost left: seq<CrashImage>)
    requires Sound(sha, original, n, start.0, start.1) && forall id :: id in original ==> id < n
    ensures start in left && end in left && (forall i :: i in left ==> Intact(original, i)) && Done(sha, original, end)
  {
    SoundReadable(sha, original, n, start.0, start.1);
    end, left := start, [start];
    ghost var more;
    var a := 0;
    while a < |crashes|
      invariant Sound(sha, original, n, end.0, end.1)
      invariant start in left && forall i :: i in left ==> Intact(original, i)
    {
      end, more := Attempt(end, Some(crashes[a]), sha, n, original);
      left := left + more;
      a := a + 1;
    }
    end, more := Attempt(end, None, sha, n, original);
    left := left + more;
  }

  method CommitWithCursor(k: Keyspace, sha: Digest, n: nat, id: nat, batch: seq<Op>, hashes: set<Bytes>,
                          ghost original: map<nat, LegacyRecord>, ghost now: Disk)
    requires k.Valid() && AllSound(sha, original, n, k.images) && SchemaOf(k.disk.schema) < SCHEMA_CURRENT
    requires k.disk.legacy == original && k.legacyExists && id < n
    requires Pending(sha, original, k.disk, batch, now, hashes, id + 1)
    modifies k`disk, k`kept, k`images
    ensures k.Valid() && AllSound(sha, original, n, k.images) && SchemaOf(k.disk.schema) < SCHEMA_CURRENT
    ensures k.disk.legacy == original && Pending(sha, original, k.disk, [], k.disk, {}, id + 1)
    ensures old(k.images) <= k.images
  {
    ApplyMore(k.disk, batch, PutCursor(id));
    k.Commit(batch + [PutCursor(id)]);
    assert Migrated(sha, original, k.disk, id + 1);
  }

  /** The final batch: remaining records, cursor removal, and the cutover itself. */
  method CutOver(k: Keyspace, sha: Digest, n: nat, batch: seq<Op>, hashes: set<Bytes>,
                 ghost original: map<nat, LegacyRecord>, ghost now: Disk)
    requires k.Valid() && AllSound(sha, original, n, k.images) && Pending(sha, original, k.disk, batch, now, hashes, n)
    modifies k`disk, k`kept, k`images
    ensures k.Valid() && AllSound(sha, original, n, k.images)
    ensures SchemaOf(k.disk.schema) >= SCHEMA_CURRENT && old(k.images) <= k.images
  {
    ApplyMore(k.disk, batch, DelCursor);
    ApplyMore(k.disk, batch + [DelCursor], PutSchema(SCHEMA_CURRENT));
    k.Commit(batch + [DelCursor] + [PutSchema(SCHEMA_CURRENT)]);
  }

  method Migrate(k: Keyspace, sha: Digest, n: nat, ghost original: map<nat, LegacyRecord>)
    requires k.Valid() && AllSound(sha, original, n, k.images) && SchemaOf(k.disk.schema) < SCHEMA_CURRENT
    requires forall id :: id in original ==> id < n
    modifies k`disk, k`kept, k`images
    ensures k.Valid() && AllSound(sha, original, n, k.images)
    ensures SchemaOf(k.disk.schema) >= SCHEMA_CURRENT && old(k.images) <= k.images
  {
    assert (k.disk, k.legacyExists) in k.images;
    var id := Resume(k.disk.cursor);
    var batch: seq<Op>, hashes: set<Bytes>, pending := [], {}, 0;
    ghost var now := k.disk;
    while id < n
      invariant k.Valid() && AllSound(sha, original, n, k.images) && old(k.images) <= k.images
      invariant SchemaOf(k.disk.schema) < SCHEMA_CURRENT && k.disk.legacy == original && k.legacyExists
      invariant id <= n && Pending(sha, original, k.disk, batch, now, hashes, id)
    {
      if id in k.disk.legacy {
        batch, hashes, now := MigrateOne(sha, k.disk.legacy[id], id, k.disk.states, batch, hashes, original, k.disk, now);
        pending := pending + 1;
        if pending >= COMMIT_EVERY {
          CommitWithCursor(k, sha, n, id, batch, hashes, original, now);
          now := k.disk;
          batch, hashes, pending := [], {}, 0;
        }
      } else {
        SkipOne(sha, original, k.disk, batch, now, hashes, id);
      }
      id := id + 1;
    }
    CutOver(k, sha, n, batch, hashes, original, now);
  }
}

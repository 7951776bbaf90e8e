/**
 The polled wallet feeds under interleaving: blocks may be committed between any two reads of one poll.

 Ids are given out in increasing order, so a feed's index at the moment when `next` ids have been given out holds the ids
 of its log below `next`.
 */
module PollFeeds {
  import opened Prelude
  import opened Cursor
  import opened KeyEncoding
  import opened Pagination
  import opened PageWalk

  predicate Ascending(ids: seq<nat>) {
    forall i, j :: 0 <= i < j < |ids| ==> ids[i] < ids[j]
  }

  // ---------- the DUST feed ----------

  ghost predicate IndexAt(log: iset<nat>, next: nat, index: seq<nat>) {
    Ascending(index) && forall id :: id in index <==> id in log && id < next
  }

  /** The range from `from` on. */
  function From(index: seq<nat>, from: nat): seq<nat> {
    if index == [] || index[0] >= from then index else From(index[1..], from)
  }

  lemma {:induction false} FromIsRange(index: seq<nat>, from: nat)
    requires Ascending(index)
    ensures Ascending(From(index, from)) && forall id :: id in From(index, from) <==> id in index && id >= from
  {
    if index != [] && index[0] < from {
      FromIsRange(index[1..], from);
      assert index == [index[0]] + index[1..];
    }
  }

  datatype DustPage = DustPage(events: seq<nat>, scannedThrough: nat, highest: nat)

  /** At most `count` events of the index from `from` on; where the scan stopped, or `highest` when it ran out of events. */
  predicate IsDustPage(highest: nat, index: seq<nat>, from: nat, count: nat, page: DustPage) {
    && page.highest == highest && page.events <= From(index, from) && |page.events| <= count
    && (|page.events| < count ==> page.events == From(index, from) && page.scannedThrough == highest)
    && (0 < |page.events| == count ==> page.scannedThrough == page.events[|page.events| - 1] + 1)
  }

  /** `wallet_dust_sync`: `highest` is read first, the index afterwards. */
  method WalletDustSync(highest: nat, index: seq<nat>, from: nat, count: nat) returns (r: Result<DustPage, ApiError>)
    ensures !(1 <= count <= 50_000) ==> r == Err(BadRequest("count should be within range 1-50000"))
    ensures 1 <= count <= 50_000 ==> r.Ok? && IsDustPage(highest, index, from, count, r.value)
  {
    if !(1 <= count <= 50_000) {
      return Err(BadRequest("count should be within range 1-50000"));
    }
    var events: seq<nat> := [];
    var entries := From(index, from);
    var i := 0;
    while i < |entries|
      invariant 0 <= i <= |entries| && events == entries[..i] && i <= count
      invariant i == count ==> i == |entries|
    {
      events := events + [entries[i]];
      i := i + 1;
      if |events| == count {
        break;
      }
    }
    var scannedThrough := if events == [] then from else events[|events| - 1] + 1;
    if |events| < count {
      scannedThrough := highest;
    }
    r := Ok(DustPage(events, scannedThrough, highest));
  }

  /** What a poll read: `highest` when it began, the index when `next` ids had been given out. */
  ghost predicate IsPoll(log: iset<nat>, highest: nat, next: nat, index: seq<nat>, from: nat, count: nat,
                         page: DustPage) {
    highest <= next && count > 0 && IndexAt(log, next, index) && IsDustPage(highest, index, from, count, page)
  }

  /** No event below `scannedThrough` is left out, whatever was committed during the poll. */
  lemma NeverSkips(log: iset<nat>, highest: nat, next: nat, index: seq<nat>, from: nat, count: nat, page: DustPage)
    requires IsPoll(log, highest, next, index, from, count, page)
    ensures forall id :: id in log && from <= id < page.scannedThrough ==> id in page.events
    ensures forall id :: id in page.events ==> id in log && from <= id < next
    ensures from <= highest ==> from <= page.scannedThrough <= next
    ensures Ascending(page.events)
  {
    var all := From(index, from);
    FromIsRange(index, from);
    forall id | id in page.events ensures id in all {
    }
    if |page.events| == count {
      var last := page.events[count - 1];
      assert last == all[count - 1] && last in all;
      forall id | id in log && from <= id <= last ensures id in page.events {
        assert id in all;
        var k :| 0 <= k < |all| && all[k] == id;
        assert k < count && page.events[k] == id;
      }
    }
  }

  /**
     Two polls in a row deliver an event twice exactly when the first found fewer than `count` events, one of them at or
     beyond the `highest` it had read.
   */
  lemma RedeliversIff(log: iset<nat>, highest: nat, next: nat, index: seq<nat>, from: nat, count: nat, page: DustPage,
                      highest': nat, next': nat, index': seq<nat>, count': nat, page': DustPage)
    requires IsPoll(log, highest, next, index, from, count, page) && from <= highest && next <= highest'
    requires IsPoll(log, highest', next', index', page.scannedThrough, count', page')
    ensures (exists id :: id in page.events && id in page'.events)
       <==> |From(index, from)| < count && exists id :: id in From(index, from) && id >= highest
  {
    NeverSkips(log, highest, next, index, from, count, page);
    NeverSkips(log, highest', next', index', page.scannedThrough, count', page');
    FromIsRange(index, from);
    if |page.events| < count {
      if id: nat :| id in page.events && id >= highest {
        FirstIsRedelivered(log, highest', next', index', highest, count', page', page.events, id);
      }
    } else {
      forall id | id in page.events ensures id < page.scannedThrough {
        var k :| 0 <= k < |page.events| && page.events[k] == id;
        assert k < count - 1 ==> page.events[k] < page.events[count - 1];
      }
    }
  }

  /** The first event of the next poll lies at or below any event already delivered beyond its start. */
  lemma FirstIsRedelivered(log: iset<nat>, highest: nat, next: nat, index: seq<nat>, from: nat, count: nat,
                           page: DustPage,
                           before: seq<nat>, id: nat)
    requires IsPoll(log, highest, next, index, from, count, page) && id in before && from <= id < next && id in log
    requires forall j :: j in log && from <= j <= id ==> j in before
    ensures exists j :: j in before && j in page.events
  {
    var all := From(index, from);
    FromIsRange(index, from);
    assert id in all && all[0] in all;
    var k :| 0 <= k < |all| && all[k] == id;
    assert page.events[0] == all[0] <= id;
    assert all[0] in before && all[0] in page.events;
  }

  /** The wallet's id of an event. */
  function SdkIndex(id: nat): nat {
    id + 1
  }

  /** The events of an update that the wallet applies: those whose id there is above what it has applied. */
  function Fresh(events: seq<nat>, applied: nat): seq<nat> {
    if events == [] then [] else
      var last := events[|events| - 1];
      Fresh(events[..|events| - 1], applied) + if SdkIndex(last) > applied then [last] else []
  }

  /** The filter drops exactly the events below the position applied; of a page read from there it drops none. */
  lemma {:induction false} FreshIsAbove(events: seq<nat>, applied: nat)
    ensures forall id :: id in Fresh(events, applied) <==> id in events && id >= applied
  {
    if events != [] {
      var n := |events| - 1;
      assert events == events[..n] + [events[n]];
      FreshIsAbove(events[..n], applied);
    }
  }

  lemma {:induction false} FreshIsAll(events: seq<nat>, applied: nat)
    requires forall i :: 0 <= i < |events| ==> events[i] >= applied
    ensures Fresh(events, applied) == events
  {
    if events != [] {
      var front, last := events[..|events| - 1], events[|events| - 1];
      FreshIsAll(front, applied);
      assert Fresh(events, applied) == front + [last];
    }
  }

  lemma FromExamples()
    ensures From([0, 1], 0) == [0, 1] && From([0, 1], 1) == [1]
  {
    assert [0, 1][1..] == [1] && From([1], 1) == [1];
  }

  /** An event committed between the two reads of a poll: it is delivered and applied, and again by the next poll. */
  lemma Redelivery()
    ensures var log := iset{0, 1};
      var first, second := DustPage([0, 1], 1, 1), DustPage([1], 2, 2);
      && IsPoll(log, 1, 2, [0, 1], 0, 10, first) && IsPoll(log, 2, 2, [0, 1], first.scannedThrough, 10, second)
      && 1 in Fresh(first.events, 0) && 1 in Fresh(second.events, first.scannedThrough)
  {
    FromExamples();
    FreshIsAbove([0, 1], 0);
    FreshIsAbove([1], 1);
  }

  /**
     The wallet's DUST feed. `appliedIndex` is the wallet's own progress, `applied` lists every event applied to the
     wallet, in order.
   */
  class DustFeed {
    var appliedThrough: nat
    var appliedIndex: nat
    var applied: seq<nat>
    ghost const start: nat

    constructor (index: nat)
      ensures appliedThrough == appliedIndex == start == index && applied == []
    {
      appliedThrough, appliedIndex, start, applied := index, index, index, [];
    }

    /** Of the events below `appliedThrough`, none was left out. */
    ghost predicate Complete(log: iset<nat>)
      reads this
    {
      && start <= appliedThrough == appliedIndex
      && forall id :: id in log && start <= id < appliedThrough ==> id in applied
    }

    method Poll(highest: nat, index: seq<nat>, count: nat, ghost log: iset<nat>, ghost next: nat)
      returns (r: Result<DustPage, ApiError>)
      requires Complete(log) && appliedThrough <= highest <= next && IndexAt(log, next, index)
      modifies this
      ensures Complete(log) && old(appliedThrough) <= appliedThrough <= next
      ensures r.Ok? <==> 1 <= count <= 50_000
      ensures r.Err? ==> unchanged(this)
      ensures r.Ok? ==> appliedThrough == r.value.scannedThrough && applied == old(applied) + r.value.events
    {
      r := WalletDustSync(highest, index, appliedThrough, count);
      if r.Ok? {
        NeverSkips(log, highest, next, index, appliedThrough, count, r.value);
        forall k | 0 <= k < |r.value.events| ensures r.value.events[k] >= appliedIndex {
          assert r.value.events[k] in r.value.events;
        }
        appliedThrough := r.value.scannedThrough;
        ApplyUpdate(r.value);
      }
    }

    /** Applies what the filter lets through, which is the whole page when the page was read from the wallet's position. */
    method ApplyUpdate(page: DustPage)
      modifies this`appliedIndex, this`applied
      ensures appliedIndex == page.scannedThrough
      ensures applied == old(applied) + Fresh(page.events, old(appliedIndex))
      ensures (forall k :: 0 <= k < |page.events| ==> page.events[k] >= old(appliedIndex)) ==>
        applied == old(applied) + page.events
    {
      var unseen: seq<nat> := [];
      var i := 0;
      while i < |page.events|
        invariant 0 <= i <= |page.events| && unseen == Fresh(page.events[..i], appliedIndex)
        invariant unchanged(this`appliedIndex) && unchanged(this`applied)
      {
        assert page.events[..i + 1][..i] == page.events[..i];
        if SdkIndex(page.events[i]) > appliedIndex {
          unseen := unseen + [page.events[i]];
        }
        i := i + 1;
      }
      assert page.events[..i] == page.events;
      if forall k :: 0 <= k < |page.events| ==> page.events[k] >= appliedIndex {
        FreshIsAll(page.events, appliedIndex);
      }
      applied, appliedIndex := applied + unseen, page.scannedThrough;
    }
  }

  // ---------- the unshielded feed ----------

  /** The id under which the API answers for a hash: the most recent transaction with it. */
  function LatestId(table: seq<Bytes>, hash: Bytes): (id: nat)
    requires hash in table
    ensures id < |table| && table[id] == hash && forall later :: id < later < |table| ==> table[later] != hash
  {
    var last := |table| - 1;
    if table[last] == hash then last
    else
      assert table == table[..last] + [table[last]];
      LatestId(table[..last], hash)
  }

  ghost predicate UniqueHashes(table: seq<Bytes>) {
    forall i, j :: 0 <= i < j < |table| ==> table[i] != table[j]
  }

  /** What the listing returned: own ids from `from` on, in order, without a gap below `highest` or below the last one. */
  ghost predicate Fetched(own: iset<nat>, from: nat, highest: nat, ids: seq<nat>) {
    && Ascending(ids) && (forall id :: id in ids ==> id in own && from <= id)
    && (forall id :: id in own && from <= id < highest ==> id in ids)
    && (forall id :: id in own && ids != [] && from <= id <= ids[|ids| - 1] ==> id in ids)
  }

  /** Own transactions in a store. */
  ghost function OwnIds(owner: Bytes, store: Store): iset<nat> {
    iset id: nat | id < TWO_64 && PrefixedU64Key(owner, id) in store.keys
  }

  /**
     A completed walk over the address listing fetches just that, for the own transactions of any later store, when
     `highest` was read no later than the walk's first page.
   */
  lemma FetchedByWalk(codec: Codec, owner: Bytes, from: nat, highest: nat, steps: seq<Step>, later: Store)
    requires codec.Valid() && IsWalk(codec, AddressTxs(owner, from), Asc, steps) && steps[|steps| - 1].page.next.None?
    requires Grows(steps[0].first, later) && Indexed(later, AddressTxs(owner, from))
    requires forall i, j :: i in later.heights && j in later.heights && i < j ==> later.heights[i] <= later.heights[j]
    requires forall id :: id in later.heights && id < highest ==> later.heights[id] <= steps[0].first.last.value
    ensures Fetched(OwnIds(owner, later), from, highest, Delivered(steps))
  {
    var ids, tip := Delivered(steps), steps[0].first.last.value;
    forall id: nat ensures id in OwnIds(owner, later) ==> id in later.heights {
      OwnHeight(owner, from, later, id);
    }
    forall id: nat ensures id in ids <==> id in OwnIds(owner, later) && from <= id && later.heights[id] <= tip {
      DeliveredOwn(codec, owner, from, steps, later, id);
    }
    assert InOrder(Asc, ids) by { WalkComplete(codec, AddressTxs(owner, from), Asc, steps); }
    FetchedBelow(OwnIds(owner, later), later.heights, from, highest, tip, ids);
  }

  lemma FetchedBelow(own: iset<nat>, heights: map<nat, nat>, from: nat, highest: nat, tip: nat, ids: seq<nat>)
    requires InOrder(Asc, ids) && forall id :: id in own ==> id in heights
    requires forall id :: id in ids <==> id in own && from <= id && heights[id] <= tip
    requires forall i, j :: i in heights && j in heights && i < j ==> heights[i] <= heights[j]
    requires forall id :: id in heights && id < highest ==> heights[id] <= tip
    ensures Fetched(own, from, highest, ids)
  {
    assert ids != [] ==> ids[|ids| - 1] in ids;
  }

  lemma OwnHeight(owner: Bytes, from: nat, store: Store, id: nat)
    requires Indexed(store, AddressTxs(owner, from))
    ensures id in OwnIds(owner, store) ==> id in store.heights
  {
    if id in OwnIds(owner, store) {
      PrefixedKeys(owner, id, owner, id);
      assert IndexedKey(store, AddressTxs(owner, from), PrefixedU64Key(owner, id));
    }
  }

  lemma DeliveredOwn(codec: Codec, owner: Bytes, from: nat, steps: seq<Step>, later: Store, id: nat)
    requires codec.Valid() && IsWalk(codec, AddressTxs(owner, from), Asc, steps) && steps[|steps| - 1].page.next.None?
    requires Grows(steps[0].first, later) && Indexed(later, AddressTxs(owner, from))
    requires id in OwnIds(owner, later) ==> id in later.heights
    ensures id in Delivered(steps) <==>
      id in OwnIds(owner, later) && from <= id && later.heights[id] <= steps[0].first.last.value
  {
    var e := AddressTxs(owner, from);
    FirstTip(codec, e, Asc, steps);
    WalkComplete(codec, e, Asc, steps);
    assert IsStep(codec, e, Asc, steps, 0);
    VisibleStable(steps[0].first, later, e, steps[0].first.CurrentTip().value.value);
  }

  /**
     The lookups of a poll: `hashes[i]` is the hash of the listed transaction `ids[i]`, and `tables[i]` holds all
     transactions' hashes at the moment of its lookup. Blocks may be committed between any two lookups.
   */
  predicate Lookups(ids: seq<nat>, hashes: seq<Bytes>, tables: seq<seq<Bytes>>) {
    && |ids| == |hashes| == |tables|
    && forall i :: 0 <= i < |ids| ==> ids[i] < |tables[i]| && tables[i][ids[i]] == hashes[i]
  }

  /** The ids under which the API answered. */
  function Answered(ids: seq<nat>, hashes: seq<Bytes>, tables: seq<seq<Bytes>>): (answers: seq<nat>)
    requires Lookups(ids, hashes, tables)
    ensures |answers| == |ids| && forall i :: 0 <= i < |ids| ==> answers[i] >= ids[i]
  {
    seq(|ids|, i requires 0 <= i < |ids| => LatestId(tables[i], hashes[i]))
  }

  /** The wallet's ids of the updates: one more than the transaction id, those up to `applied` dropped. */
  function Updates(answers: seq<nat>, applied: nat): seq<nat> {
    if answers == [] then [] else
      var update := answers[|answers| - 1] + 1;
      Updates(answers[..|answers| - 1], applied) + if update > applied then [update] else []
  }

  function Successors(ids: seq<nat>): seq<nat> {
    seq(|ids|, i requires 0 <= i < |ids| => ids[i] + 1)
  }

  lemma {:induction false} NoneDropped(answers: seq<nat>, applied: nat)
    requires forall i :: 0 <= i < |answers| ==> answers[i] >= applied
    ensures Updates(answers, applied) == Successors(answers)
  {
    if answers != [] {
      var n := |answers| - 1;
      NoneDropped(answers[..n], applied);
      assert Successors(answers) == Successors(answers[..n]) + [answers[n] + 1];
    }
  }

  /** Each fetched id is the latest with its hash at the moment of its lookup. */
  predicate AllLatest(ids: seq<nat>, hashes: seq<Bytes>, tables: seq<seq<Bytes>>)
    requires Lookups(ids, hashes, tables)
  {
    forall i :: 0 <= i < |ids| ==> LatestId(tables[i], hashes[i]) == ids[i]
  }

  /** Each fetched transaction is delivered once and under its own id exactly when it is the latest with its hash. */
  lemma UpdatesExact(ids: seq<nat>, hashes: seq<Bytes>, tables: seq<seq<Bytes>>, applied: nat)
    requires Lookups(ids, hashes, tables) && forall i :: 0 <= i < |ids| ==> ids[i] >= applied
    ensures Updates(Answered(ids, hashes, tables), applied) == Successors(ids) <==> AllLatest(ids, hashes, tables)
    ensures |Updates(Answered(ids, hashes, tables), applied)| == |ids|
  {
    var answers := Answered(ids, hashes, tables);
    NoneDropped(answers, applied);
    if Successors(answers) == Successors(ids) {
      forall i | 0 <= i < |ids| ensures answers[i] == ids[i] {
        assert Successors(answers)[i] == Successors(ids)[i];
      }
    }
    if AllLatest(ids, hashes, tables) {
      assert answers == ids;
    }
  }

  /** Two own transactions with one hash: the older one is never delivered, the newer one twice. */
  lemma DuplicateHash(a: Bytes, b: Bytes)
    requires a != b
    ensures Updates(Answered([0, 1, 2], [a, b, a], [[a, b, a], [a, b, a], [a, b, a]]), 0) == [3, 2, 3]
  {
    var table := [a, b, a];
    assert LatestId(table, a) == 2;
    assert table[..2] == [a, b];
    assert LatestId(table, b) == 1;
    NoneDropped([2, 1, 2], 0);
    assert Answered([0, 1, 2], table, [table, table, table]) == [2, 1, 2];
  }

  function Max(ids: seq<nat>, least: nat): (m: nat)
    ensures m >= least && (forall id :: id in ids ==> id <= m) && (m == least || m in ids)
  {
    if ids == [] then least else
      assert ids == ids[..|ids| - 1] + [ids[|ids| - 1]];
      var m := Max(ids[..|ids| - 1], least);
      if ids[|ids| - 1] > m then ids[|ids| - 1] else m
  }

  /** The wallet's unshielded feed. `delivered` lists the ids of all transactions handed to the wallet, in order. */
  class UnshieldedFeed {
    var appliedId: nat
    ghost const start: nat
    ghost var delivered: seq<nat>

    constructor (applied: nat)
      ensures appliedId == start == applied && delivered == []
    {
      appliedId, start, delivered := applied, applied, [];
    }

    /** Own transactions below `appliedId` were delivered, each once and in order, and nothing else. */
    ghost predicate Exact(own: iset<nat>)
      reads this
    {
      && start <= appliedId && Ascending(delivered)
      && forall id :: id in delivered <==> id in own && start <= id < appliedId
    }

    /**
       One poll: `highest` was read first, then the listing, then the transactions by hash, one after the other. It keeps
       the feed exact if each fetched id is the latest with its hash, and delivers just the fetched ids only then.
     */
    method Poll(highest: nat, ids: seq<nat>, hashes: seq<Bytes>, tables: seq<seq<Bytes>>, ghost own: iset<nat>)
      returns (updates: seq<nat>)
      requires Fetched(own, appliedId, highest, ids) && Lookups(ids, hashes, tables)
      modifies this
      ensures updates == Updates(Answered(ids, hashes, tables), old(appliedId))
      ensures delivered == old(delivered) + Predecessors(updates)
      ensures appliedId == Max([highest] + updates, old(appliedId))
      ensures updates == Successors(ids) <==> AllLatest(ids, hashes, tables)
      ensures old(Exact(own)) && AllLatest(ids, hashes, tables) ==> Exact(own) && delivered == old(delivered) + ids
    {
      ghost var answers := Answered(ids, hashes, tables);
      updates := [];
      var i := 0;
      while i < |ids|
        invariant 0 <= i <= |ids|
        invariant updates == Updates(answers[..i], appliedId)
        invariant unchanged(this)
      {
        assert answers[..i + 1][..i] == answers[..i];
        var update := LatestId(tables[i], hashes[i]) + 1;
        if update > appliedId {
          updates := updates + [update];
        }
        i := i + 1;
      }
      assert answers[..i] == answers;
      FetchedUpdates(own, ids, hashes, tables, appliedId, highest);
      if Exact(own) && AllLatest(ids, hashes, tables) {
        NextApplied(own, start, appliedId, highest, ids, delivered);
        PredecessorsBack(ids);
      }
      appliedId := Max([highest] + updates, appliedId);
      delivered := delivered + Predecessors(updates);
    }
  }

  function Predecessors(updates: seq<nat>): seq<nat> {
    seq(|updates|, i requires 0 <= i < |updates| => if updates[i] == 0 then 0 else updates[i] - 1)
  }

  lemma PredecessorsBack(ids: seq<nat>)
    ensures Predecessors(Successors(ids)) == ids
  {
  }

  lemma FetchedUpdates(own: iset<nat>, ids: seq<nat>, hashes: seq<Bytes>, tables: seq<seq<Bytes>>, applied: nat,
                       highest: nat)
    requires Fetched(own, applied, highest, ids) && Lookups(ids, hashes, tables)
    ensures Updates(Answered(ids, hashes, tables), applied) == Successors(ids) <==> AllLatest(ids, hashes, tables)
  {
    forall i | 0 <= i < |ids| ensures applied <= ids[i] {
      assert ids[i] in ids;
    }
    UpdatesExact(ids, hashes, tables, applied);
  }

  /** When no two transactions share a hash, every poll keeps the feed exact. */
  lemma UniqueAllLatest(ids: seq<nat>, hashes: seq<Bytes>, tables: seq<seq<Bytes>>)
    requires Lookups(ids, hashes, tables) && forall i :: 0 <= i < |tables| ==> UniqueHashes(tables[i])
    ensures AllLatest(ids, hashes, tables)
  {
    forall i | 0 <= i < |ids| ensures LatestId(tables[i], hashes[i]) == ids[i] {
      assert UniqueHashes(tables[i]);
    }
  }

  /** Nothing own lies between the last own transaction delivered and the new `appliedId`. */
  lemma NextApplied(own: iset<nat>, start: nat, applied: nat, highest: nat, ids: seq<nat>, delivered: seq<nat>)
    requires Fetched(own, applied, highest, ids) && start <= applied && Ascending(delivered)
    requires forall id :: id in delivered <==> id in own && start <= id < applied
    ensures var next := Max([highest] + Successors(ids), applied);
      && Ascending(delivered + ids) && next >= applied && next >= highest
      && forall id :: id in delivered + ids <==> id in own && start <= id < next
  {
    var all := [highest] + Successors(ids);
    var next := Max(all, applied);
    assert all[0] == highest && highest in all;
    forall id | id in ids ensures id < next {
      var k :| 0 <= k < |ids| && ids[k] == id;
      assert all[k + 1] == id + 1 && id + 1 in all;
    }
    forall i, j | 0 <= i < j < |delivered + ids| ensures (delivered + ids)[i] < (delivered + ids)[j] {
      if i < |delivered| <= j {
        assert delivered[i] in delivered && ids[j - |delivered|] in ids;
      }
    }
    forall id | id in own && applied <= id < next ensures id in ids {
      if id >= highest {
        var k :| 0 <= k < |ids| && ids[k] + 1 == next;
        assert ids[k] <= ids[|ids| - 1];
      }
    }
  }
}

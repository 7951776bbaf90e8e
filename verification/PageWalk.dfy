/** Following `next_cursor` from page to page while blocks are appended. */
module PageWalk {
  import opened Prelude
  import opened KeyEncoding
  import opened Cursor
  import opened Pagination

  /** `later` is `store` after more blocks: nothing is lost or changed, and every new row is above the old tip. */
  ghost predicate Grows(store: Store, later: Store) {
    && (forall k :: k in store.keys ==> k in later.keys)
    && (forall id :: id in store.heights ==> id in later.heights && later.heights[id] == store.heights[id])
    && (forall h :: h in store.blocks ==> h in later.blocks && later.blocks[h] == store.blocks[h])
    && (forall k :: k in later.keys && k !in store.keys ==> NewRow(store, later, k))
  }

  predicate NewRow(store: Store, later: Store, k: Bytes) {
    |k| >= 8 && KeyU64Suffix(k) in later.heights && store.last.Some? && later.heights[KeyU64Suffix(k)] > store.last.value
  }

  lemma SameRow(store: Store, later: Store, e: Endpoint, anchor: TipAnchor, id: nat)
    requires Grows(store, later) && Indexed(store, e) && store.last == Some(anchor.height)
    ensures IsVisible(later, e, Some(anchor), id) <==> IsVisible(store, e, Some(anchor), id)
  {
    if id < TWO_64 {
      var k := PrefixedU64Key(e.Prefix(), id);
      assert KeyU64Suffix(k) == id by { PrefixedKeys(e.Prefix(), id, e.Prefix(), id); }
      if k in store.keys {
        assert IndexedKey(store, e, k);
      } else if k in later.keys {
        assert NewRow(store, later, k);
      }
    }
  }

  /** What is visible at an anchor does not change once the anchor is the tip. */
  lemma VisibleStable(store: Store, later: Store, e: Endpoint, anchor: TipAnchor)
    requires Grows(store, later) && Indexed(store, e) && store.last == Some(anchor.height)
    ensures Visible(later, e, Some(anchor)) == Visible(store, e, Some(anchor))
  {
    forall id: nat ensures id in Visible(later, e, Some(anchor)) <==> id in Visible(store, e, Some(anchor)) {
      SameRow(store, later, e, anchor, id);
    }
  }

  /** The token handed out with a page is accepted by every later store, with the same anchor and the last row's id. */
  lemma NextAccepted(codec: Codec, later: Store, e: Endpoint, order: Order, anchor: TipAnchor, last: nat, count: nat)
    requires codec.Valid() && anchor.Valid() && last < TWO_64 && 1 <= count <= 5000
    requires anchor.height in later.blocks && later.blocks[anchor.height] == anchor.hash
    ensures PageContext(codec, later, e, Request(count, order, Some(NextToken(codec, e, order, anchor, last)), None))
         == Ok(Context(Some(anchor), Some(last)))
  {
    var c := DecodedCursor(anchor, U64(last));
    var scope := ScopeOf(e.Parts(), order);
    DecodeEncoded(codec, scope, c);
    U64RoundTrip(last);
    TokenLength(codec, scope, c);
  }

  lemma TokenLength(codec: Codec, scope: Bytes, c: DecodedCursor)
    requires codec.Valid() && c.Valid() && |c.position| == 8
    ensures |TokenOf(codec, scope, c)| <= MAX_CURSOR_LEN
  {
    PayloadFields(codec, scope, c);
    var payload := PayloadOf(codec, scope, c);
    assert |payload + codec.Mac(payload)| == FIXED_PAYLOAD_LEN + 8 + MAC_LEN;
  }

  /** Two consecutive pages are one longer page. */
  lemma PagesJoin(visible: set<nat>, order: Order, front: seq<nat>, ids: seq<nat>, count: nat, more: bool)
    requires IsPage(visible, order, None, |front|, front, true)
    requires IsPage(visible, order, Some(front[|front| - 1]), count, ids, more)
    ensures |front| > 0 && |ids| > 0 && IsPage(visible, order, None, |front + ids|, front + ids, more)
  {
    var all := front + ids;
    var last := front[|front| - 1];
    assert ids != [] by {
      var id :| id in visible && Beyond(order, Some(last), id);
      assert id in ids || more;
    }
    InOrderConcat(order, front, ids);
    assert all[|all| - 1] == ids[|ids| - 1];
  }

  lemma InOrderConcat(order: Order, a: seq<nat>, b: seq<nat>)
    requires InOrder(order, a) && InOrder(order, b) && a != []
    requires forall id :: id in b ==> Beyond(order, Some(a[|a| - 1]), id)
    ensures InOrder(order, a + b)
  {
    forall i, j | 0 <= i < j < |a + b| ensures Beyond(order, Some((a + b)[i]), (a + b)[j]) {
      if i < |a| <= j {
        assert b[j - |a|] in b;
      }
    }
  }

  /**
     One response of a walk: the store in which its tip or cursor was checked, the store its rows were read from, the page
     size asked for, and what came back.
   */
  datatype Step = Step(first: Store, store: Store, count: nat, page: Page, more: bool)

  /**
     A walk: the first request has no cursor, each later one the cursor handed out before. The store may grow between any
     two requests and within a request, and each request may ask for a different page size.
   */
  ghost predicate IsWalk(codec: Codec, e: Endpoint, order: Order, steps: seq<Step>)
    requires codec.Valid()
  {
    && steps != [] && e.Valid() && steps[0].first.last.Some?
    && (forall i :: 0 <= i < |steps| ==> IsStep(codec, e, order, steps, i))
  }

  ghost predicate IsStep(codec: Codec, e: Endpoint, order: Order, steps: seq<Step>, i: nat)
    requires codec.Valid() && i < |steps|
  {
    var s := steps[i];
    && s.first.Typed() && s.store.Typed() && Indexed(s.first, e) && Indexed(s.store, e)
    && Grows(steps[0].first, s.first) && Grows(steps[0].first, s.store)
    && (i > 0 ==> steps[i - 1].page.next.Some?)
    && Answers(codec, s.first, s.store, e, Request(s.count, order, if i == 0 then None else steps[i - 1].page.next, None),
               s.page, s.more)
  }

  /** All ids delivered, in the order of delivery. */
  function Delivered(steps: seq<Step>): seq<nat> {
    if steps == [] then [] else Delivered(steps[..|steps| - 1]) + steps[|steps| - 1].page.ids
  }

  /** What the walk is expected to deliver: the rows visible when it began. */
  ghost function Expected(e: Endpoint, steps: seq<Step>): set<nat>
    requires steps != [] && steps[0].first.CurrentTip().Ok?
  {
    Visible(steps[0].first, e, steps[0].first.CurrentTip().value)
  }

  lemma FirstTip(codec: Codec, e: Endpoint, order: Order, steps: seq<Step>)
    requires codec.Valid() && IsWalk(codec, e, order, steps)
    ensures steps[0].first.CurrentTip().Ok? && steps[0].first.CurrentTip().value.Some?
    ensures steps[0].first.CurrentTip().value.value.Valid()
    ensures steps[0].page.tip == steps[0].first.CurrentTip().value
    ensures IsPage(Expected(e, steps), order, None, steps[0].count, steps[0].page.ids, steps[0].more)
  {
    assert IsStep(codec, e, order, steps, 0);
    VisibleStable(steps[0].first, steps[0].store, e, steps[0].first.CurrentTip().value.value);
  }

  /** After `n` steps, the walk is one page: the first rows visible when it began, with the first page's anchor. */
  ghost predicate SoFar(e: Endpoint, order: Order, steps: seq<Step>, n: nat, ids: seq<nat>)
    requires 0 < n <= |steps| && steps[0].first.CurrentTip().Ok?
  {
    var s := steps[n - 1];
    && s.page.tip == steps[0].first.CurrentTip().value
    && IsPage(Expected(e, steps), order, None, |ids|, ids, s.more)
    && |ids| >= (if s.more then n else n - 1) && (s.more ==> s.page.ids != [] && ids[|ids| - 1] == Last(s))
    && (s.more <==> s.page.next.Some?)
  }

  lemma {:induction false} WalkSoFar(codec: Codec, e: Endpoint, order: Order, steps: seq<Step>, n: nat)
    requires codec.Valid() && IsWalk(codec, e, order, steps) && 0 < n <= |steps| && steps[0].first.CurrentTip().Ok?
    ensures SoFar(e, order, steps, n, Delivered(steps[..n]))
  {
    assert steps[..n][..n - 1] == steps[..n - 1];
    if n == 1 {
      FirstStep(codec, e, order, steps);
      assert Delivered(steps[..1]) == [] + steps[0].page.ids;
    } else {
      WalkSoFar(codec, e, order, steps, n - 1);
      NextStep(codec, e, order, steps, n, Delivered(steps[..n - 1]));
    }
  }

  lemma FirstStep(codec: Codec, e: Endpoint, order: Order, steps: seq<Step>)
    requires codec.Valid() && IsWalk(codec, e, order, steps) && steps[0].first.CurrentTip().Ok?
    ensures SoFar(e, order, steps, 1, steps[0].page.ids)
  {
    FirstTip(codec, e, order, steps);
    MoreMeansNext(codec, e, order, steps, 0);
  }

  lemma NextStep(codec: Codec, e: Endpoint, order: Order, steps: seq<Step>, n: nat, front: seq<nat>)
    requires codec.Valid() && IsWalk(codec, e, order, steps) && 1 < n <= |steps| && steps[0].first.CurrentTip().Ok?
    requires SoFar(e, order, steps, n - 1, front)
    ensures SoFar(e, order, steps, n, front + steps[n - 1].page.ids)
  {
    var tip, s := steps[0].first.CurrentTip().value, steps[n - 1];
    assert tip.Some? by { FirstTip(codec, e, order, steps); }
    MoreMeansNext(codec, e, order, steps, n - 1);
    StepContext(codec, e, order, steps, n - 1);
    assert IsPage(Expected(e, steps), order, None, |front + s.page.ids|, front + s.page.ids, s.more) && s.page.ids != [] by {
      PagesJoin(Expected(e, steps), order, front, s.page.ids, s.count, s.more);
    }
  }

  lemma MoreMeansNext(codec: Codec, e: Endpoint, order: Order, steps: seq<Step>, i: nat)
    requires codec.Valid() && IsWalk(codec, e, order, steps) && i < |steps|
    ensures steps[i].page.tip.Some? ==> (steps[i].more <==> steps[i].page.next.Some?)
    ensures steps[i].more ==> steps[i].page.ids != []
    ensures i > 0 ==> steps[i - 1].page.next.Some?
  {
    assert IsStep(codec, e, order, steps, i);
  }

  function Last(s: Step): nat {
    if s.page.ids == [] then 0 else s.page.ids[|s.page.ids| - 1]
  }

  /** A later step sees the first anchor, the position of the step before, and the same visible rows. */
  lemma StepContext(codec: Codec, e: Endpoint, order: Order, steps: seq<Step>, i: nat)
    requires codec.Valid() && IsWalk(codec, e, order, steps) && 0 < i < |steps| && steps[0].first.CurrentTip().Ok?
    requires steps[i - 1].page.tip == steps[0].first.CurrentTip().value && steps[i - 1].more
    requires Last(steps[i - 1]) in Expected(e, steps)
    ensures steps[i].page.tip == steps[0].first.CurrentTip().value
    ensures IsPage(Expected(e, steps), order, Some(Last(steps[i - 1])), steps[i].count, steps[i].page.ids, steps[i].more)
  {
    FirstTip(codec, e, order, steps);
    var anchor := steps[0].first.CurrentTip().value.value;
    var last := Last(steps[i - 1]);
    assert IsStep(codec, e, order, steps, 0) && IsStep(codec, e, order, steps, i - 1) && IsStep(codec, e, order, steps, i);
    NextAccepted(codec, steps[i].first, e, order, anchor, last, steps[i].count);
    VisibleStable(steps[0].first, steps[i].store, e, anchor);
  }

  /**
     A walk that has come to its end has delivered exactly the rows at or below the tip at which it began, once each and in
     order, whatever was appended meanwhile and whatever the page sizes.
   */
  lemma WalkComplete(codec: Codec, e: Endpoint, order: Order, steps: seq<Step>)
    requires codec.Valid() && IsWalk(codec, e, order, steps) && steps[|steps| - 1].page.next.None?
    ensures steps[0].first.CurrentTip().Ok?
    ensures InOrder(order, Delivered(steps))
    ensures forall id :: id in Delivered(steps) <==> id in Expected(e, steps)
  {
    FirstTip(codec, e, order, steps);
    WalkSoFar(codec, e, order, steps, |steps|);
    assert steps[..|steps|] == steps;
  }

  /** Every page but the last is full, so a walk comes to its end. */
  lemma WalkEnds(codec: Codec, e: Endpoint, order: Order, steps: seq<Step>)
    requires codec.Valid() && IsWalk(codec, e, order, steps) && steps[|steps| - 1].page.next.Some?
    ensures steps[0].first.CurrentTip().Ok? && |steps| < |Expected(e, steps)|
  {
    FirstTip(codec, e, order, steps);
    WalkSoFar(codec, e, order, steps, |steps|);
    var ids, visible := Delivered(steps[..|steps|]), Expected(e, steps);
    var extra :| extra in visible && Beyond(order, Some(ids[|ids| - 1]), extra);
    DistinctBelow(order, ids, visible, extra);
  }

  lemma {:induction false} DistinctBelow(order: Order, ids: seq<nat>, visible: set<nat>, extra: nat)
    requires InOrder(order, ids) && (forall id :: id in ids ==> id in visible) && extra in visible
    requires ids != [] ==> Beyond(order, Some(ids[|ids| - 1]), extra)
    ensures |ids| < |visible|
  {
    if ids == [] {
      assert visible != {};
    } else {
      var front, last := ids[..|ids| - 1], ids[|ids| - 1];
      assert ids == front + [last];
      forall id | id in front ensures id in visible - {extra} && Beyond(order, Some(id), last) {
        var k :| 0 <= k < |front| && front[k] == id;
        assert Beyond(order, Some(ids[k]), ids[|ids| - 1]);
      }
      DistinctBelow(order, front, visible - {extra}, last);
    }
  }
}

/**
 Cursor-paginated listings: one page of the four endpoints that walk an index, and walks that follow `next_cursor` while
 the store grows.
 */
module Pagination {
  import opened Prelude
  import opened KeyEncoding
  import opened Cursor

  /** The listings over an index whose keys are a prefix and a big-endian id. */
  datatype Endpoint =
    | AddressTxs(owner: Bytes, from: nat)
    | ContractActions(address: Bytes)
    | ContractEvents(address: Bytes, from: nat)
    | LedgerEvents(from: nat)
  {
    function Prefix(): Bytes {
      match this
      case AddressTxs(owner, _) => owner
      case ContractActions(address) => address
      case ContractEvents(address, _) => address
      case LedgerEvents(_) => []
    }

    /** The first id listed. */
    function First(): nat {
      match this
      case ContractActions(_) => 0
      case AddressTxs(_, from) => from
      case ContractEvents(_, from) => from
      case LedgerEvents(from) => from
    }

    /** Where the range starts when there is no cursor, or when the order is descending. */
    function LowerKey(): Bytes {
      if ContractActions? then address else PrefixedU64Key(Prefix(), First())
    }

    /** Contract addresses have any length, so a row of a longer address may lie in the range. */
    predicate ChecksOwner() {
      ContractActions? || ContractEvents?
    }

    /** The cursor belongs to the listing, its arguments and its order. */
    function Parts(): seq<Bytes> {
      match this
      case AddressTxs(owner, from) => [Ascii("address_txs"), owner, U64(from)]
      case ContractActions(address) => [Ascii("contract_actions"), address]
      case ContractEvents(address, from) => [Ascii("contract_events"), address, U64(from)]
      case LedgerEvents(from) => [Ascii("ledger_events"), U64(from)]
    }

    /** A u64 start id and, for a transaction listing, a 32-byte address. */
    predicate Valid() {
      First() < TWO_64 && |Prefix()| < TWO_32 && (AddressTxs? ==> |owner| == 32)
    }
  }

  function Ascii(s: string): Bytes {
    seq(|s|, i requires 0 <= i < |s| => s[i] as int % 256)
  }

  /** Cursors of different listings, arguments or orders have different scopes. */
  lemma ScopesDiffer(d: Endpoint, o: Order, e: Endpoint, p: Order)
    requires d.Valid() && e.Valid() && ScopeOf(d.Parts(), o) == ScopeOf(e.Parts(), p)
    ensures d == e && o == p
  {
    ScopeInjective(d.Parts(), o, e.Parts(), p);
    var a, b := d.Parts(), e.Parts();
    assert |a[0]| == |b[0]|;
    U64RoundTrip(d.First());
    U64RoundTrip(e.First());
    assert |a| > 1 && a[1] == b[1];
    assert |a| > 2 ==> a[2] == b[2];
  }

  /**
     One listing's index, the records its ids point to (block height and, for contracts, address), and the chain. A listing
     of transactions or of all events has keys of one length.
   */
  datatype Store = Store(keys: seq<Bytes>, heights: map<nat, nat>, owners: map<nat, Bytes>, blocks: map<nat, Bytes>,
                         last: Option<nat>)
  {
    /** An ordered partition of keys that end with a u64, and 32-byte block hashes by u64 heights. */
    ghost predicate Typed() {
      && Increasing(keys) && (forall k :: k in keys ==> |k| >= 8)
      && (last.Some? ==> last.value < TWO_64) && (forall h :: h in blocks ==> |blocks[h]| == 32)
    }

    /** `current_tip`. */
    function CurrentTip(): Result<Option<TipAnchor>, ApiError> {
      if last.None? then Ok(None)
      else if last.value !in blocks then Err(Internal("indexed tip block is missing"))
      else Ok(Some(TipAnchor(last.value, blocks[last.value])))
    }

    /** `validate_anchor`: whether a cursor's tip still belongs to the indexed chain. */
    function AnchorError(anchor: TipAnchor): Option<ApiError> {
      if anchor.height !in blocks then Some(Gone("cursor tip is no longer available"))
      else if blocks[anchor.height] != anchor.hash then Some(Gone("cursor belongs to a different chain history"))
      else None
    }
  }

  // ---------- the request ----------

  datatype Request = Request(count: nat, order: Order, cursor: Option<string>, page: Option<nat>)

  datatype Context = Context(anchor: Option<TipAnchor>, position: Option<nat>)

  /** `page_context` and the position of the cursor: an eight-byte id. */
  function PageContext(codec: Codec, store: Store, e: Endpoint, q: Request): Result<Context, ApiError>
    requires forall b :: |codec.hmac(b)| == 32 && |codec.sha256(b)| == 32
  {
    if !(1 <= q.count <= 5000) then Err(BadRequest("querystring count should be within range 1-5000"))
    else if q.page.Some? then
      Err(BadRequest("querystring page is no longer supported; use next_cursor as cursor"))
    else match q.cursor
    case Some(token) =>
      if |token| > MAX_CURSOR_LEN then Err(BadRequest("cursor is too long")) else (
        match Decode(codec, token, ScopeOf(e.Parts(), q.order))
        case Err(error) => Err(error)
        case Ok(c) =>
          if store.AnchorError(c.anchor).Some? then Err(store.AnchorError(c.anchor).value)
          else if |c.position| != 8 then Err(BadRequest("invalid cursor position"))
          else Ok(Context(Some(c.anchor), Some(FromBigEndian(c.position)))))
    case None =>
      match store.CurrentTip()
      case Err(error) => Err(error)
      case Ok(tip) => Ok(Context(tip, None))
  }

  /** A request that is refused for itself, whatever the store and the cursor are. */
  lemma BadRequests(codec: Codec, store: Store, e: Endpoint, q: Request)
    requires codec.Valid()
    ensures var r := PageContext(codec, store, e, q);
      && (r == Err(BadRequest("querystring count should be within range 1-5000")) <==> q.count < 1 || 5000 < q.count)
      && (r == Err(BadRequest("querystring page is no longer supported; use next_cursor as cursor")) <==>
            1 <= q.count <= 5000 && q.page.Some?)
  {
    assert |"querystring count should be within range 1-5000"| == 47;
    assert |"querystring page is no longer supported; use next_cursor as cursor"| == 66;
    if 1 <= q.count <= 5000 && q.page.None? && q.cursor.Some? {
      OtherRefusals(codec, store, e, q);
    }
  }

  /** The other refusals have shorter messages. */
  lemma OtherRefusals(codec: Codec, store: Store, e: Endpoint, q: Request)
    requires codec.Valid() && 1 <= q.count <= 5000 && q.page.None? && q.cursor.Some?
    ensures var r := PageContext(codec, store, e, q); r.Err? && r.error.BadRequest? ==> |r.error.message| < 40
  {
    DecodeErrors(codec, q.cursor.value, ScopeOf(e.Parts(), q.order));
  }

  lemma DecodeErrors(codec: Codec, token: string, scope: Bytes)
    requires codec.Valid()
    ensures var r := Decode(codec, token, scope); r.Err? ==> r.error.BadRequest? && |r.error.message| < 40
  {
  }

  /** `token` is a cursor of the listing, made in this order for the tip `anchor`. */
  ghost predicate IsCursor(codec: Codec, e: Endpoint, order: Order, token: string, c: DecodedCursor)
    requires codec.Valid()
  {
    c.Valid() && |token| <= MAX_CURSOR_LEN && token == TokenOf(codec, ScopeOf(e.Parts(), order), c)
  }

  /**
     A request with a cursor is served exactly when the cursor is one of the listing, its tip is still the block of the
     chain at its height, and its position is an id; it is gone exactly when that block is missing or another one.
   */
  lemma CursorRequests(codec: Codec, store: Store, e: Endpoint, q: Request)
    requires codec.Valid() && 1 <= q.count <= 5000 && q.page.None? && q.cursor.Some?
    ensures var r, token := PageContext(codec, store, e, q), q.cursor.value;
      && (r == Err(Gone("cursor tip is no longer available")) <==>
            exists c :: IsCursor(codec, e, q.order, token, c) && c.anchor.height !in store.blocks)
      && (r == Err(Gone("cursor belongs to a different chain history")) <==>
            exists c :: IsCursor(codec, e, q.order, token, c) && c.anchor.height in store.blocks
              && store.blocks[c.anchor.height] != c.anchor.hash)
      && (r.Ok? <==>
            exists c :: IsCursor(codec, e, q.order, token, c) && c.anchor.height in store.blocks
              && store.blocks[c.anchor.height] == c.anchor.hash && |c.position| == 8)
  {
    var token, scope := q.cursor.value, ScopeOf(e.Parts(), q.order);
    CursorDecodes(codec, e, q.order, token);
    if |token| <= MAX_CURSOR_LEN && Decode(codec, token, scope).Ok? {
      assert IsCursor(codec, e, q.order, token, Decode(codec, token, scope).value);
    } else {
      assert forall c :: !IsCursor(codec, e, q.order, token, c);
      DecodeErrors(codec, token, scope);
    }
  }

  lemma CursorDecodes(codec: Codec, e: Endpoint, order: Order, token: string)
    requires codec.Valid()
    ensures forall c :: IsCursor(codec, e, order, token, c) <==>
      |token| <= MAX_CURSOR_LEN && Decode(codec, token, ScopeOf(e.Parts(), order)) == Ok(c)
  {
    var scope := ScopeOf(e.Parts(), order);
    forall c | IsCursor(codec, e, order, token, c) ensures Decode(codec, token, scope) == Ok(c) {
      DecodeEncoded(codec, scope, c);
    }
    if Decode(codec, token, scope).Ok? {
      DecodeOnlyEncoded(codec, token, scope);
    }
  }

  // ---------- what a page should hold ----------

  ghost predicate IsVisible(store: Store, e: Endpoint, anchor: Option<TipAnchor>, id: nat) {
    && e.First() <= id < TWO_64 && PrefixedU64Key(e.Prefix(), id) in store.keys
    && id in store.heights && (anchor.Some? ==> store.heights[id] <= anchor.value.height)
  }

  /** The rows of a listing at or below the anchor. */
  ghost function Visible(store: Store, e: Endpoint, anchor: Option<TipAnchor>): set<nat> {
    set id | id in store.heights && IsVisible(store, e, anchor, id)
  }

  predicate Beyond(order: Order, position: Option<nat>, id: nat) {
    match position
    case None => true
    case Some(p) => if order.Asc? then p < id else id < p
  }

  predicate InOrder(order: Order, ids: seq<nat>) {
    forall i, j :: 0 <= i < j < |ids| ==> Beyond(order, Some(ids[i]), ids[j])
  }

  /** The first `count` of the visible rows beyond the position, in order; `more` when there are others. */
  ghost predicate IsPage(visible: set<nat>, order: Order, position: Option<nat>, count: nat, ids: seq<nat>,
                         more: bool) {
    && InOrder(order, ids) && |ids| <= count
    && (forall id :: id in ids ==> id in visible && Beyond(order, position, id))
    && (more ==> |ids| == count > 0 && exists id :: id in visible && Beyond(order, Some(ids[|ids| - 1]), id))
    && (forall id :: id in visible && Beyond(order, position, id) ==>
          id in ids || (more && Beyond(order, Some(ids[|ids| - 1]), id)))
  }

  datatype Page = Page(ids: seq<nat>, tip: Option<TipAnchor>, next: Option<string>)

  /** The token of the page after one that ends with `last`. */
  ghost function NextToken(codec: Codec, e: Endpoint, order: Order, anchor: TipAnchor, last: nat): string
    requires codec.Valid()
  {
    TokenOf(codec, ScopeOf(e.Parts(), order), DecodedCursor(anchor, U64(last)))
  }

  /** A response whose tip or cursor was checked in the store `first` and whose rows were read from `store`. */
  ghost predicate Answers(codec: Codec, first: Store, store: Store, e: Endpoint, q: Request, page: Page, more: bool)
    requires codec.Valid()
  {
    && PageContext(codec, first, e, q).Ok?
    && var c := PageContext(codec, first, e, q).value;
    && page.tip == c.anchor
    && IsPage(Visible(store, e, c.anchor), q.order, c.position, q.count, page.ids, more)
    && page.next == if more && c.anchor.Some? && page.ids != []
    then Some(NextToken(codec, e, q.order, c.anchor.value, page.ids[|page.ids| - 1])) else None
  }

  // ---------- the range scan ----------

  /** A strictly increasing partition. */
  ghost predicate Increasing(keys: seq<Bytes>) {
    forall i, j :: 0 <= i < j < |keys| ==> Less(keys[i], keys[j])
  }

  /** Every key has its record; keys are of one length, or the record names the address. */
  ghost predicate Indexed(store: Store, e: Endpoint) {
    forall k :: k in store.keys ==> IndexedKey(store, e, k)
  }

  predicate IndexedKey(store: Store, e: Endpoint, k: Bytes) {
    && |k| >= 8 && KeyU64Suffix(k) in store.heights
    && if e.ChecksOwner() then
      KeyU64Suffix(k) in store.owners && k == PrefixedU64Key(store.owners[KeyU64Suffix(k)], KeyU64Suffix(k))
    else |k| == |e.Prefix()| + 8
  }

  /** The lower bound is excluded exactly when it is a cursor's key. */
  predicate AboveLower(e: Endpoint, order: Order, position: Option<nat>, k: Bytes) {
    if order.Asc? && position.Some? then Less(PrefixedU64Key(e.Prefix(), position.value), k) else !Less(k, e.LowerKey())
  }

  predicate BelowUpper(e: Endpoint, order: Order, position: Option<nat>, end: Option<Bytes>, k: Bytes) {
    if order.Desc? && position.Some? then Less(k, PrefixedU64Key(e.Prefix(), position.value))
    else end.Some? ==> Less(k, end.value)
  }

  predicate InRange(e: Endpoint, order: Order, position: Option<nat>, end: Option<Bytes>, k: Bytes) {
    AboveLower(e, order, position, k) && BelowUpper(e, order, position, end, k)
  }

  /** What the engine yields for a range, in key order. */
  function Range(keys: seq<Bytes>, e: Endpoint, order: Order, position: Option<nat>, end: Option<Bytes>): seq<Bytes> {
    if keys == [] then []
    else if InRange(e, order, position, end, keys[0]) then [keys[0]] + Range(keys[1..], e, order, position, end)
    else Range(keys[1..], e, order, position, end)
  }

  lemma {:induction false} RangeKeys(keys: seq<Bytes>, e: Endpoint, order: Order, position: Option<nat>,
                                     end: Option<Bytes>)
    requires Increasing(keys)
    ensures forall k :: k in Range(keys, e, order, position, end) <==> k in keys && InRange(e, order, position, end, k)
    ensures Increasing(Range(keys, e, order, position, end))
  {
    if keys != [] {
      RangeKeys(keys[1..], e, order, position, end);
      assert keys == [keys[0]] + keys[1..];
      forall k | k in keys[1..] ensures Less(keys[0], k) {
        var j :| 0 <= j < |keys[1..]| && keys[1..][j] == k;
        assert Less(keys[0], keys[j + 1]);
      }
      IncreasingCons(keys[0], Range(keys[1..], e, order, position, end));
    }
  }

  lemma IncreasingCons(k: Bytes, keys: seq<Bytes>)
    requires Increasing(keys) && forall j :: j in keys ==> Less(k, j)
    ensures Increasing([k] + keys)
  {
    var all := [k] + keys;
    forall i, j | 0 <= i < j < |all| ensures Less(all[i], all[j]) {
      assert all[j] == keys[j - 1] && all[j] in keys;
    }
  }

  function Reverse(keys: seq<Bytes>): seq<Bytes> {
    seq(|keys|, i requires 0 <= i < |keys| => keys[|keys| - 1 - i])
  }

  /** Keys in the order in which a listing visits them. */
  ghost predicate Visits(order: Order, entries: seq<Bytes>) {
    forall i, j :: 0 <= i < j < |entries| ==> Follows(order, entries[i], entries[j])
  }

  predicate Follows(order: Order, a: Bytes, b: Bytes) {
    if order.Asc? then Less(a, b) else Less(b, a)
  }

  lemma ReverseVisits(keys: seq<Bytes>)
    requires Increasing(keys)
    ensures Visits(Desc, Reverse(keys)) && Visits(Asc, keys)
    ensures forall k :: k in Reverse(keys) <==> k in keys
  {
    var r := Reverse(keys);
    forall k | k in keys ensures k in r {
      var i :| 0 <= i < |keys| && keys[i] == k;
      assert r[|keys| - 1 - i] == k;
    }
  }

  // ---------- which keys of the range are rows of the listing ----------

  lemma {:induction false} LessExtended(a: Bytes, p: Bytes, x: Bytes)
    requires Less(a, p)
    ensures Less(a, p + x)
  {
    if a != [] && a[0] == p[0] {
      LessExtended(a[1..], p[1..], x);
      assert (p + x)[1..] == p[1..] + x;
    }
  }

  predicate OwnKey(e: Endpoint, k: Bytes) {
    |k| >= 8 && k == PrefixedU64Key(e.Prefix(), KeyU64Suffix(k))
  }

  lemma SuffixBound(k: Bytes)
    requires |k| >= 8
    ensures KeyU64Suffix(k) < TWO_64 && k == PrefixedU64Key(k[..|k| - 8], KeyU64Suffix(k))
  {
    FromU64(k[|k| - 8..]);
    assert k == k[..|k| - 8] + k[|k| - 8..];
  }

  /** A key of the listing is in the range exactly when its id is wanted. */
  lemma OwnKeyInRange(e: Endpoint, order: Order, position: Option<nat>, end: Option<Bytes>, id: nat)
    requires e.Valid() && id < TWO_64 && (position.Some? ==> position.value < TWO_64)
    requires forall key: Bytes :: InPrefixRange(key, e.Prefix(), end) <==> e.Prefix() <= key
    requires order.Asc? && position.Some? ==> e.First() <= position.value
    ensures InRange(e, order, position, end, PrefixedU64Key(e.Prefix(), id)) <==> e.First() <= id && Beyond(order, position, id)
  {
    var p := e.Prefix();
    var k := PrefixedU64Key(p, id);
    assert p <= k && InPrefixRange(k, p, end);
    PrefixedKeys(p, id, p, e.First());
    assert !Less(k, e.LowerKey()) <==> e.First() <= id;
    if position.Some? {
      PrefixedKeys(p, id, p, position.value);
      PrefixedKeys(p, position.value, p, id);
    }
  }

  /** Keys in the range start with the prefix, so the check for the prefix inside the loop never ends it. */
  lemma RangeHasPrefix(e: Endpoint, order: Order, position: Option<nat>, end: Option<Bytes>, k: Bytes)
    requires forall key: Bytes :: InPrefixRange(key, e.Prefix(), end) <==> e.Prefix() <= key
    requires InRange(e, order, position, end, k)
    ensures e.Prefix() <= k
  {
    var p := e.Prefix();
    if order.Asc? && position.Some? {
      LessTotal(k, PrefixedU64Key(p, position.value));
      NotBelow(k, p, BigEndian(position.value, 8));
    } else {
      assert !Less(k, p) by {
        if !e.ContractActions? {
          NotBelow(k, p, BigEndian(e.First(), 8));
        }
      }
    }
    if order.Desc? && position.Some? && end.Some? {
      var q := PrefixedU64Key(p, position.value);
      assert p <= q && InPrefixRange(q, p, end);
      LessTransitive(k, q, end.value);
    }
    assert InPrefixRange(k, p, end);
  }

  lemma NotBelow(k: Bytes, p: Bytes, x: Bytes)
    requires !Less(k, p + x)
    ensures !Less(k, p)
  {
    if Less(k, p) {
      LessExtended(k, p, x);
    }
  }

  /** The checks of the loop body pick out the listing's own keys. */
  lemma OwnerCheck(store: Store, e: Endpoint, order: Order, position: Option<nat>, end: Option<Bytes>, k: Bytes)
    requires forall key: Bytes :: InPrefixRange(key, e.Prefix(), end) <==> e.Prefix() <= key
    requires IndexedKey(store, e, k) && InRange(e, order, position, end, k)
    ensures OwnKey(e, k) <==> (e.ChecksOwner() ==> store.owners[KeyU64Suffix(k)] == e.Prefix())
  {
    SuffixBound(k);
    RangeHasPrefix(e, order, position, end, k);
    if e.ChecksOwner() {
      PrefixedKeys(store.owners[KeyU64Suffix(k)], KeyU64Suffix(k), e.Prefix(), KeyU64Suffix(k));
    } else {
      assert e.Prefix() == k[..|k| - 8];
    }
  }

  // ---------- the loop over a range ----------

  ghost predicate Wanted(store: Store, e: Endpoint, anchor: Option<TipAnchor>, order: Order, position: Option<nat>,
                         id: nat) {
    IsVisible(store, e, anchor, id) && Beyond(order, position, id)
  }

  /** What one page scans: the keys in range, in order. */
  ghost predicate Entries(store: Store, e: Endpoint, order: Order, position: Option<nat>, end: Option<Bytes>,
                          entries: seq<Bytes>) {
    && Visits(order, entries)
    && forall k :: k in entries <==> k in store.keys && InRange(e, order, position, end, k)
  }

  /** The engine's iterator over the range, reversed for a descending listing. */
  method Scan(store: Store, e: Endpoint, order: Order, position: Option<nat>) returns (entries: seq<Bytes>,
              end: Option<Bytes>)
    ensures forall key: Bytes :: InPrefixRange(key, e.Prefix(), end) <==> e.Prefix() <= key
    ensures Increasing(store.keys) ==> Entries(store, e, order, position, end, entries)
  {
    end := PrefixEnd(e.Prefix());
    var range := Range(store.keys, e, order, position, end);
    entries := match order case Asc => range case Desc => Reverse(range);
    if Increasing(store.keys) {
      RangeKeys(store.keys, e, order, position, end);
      ReverseVisits(range);
    }
  }

  /** What is known of the rows taken from the first `i` entries. */
  ghost predicate Collected(want: iset<nat>, p: Bytes, order: Order, entries: seq<Bytes>, i: nat, rows: seq<nat>)
    requires i <= |entries|
  {
    && InOrder(order, rows)
    && (forall id :: id in rows ==> id in want && id < TWO_64 && PrefixedU64Key(p, id) in entries[..i])
    && (forall id :: id in want && PrefixedU64Key(p, id) in entries[..i] ==> id in rows)
  }

  lemma CollectRow(want: iset<nat>, p: Bytes, order: Order, entries: seq<Bytes>, i: nat, rows: seq<nat>, id: nat)
    requires Visits(order, entries) && i < |entries| && Collected(want, p, order, entries, i, rows)
    requires id in want && id < TWO_64 && entries[i] == PrefixedU64Key(p, id)
    requires forall j :: j in want ==> j < TWO_64
    ensures Collected(want, p, order, entries, i + 1, rows + [id])
  {
    assert entries[..i + 1] == entries[..i] + [entries[i]];
    forall j | 0 <= j < |rows| ensures Beyond(order, Some(rows[j]), id) {
      assert rows[j] in rows;
      var k :| 0 <= k < i && entries[k] == PrefixedU64Key(p, rows[j]);
      PrefixedKeys(p, rows[j], p, id);
      PrefixedKeys(p, id, p, rows[j]);
    }
    forall j | j in want && PrefixedU64Key(p, j) == entries[i] ensures j == id {
      PrefixedKeys(p, j, p, id);
    }
  }

  lemma SkipRow(want: iset<nat>, p: Bytes, order: Order, entries: seq<Bytes>, i: nat, rows: seq<nat>)
    requires i < |entries| && Collected(want, p, order, entries, i, rows)
    requires forall id :: id in want ==> entries[i] != PrefixedU64Key(p, id)
    ensures Collected(want, p, order, entries, i + 1, rows)
  {
    assert entries[..i + 1] == entries[..i] + [entries[i]];
  }

  datatype Verdict = Missing | Skipped | Taken

  /** The loop body's checks, in its order: the record, its address, and its height. */
  function Examine(store: Store, e: Endpoint, anchor: Option<TipAnchor>, id: nat): Verdict {
    if id !in store.heights || (e.ChecksOwner() && id !in store.owners) then Missing
    else if e.ChecksOwner() && store.owners[id] != e.Prefix() then Skipped
    else if anchor.Some? && store.heights[id] > anchor.value.height then Skipped
    else Taken
  }

  /** Collects rows until there is one more than the page holds; `missing` is an id without its record. */
  method CollectRows(store: Store, e: Endpoint, order: Order, position: Option<nat>, anchor: Option<TipAnchor>,
                     count: nat,
                     entries: seq<Bytes>, ghost end: Option<Bytes>, ghost want: iset<nat>)
    returns (rows: seq<nat>, missing: bool, ghost seen: nat)
    requires forall k :: k in entries ==> |k| >= 8
    ensures Scannable(store, e, order, position, anchor, entries, end, want) ==>
      && !missing && seen <= |entries| && Collected(want, e.Prefix(), order, entries, seen, rows)
      && if |rows| > count then |rows| == count + 1 else seen == |entries|
  {
    rows, seen, missing := [], 0, false;
    ghost var good := Scannable(store, e, order, position, anchor, entries, end, want);
    var i := 0;
    while i < |entries|
      invariant 0 <= i == seen <= |entries| && |rows| <= count
      invariant good ==> Collected(want, e.Prefix(), order, entries, i, rows)
    {
      var id := KeyU64Suffix(entries[i]);
      var verdict := Examine(store, e, anchor, id);
      ScanOne(store, e, order, position, anchor, entries, end, want, i, rows);
      if verdict == Missing {
        missing := true;
        return;
      }
      i, seen := i + 1, seen + 1;
      if verdict == Taken {
        rows := rows + [id];
        if |rows| > count {
          break;
        }
      }
    }
  }

  /** The index is consistent and the range was read from it; `want` is what the page is to list. */
  ghost predicate Scannable(store: Store, e: Endpoint, order: Order, position: Option<nat>, anchor: Option<TipAnchor>,
                            entries: seq<Bytes>, end: Option<Bytes>, want: iset<nat>) {
    && e.Valid() && Indexed(store, e) && Entries(store, e, order, position, end, entries)
    && (forall key: Bytes :: InPrefixRange(key, e.Prefix(), end) <==> e.Prefix() <= key)
    && (position.Some? ==> e.First() <= position.value < TWO_64)
    && want == iset id | Wanted(store, e, anchor, order, position, id)
  }

  lemma KeyDecides(store: Store, e: Endpoint, order: Order, position: Option<nat>, anchor: Option<TipAnchor>,
                   end: Option<Bytes>, k: Bytes)
    requires e.Valid() && k in store.keys && IndexedKey(store, e, k) && InRange(e, order, position, end, k)
    requires forall key: Bytes :: InPrefixRange(key, e.Prefix(), end) <==> e.Prefix() <= key
    requires position.Some? ==> e.First() <= position.value < TWO_64
    ensures var id := KeyU64Suffix(k);
      && id < TWO_64 && Examine(store, e, anchor, id) != Missing
      && if Examine(store, e, anchor, id) == Taken
         then Wanted(store, e, anchor, order, position, id) && k == PrefixedU64Key(e.Prefix(), id)
         else k != PrefixedU64Key(e.Prefix(), id) || !Wanted(store, e, anchor, order, position, id)
  {
    SuffixBound(k);
    OwnerCheck(store, e, order, position, end, k);
    OwnKeyInRange(e, order, position, end, KeyU64Suffix(k));
  }

  /** An entry's record exists, and the entry is wanted exactly when it passes the checks. */
  lemma ScannableKey(store: Store, e: Endpoint, order: Order, position: Option<nat>, anchor: Option<TipAnchor>,
                     entries: seq<Bytes>, end: Option<Bytes>, want: iset<nat>, i: nat)
    requires i < |entries| && |entries[i]| >= 8
    requires Scannable(store, e, order, position, anchor, entries, end, want)
    ensures var id := KeyU64Suffix(entries[i]);
      && id < TWO_64 && Examine(store, e, anchor, id) != Missing
      && if Examine(store, e, anchor, id) == Taken then id in want && entries[i] == PrefixedU64Key(e.Prefix(), id)
         else forall j :: j in want ==> entries[i] != PrefixedU64Key(e.Prefix(), j)
  {
    var k := entries[i];
    assert k in entries && IndexedKey(store, e, k);
    KeyDecides(store, e, order, position, anchor, end, k);
    forall j: nat | j < TWO_64 && k == PrefixedU64Key(e.Prefix(), j) ensures j == KeyU64Suffix(k) {
      PrefixedKeys(e.Prefix(), j, e.Prefix(), j);
    }
  }

  /** One entry more: its row is taken exactly when it is wanted. */
  lemma ScanOne(store: Store, e: Endpoint, order: Order, position: Option<nat>, anchor: Option<TipAnchor>,
                entries: seq<Bytes>, end: Option<Bytes>, want: iset<nat>, i: nat, rows: seq<nat>)
    requires i < |entries| && |entries[i]| >= 8
    ensures (&& Scannable(store, e, order, position, anchor, entries, end, want)
             && Collected(want, e.Prefix(), order, entries, i, rows)) ==>
      var id := KeyU64Suffix(entries[i]);
      var verdict := Examine(store, e, anchor, id);
      && verdict != Missing
      && Collected(want, e.Prefix(), order, entries, i + 1, if verdict == Taken then rows + [id] else rows)
  {
    if && Scannable(store, e, order, position, anchor, entries, end, want)
       && Collected(want, e.Prefix(), order, entries, i, rows) {
      var id := KeyU64Suffix(entries[i]);
      ScannableKey(store, e, order, position, anchor, entries, end, want, i);
      if Examine(store, e, anchor, id) == Taken {
        CollectRow(want, e.Prefix(), order, entries, i, rows, id);
      } else {
        SkipRow(want, e.Prefix(), order, entries, i, rows);
      }
    }
  }

  lemma BeyondTransitive(order: Order, a: nat, b: nat, c: nat)
    requires Beyond(order, Some(a), b) && Beyond(order, Some(b), c)
    ensures Beyond(order, Some(a), c)
  {
  }

  /** A wanted row whose key was not reached comes after every row taken. */
  lemma NotReached(want: iset<nat>, p: Bytes, order: Order, entries: seq<Bytes>, seen: nat, rows: seq<nat>, row: nat,
                   id: nat)
    requires seen <= |entries| && Visits(order, entries) && Collected(want, p, order, entries, seen, rows)
    requires row in rows
    requires id in want && id < TWO_64 && id !in rows && PrefixedU64Key(p, id) in entries
    ensures Beyond(order, Some(row), id)
  {
    var k :| 0 <= k < seen && entries[k] == PrefixedU64Key(p, row);
    assert PrefixedU64Key(p, id) !in entries[..seen];
    assert entries == entries[..seen] + entries[seen..];
    var m :| 0 <= m < |entries[seen..]| && entries[seen..][m] == PrefixedU64Key(p, id);
    assert Follows(order, entries[k], entries[seen + m]);
    PrefixedKeys(p, row, p, id);
    PrefixedKeys(p, id, p, row);
  }

  /** What is wanted is what is visible beyond the position, and its keys are among the entries. */
  lemma WantedKeys(store: Store, e: Endpoint, order: Order, position: Option<nat>, anchor: Option<TipAnchor>,
                   entries: seq<Bytes>, end: Option<Bytes>, want: iset<nat>)
    requires Scannable(store, e, order, position, anchor, entries, end, want)
    ensures forall id :: id in want <==> id in Visible(store, e, anchor) && Beyond(order, position, id)
    ensures forall id :: id in want ==> id < TWO_64 && PrefixedU64Key(e.Prefix(), id) in entries
  {
    forall id | id in want ensures PrefixedU64Key(e.Prefix(), id) in entries {
      OwnKeyInRange(e, order, position, end, id);
    }
  }

  /** The rows taken, cut to the page, are the page. */
  lemma PageOfRows(visible: set<nat>, want: iset<nat>, p: Bytes, order: Order, position: Option<nat>, count: nat,
                   entries: seq<Bytes>, rows: seq<nat>, seen: nat)
    requires forall id :: id in want <==> id in visible && Beyond(order, position, id)
    requires forall id :: id in want ==> id < TWO_64 && PrefixedU64Key(p, id) in entries
    requires Visits(order, entries) && seen <= |entries| && Collected(want, p, order, entries, seen, rows) && count > 0
    requires if |rows| > count then |rows| == count + 1 else seen == |entries|
    ensures IsPage(visible, order, position, count, if |rows| > count then rows[..count] else rows, |rows| > count)
  {
    if |rows| > count {
      var ids := rows[..count];
      assert rows == ids + [rows[count]] && rows[count - 1] in rows && rows[count] in rows;
      forall id | id in want && id !in ids ensures Beyond(order, Some(ids[count - 1]), id) {
        if id != rows[count] {
          NotReached(want, p, order, entries, seen, rows, rows[count - 1], id);
        }
      }
    } else {
      assert entries[..seen] == entries;
    }
  }

  /**
     The handler's common part: context, scan, page and next cursor. The context is read from the store `first`; blocks may
     have been committed before the scan, which reads `store`.
   */
  method FetchPage(codec: Codec, first: Store, store: Store, e: Endpoint, q: Request)
    returns (r: Result<Page, ApiError>, ghost more: bool)
    requires codec.Valid() && first.Typed() && store.Typed()
    ensures PageContext(codec, first, e, q).Err? ==> r == Err(PageContext(codec, first, e, q).error)
    ensures PageContext(codec, first, e, q).Ok? && e.Valid() && Indexed(store, e)
      && Fits(e, PageContext(codec, first, e, q).value)
      ==> r.Ok? && Answers(codec, first, store, e, q, r.value, more)
  {
    more := false;
    var context := PageContext(codec, first, e, q);
    if context.Err? {
      return Err(context.error), false;
    }
    var c := context.value;
    ContextFacts(codec, first, e, q);
    var rows, missing := TakeRows(store, e, q.order, c, q.count);
    if missing {
      return Err(Internal("missing record")), false;
    }
    var page;
    page, more := BuildPage(codec, e, q, c, rows);
    r := Ok(page);
  }

  /** Cuts the rows to the page, and names the next page when there are more. */
  method BuildPage(codec: Codec, e: Endpoint, q: Request, c: Context, rows: seq<nat>) returns (page: Page,
                   ghost more: bool)
    requires codec.Valid() && q.count > 0 && (c.anchor.Some? ==> c.anchor.value.Valid())
    ensures more == (|rows| > q.count) && page.ids == (if more then rows[..q.count] else rows) && page.tip == c.anchor
    ensures page.next == if more && c.anchor.Some?
      then Some(NextToken(codec, e, q.order, c.anchor.value, page.ids[|page.ids| - 1])) else None
  {
    more := |rows| > q.count;
    var ids := if |rows| > q.count then rows[..q.count] else rows;
    var next := None;
    if |rows| > q.count && c.anchor.Some? {
      next := NextCursor(codec, e, q.order, c.anchor.value, ids[|ids| - 1]);
    }
    page := Page(ids, c.anchor, next);
  }

  /** A cursor's position is not below the start of the listing, as holds for every cursor the listing hands out. */
  predicate Fits(e: Endpoint, c: Context) {
    c.position.Some? ==> e.First() <= c.position.value
  }

  /** The rows of a page and, when there are more, one beyond it. */
  method TakeRows(store: Store, e: Endpoint, order: Order, c: Context, count: nat) returns (rows: seq<nat>,
                  missing: bool)
    requires store.Typed() && count > 0 && (c.position.Some? ==> c.position.value < TWO_64)
    ensures e.Valid() && Indexed(store, e) && Fits(e, c) ==>
      && !missing
      && IsPage(Visible(store, e, c.anchor), order, c.position, count, if |rows| > count then rows[..count] else rows,
                |rows| > count)
  {
    var entries, end := Scan(store, e, order, c.position);
    ghost var want := iset id | Wanted(store, e, c.anchor, order, c.position, id);
    ghost var seen;
    rows, missing, seen := CollectRows(store, e, order, c.position, c.anchor, count, entries, end, want);
    if e.Valid() && Indexed(store, e) && Fits(e, c) {
      assert Scannable(store, e, order, c.position, c.anchor, entries, end, want);
      WantedKeys(store, e, order, c.position, c.anchor, entries, end, want);
      PageOfRows(Visible(store, e, c.anchor), want, e.Prefix(), order, c.position, count, entries, rows, seen);
    }
  }

  lemma ContextFacts(codec: Codec, store: Store, e: Endpoint, q: Request)
    requires codec.Valid() && store.Typed() && PageContext(codec, store, e, q).Ok?
    ensures q.count > 0
    ensures var c := PageContext(codec, store, e, q).value;
      (c.position.Some? ==> c.anchor.Some? && c.position.value < TWO_64) && (c.anchor.Some? ==> c.anchor.value.Valid())
  {
    if q.cursor.Some? {
      CursorFacts(codec, q.cursor.value, ScopeOf(e.Parts(), q.order));
    }
  }

  lemma CursorFacts(codec: Codec, token: string, scope: Bytes)
    requires codec.Valid() && Decode(codec, token, scope).Ok?
    ensures var c := Decode(codec, token, scope).value;
      c.anchor.Valid() && (|c.position| == 8 ==> FromBigEndian(c.position) < TWO_64)
  {
    DecodeOnlyEncoded(codec, token, scope);
    var c := Decode(codec, token, scope).value;
    if |c.position| == 8 {
      FromU64(c.position);
    }
  }

  /** `next_cursor`. */
  method NextCursor(codec: Codec, e: Endpoint, order: Order, anchor: TipAnchor,
                    last: nat) returns (next: Option<string>)
    requires codec.Valid() && anchor.Valid()
    ensures next == Some(NextToken(codec, e, order, anchor, last))
  {
    var scope := Scope(e.Parts(), order);
    var token := Encode(codec, scope, anchor, U64(last));
    next := Some(token);
  }
}

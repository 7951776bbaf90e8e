/**
 Backfill of the wallet side indexes: Zswap positions per transaction and the DUST event feed.

 Progress is stored with the rows it covers, in the same batch, so a rerun continues after the last commit.
 */
module WalletSidecars {
  import opened Prelude
  import opened IndexModel
  import opened RangeInvariant

  const COMMIT_EVERY: nat := 1_000

  datatype Error = MissingTransaction | MissingBlock | MissingEvent | TooManyOutputs | NoPrecedingRecord | EndMismatch

  /** The rows being rebuilt and how far they reach. */
  datatype Sidecars = Sidecars(walletTx: map<nat, WalletTxIndex>, dustFeed: set<nat>, txThrough: nat, dustThrough: nat)

  datatype Op =
    | PutWalletTx(tx: nat, row: WalletTxIndex)
    | PutTxThrough(through: nat)
    | PutDust(event: nat)
    | PutDustThrough(through: nat)

  function Apply(s: Sidecars, op: Op): Sidecars {
    match op
    case PutWalletTx(i, r) => s.(walletTx := s.walletTx[i := r])
    case PutTxThrough(n) => s.(txThrough := n)
    case PutDust(e) => s.(dustFeed := s.dustFeed + {e})
    case PutDustThrough(n) => s.(dustThrough := n)
  }

  function ApplyAll(s: Sidecars, ops: seq<Op>): Sidecars {
    if ops == [] then s else Apply(ApplyAll(s, ops[..|ops| - 1]), ops[|ops| - 1])
  }

  lemma ApplyMore(s: Sidecars, ops: seq<Op>, op: Op)
    ensures ApplyAll(s, ops + [op]) == Apply(ApplyAll(s, ops), op)
  {
    assert (ops + [op])[..|ops|] == ops;
  }

  /** `s` holds exactly the rows below its progress, each as in `live`. */
  ghost predicate Resumable(s: Sidecars, live: Sidecars) {
    && s.txThrough <= live.txThrough && s.dustThrough <= live.dustThrough
    && (forall i :: i in s.walletTx <==> 0 <= i < s.txThrough)
    && (forall i :: i in s.walletTx ==> i in live.walletTx && s.walletTx[i] == live.walletTx[i])
    && (forall e :: e in s.dustFeed <==> e in live.dustFeed && e < s.dustThrough)
  }

  class Store {
    const txs: map<nat, TxRecord>
    const blocks: map<nat, BlockRecord>
    const events: map<nat, EventRecord>
    const nextTx: nat
    const nextEvent: nat
    var sidecars: Sidecars
    /** The sidecars after every commit: what a crash can leave behind. */
    ghost var commits: seq<Sidecars>

    constructor (d: Db, sidecars: Sidecars)
      ensures txs == d.tx.txs && blocks == d.block.blocks && events == d.event.events
      ensures nextTx == d.meta.ids.tx && nextEvent == d.meta.ids.event
      ensures this.sidecars == sidecars && commits == []
    {
      txs, blocks, events := d.tx.txs, d.block.blocks, d.event.events;
      nextTx, nextEvent := d.meta.ids.tx, d.meta.ids.event;
      this.sidecars, commits := sidecars, [];
    }

    method Commit(batch: seq<Op>)
      modifies this
      ensures sidecars == ApplyAll(old(sidecars), batch)
      ensures commits == old(commits) + [sidecars]
    {
      var i := 0;
      while i < |batch|
        invariant 0 <= i <= |batch|
        invariant sidecars == ApplyAll(old(sidecars), batch[..i])
        invariant commits == old(commits)
      {
        assert batch[..i + 1][..i] == batch[..i];
        sidecars := Apply(sidecars, batch[i]);
        i := i + 1;
      }
      assert batch[..i] == batch;
      commits := commits + [sidecars];
    }
  }

  /** What a live writer has in its own side indexes. */
  ghost function LiveSidecars(d: Db): Sidecars {
    Sidecars(d.tx.walletTx, d.event.dustFeed, d.meta.ids.tx, d.meta.ids.event)
  }

  /** What the backfill relies on in a store that a live writer could have written. */
  ghost predicate Indexed(d: Db) {
    var ids := d.meta.ids;
    && Dense(d.tx.txs, ids.tx) && Dense(d.event.events, ids.event)
    && Consecutive(d.tx.txs, ids)
    && WalletInv(d.tx, d.event.events, ids)
    && (forall i {:trigger d.tx.walletTx[i]} :: 0 <= i < ids.tx ==>
          d.tx.txs[i].height in d.block.blocks && d.block.blocks[d.tx.txs[i].height].version == d.tx.walletTx[i].version)
    && (forall e :: e in d.event.dustFeed <==> 0 <= e < ids.event && d.event.events[e].event.grouping.Dust?)
  }

  /** The tree position after the last transaction. */
  ghost predicate EndsAt(d: Db, end: nat) {
    0 < d.meta.ids.tx ==> d.meta.ids.tx - 1 in d.tx.walletTx && d.tx.walletTx[d.meta.ids.tx - 1].end == end
  }

  // ---------- where the first transaction starts ----------

  lemma {:induction false} OutputsSplit(events: map<nat, EventRecord>, first: nat, n: nat)
    ensures Outputs(events, 0, first + n) == Outputs(events, 0, first) + Outputs(events, first, n)
  {
    if n > 0 {
      OutputsSplit(events, first, n - 1);
    }
  }

  /** Positions telescope: the end of transaction `i` is the start of the first plus all outputs logged so far. */
  lemma {:induction false} EndOf(d: Db, i: nat)
    requires Indexed(d) && i < d.meta.ids.tx
    ensures d.tx.walletTx[i].end == d.tx.walletTx[0].start + Outputs(d.event.events, 0, EventEnd(d.tx.txs[i]))
  {
    assert WalletRow(d.tx.txs, d.tx.walletTx, d.event.events, i);
    OutputsSplit(d.event.events, d.tx.txs[i].firstEvent, d.tx.txs[i].eventCount);
    if i > 0 {
      EndOf(d, i - 1);
      assert EventEnd(d.tx.txs[i - 1]) == FirstEvent(d.tx.txs, d.meta.ids, i);
    }
  }

  lemma StartOfFirst(d: Db, end: nat)
    requires Indexed(d) && EndsAt(d, end)
    ensures 0 < d.meta.ids.tx ==> end == d.tx.walletTx[0].start + Outputs(d.event.events, 0, d.meta.ids.event)
    ensures d.meta.ids.tx == 0 ==> d.meta.ids.event == 0
  {
    var n := d.meta.ids.tx;
    if n > 0 {
      EndOf(d, n - 1);
      assert EventEnd(d.tx.txs[n - 1]) == FirstEvent(d.tx.txs, d.meta.ids, n);
    }
  }

  method CountOutputs(events: map<nat, EventRecord>, n: nat) returns (count: nat)
    ensures count == Outputs(events, 0, n)
  {
    count := 0;
    var id := 0;
    while id < n
      invariant 0 <= id <= n && count == Outputs(events, 0, id)
    {
      if id in events && events[id].event.attributes.ZswapOutput? {
        count := count + 1;
      }
      id := id + 1;
    }
  }

  /** The store holds the log of `d`, and the ledger's tree ends at `end`. */
  ghost predicate Sources(store: Store, d: Db, end: nat) {
    && Indexed(d) && EndsAt(d, end)
    && store.txs == d.tx.txs && store.blocks == d.block.blocks && store.events == d.event.events
    && store.nextTx == d.meta.ids.tx && store.nextEvent == d.meta.ids.event
  }

  method StartIndex(store: Store, currentEnd: nat, ghost d: Db) returns (r: Result<nat, Error>)
    ensures r.Ok? <==> StartsAt(store, store.sidecars, currentEnd).Some?
    ensures r.Ok? ==> r.value == StartsAt(store, store.sidecars, currentEnd).value
    ensures r.Err? ==> r.error != EndMismatch
    ensures Sources(store, d, currentEnd) && Resumable(store.sidecars, LiveSidecars(d)) ==>
      && r.Ok?
      && (store.sidecars.txThrough < store.nextTx ==> r.value == d.tx.walletTx[store.sidecars.txThrough].start)
      && (store.sidecars.txThrough == store.nextTx ==> r.value == currentEnd)
  {
    var progress := store.sidecars.txThrough;
    ghost var good := Sources(store, d, currentEnd) && Resumable(store.sidecars, LiveSidecars(d));
    if good {
      StartOfFirst(d, currentEnd);
      assert progress < store.nextTx ==> WalletRow(d.tx.txs, d.tx.walletTx, d.event.events, progress);
    }
    if progress == 0 {
      var outputs := CountOutputs(store.events, store.nextEvent);
      if outputs > currentEnd {
        return Err(TooManyOutputs);
      }
      r := Ok(currentEnd - outputs);
    } else {
      if progress - 1 !in store.sidecars.walletTx {
        return Err(NoPrecedingRecord);
      }
      r := Ok(store.sidecars.walletTx[progress - 1].end);
    }
  }

  // ---------- what is rebuilt, on any store ----------

  /** The records that the row of transaction `i` is read from. */
  ghost predicate Recorded(store: Store, i: nat) {
    && i in store.txs && store.txs[i].height in store.blocks
    && forall e: nat :: InEvents(store.txs[i], e) ==> e in store.events
  }

  /** The outputs logged by the transactions from `from` up to `n`. */
  function OutputsOf(txs: map<nat, TxRecord>, events: map<nat, EventRecord>, from: nat, n: nat): nat
    decreases n
  {
    if n <= from then 0
    else OutputsOf(txs, events, from, n - 1)
         + if n - 1 in txs then Outputs(events, txs[n - 1].firstEvent, txs[n - 1].eventCount) else 0
  }

  /** Where the rebuilt positions start: where the last kept row ends, or all logged outputs before the current end. */
  function StartsAt(store: Store, s: Sidecars, currentEnd: nat): Option<nat> {
    if s.txThrough > 0 then
      if s.txThrough - 1 in s.walletTx then Some(s.walletTx[s.txThrough - 1].end) else None
    else
      var outputs := Outputs(store.events, 0, store.nextEvent);
      if outputs > currentEnd then None else Some(currentEnd - outputs)
  }

  /** All transactions from `from` up to `n` have their records, and their outputs lead from `start` to `end`. */
  ghost predicate Rebuilt(store: Store, start: nat, from: nat, n: nat, end: nat) {
    (forall i :: from <= i < n ==> Recorded(store, i)) && end == start + OutputsOf(store.txs, store.events, from, n)
  }

  lemma RebuiltMore(store: Store, start: nat, from: nat, n: nat, end: nat)
    requires Rebuilt(store, start, from, n, end) && from <= n && Recorded(store, n)
    ensures Rebuilt(store, start, from, n + 1, end + Outputs(store.events, store.txs[n].firstEvent, store.txs[n].eventCount))
  {
  }

  /** Every record is there, but the positions do not add up to the current end of the tree. */
  ghost predicate Mismatch(store: Store, s: Sidecars, currentEnd: nat) {
    && StartsAt(store, s, currentEnd).Some?
    && (forall i :: s.txThrough <= i < store.nextTx ==> Recorded(store, i))
    && StartsAt(store, s, currentEnd).value + OutputsOf(store.txs, store.events, s.txThrough, store.nextTx) != currentEnd
  }

  /** The tree position after one transaction's events. */
  method Advance(events: map<nat, EventRecord>, tx: TxRecord, start: nat) returns (r: Result<nat, Error>)
    ensures r.Ok? ==> r.value == start + Outputs(events, tx.firstEvent, tx.eventCount)
    ensures r.Ok? <==> forall e: nat :: InEvents(tx, e) ==> e in events
    ensures r.Err? ==> r.error == MissingEvent
  {
    var index := start;
    var k := 0;
    while k < tx.eventCount
      invariant 0 <= k <= tx.eventCount
      invariant index == start + Outputs(events, tx.firstEvent, k)
      invariant forall e: nat :: tx.firstEvent <= e < tx.firstEvent + k ==> e in events
    {
      if tx.firstEvent + k !in events {
        assert InEvents(tx, tx.firstEvent + k);
        return Err(MissingEvent);
      }
      if events[tx.firstEvent + k].event.attributes.ZswapOutput? {
        index := index + 1;
      }
      k := k + 1;
    }
    r := Ok(index);
  }

  lemma ResumableTx(s: Sidecars, live: Sidecars, i: nat)
    requires Resumable(s, live) && i == s.txThrough < live.txThrough && i in live.walletTx
    ensures Resumable(Apply(Apply(s, PutWalletTx(i, live.walletTx[i])), PutTxThrough(i + 1)), live)
  {
  }

  lemma ResumableDust(s: Sidecars, live: Sidecars, e: nat)
    requires Resumable(s, live) && e == s.dustThrough < live.dustThrough
    ensures e in live.dustFeed ==> Resumable(Apply(Apply(s, PutDust(e)), PutDustThrough(e + 1)), live)
    ensures e !in live.dustFeed ==> Resumable(Apply(s, PutDustThrough(e + 1)), live)
  {
  }

  /** The row of one transaction. */
  method IndexOne(store: Store, i: nat, start: nat, ghost d: Db,
                  ghost end: nat) returns (r: Result<WalletTxIndex, Error>)
    ensures r.Ok? <==> Recorded(store, i)
    ensures r.Ok? ==> r.value.end == start + Outputs(store.events, store.txs[i].firstEvent, store.txs[i].eventCount)
    ensures r.Err? ==> r.error != EndMismatch
    ensures Sources(store, d, end) && i < d.meta.ids.tx && start == d.tx.walletTx[i].start ==> r == Ok(d.tx.walletTx[i])
  {
    if i !in store.txs {
      return Err(MissingTransaction);
    }
    var tx := store.txs[i];
    if tx.height !in store.blocks {
      return Err(MissingBlock);
    }
    ghost var good := Sources(store, d, end) && i < d.meta.ids.tx;
    assert good ==> WalletRow(d.tx.txs, d.tx.walletTx, d.event.events, i);
    var after := Advance(store.events, tx, start);
    match after
    case Err(e) => r := Err(e);
    case Ok(index) => r := Ok(WalletTxIndex(start, index, store.blocks[tx.height].version));
  }

  /** Queues the row of transaction `i` and the progress past it; yields the position where the next one starts. */
  method QueueNext(store: Store, i: nat, start: nat, batch0: seq<Op>, ghost now0: Sidecars, ghost d: Db, ghost end: nat)
    returns (r: Result<nat, Error>, batch: seq<Op>, ghost now: Sidecars)
    requires now0 == ApplyAll(store.sidecars, batch0)
    ensures r.Ok? ==> now == ApplyAll(store.sidecars, batch) && now.dustThrough == now0.dustThrough
    ensures r.Ok? <==> Recorded(store, i)
    ensures r.Ok? ==> r.value == start + Outputs(store.events, store.txs[i].firstEvent, store.txs[i].eventCount)
    ensures r.Err? ==> r.error != EndMismatch
    ensures Sources(store, d, end) && Resumable(now0, LiveSidecars(d)) && i == now0.txThrough < store.nextTx
            && start == d.tx.walletTx[i].start ==>
      && r.Ok? && Resumable(now, LiveSidecars(d)) && now.txThrough == i + 1
      && (i + 1 < store.nextTx ==> r.value == d.tx.walletTx[i + 1].start)
      && (i + 1 == store.nextTx ==> r.value == end)
  {
    batch, now := batch0, now0;
    var row := IndexOne(store, i, start, d, end);
    match row
    case Err(e) => r := Err(e);
    case Ok(index) =>
      ghost var good := Sources(store, d, end) && Resumable(now0, LiveSidecars(d)) && i == now0.txThrough < store.nextTx
                        && start == d.tx.walletTx[i].start;
      if good {
        ResumableTx(now, LiveSidecars(d), i);
        assert i + 1 < store.nextTx ==> WalletRow(d.tx.txs, d.tx.walletTx, d.event.events, i + 1);
      }
      batch, now := Push(store.sidecars, batch, PutWalletTx(i, index), now);
      batch, now := Push(store.sidecars, batch, PutTxThrough(i + 1), now);
      r := Ok(index.end);
  }

  /** Everything committed since `before` is resumable. */
  ghost predicate CommitsResumable(before: seq<Sidecars>, now: seq<Sidecars>, live: Sidecars) {
    before <= now && forall k :: |before| <= k < |now| ==> Resumable(now[k], live)
  }

  /**
     On a log that a live writer could have written, and from any resumable state, the sidecars end up as the live writer
     has them, the final check passes, and every commit on the way leaves a resumable state.
   */
  method BackfillWalletSidecars(store: Store, currentEnd: nat, ghost d: Db) returns (r: Result<(), Error>)
    modifies store
    ensures r == Err(EndMismatch) <==> old(Mismatch(store, store.sidecars, currentEnd))
    ensures old(Sources(store, d, currentEnd) && Resumable(store.sidecars, LiveSidecars(d))) ==>
      && r.Ok? && store.sidecars == LiveSidecars(d)
      && CommitsResumable(old(store.commits), store.commits, LiveSidecars(d))
  {
    ghost var live := LiveSidecars(d);
    ghost var good := Sources(store, d, currentEnd) && Resumable(store.sidecars, live);
    var first := StartIndex(store, currentEnd, d);
    if first.Err? {
      return Err(first.error);
    }
    var dustFrom := store.sidecars.dustThrough;
    var end, batch, pending, now := BackfillTxs(store, first.value, currentEnd, d);
    if end.Err? {
      return Err(end.error);
    }
    if end.value != currentEnd {
      return Err(EndMismatch);
    }
    r := BackfillDust(store, batch, pending, dustFrom, now, d, currentEnd);
    if good {
      Complete(store.sidecars, live);
    }
  }

  /** The Zswap positions of every transaction that is not covered yet. */
  method BackfillTxs(store: Store, start: nat, currentEnd: nat, ghost d: Db)
    returns (end: Result<nat, Error>, batch: seq<Op>, pending: nat, ghost now: Sidecars)
    modifies store
    ensures end.Ok? ==> now == ApplyAll(store.sidecars, batch) && now.dustThrough == old(store.sidecars).dustThrough
    ensures end.Ok? <==> forall i :: old(store.sidecars).txThrough <= i < store.nextTx ==> Recorded(store, i)
    ensures end.Ok? ==> Rebuilt(store, start, old(store.sidecars).txThrough, store.nextTx, end.value)
    ensures end.Err? ==> end.error != EndMismatch
    ensures old(Startable(store, start, currentEnd, d)) ==>
      && end == Ok(currentEnd) && Resumable(now, LiveSidecars(d)) && now.txThrough == d.meta.ids.tx
      && CommitsResumable(old(store.commits), store.commits, LiveSidecars(d))
  {
    ghost var live := LiveSidecars(d);
    ghost var good := Startable(store, start, currentEnd, d);
    var index := start;
    batch, pending, now := [], 0, store.sidecars;
    var i := store.sidecars.txThrough;
    ghost var from := i;
    while i < store.nextTx
      invariant from <= i && (i == from || i <= store.nextTx)
      invariant Rebuilt(store, start, from, i, index)
      invariant now == ApplyAll(store.sidecars, batch) && now.dustThrough == old(store.sidecars).dustThrough
      invariant good ==> i <= store.nextTx && Resumable(now, live) && now.txThrough == i
      invariant good && i < store.nextTx ==> index == d.tx.walletTx[i].start
      invariant good && i == store.nextTx ==> index == currentEnd
      invariant good ==> CommitsResumable(old(store.commits), store.commits, live)
      decreases store.nextTx - i
    {
      var row;
      row, batch, now := QueueNext(store, i, index, batch, now, d, currentEnd);
      if row.Err? {
        return Err(row.error), batch, pending, now;
      }
      RebuiltMore(store, start, from, i, index);
      index := row.value;
      pending := pending + 1;
      if pending >= COMMIT_EVERY {
        store.Commit(batch);
        batch, pending := [], 0;
      }
      i := i + 1;
    }
    end := Ok(index);
  }

  /** The side indexes can be resumed, and `start` is where the next transaction's Zswap range starts. */
  ghost predicate Startable(store: Store, start: nat, currentEnd: nat, d: Db)
    reads store
  {
    && Sources(store, d, currentEnd) && Resumable(store.sidecars, LiveSidecars(d))
    && (store.sidecars.txThrough < store.nextTx ==> start == d.tx.walletTx[store.sidecars.txThrough].start)
    && (store.sidecars.txThrough == store.nextTx ==> start == currentEnd)
  }

  lemma Complete(s: Sidecars, live: Sidecars)
    requires Resumable(s, live) && s.txThrough == live.txThrough && s.dustThrough == live.dustThrough
    requires forall i :: i in live.walletTx <==> 0 <= i < live.txThrough
    requires forall e :: e in live.dustFeed ==> e < live.dustThrough
    ensures s == live
  {
    assert s.walletTx == live.walletTx && s.dustFeed == live.dustFeed;
  }

  method QueueDust(store: Store, e: nat, batch0: seq<Op>, ghost now0: Sidecars, ghost d: Db, ghost end: nat)
    returns (found: bool, batch: seq<Op>, ghost now: Sidecars)
    requires now0 == ApplyAll(store.sidecars, batch0)
    ensures found ==> now == ApplyAll(store.sidecars, batch) && now.dustThrough == e + 1 && now.txThrough == now0.txThrough
    ensures Sources(store, d, end) && Resumable(now0, LiveSidecars(d)) && e == now0.dustThrough < store.nextEvent ==>
      found && Resumable(now, LiveSidecars(d))
  {
    batch, now := batch0, now0;
    found := e in store.events;
    if !found {
      return;
    }
    ghost var good := Sources(store, d, end) && Resumable(now0, LiveSidecars(d)) && e == now0.dustThrough < store.nextEvent;
    if good {
      ResumableDust(now, LiveSidecars(d), e);
    }
    if store.events[e].event.grouping.Dust? {
      batch, now := Push(store.sidecars, batch, PutDust(e), now);
    }
    batch, now := Push(store.sidecars, batch, PutDustThrough(e + 1), now);
  }

  /** The DUST feed, continuing the same batch. */
  method BackfillDust(store: Store, batch0: seq<Op>, pending0: nat, from: nat, ghost now0: Sidecars, ghost d: Db,
                      ghost end: nat)
    returns (r: Result<(), Error>)
    requires now0 == ApplyAll(store.sidecars, batch0) && now0.dustThrough == from
    modifies store
    ensures r.Err? ==> r.error == MissingEvent
    ensures Sources(store, d, end) && Resumable(now0, LiveSidecars(d)) && now0.txThrough == d.meta.ids.tx ==>
      && r.Ok? && Resumable(store.sidecars, LiveSidecars(d))
      && store.sidecars.txThrough == d.meta.ids.tx && store.sidecars.dustThrough == d.meta.ids.event
      && CommitsResumable(old(store.commits), store.commits, LiveSidecars(d))
  {
    ghost var live := LiveSidecars(d);
    ghost var good := Sources(store, d, end) && Resumable(now0, live) && now0.txThrough == live.txThrough;
    var batch, pending := batch0, pending0;
    ghost var now := now0;
    var e := from;
    while e < store.nextEvent
      invariant now == ApplyAll(store.sidecars, batch)
      invariant good ==> e <= store.nextEvent && Resumable(now, live) && now.txThrough == live.txThrough
      invariant now.dustThrough == e
      invariant good ==> CommitsResumable(old(store.commits), store.commits, live)
      decreases store.nextEvent - e
    {
      var found;
      found, batch, now := QueueDust(store, e, batch, now, d, end);
      if !found {
        return Err(MissingEvent);
      }
      pending := pending + 1;
      if pending >= COMMIT_EVERY {
        store.Commit(batch);
        batch, pending := [], 0;
      }
      e := e + 1;
    }
    store.Commit(batch);
    r := Ok(());
  }

  method Push(ghost base: Sidecars, batch: seq<Op>, op: Op, ghost now: Sidecars) returns (more: seq<Op>,
              ghost next: Sidecars)
    requires now == ApplyAll(base, batch)
    ensures more == batch + [op] && next == Apply(now, op) == ApplyAll(base, more)
  {
    ApplyMore(base, batch, op);
    more, next := batch + [op], Apply(now, op);
  }
}

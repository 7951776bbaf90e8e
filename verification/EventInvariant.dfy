/** Every event side index is a fold of the event log alone. */
module EventInvariant {
  import opened Prelude
  import opened IndexModel

  function EmptyEvents(): EventPart {
    EventPart(map[], {}, {}, map[], {})
  }

  /** The event part a fresh writer would build from log entries below `n`. */
  function Rebuild(events: map<nat, EventRecord>, n: nat): EventPart {
    if n == 0 then EmptyEvents()
    else if n - 1 in events then IndexEvent(Rebuild(events, n - 1), events[n - 1], n - 1)
    else Rebuild(events, n - 1)
  }

  /** `n` is the next event id. */
  ghost predicate EventInv(p: EventPart, n: nat) {
    (forall id :: id in p.events <==> 0 <= id < n) && p == Rebuild(p.events, n)
  }

  /** Only entries below `n` matter. */
  lemma {:induction false} RebuildFrame(events: map<nat, EventRecord>, events': map<nat, EventRecord>, n: nat)
    requires forall id :: 0 <= id < n ==> (id in events <==> id in events') && (id in events ==> events[id] == events'[id])
    ensures Rebuild(events, n) == Rebuild(events', n)
  {
    if n > 0 {
      RebuildFrame(events, events', n - 1);
    }
  }

  lemma IndexEventKeeps(p: EventPart, r: EventRecord, n: nat)
    requires EventInv(p, n)
    ensures EventInv(IndexEvent(p, r, n), n + 1)
  {
    RebuildFrame(p.events, p.events[n := r], n);
  }

  lemma {:induction false} IndexEventsKeep(p: EventPart, t: AppliedTx, n: nat, ids: Ids, height: nat)
    requires n <= |t.events| && EventInv(p, ids.event)
    ensures EventInv(IndexEvents(p, t, n, ids, height), ids.event + n)
  {
    if n > 0 {
      IndexEventsKeep(p, t, n - 1, ids, height);
      IndexEventKeeps(IndexEvents(p, t, n - 1, ids, height),
                      EventRecord(EventOf(t, n - 1, ids.action), ids.tx, height), ids.event + n - 1);
    }
  }

  /** The rows a transaction writes, and that earlier rows never change. */
  lemma {:induction false} IndexEventsAt(p: EventPart, t: AppliedTx, n: nat, ids: Ids, height: nat, id: nat)
    requires n <= |t.events|
    ensures
      var q := IndexEvents(p, t, n, ids, height);
      if ids.event <= id < ids.event + n then
        id in q.events && q.events[id] == EventRecord(EventOf(t, id - ids.event, ids.action), ids.tx, height)
      else
        (id in q.events <==> id in p.events) && (id in p.events ==> q.events[id] == p.events[id])
  {
    if n > 0 {
      IndexEventsAt(p, t, n - 1, ids, height, id);
    }
  }

  // ---------- what the fold contains ----------

  predicate GenerationFor(events: map<nat, EventRecord>, n: nat, hash: Bytes, id: nat) {
    && id < n && id in events && IsDustGeneration(events[id].event.attributes)
    && events[id].event.attributes.info.nightUtxoHash == hash
  }

  /** `id` is the last generation event below `n` for this hash. */
  ghost predicate LastGeneration(events: map<nat, EventRecord>, n: nat, hash: Bytes, id: nat) {
    GenerationFor(events, n, hash, id) && forall later: nat :: id < later ==> !GenerationFor(events, n, hash, later)
  }

  lemma GenerationGrows(events: map<nat, EventRecord>, n: nat, hash: Bytes, id: nat)
    requires n > 0
    ensures GenerationFor(events, n, hash, id) <==>
            GenerationFor(events, n - 1, hash, id) ||
            (id == n - 1 && id in events && IsDustGeneration(events[id].event.attributes)
             && events[id].event.attributes.info.nightUtxoHash == hash)
  {
  }

  /** Each side index, read off the log: membership by event. */
  lemma {:induction false} RebuildContains(events: map<nat, EventRecord>, n: nat)
    ensures
      var p := Rebuild(events, n);
      && (forall id :: id in p.events <==> 0 <= id < n && id in events)
      && (forall id :: id in p.events ==> p.events[id] == events[id])
      && (forall id :: id in p.dustFeed <==> 0 <= id < n && id in events && events[id].event.grouping.Dust?)
      && (forall a, id :: (a, id) in p.byContract <==> 0 <= id < n && id in events && events[id].event.address == Some(a))
      && (forall o, h :: (o, h) in p.dustByOwner <==>
            exists id: nat :: GenerationFor(events, n, h, id) && events[id].event.attributes.info.owner == o)
  {
    if n > 0 {
      RebuildContains(events, n - 1);
      forall h, id: nat {
        GenerationGrows(events, n, h, id);
      }
    }
  }

  /** The last write of each dust generation hash wins. */
  lemma {:induction false} RebuildLastWrite(events: map<nat, EventRecord>, n: nat, hash: Bytes)
    ensures
      var p := Rebuild(events, n);
      && (hash in p.dustGeneration <==> exists id: nat :: GenerationFor(events, n, hash, id))
      && forall id: nat :: LastGeneration(events, n, hash, id) ==>
           hash in p.dustGeneration &&
           p.dustGeneration[hash] == DustRecord(events[id].event.attributes.info, events[id].tx)
  {
    if n > 0 {
      RebuildLastWrite(events, n - 1, hash);
      forall id: nat {
        GenerationGrows(events, n, hash, id);
      }
      assert forall id: nat :: LastGeneration(events, n, hash, id) && id < n - 1 ==>
               LastGeneration(events, n - 1, hash, id) && !GenerationFor(events, n, hash, n - 1);
    }
  }
}

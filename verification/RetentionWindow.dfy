/**
 Garbage-collection roots of persisted ledger states, and the window of the newest ones.

 Root counts and the stored window live in one keyspace, so a crash keeps some prefix of their committed batches.
 Persisting a state flushes at once; unpersisting only buffers a decrement that the next flush applies.
 */
module RetentionWindow {
  import opened Prelude
  import opened IndexModel

  datatype Disk = Disk(roots: multiset<Bytes>, window: seq<Bytes>)

  /** Every stored key is still a root as often as it is stored, with at most `c` roots to spare. */
  ghost predicate Covered(d: Disk, c: nat) {
    && multiset(d.window) <= d.roots
    && |d.roots| <= |d.window| + c
    && |d.window| <= RETENTION
  }

  // ---------- startup repair ----------

  /** The stored keys that are no longer roots and whose nodes are incomplete. */
  ghost function Gone(roots: multiset<Bytes>, window: seq<Bytes>, complete: Bytes -> bool): set<Bytes> {
    set k | k in window && k !in roots && !complete(k)
  }

  function Max(a: nat, b: nat): nat {
    if a < b then b else a
  }

  ghost predicate Repairing(roots: multiset<Bytes>, window: seq<Bytes>, complete: Bytes -> bool, left: set<Bytes>,
                            repaired: multiset<Bytes>)
  {
    var gone := Gone(roots, window, complete);
    forall k :: repaired[k] == if k in left || k in gone then roots[k] else Max(roots[k], multiset(window)[k])
  }

  lemma TakenOff(gone: set<Bytes>, left: set<Bytes>, k: Bytes)
    requires k in left
    ensures |gone - (left - {k})| == |gone - left| + if k in gone then 1 else 0
  {
    assert gone - (left - {k}) == (gone - left) + (gone * {k});
    assert k in gone ==> gone * {k} == {k};
    assert k !in gone ==> gone * {k} == {};
  }

  lemma RepairedOne(roots: multiset<Bytes>, window: seq<Bytes>, complete: Bytes -> bool, left: set<Bytes>, k: Bytes,
                    before: multiset<Bytes>, after: multiset<Bytes>)
    requires k in window && k in left && Repairing(roots, window, complete, left, before)
    requires after == if roots[k] < multiset(window)[k] && (k in roots || complete(k)) then before[k := multiset(window)[k]] else before
    ensures Repairing(roots, window, complete, left - {k}, after)
  {
  }

  lemma AllRepaired(roots: multiset<Bytes>, window: seq<Bytes>, complete: Bytes -> bool, repaired: multiset<Bytes>)
    requires Repairing(roots, window, complete, {}, repaired)
    ensures forall k :: repaired[k] < multiset(window)[k] <==> k in Gone(roots, window, complete)
    ensures forall k :: k in Gone(roots, window, complete) ==> repaired[k] == 0
    ensures forall k :: k !in Gone(roots, window, complete) ==> repaired[k] == Max(roots[k], multiset(window)[k])
    ensures roots <= repaired
    ensures (forall k :: k in window && k !in roots ==> complete(k)) ==> multiset(window) <= repaired
  {
    var gone := Gone(roots, window, complete);
    forall k ensures repaired[k] < multiset(window)[k] <==> k in gone {
      assert k in window <==> k in multiset(window);
      assert k in gone ==> roots[k] == 0;
    }
  }

  method RepairOne(roots: multiset<Bytes>, window: seq<Bytes>, complete: Bytes -> bool, ghost left: set<Bytes>, k: Bytes,
                   before: multiset<Bytes>) returns (repaired: multiset<Bytes>, up: nat, gone: nat)
    requires k in window && k in left && Repairing(roots, window, complete, left, before)
    ensures Repairing(roots, window, complete, left - {k}, repaired)
    ensures gone == if k in Gone(roots, window, complete) then 1 else 0
    ensures multiset(window) <= roots ==> repaired == before && up == 0 && gone == 0
  {
    repaired, up, gone := before, 0, 0;
    var want := multiset(window)[k];
    assert k in multiset(window);
    if want > roots[k] {
      if roots[k] == 0 && !complete(k) {
        gone := 1;
      } else {
        repaired, up := repaired[k := want], 1;
      }
    }
    RepairedOne(roots, window, complete, left, k, before, repaired);
  }

  /** `complete` says whether every node below a root is still present. */
  method RepairRootCounts(roots: multiset<Bytes>, window: seq<Bytes>, complete: Bytes -> bool)
    returns (repaired: multiset<Bytes>, raised: nat, culled: nat)
    ensures forall k :: repaired[k] < multiset(window)[k] <==> k in Gone(roots, window, complete)
    ensures forall k :: k in Gone(roots, window, complete) ==> repaired[k] == 0
    ensures forall k :: k !in Gone(roots, window, complete) ==> repaired[k] == Max(roots[k], multiset(window)[k])
    ensures culled == |Gone(roots, window, complete)|
    ensures roots <= repaired
    ensures multiset(window) <= roots ==> repaired == roots && raised == 0 && culled == 0
    ensures (forall k :: k in window && k !in roots ==> complete(k)) ==> multiset(window) <= repaired
  {
    repaired, raised, culled := roots, 0, 0;
    var left := set k | k in window;
    while left != {}
      invariant left <= set k | k in window
      invariant Repairing(roots, window, complete, left, repaired)
      invariant culled == |Gone(roots, window, complete) - left|
      invariant multiset(window) <= roots ==> repaired == roots && raised == 0 && culled == 0
      decreases left
    {
      var k :| k in left;
      TakenOff(Gone(roots, window, complete), left, k);
      var up, gone;
      repaired, up, gone := RepairOne(roots, window, complete, left, k, repaired);
      left, raised, culled := left - {k}, raised + up, culled + gone;
    }
    AllRepaired(roots, window, complete, repaired);
    assert Gone(roots, window, complete) - left == Gone(roots, window, complete);
  }

  /** Keeps the keys that are still roots. */
  method RetainRoots(window: seq<Bytes>, roots: multiset<Bytes>) returns (kept: seq<Bytes>)
    ensures forall k :: multiset(kept)[k] == if k in roots then multiset(window)[k] else 0
    ensures multiset(window) <= roots ==> kept == window
  {
    kept := [];
    var i := 0;
    while i < |window|
      invariant 0 <= i <= |window|
      invariant forall k :: multiset(kept)[k] == if k in roots then multiset(window[..i])[k] else 0
      invariant multiset(window) <= roots ==> kept == window[..i]
    {
      assert window[..i + 1] == window[..i] + [window[i]];
      assert window[i] in multiset(window);
      if window[i] in roots {
        kept := kept + [window[i]];
      }
      i := i + 1;
    }
    assert window[..i] == window;
  }

  // ---------- the run loop ----------

  class Indexer {
    var disk: Disk
    var window: seq<Bytes>
    /** Decrements not flushed yet. */
    var unflushed: multiset<Bytes>
    ghost var crashes: nat
    /** What a crash can fall back to: the contents at startup and after every batch since. */
    var kept: seq<Disk>

    /** Between blocks. */
    ghost predicate Valid()
      reads this
    {
      && disk.window == window && |window| <= RETENTION
      && |unflushed| <= 1
      && multiset(window) + unflushed <= disk.roots
      && |disk.roots| <= |window| + |unflushed| + crashes
      && Recoverable()
    }

    /** Any crash, now or in the middle of a block, leaves a covered store with at most one more spare root. */
    ghost predicate Recoverable()
      reads this
    {
      kept != [] && kept[|kept| - 1] == disk && forall d :: d in kept ==> Covered(d, crashes + 1)
    }

    constructor ()
      ensures Valid() && crashes == 0
    {
      disk, window, unflushed := Disk(multiset{}, []), [], multiset{};
      crashes, kept := 0, [Disk(multiset{}, [])];
    }

    /** Flushes the new root together with the buffered decrements, before the block's own batch. */
    method Persist(key: Bytes)
      requires Valid()
      modifies this`disk, this`unflushed, this`kept
      ensures disk == Disk(old(disk).roots - old(unflushed) + multiset{key}, old(disk).window)
      ensures unflushed == multiset{} && kept == old(kept) + [disk] && Recoverable()
    {
      disk := disk.(roots := disk.roots - unflushed + multiset{key});
      unflushed := multiset{};
      kept := kept + [disk];
      assert Covered(disk, crashes + 1);
    }

    /** The block's batch stores the window including the new key, trimmed to the newest entries. */
    method CommitBlock(key: Bytes)
      requires Recoverable() && disk.window == window && |window| <= RETENTION
      requires multiset(window) + multiset{key} <= disk.roots && |disk.roots| <= |window| + 1 + crashes
      modifies this`disk, this`kept
      ensures disk == old(disk).(window := Trim(window + [key]))
      ensures kept == old(kept) + [disk] && Recoverable()
    {
      ghost var all := window + [key];
      var next := window + [key];
      while |next| > RETENTION
        invariant next == all || (|all| == RETENTION + 1 && next == all[1..])
        decreases |next|
      {
        next := next[1..];
      }
      disk := disk.(window := next);
      kept := kept + [disk];
      TrimOnce(window, key);
      assert Covered(disk, crashes + 1);
    }

    /** Drops aged-out keys from the in-memory window and buffers their decrements. */
    method Unpersist(key: Bytes)
      requires |window| <= RETENTION && unflushed == multiset{}
      modifies this`window, this`unflushed
      ensures window == Trim(old(window) + [key])
      ensures unflushed == if |old(window)| < RETENTION then multiset{} else multiset{(old(window) + [key])[0]}
    {
      ghost var all := window + [key];
      window := window + [key];
      while |window| > RETENTION
        invariant (window == all && unflushed == multiset{}) ||
                  (|all| == RETENTION + 1 && window == all[1..] && unflushed == multiset{all[0]})
        decreases |window|
      {
        unflushed := unflushed + multiset{window[0]};
        window := window[1..];
      }
    }

    /** One block: persist, commit, unpersist. A crash in between is a crash to one of `kept`. */
    method IndexBlock(key: Bytes)
      requires Valid()
      modifies this
      ensures Valid() && crashes == old(crashes)
      ensures window == Trim(old(window) + [key])
      ensures old(kept) <= kept && |kept| == |old(kept)| + 2
    {
      TrimOnce(window, key);
      Persist(key);
      CommitBlock(key);
      Unpersist(key);
    }

    /** A garbage-collection pass may flush the buffered decrements between two blocks. */
    method FlushDecrements()
      requires Valid()
      modifies this`disk, this`unflushed, this`kept
      ensures Valid() && disk == old(disk).(roots := old(disk).roots - old(unflushed)) && unflushed == multiset{}
      ensures kept == old(kept) + [disk]
    {
      disk := disk.(roots := disk.roots - unflushed);
      unflushed := multiset{};
      kept := kept + [disk];
      assert Covered(disk, crashes + 1);
    }

    /**
       The process dies, and restarts from one of the states the journal may have kept; opening the store syncs it, so no
       earlier one comes back later.
     */
    method CrashAndRestart(i: nat, complete: Bytes -> bool)
      requires Recoverable() && i < |kept|
      modifies this
      ensures Valid() && crashes == old(crashes) + 1
      ensures disk == old(kept)[i] && window == disk.window && kept == [disk]
    {
      var recovered := kept[i];
      assert recovered in kept;
      var roots, _, _ := RepairRootCounts(recovered.roots, recovered.window, complete);
      var retained := RetainRoots(recovered.window, roots);
      assert roots == recovered.roots && retained == recovered.window;
      disk, window, unflushed := Disk(roots, recovered.window), retained, multiset{};
      crashes, kept := crashes + 1, [disk];
    }
  }

  // ---------- whole runs ----------

  /** `Crash(back)`: the process dies and the `back` newest batches are lost, as far as there are so many. */
  datatype Step = Block(key: Bytes) | Flush | Crash(back: nat)

  function Crashes(steps: seq<Step>): nat {
    if steps == [] then 0 else Crashes(steps[..|steps| - 1]) + if steps[|steps| - 1].Crash? then 1 else 0
  }

  /**
     Over any sequence of blocks, collection flushes and crashes (in the middle of a block as well, since a crash may lose
     any number of batches): stored and in-memory windows agree and hold at most 32 keys, each stored key has at least its
     multiplicity of roots, and the excess is at most the number of crashes plus one.
   */
  method Run(steps: seq<Step>, complete: Bytes -> bool) returns (x: Indexer)
    ensures fresh(x) && x.Valid()
    ensures x.disk.window == x.window && |x.window| <= 32 && multiset(x.window) <= x.disk.roots
    ensures |x.disk.roots| <= |x.window| + Crashes(steps) + 1
    ensures forall d :: d in x.kept ==> Covered(d, Crashes(steps) + 1)
  {
    x := new Indexer();
    var i := 0;
    while i < |steps|
      invariant 0 <= i <= |steps| && fresh(x) && x.Valid() && x.crashes == Crashes(steps[..i])
    {
      assert steps[..i + 1][..i] == steps[..i];
      match steps[i] {
        case Block(key) => x.IndexBlock(key);
        case Flush => x.FlushDecrements();
        case Crash(back) =>
          x.CrashAndRestart(if back < |x.kept| then |x.kept| - 1 - back else 0, complete);
      }
      i := i + 1;
    }
    assert steps[..i] == steps;
  }

  /** Trimming a full window plus one drops exactly the oldest key. */
  lemma TrimOnce(window: seq<Bytes>, key: Bytes)
    requires |window| <= RETENTION
    ensures |Trim(window + [key])| <= RETENTION
    ensures
      var all := window + [key];
      multiset(all) == multiset(window) + multiset{key} &&
      multiset(all) == multiset(Trim(all)) + if |window| < RETENTION then multiset{} else multiset{all[0]}
  {
    var all := window + [key];
    if |window| == RETENTION {
      assert all == [all[0]] + all[1..];
    }
  }
}

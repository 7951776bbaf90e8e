/**
 The stream of finalized blocks: speculative chunked catch-up, the backward walk near the tip, live blocks, and the
 guard that lets only children of the last block through.

 A node is arbitrary: lookups may fail, heights may be missing, blocks may be duplicated or on forks. Hypotheses about
 blocks speak of a set `world` of the blocks that exist, never of all values of type NodeBlock.
 */
module BlockStream {
  import opened Prelude

  const CATCH_UP_CHUNK: nat := 32
  const FINALIZATION_SAFETY_MARGIN: nat := 400

  type Authorities = seq<Bytes>

  /** `session` tells whether the block carries a NewSession event. */
  datatype NodeBlock = NodeBlock(hash: Bytes, parent: Bytes, height: nat, session: bool)

  /** A block with the author derived from an authority set. */
  datatype Made = Made(block: NodeBlock, author: Option<Bytes>)

  /** What the node answers: blocks by height and by hash, the authority set in a block's state, and authorship. */
  datatype Node = Node(at: nat -> Option<NodeBlock>, byHash: Bytes -> Option<NodeBlock>,
                       authorities: Bytes -> Authorities, author: (NodeBlock, Authorities) -> Option<Bytes>)
  {
    /** The author according to the authority set of the block's own state. */
    function OwnAuthor(b: NodeBlock): Option<Bytes> {
      author(b, authorities(b.hash))
    }

    /** Answers are blocks that exist, of the height or the hash asked for. */
    ghost predicate Answers(world: iset<NodeBlock>) {
      && (forall h: nat :: at(h).Some? ==> at(h).value in world && at(h).value.height == h)
      && (forall h: Bytes :: byHash(h).Some? ==> byHash(h).value in world && byHash(h).value.hash == h)
    }

    /** From one existing block to the next the authority set changes only if the first carries a NewSession event. */
    ghost predicate Stable(world: iset<NodeBlock>) {
      forall a, b :: a in world && b in world && b.parent == a.hash && !a.session ==>
        authorities(b.hash) == authorities(a.hash)
    }
  }

  /** `world` holds the blocks that exist, on any fork: no chain of parents goes down for ever. */
  ghost predicate Descending(world: iset<NodeBlock>) {
    forall a, b :: a in world && b in world && b.parent == a.hash ==> a.height < b.height
  }

  /** `last` and the yielded blocks exist. */
  ghost predicate Exist(world: iset<NodeBlock>, last: Option<NodeBlock>, out: seq<Made>) {
    (last.Some? ==> last.value in world) && forall i :: 0 <= i < |out| ==> out[i].block in world
  }

  datatype Error = FetchFailed(height: nat) | ParentHashMismatch(height: nat) | MissingBlock(hash: Bytes)

  /** `make_block`: fills the cache when empty, and empties it after a NewSession event. */
  function MakeBlock(node: Node, cache: Option<Authorities>, b: NodeBlock): (Made, Option<Authorities>) {
    var set_ := if cache.Some? then cache.value else node.authorities(b.hash);
    (Made(b, node.author(b, set_)), if b.session then None else Some(set_))
  }

  /** The cache is empty, or holds the authority set of the last block made. */
  ghost predicate CacheFor(node: Node, cache: Option<Authorities>, last: Option<NodeBlock>) {
    cache.None? || (last.Some? && !last.value.session && cache.value == node.authorities(last.value.hash))
  }

  /** `b` follows the last block, if there is one. */
  predicate Follows(last: Option<NodeBlock>, b: NodeBlock) {
    last.Some? ==> b.parent == last.value.hash
  }

  lemma MadeFromCache(node: Node, world: iset<NodeBlock>, cache: Option<Authorities>, last: Option<NodeBlock>,
                      b: NodeBlock)
    requires node.Stable(world) && CacheFor(node, cache, last) && Follows(last, b)
    requires (last.Some? ==> last.value in world) && b in world
    ensures MakeBlock(node, cache, b).0 == Made(b, node.OwnAuthor(b))
    ensures CacheFor(node, MakeBlock(node, cache, b).1, Some(b))
  {
  }

  /** Consecutive blocks, each the parent of the next, the first following `last`. */
  predicate Chained(last: Option<NodeBlock>, out: seq<Made>) {
    forall i {:trigger LinkAt(last, out, i)} :: 0 <= i < |out| ==> LinkAt(last, out, i)
  }

  predicate LinkAt(last: Option<NodeBlock>, out: seq<Made>, i: nat)
    requires i < |out|
  {
    Follows(Before(last, out, i), out[i].block)
  }

  lemma ChainedAppend(last: Option<NodeBlock>, out: seq<Made>, m: Made)
    ensures Chained(last, out + [m]) <==> Chained(last, out) && Follows(LastOf(last, out), m.block)
  {
    var all := out + [m];
    assert LinkAt(last, all, |out|) <==> Follows(LastOf(last, out), m.block);
    forall i: nat | i < |out| ensures LinkAt(last, all, i) <==> LinkAt(last, out, i) {
      assert all[i] == out[i] && Before(last, all, i) == Before(last, out, i);
    }
  }

  /** The block before position `i`. */
  function Before(last: Option<NodeBlock>, out: seq<Made>, i: nat): Option<NodeBlock>
    requires i <= |out|
  {
    if i == 0 then last else Some(out[i - 1].block)
  }

  predicate OwnAuthors(node: Node, out: seq<Made>) {
    forall i :: 0 <= i < |out| ==> out[i].author == node.OwnAuthor(out[i].block)
  }

  function LastOf(last: Option<NodeBlock>, out: seq<Made>): Option<NodeBlock> {
    Before(last, out, |out|)
  }

  // ---------- chunked catch-up by height ----------

  /** Blocks by height from `from`, each made against `cache` on its own. */
  ghost predicate Speculative(node: Node, cache: Option<Authorities>, from: nat,
                              made: seq<(Made, Option<Authorities>)>) {
    forall i :: 0 <= i < |made| ==> MadeAt(node, cache, from + i, made[i])
  }

  predicate MadeAt(node: Node, cache: Option<Authorities>, h: nat, made: (Made, Option<Authorities>)) {
    node.at(h).Some? && made == MakeBlock(node, cache, node.at(h).value)
  }

  /** The blocks [from, to) by height, made in parallel against the same cache; one failure fails the chunk. */
  method FetchChunk(node: Node, cache: Option<Authorities>, from: nat, to: nat)
    returns (r: Result<seq<(Made, Option<Authorities>)>, Error>)
    requires from <= to
    ensures r.Ok? ==> |r.value| == to - from && Speculative(node, cache, from, r.value)
    ensures r.Err? ==> exists h :: from <= h < to && node.at(h).None?
  {
    var made: seq<(Made, Option<Authorities>)> := [];
    var h := from;
    while h < to
      invariant from <= h <= to && |made| == h - from
      invariant Speculative(node, cache, from, made)
    {
      var b := node.at(h);
      if b.None? {
        return Err(FetchFailed(h));
      }
      made := made + [MakeBlock(node, cache, b.value)];
      h := h + 1;
    }
    r := Ok(made);
  }

  /** `out` are the node's blocks at heights from `start`, in order. */
  ghost predicate ByHeight(node: Node, start: nat, out: seq<Made>) {
    forall i :: 0 <= i < |out| ==> node.at(start + i) == Some(out[i].block)
  }

  /** State of the catch-up: what was yielded and what the cache and the expected parent are. */
  datatype Stream = Stream(out: seq<Made>, cache: Option<Authorities>, expected: Option<Bytes>)

  /** The blocks yielded are the chain by height from `start`, above `last`, with their own authors. */
  ghost predicate Caught(node: Node, world: iset<NodeBlock>, start: nat, last: Option<NodeBlock>, s: Stream) {
    && ByHeight(node, start, s.out)
    && Chained(last, s.out)
    && (s.expected == var l := LastOf(last, s.out); if l.Some? then Some(l.value.hash) else None)
    && (node.Stable(world) ==> OwnAuthors(node, s.out) && CacheFor(node, s.cache, LastOf(last, s.out)))
  }

  /** Consumes a chunk in order up to the first NewSession event; blocks beyond it were made with a stale set. */
  method ConsumeChunk(node: Node, chunk: seq<(Made, Option<Authorities>)>, s0: Stream, ghost world: iset<NodeBlock>,
                      ghost start: nat, ghost last: Option<NodeBlock>)
    returns (r: Result<(), Error>, s: Stream)
    requires node.Answers(world) && Exist(world, last, [])
    requires Caught(node, world, start, last, s0) && chunk != []
    requires Speculative(node, s0.cache, start + |s0.out|, chunk)
    ensures Caught(node, world, start, last, s) && s0.out <= s.out
    ensures r.Ok? ==> |s0.out| < |s.out| <= |s0.out| + |chunk|
    ensures r.Err? ==> |s.out| < |s0.out| + |chunk|
    ensures r.Err? ==> node.at(start + |s.out|).Some? && !Follows(LastOf(last, s.out), node.at(start + |s.out|).value)
  {
    s := s0;
    var i := 0;
    while i < |chunk|
      invariant 0 <= i <= |chunk| && |s.out| == |s0.out| + i && s0.out <= s.out
      invariant Caught(node, world, start, last, s)
      invariant i > 0 ==> s.cache.Some?
      invariant i == 0 ==> s.cache == s0.cache
      invariant s0.cache.Some? ==> s.cache == s0.cache
    {
      assert MadeAt(node, s0.cache, start + |s0.out| + i, chunk[i]);
      var (made, after) := chunk[i];
      if s.expected.Some? && made.block.parent != s.expected.value {
        return Err(ParentHashMismatch(made.block.height)), s;
      }
      ConsumeOne(node, world, start, last, s, s0.cache, made.block);
      var cache := if s.cache.None? then after else s.cache;
      s := Stream(s.out + [made], if after.None? then None else cache, Some(made.block.hash));
      if after.None? {
        break;
      }
      i := i + 1;
    }
    r := Ok(());
  }

  /** A block made against the chunk's initial cache is as good as one made against the current cache. */
  lemma ConsumeOne(node: Node, world: iset<NodeBlock>, start: nat, last: Option<NodeBlock>, s: Stream,
                   cache0: Option<Authorities>, b: NodeBlock)
    requires node.Answers(world) && Exist(world, last, [])
    requires Caught(node, world, start, last, s) && node.at(start + |s.out|) == Some(b)
    requires s.expected.Some? ==> b.parent == s.expected.value
    requires cache0.None? || cache0 == s.cache
    ensures
      var (made, after) := MakeBlock(node, cache0, b);
      Caught(node, world, start, last,
             Stream(s.out + [made], if after.None? then None else if s.cache.None? then after else s.cache, Some(b.hash)))
  {
    var l := LastOf(last, s.out);
    ChainedAppend(last, s.out, MakeBlock(node, cache0, b).0);
    if node.Stable(world) {
      MadeFromCache(node, world, s.cache, l, b);
      MadeFromCache(node, world, cache0, l, b);
    }
  }

  /** Why the catch-up stops at height `next`: a block of the chunk is missing, or the next one is not a child. */
  predicate Broken(node: Node, last: Option<NodeBlock>, next: nat, safe: nat, h: nat) {
    && next <= h < safe && h < next + CATCH_UP_CHUNK
    && (node.at(h).None? || (h == next && !Follows(last, node.at(h).value)))
  }

  ghost predicate StopsAt(node: Node, last: Option<NodeBlock>, next: nat, safe: nat) {
    exists h :: Broken(node, last, next, safe, h)
  }

  /** Forward catch-up from `start` to `safe`; each chunk advances by at least one block. */
  method CatchUp(node: Node, start: nat, safe: nat, after: Option<Bytes>, ghost world: iset<NodeBlock>,
                 ghost last: Option<NodeBlock>)
    returns (r: Result<(), Error>, s: Stream)
    requires node.Answers(world) && Exist(world, last, [])
    requires after == if last.Some? then Some(last.value.hash) else None
    ensures Caught(node, world, start, last, s)
    ensures r.Ok? && start <= safe ==> |s.out| == safe - start
    ensures r.Err? ==> StopsAt(node, LastOf(last, s.out), start + |s.out|, safe)
  {
    s := Stream([], None, after);
    var height := start;
    while height < safe
      invariant Caught(node, world, start, last, s)
      invariant height == start + |s.out|
      invariant start <= safe ==> height <= safe
      decreases safe - height
    {
      var end := if safe < height + CATCH_UP_CHUNK then safe else height + CATCH_UP_CHUNK;
      var chunk := FetchChunk(node, s.cache, height, end);
      if chunk.Err? {
        ghost var h :| height <= h < end && node.at(h).None?;
        assert Broken(node, LastOf(last, s.out), height, safe, h);
        return Err(chunk.error), s;
      }
      var consumed;
      consumed, s := ConsumeChunk(node, chunk.value, s, world, start, last);
      if consumed.Err? {
        assert Broken(node, LastOf(last, s.out), start + |s.out|, safe, start + |s.out|);
        return consumed, s;
      }
      height := s.out[|s.out| - 1].block.height + 1;
    }
    r := Ok(());
  }

  /** The plain catch-up: one block at a time, each made with the cache its predecessor left. */
  function OneByOne(node: Node, cache: Option<Authorities>, from: nat, n: nat): seq<Made>
    decreases n
  {
    if n == 0 || node.at(from).None? then [] else
      var (made, after) := MakeBlock(node, cache, node.at(from).value);
      [made] + OneByOne(node, after, from + 1, n - 1)
  }

  /** Speculation, discarding and refetching are invisible: the same blocks with the same authors, in the same order. */
  lemma CatchUpIsOneByOne(node: Node, world: iset<NodeBlock>, start: nat, last: Option<NodeBlock>, s: Stream)
    requires node.Answers(world) && node.Stable(world) && Exist(world, last, []) && Caught(node, world, start, last, s)
    ensures s.out == OneByOne(node, None, start, |s.out|)
  {
    OneByOneFrom(node, world, start, last, s.out, None, 0);
  }

  lemma {:induction false} OneByOneFrom(node: Node, world: iset<NodeBlock>, start: nat, last: Option<NodeBlock>,
                                        out: seq<Made>, cache: Option<Authorities>, i: nat)
    requires node.Answers(world) && node.Stable(world) && Exist(world, last, [])
    requires i <= |out| && ByHeight(node, start, out) && Chained(last, out) && OwnAuthors(node, out)
    requires CacheFor(node, cache, Before(last, out, i))
    ensures out[i..] == OneByOne(node, cache, start + i, |out| - i)
    decreases |out| - i
  {
    if i < |out| {
      var after := OneStep(node, world, last, out, cache, i);
      assert node.at(start + i) == Some(out[i].block);
      OneByOneFrom(node, world, start, last, out, after, i + 1);
      OneMore(node, cache, after, start + i, out, i);
    }
  }

  lemma OneMore(node: Node, cache: Option<Authorities>, after: Option<Authorities>, h: nat, out: seq<Made>, i: nat)
    requires i < |out| && node.at(h) == Some(out[i].block) && MakeBlock(node, cache, out[i].block) == (out[i], after)
    requires out[i + 1..] == OneByOne(node, after, h + 1, |out| - i - 1)
    ensures out[i..] == OneByOne(node, cache, h, |out| - i)
  {
    assert out[i..] == [out[i]] + out[i + 1..];
  }

  lemma OneStep(node: Node, world: iset<NodeBlock>, last: Option<NodeBlock>, out: seq<Made>,
                cache: Option<Authorities>, i: nat)
    returns (after: Option<Authorities>)
    requires node.Stable(world) && Exist(world, last, out) && i < |out| && Chained(last, out) && OwnAuthors(node, out)
    requires CacheFor(node, cache, Before(last, out, i))
    ensures MakeBlock(node, cache, out[i].block) == (out[i], after) && CacheFor(node, after, Before(last, out, i + 1))
  {
    assert LinkAt(last, out, i);
    MadeFromCache(node, world, cache, Before(last, out, i), out[i].block);
    after := MakeBlock(node, cache, out[i].block).1;
  }

  // ---------- backward walk near the tip ----------

  /** `path` leads from a child of one of the two stop hashes up to the parent of `first`. */
  predicate LeadsTo(path: seq<NodeBlock>, first: NodeBlock, stop: Bytes, genesisParent: Bytes) {
    && (forall i :: 0 <= i < |path| - 1 ==> path[i + 1].parent == path[i].hash)
    && (path != [] ==> path[|path| - 1].hash == first.parent)
    && (if path == [] then first else path[0]).parent in [stop, genesisParent]
  }

  /** The node's blocks at heights 0 to `n` are one chain, found by height and by hash. */
  ghost predicate Canonical(node: Node, n: nat) {
    && (forall h :: 0 <= h <= n ==> node.at(h).Some? && node.byHash(node.at(h).value.hash) == node.at(h))
    && (forall h {:trigger Parented(node, h)} :: 0 < h <= n ==> Parented(node, h))
  }

  predicate Parented(node: Node, h: nat) {
    h > 0 && node.at(h).Some? && node.at(h - 1).Some? && node.at(h).value.parent == node.at(h - 1).value.hash
  }

  /** The node's blocks at heights [from, to). */
  ghost predicate Heights(node: Node, from: nat, to: nat, path: seq<NodeBlock>) {
    from + |path| == to && forall i :: 0 <= i < |path| ==> node.at(from + i) == Some(path[i])
  }

  /** On a canonical chain up to `first` at height `n`, the walk stops exactly at the block of height `from`. */
  ghost predicate OnChain(node: Node, first: NodeBlock, stop: Bytes, genesisParent: Bytes, from: nat, n: nat) {
    && Canonical(node, n) && from <= n && node.at(n) == Some(first)
    && forall h :: from <= h <= n ==> (node.at(h).value.parent in [stop, genesisParent] <==> h == from)
  }

  /** Parents from `first` down to the stop hash, oldest first; on a canonical chain these are the blocks in between. */
  method BackwardWalk(node: Node, first: NodeBlock, stop: Bytes, genesisParent: Bytes, ghost world: iset<NodeBlock>,
                      ghost from: nat, ghost n: nat)
    returns (r: Result<seq<NodeBlock>, Error>)
    requires node.Answers(world) && Descending(world) && first in world
    ensures r.Ok? ==> forall i :: 0 <= i < |r.value| ==> r.value[i] in world
    ensures r.Ok? ==> LeadsTo(r.value, first, stop, genesisParent)
    ensures OnChain(node, first, stop, genesisParent, from, n) ==> r.Ok? && Heights(node, from, n, r.value)
  {
    var path: seq<NodeBlock> := [];
    var lowest := first;
    ghost var good := OnChain(node, first, stop, genesisParent, from, n);
    ghost var at: nat := n;
    while lowest.parent != stop && lowest.parent != genesisParent
      invariant lowest in world && forall i :: 0 <= i < |path| ==> path[i] in world
      invariant lowest == if path == [] then first else path[0]
      invariant forall i :: 0 <= i < |path| - 1 ==> path[i + 1].parent == path[i].hash
      invariant path != [] ==> path[|path| - 1].hash == first.parent
      invariant good ==> from <= at <= n && node.at(at) == Some(lowest) && Heights(node, at, n, path)
      decreases lowest.height
    {
      var parent := node.byHash(lowest.parent);
      StillAbove(node, first, stop, genesisParent, from, n, lowest, at);
      if parent.None? {
        return Err(MissingBlock(lowest.parent));
      }
      HeightsBefore(node, at, n, path, parent.value, good);
      path, lowest := [parent.value] + path, parent.value;
      at := if good then at - 1 else at;
    }
    r := Ok(path);
  }

  /** On a canonical chain a walk that has not met a stop hash has its next block one height below. */
  lemma StillAbove(node: Node, first: NodeBlock, stop: Bytes, genesisParent: Bytes, from: nat, n: nat, lowest: NodeBlock,
                   at: nat)
    requires lowest.parent != stop && lowest.parent != genesisParent
    ensures OnChain(node, first, stop, genesisParent, from, n) && from <= at <= n && node.at(at) == Some(lowest) ==>
      at > from && node.byHash(lowest.parent).Some? && node.at(at - 1) == node.byHash(lowest.parent)
  {
    if OnChain(node, first, stop, genesisParent, from, n) && from <= at <= n && node.at(at) == Some(lowest) {
      assert Parented(node, at);
    }
  }

  lemma HeightsBefore(node: Node, at: nat, n: nat, path: seq<NodeBlock>, b: NodeBlock, good: bool)
    requires good ==> at > 0 && Heights(node, at, n, path) && node.at(at - 1) == Some(b)
    ensures good ==> Heights(node, at - 1, n, [b] + path)
  {
    if good {
      forall i | 0 <= i < |path| + 1 ensures node.at(at - 1 + i) == Some(([b] + path)[i]) {
        assert i > 0 ==> node.at(at + (i - 1)) == Some(path[i - 1]);
      }
    }
  }

  // ---------- one subscription ----------

  /** As long as the yielded blocks form a chain on `last`, each has the author its own state names. */
  ghost predicate AuthorsWhileChained(node: Node, world: iset<NodeBlock>, last: Option<NodeBlock>, out: seq<Made>) {
    node.Stable(world) ==> forall k :: 0 <= k <= |out| && Chained(last, out[..k]) ==> OwnAuthors(node, out[..k])
  }

  /** What is yielded so far, with the cache that goes with it. */
  ghost predicate Sound(node: Node, world: iset<NodeBlock>, last: Option<NodeBlock>, out: seq<Made>,
                        cache: Option<Authorities>)
  {
    && Exist(world, last, out)
    && AuthorsWhileChained(node, world, last, out)
    && (node.Stable(world) && Chained(last, out) ==> CacheFor(node, cache, LastOf(last, out)))
  }

  lemma SoundStep(node: Node, world: iset<NodeBlock>, last: Option<NodeBlock>, out: seq<Made>,
                  cache: Option<Authorities>, b: NodeBlock)
    requires b in world && Sound(node, world, last, out, cache)
    ensures var (made, after) := MakeBlock(node, cache, b); Sound(node, world, last, out + [made], after)
  {
    var (made, after) := MakeBlock(node, cache, b);
    var out' := out + [made];
    assert out[..|out|] == out && out'[..|out|] == out && out'[..|out'|] == out';
    if node.Stable(world) {
      if Chained(last, out') {
        ChainedAppend(last, out, made);
        MadeFromCache(node, world, cache, LastOf(last, out), b);
      }
      forall k | 0 <= k <= |out'| && Chained(last, out'[..k]) ensures OwnAuthors(node, out'[..k]) {
        if k <= |out| {
          assert out'[..k] == out[..k];
        }
      }
    }
  }

  method MakeAll(node: Node, blocks: seq<NodeBlock>, out0: seq<Made>, cache0: Option<Authorities>,
                 ghost world: iset<NodeBlock>, ghost last: Option<NodeBlock>)
    returns (out: seq<Made>, cache: Option<Authorities>)
    requires forall i :: 0 <= i < |blocks| ==> blocks[i] in world
    requires Sound(node, world, last, out0, cache0)
    ensures Sound(node, world, last, out, cache)
    ensures LiveFrom(blocks, out, |out0|) && out0 <= out
  {
    out, cache := out0, cache0;
    var i := 0;
    while i < |blocks|
      invariant 0 <= i <= |blocks|
      invariant Sound(node, world, last, out, cache)
      invariant |out| == |out0| + i && out0 <= out
      invariant forall j :: 0 <= j < i ==> out[|out0| + j].block == blocks[j]
    {
      SoundStep(node, world, last, out, cache, blocks[i]);
      var (made, after) := MakeBlock(node, cache, blocks[i]);
      out, cache := out + [made], after;
      i := i + 1;
    }
  }

  lemma CaughtSound(node: Node, world: iset<NodeBlock>, start: nat, last: Option<NodeBlock>, s: Stream)
    requires node.Answers(world) && Exist(world, last, []) && Caught(node, world, start, last, s)
    ensures Sound(node, world, last, s.out, s.cache)
  {
  }

  function ZeroHash(): Bytes {
    seq(32, i => 0)
  }

  function HashOf(last: Option<NodeBlock>): Bytes {
    if last.Some? then last.value.hash else ZeroHash()
  }

  function SafeHeight(first: nat, start: nat): nat {
    var safe := if first < FINALIZATION_SAFETY_MARGIN then 0 else first - FINALIZATION_SAFETY_MARGIN;
    if safe < start then start else safe
  }

  /** What is fetched by height lies at least 400 blocks below the first finalized block. */
  lemma SafeMargin(first: nat, start: nat)
    ensures SafeHeight(first, start) >= start
    ensures SafeHeight(first, start) > start ==> SafeHeight(first, start) + 400 == first
    ensures first >= start + 400 ==> SafeHeight(first, start) + 400 == first
  {
  }

  function StartHeight(last: Option<NodeBlock>): nat {
    if last.Some? then last.value.height + 1 else 0
  }

  /** A node with one canonical chain from `genesis` to `first`, on which `last` lies below `first`. */
  ghost predicate CatchesUp(node: Node, last: Option<NodeBlock>, first: NodeBlock, genesis: NodeBlock) {
    && Canonical(node, first.height) && node.at(first.height) == Some(first) && node.at(0) == Some(genesis)
    && StartHeight(last) <= first.height
    && (last.Some? ==> node.at(last.value.height) == last)
    && forall h :: 0 <= h <= first.height ==> node.at(h).value.hash !in [genesis.parent, ZeroHash()]
  }

  /** On such a node the forward catch-up has no reason to stop. */
  lemma NothingBroken(node: Node, world: iset<NodeBlock>, last: Option<NodeBlock>, first: NodeBlock, genesis: NodeBlock,
                      safe: nat, s: Stream)
    requires CatchesUp(node, last, first, genesis) && safe <= first.height && Caught(node, world, StartHeight(last), last, s)
    requires StartHeight(last) + |s.out| <= first.height
    ensures !StopsAt(node, LastOf(last, s.out), StartHeight(last) + |s.out|, safe)
  {
    var next := StartHeight(last) + |s.out|;
    if next > 0 {
      assert Parented(node, next);
      assert s.out != [] ==> node.at(StartHeight(last) + (|s.out| - 1)) == Some(s.out[|s.out| - 1].block);
    }
  }

  /** The hash the walk stops at: that of the last block fetched forward or stored. */
  function StopHash(last: Option<NodeBlock>, s: Stream): Bytes {
    if s.expected.Some? then s.expected.value else HashOf(last)
  }

  /** The backward walk meets the forward part, or the genesis block when there is none. */
  lemma WalkMeets(node: Node, world: iset<NodeBlock>, last: Option<NodeBlock>, first: NodeBlock, genesis: NodeBlock,
                  safe: nat, s: Stream)
    requires node.Answers(world) && CatchesUp(node, last, first, genesis)
    requires safe == StartHeight(last) + |s.out| <= first.height
    requires Caught(node, world, StartHeight(last), last, s)
    ensures OnChain(node, first, StopHash(last, s), genesis.parent, safe, first.height)
  {
    var stop := StopHash(last, s);
    assert s.out != [] ==> node.at(StartHeight(last) + (|s.out| - 1)) == Some(s.out[|s.out| - 1].block);
    assert safe > 0 ==> stop == node.at(safe - 1).value.hash;
    forall h | safe <= h <= first.height ensures node.at(h).value.parent in [stop, genesis.parent] <==> h == safe {
      StopsOnlyAt(node, world, last, first, genesis, safe, stop, h);
    }
  }

  lemma StopsOnlyAt(node: Node, world: iset<NodeBlock>, last: Option<NodeBlock>, first: NodeBlock, genesis: NodeBlock,
                    safe: nat, stop: Bytes, h: nat)
    requires node.Answers(world) && CatchesUp(node, last, first, genesis) && safe <= h <= first.height
    requires stop == if safe > 0 then node.at(safe - 1).value.hash else ZeroHash()
    ensures node.at(h).value.parent in [stop, genesis.parent] <==> h == safe
  {
    if h > 0 {
      assert Parented(node, h);
      assert node.at(h - 1).value.height == h - 1;
      assert safe > 0 ==> node.at(safe - 1).value.height == safe - 1;
      assert node.byHash(node.at(h - 1).value.hash) == node.at(h - 1);
    }
  }

  /** `out` begins with the node's blocks at heights [start, end). */
  ghost predicate BeginsWith(node: Node, start: nat, end: nat, out: seq<Made>) {
    && start <= end <= start + |out|
    && forall i :: 0 <= i < end - start ==> node.at(start + i) == Some(out[i].block)
  }

  /** The node's blocks at heights [start, first], then the live blocks, and nothing else. */
  ghost predicate Delivered(node: Node, start: nat, first: nat, live: seq<NodeBlock>, out: seq<Made>) {
    BeginsWith(node, start, first + 1, out) && LiveFrom(live, out, first + 1 - start)
  }

  /** The yielded blocks from `c` on are the live blocks. */
  predicate LiveFrom(live: seq<NodeBlock>, out: seq<Made>, c: nat) {
    |out| == c + |live| && forall i :: 0 <= i < |live| ==> out[c + i].block == live[i]
  }

  lemma ThenLive(node: Node, start: nat, first: nat, live: seq<NodeBlock>, before: seq<Made>, out: seq<Made>)
    requires |before| == first + 1 - start && BeginsWith(node, start, first + 1, before)
    requires before <= out && LiveFrom(live, out, |before|)
    ensures Delivered(node, start, first, live, out)
  {
  }

  lemma FirstIsNew(node: Node, world: iset<NodeBlock>, last: Option<NodeBlock>, first: NodeBlock, genesis: NodeBlock)
    requires node.Answers(world)
    ensures CatchesUp(node, last, first, genesis) ==> first.hash != HashOf(last)
  {
    if CatchesUp(node, last, first, genesis) && last.Some? {
      assert node.byHash(first.hash) == Some(first) && node.byHash(last.value.hash) == last;
      assert node.at(first.height).value.height == first.height;
    }
  }

  /**
     Everything yielded after `last` by a subscription whose first block is `first`: the catch-up, the walk, `first` and
     the live blocks. When the node has one canonical chain this is every height up to `first`, once and in order.
   */
  method FinalizedBlocks(node: Node, last: Option<NodeBlock>, first: NodeBlock, live: seq<NodeBlock>,
                         genesis: NodeBlock, ghost world: iset<NodeBlock>)
    returns (r: Result<(), Error>, out: seq<Made>)
    requires node.Answers(world) && Descending(world) && Exist(world, last, []) && first in world
    requires forall i :: 0 <= i < |live| ==> live[i] in world
    ensures Exist(world, last, out)
    ensures AuthorsWhileChained(node, world, last, out)
    ensures CatchesUp(node, last, first, genesis) ==> r.Ok? && Delivered(node, StartHeight(last), first.height, live, out)
    ensures first.hash == HashOf(last) ==> r.Ok? && LiveFrom(live, out, 0)
  {
    FirstIsNew(node, world, last, first, genesis);
    out := [];
    var cache: Option<Authorities> := None;
    if first.hash != HashOf(last) {
      r, out, cache := CatchUpTo(node, last, first, genesis, world);
      if r.Err? {
        return r, out;
      }
    }
    ghost var before := out;
    out, cache := MakeAll(node, live, out, cache, world, last);
    if CatchesUp(node, last, first, genesis) {
      ThenLive(node, StartHeight(last), first.height, live, before, out);
    }
    r := Ok(());
  }

  method CatchUpTo(node: Node, last: Option<NodeBlock>, first: NodeBlock, genesis: NodeBlock,
                   ghost world: iset<NodeBlock>)
    returns (r: Result<(), Error>, out: seq<Made>, cache: Option<Authorities>)
    requires node.Answers(world) && Descending(world) && Exist(world, last, []) && first in world
    ensures Sound(node, world, last, out, cache)
    ensures CatchesUp(node, last, first, genesis) ==>
      r.Ok? && |out| == first.height + 1 - StartHeight(last) && BeginsWith(node, StartHeight(last), first.height + 1, out)
  {
    var start := StartHeight(last);
    var safe := SafeHeight(first.height, start);
    var s;
    r, s := CatchUp(node, start, safe, if last.Some? then Some(last.value.hash) else None, world, last);
    out, cache := s.out, s.cache;
    CaughtSound(node, world, start, last, s);
    CatchUpSucceeds(node, world, last, first, genesis, safe, s, r);
    if r.Ok? {
      r, out, cache := WalkTo(node, first, StopHash(last, s), genesis.parent, s, world, last, start, safe);
    }
  }

  lemma CatchUpSucceeds(node: Node, world: iset<NodeBlock>, last: Option<NodeBlock>, first: NodeBlock,
                        genesis: NodeBlock, safe: nat, s: Stream, r: Result<(), Error>)
    requires node.Answers(world) && Caught(node, world, StartHeight(last), last, s)
    requires safe == SafeHeight(first.height, StartHeight(last))
    requires r.Ok? ==> StartHeight(last) + |s.out| == safe
    requires r.Err? ==> StopsAt(node, LastOf(last, s.out), StartHeight(last) + |s.out|, safe)
    ensures CatchesUp(node, last, first, genesis) ==>
      && r.Ok? && safe == StartHeight(last) + |s.out| <= first.height
      && OnChain(node, first, StopHash(last, s), genesis.parent, safe, first.height)
  {
    if CatchesUp(node, last, first, genesis) {
      if r.Ok? {
        WalkMeets(node, world, last, first, genesis, safe, s);
      } else {
        ghost var h :| Broken(node, LastOf(last, s.out), StartHeight(last) + |s.out|, safe, h);
        NothingBroken(node, world, last, first, genesis, safe, s);
      }
    }
  }

  /** The walk back to the stop hash, its blocks made oldest first, and the first finalized block itself. */
  method WalkTo(node: Node, first: NodeBlock, stop: Bytes, genesisParent: Bytes, s: Stream,
                ghost world: iset<NodeBlock>, ghost last: Option<NodeBlock>, ghost start: nat, ghost safe: nat)
    returns (r: Result<(), Error>, out: seq<Made>, cache: Option<Authorities>)
    requires node.Answers(world) && Descending(world) && first in world && Sound(node, world, last, s.out, s.cache)
    requires ByHeight(node, start, s.out) && start + |s.out| == safe
    ensures Sound(node, world, last, out, cache)
    ensures OnChain(node, first, stop, genesisParent, safe, first.height) ==>
      r.Ok? && |out| == first.height + 1 - start && BeginsWith(node, start, first.height + 1, out)
  {
    out, cache := s.out, s.cache;
    var path := BackwardWalk(node, first, stop, genesisParent, world, safe, first.height);
    if path.Err? {
      return Err(path.error), out, cache;
    }
    out, cache := MakeAll(node, path.value + [first], out, cache, world, last);
    Joined(node, start, safe, first, s.out, path.value, out);
    r := Ok(());
  }

  lemma Joined(node: Node, start: nat, safe: nat, first: NodeBlock, forward: seq<Made>, path: seq<NodeBlock>,
               out: seq<Made>)
    requires ByHeight(node, start, forward) && start + |forward| == safe
    requires |out| == |forward| + |path| + 1 && forward <= out
    requires forall i :: 0 <= i < |path| + 1 ==> out[|forward| + i].block == (path + [first])[i]
    ensures Heights(node, safe, first.height, path) && node.at(first.height) == Some(first) ==>
      BeginsWith(node, start, first.height + 1, out)
  {
    if Heights(node, safe, first.height, path) && node.at(first.height) == Some(first) {
      forall i | 0 <= i < first.height + 1 - start ensures node.at(start + i) == Some(out[i].block) {
        if i >= |forward| {
          var j := i - |forward|;
          assert out[|forward| + j].block == (path + [first])[j];
          assert j < |path| ==> node.at(safe + j) == Some(path[j]);
        }
      }
    }
  }

  // ---------- the guard ----------

  /** Each accepted block is a child of the one before it, the first of `last` (or of nothing: the zero hash). */
  predicate HashLinked(last: Option<NodeBlock>, out: seq<Made>) {
    forall i {:trigger HashLinkAt(last, out, i)} :: 0 <= i < |out| ==> HashLinkAt(last, out, i)
  }

  predicate HashLinkAt(last: Option<NodeBlock>, out: seq<Made>, i: nat)
    requires i < |out|
  {
    out[i].block.parent == HashOf(Before(last, out, i))
  }

  lemma HashLinkedConcat(last: Option<NodeBlock>, a: seq<Made>, b: seq<Made>)
    requires HashLinked(last, a) && HashLinked(LastOf(last, a), b)
    ensures HashLinked(last, a + b) && LastOf(last, a + b) == LastOf(LastOf(last, a), b)
  {
    forall i: nat | i < |a + b| ensures HashLinkAt(last, a + b, i) {
      if i < |a| {
        assert HashLinkAt(last, a, i);
      } else {
        assert HashLinkAt(LastOf(last, a), b, i - |a|);
      }
    }
  }

  lemma HashLinkedChained(last: Option<NodeBlock>, out: seq<Made>)
    requires HashLinked(last, out)
    ensures Chained(last, out)
  {
    forall i: nat | i < |out| ensures LinkAt(last, out, i) {
      assert HashLinkAt(last, out, i);
    }
  }

  /** What one subscription delivers, and the answers of the node while it lasts: forks may change them in between. */
  datatype Subscription = Subscription(node: Node, first: NodeBlock, live: seq<NodeBlock>)
  {
    /**
       It serves blocks that exist. The authority set and the author of a block are functions of the block, the same on
       every fork.
     */
    ghost predicate Of(world: iset<NodeBlock>, base: Node) {
      && node.Answers(world) && first in world && (forall i :: 0 <= i < |live| ==> live[i] in world)
      && node.authorities == base.authorities && node.author == base.author
    }
  }

  /** Lets blocks of one subscription through until the first that is not a child of the last one. */
  method Guard(highest0: Option<NodeBlock>, blocks: seq<Made>) returns (accepted: seq<Made>, highest: Option<NodeBlock>)
    ensures accepted <= blocks && HashLinked(highest0, accepted) && highest == LastOf(highest0, accepted)
    ensures |accepted| < |blocks| ==> blocks[|accepted|].block.parent != HashOf(highest)
  {
    highest, accepted := highest0, [];
    while |accepted| < |blocks|
      invariant accepted <= blocks && HashLinked(highest0, accepted) && highest == LastOf(highest0, accepted)
      decreases |blocks| - |accepted|
    {
      var b := blocks[|accepted|];
      if b.block.parent != HashOf(highest) {
        return;
      }
      assert HashLinkAt(highest, [b], 0);
      HashLinkedConcat(highest0, accepted, [b]);
      accepted, highest := accepted + [b], Some(b.block);
    }
  }

  lemma AcceptedAuthors(base: Node, node: Node, world: iset<NodeBlock>, last: Option<NodeBlock>, blocks: seq<Made>,
                        more: seq<Made>)
    requires AuthorsWhileChained(node, world, last, blocks) && more <= blocks && HashLinked(last, more)
    requires node.authorities == base.authorities && node.author == base.author
    ensures base.Stable(world) ==> OwnAuthors(base, more)
  {
    HashLinkedChained(last, more);
    assert blocks[..|more|] == more;
    if base.Stable(world) {
      assert node.Stable(world);
      forall i | 0 <= i < |more| ensures more[i].author == base.OwnAuthor(more[i].block) {
        assert more[i].author == node.OwnAuthor(more[i].block);
      }
    }
  }

  /** A header's height is one above its parent's; only the genesis block has the zero hash as parent. */
  ghost predicate HeadersNumbered(world: iset<NodeBlock>) {
    && (forall a, b :: a in world && b in world && b.parent == a.hash ==> b.height == a.height + 1)
    && (forall b :: b in world && b.parent == ZeroHash() ==> b.height == 0)
  }

  /** Accepted blocks have exactly the heights after `start`, in order and without gap, so they can be stored by height. */
  lemma {:induction false} AcceptedHeights(world: iset<NodeBlock>, start: Option<NodeBlock>, accepted: seq<Made>,
                                           i: nat)
    requires HeadersNumbered(world) && Exist(world, start, accepted) && HashLinked(start, accepted) && i < |accepted|
    ensures accepted[i].block.height == StartHeight(start) + i
  {
    assert HashLinkAt(start, accepted, i);
    if i > 0 {
      AcceptedHeights(world, start, accepted, i - 1);
    }
  }

  /**
     After the first `c` blocks, `more` goes on with the live blocks, as long as each is a child of the one before: only
     one that is not ends it.
   */
  ghost predicate FollowsLive(live: seq<NodeBlock>, last: Option<NodeBlock>, more: seq<Made>, c: nat) {
    && c <= |more| <= c + |live| && (forall i :: c <= i < |more| ==> more[i].block == live[i - c])
    && (|more| < c + |live| ==> live[|more| - c].parent != HashOf(LastOf(last, more)))
  }

  /**
     When the node has one canonical chain up to `first` on top of `last`, every height up to `first` is accepted, and
     then the live blocks. When `first` is `last` itself, the live blocks follow at once.
   */
  ghost predicate Advances(sub: Subscription, last: Option<NodeBlock>, genesis: NodeBlock, more: seq<Made>) {
    && (CatchesUp(sub.node, last, sub.first, genesis) && genesis.parent == ZeroHash() ==>
          && BeginsWith(sub.node, StartHeight(last), sub.first.height + 1, more)
          && FollowsLive(sub.live, last, more, sub.first.height + 1 - StartHeight(last)))
    && (sub.first.hash == HashOf(last) ==> FollowsLive(sub.live, last, more, 0))
  }

  /** Each live block is a child of the one before it, the first of `prev`. */
  predicate LiveChain(prev: Bytes, live: seq<NodeBlock>) {
    forall i {:trigger LiveChild(prev, live, i)} :: 0 <= i < |live| ==> LiveChild(prev, live, i)
  }

  predicate LiveChild(prev: Bytes, live: seq<NodeBlock>, i: int) {
    0 <= i < |live| && live[i].parent == if i == 0 then prev else live[i - 1].hash
  }

  /** A canonical node whose live blocks are a chain on its first block gets all of them accepted. */
  lemma AllLiveAccepted(sub: Subscription, last: Option<NodeBlock>, genesis: NodeBlock, more: seq<Made>)
    requires CatchesUp(sub.node, last, sub.first, genesis) && genesis.parent == ZeroHash()
    requires Advances(sub, last, genesis, more) && LiveChain(sub.first.hash, sub.live)
    ensures |more| == sub.first.height + 1 - StartHeight(last) + |sub.live|
  {
    var c := sub.first.height + 1 - StartHeight(last);
    assert sub.node.at(StartHeight(last) + (c - 1)) == Some(more[c - 1].block);
    NoEarlyEnd(sub.live, last, more, c, sub.first.hash);
  }

  lemma NoEarlyEnd(live: seq<NodeBlock>, last: Option<NodeBlock>, more: seq<Made>, c: nat, prev: Bytes)
    requires FollowsLive(live, last, more, c) && LiveChain(prev, live) && HashOf(Before(last, more, c)) == prev
    ensures |more| == c + |live|
  {
    var n := |more| - c;
    assert n < |live| ==> LiveChild(prev, live, n);
    assert n > 0 ==> more[|more| - 1].block == live[n - 1];
  }

  /** So does one that starts at the last block, as after a resubscription. */
  lemma LiveAcceptedAtOnce(sub: Subscription, last: Option<NodeBlock>, genesis: NodeBlock, more: seq<Made>)
    requires sub.first.hash == HashOf(last) && Advances(sub, last, genesis, more) && LiveChain(HashOf(last), sub.live)
    ensures |more| == |sub.live|
  {
    NoEarlyEnd(sub.live, last, more, 0, HashOf(last));
  }

  /** The guard stops at no block of a canonical chain. */
  lemma NextIsChild(sub: Subscription, last: Option<NodeBlock>, genesis: NodeBlock, blocks: seq<Made>, i: nat)
    requires CatchesUp(sub.node, last, sub.first, genesis) && genesis.parent == ZeroHash() && i < |blocks|
    requires BeginsWith(sub.node, StartHeight(last), sub.first.height + 1, blocks)
    ensures StartHeight(last) + i <= sub.first.height ==> blocks[i].block.parent == HashOf(Before(last, blocks, i))
  {
    var node, h := sub.node, StartHeight(last) + i;
    if h <= sub.first.height {
      assert node.at(h) == Some(blocks[i].block);
      if h > 0 {
        assert Parented(node, h);
        assert i > 0 ==> node.at(StartHeight(last) + (i - 1)) == Some(blocks[i - 1].block);
      }
    }
  }

  lemma GuardLetsThrough(sub: Subscription, last: Option<NodeBlock>, genesis: NodeBlock, blocks: seq<Made>, more: seq<Made>)
    requires CatchesUp(sub.node, last, sub.first, genesis) && genesis.parent == ZeroHash()
    requires BeginsWith(sub.node, StartHeight(last), sub.first.height + 1, blocks) && more <= blocks
    requires |more| < |blocks| ==> blocks[|more|].block.parent != HashOf(LastOf(last, more))
    ensures BeginsWith(sub.node, StartHeight(last), sub.first.height + 1, more)
  {
    if |more| < |blocks| {
      NextIsChild(sub, last, genesis, blocks, |more|);
      assert Before(last, blocks, |more|) == LastOf(last, more);
    }
  }

  /** One subscription: what it yields, up to the first block that is not a child of the one before. */
  method Subscribe(sub: Subscription, last: Option<NodeBlock>, genesis: NodeBlock, ghost base: Node,
                   ghost world: iset<NodeBlock>)
    returns (more: seq<Made>, highest: Option<NodeBlock>)
    requires Descending(world) && Exist(world, last, []) && sub.Of(world, base)
    ensures Exist(world, last, more) && HashLinked(last, more) && highest == LastOf(last, more)
    ensures base.Stable(world) ==> OwnAuthors(base, more)
    ensures Advances(sub, last, genesis, more)
  {
    var r, blocks := FinalizedBlocks(sub.node, last, sub.first, sub.live, genesis, world);
    more, highest := Guard(last, blocks);
    AcceptedAuthors(base, sub.node, world, last, blocks, more);
    GuardAdvances(sub, last, genesis, blocks, more);
  }

  lemma GuardAdvances(sub: Subscription, last: Option<NodeBlock>, genesis: NodeBlock, blocks: seq<Made>, more: seq<Made>)
    requires CatchesUp(sub.node, last, sub.first, genesis) ==>
      Delivered(sub.node, StartHeight(last), sub.first.height, sub.live, blocks)
    requires sub.first.hash == HashOf(last) ==> LiveFrom(sub.live, blocks, 0)
    requires more <= blocks && (|more| < |blocks| ==> blocks[|more|].block.parent != HashOf(LastOf(last, more)))
    ensures Advances(sub, last, genesis, more)
  {
    if CatchesUp(sub.node, last, sub.first, genesis) && genesis.parent == ZeroHash() {
      GuardLetsThrough(sub, last, genesis, blocks, more);
      LivePart(sub.live, last, blocks, more, sub.first.height + 1 - StartHeight(last));
    }
    if sub.first.hash == HashOf(last) {
      LivePart(sub.live, last, blocks, more, 0);
    }
  }

  lemma LivePart(live: seq<NodeBlock>, last: Option<NodeBlock>, blocks: seq<Made>, more: seq<Made>, c: nat)
    requires LiveFrom(live, blocks, c) && c <= |more| && more <= blocks
    requires |more| < |blocks| ==> blocks[|more|].block.parent != HashOf(LastOf(last, more))
    ensures FollowsLive(live, last, more, c)
  {
    forall i | c <= i < |more| ensures more[i].block == live[i - c] {
      assert blocks[c + (i - c)].block == live[i - c];
    }
    assert |more| < |blocks| ==> blocks[c + (|more| - c)].block == live[|more| - c];
  }

  ghost predicate Contributes(start: Option<NodeBlock>, sub: Subscription, genesis: NodeBlock, accepted: seq<Made>,
                              from: nat, to: nat)
  {
    from <= to <= |accepted| && Advances(sub, Before(start, accepted, from), genesis, accepted[from..to])
  }

  /** Subscription `k` contributes the blocks from `cuts[k]` to `cuts[k + 1]`. */
  ghost predicate Contributions(start: Option<NodeBlock>, subscriptions: seq<Subscription>, genesis: NodeBlock,
                                accepted: seq<Made>, cuts: seq<nat>)
  {
    && |cuts| == |subscriptions| + 1 && cuts[0] == 0 && cuts[|subscriptions|] == |accepted|
    && forall k {:trigger subscriptions[k]} :: 0 <= k < |subscriptions| ==>
         Contributes(start, subscriptions[k], genesis, accepted, cuts[k], cuts[k + 1])
  }

  lemma ContributesStill(start: Option<NodeBlock>, sub: Subscription, genesis: NodeBlock, accepted: seq<Made>,
                         more: seq<Made>, from: nat, to: nat)
    requires Contributes(start, sub, genesis, accepted, from, to)
    ensures Contributes(start, sub, genesis, accepted + more, from, to)
  {
    assert (accepted + more)[from..to] == accepted[from..to];
    assert Before(start, accepted + more, from) == Before(start, accepted, from);
  }

  lemma ContributesNext(start: Option<NodeBlock>, subscriptions: seq<Subscription>, sub: Subscription,
                        genesis: NodeBlock, accepted: seq<Made>, more: seq<Made>, cuts: seq<nat>)
    requires Contributions(start, subscriptions, genesis, accepted, cuts)
    requires Advances(sub, LastOf(start, accepted), genesis, more)
    ensures Contributions(start, subscriptions + [sub], genesis, accepted + more, cuts + [|accepted + more|])
  {
    var all, n := subscriptions + [sub], |subscriptions|;
    var cuts' := cuts + [|accepted + more|];
    forall k | 0 <= k < |all| ensures Contributes(start, all[k], genesis, accepted + more, cuts'[k], cuts'[k + 1]) {
      if k < n {
        assert all[k] == subscriptions[k];
        ContributesStill(start, subscriptions[k], genesis, accepted, more, cuts[k], cuts[k + 1]);
      } else {
        ContributesLast(start, sub, genesis, accepted, more);
      }
    }
  }

  lemma ContributesLast(start: Option<NodeBlock>, sub: Subscription, genesis: NodeBlock, accepted: seq<Made>,
                        more: seq<Made>)
    requires Advances(sub, LastOf(start, accepted), genesis, more)
    ensures Contributes(start, sub, genesis, accepted + more, |accepted|, |accepted + more|)
  {
    assert (accepted + more)[|accepted|..|accepted + more|] == more;
    assert Before(start, accepted + more, |accepted|) == LastOf(start, accepted);
  }

  /**
     Over any sequence of subscriptions to an arbitrary node, the accepted blocks are one hash-linked chain on `start`,
     each was made with the authority set of its own state, and they have exactly the heights after `start`. Whenever a
     node has a canonical chain on top of what was accepted before, its subscription contributes every height up to the
     first block it announced, and then its live blocks as long as each is a child of the one before.
   */
  method NodeBlocks(base: Node, start: Option<NodeBlock>, subscriptions: seq<Subscription>, genesis: NodeBlock,
                    ghost world: iset<NodeBlock>)
    returns (accepted: seq<Made>, ghost cuts: seq<nat>)
    requires Descending(world) && Exist(world, start, [])
    requires forall i :: 0 <= i < |subscriptions| ==> subscriptions[i].Of(world, base)
    ensures Exist(world, start, accepted) && HashLinked(start, accepted)
    ensures base.Stable(world) ==> OwnAuthors(base, accepted)
    ensures HeadersNumbered(world) ==>
      forall i :: 0 <= i < |accepted| ==> accepted[i].block.height == StartHeight(start) + i
    ensures Contributions(start, subscriptions, genesis, accepted, cuts)
  {
    accepted, cuts := [], [0];
    var highest := start;
    var k := 0;
    while k < |subscriptions|
      invariant 0 <= k <= |subscriptions| && Contributions(start, subscriptions[..k], genesis, accepted, cuts)
      invariant Exist(world, start, accepted)
      invariant HashLinked(start, accepted) && highest == LastOf(start, accepted)
      invariant base.Stable(world) ==> OwnAuthors(base, accepted)
    {
      var more, highest' := Subscribe(subscriptions[k], highest, genesis, base, world);
      HashLinkedConcat(start, accepted, more);
      ContributesNext(start, subscriptions[..k], subscriptions[k], genesis, accepted, more, cuts);
      assert subscriptions[..k + 1] == subscriptions[..k] + [subscriptions[k]];
      accepted, highest := accepted + more, highest';
      cuts := cuts + [|accepted|];
      k := k + 1;
    }
    assert subscriptions[..k] == subscriptions;
    if HeadersNumbered(world) {
      forall i: nat | i < |accepted| ensures accepted[i].block.height == StartHeight(start) + i {
        AcceptedHeights(world, start, accepted, i);
      }
    }
  }

  // ---------- a chain with a session change ----------

  function ChainHash(h: nat): Bytes {
    seq(h + 1, i => 1)
  }

  /** One chain without end on which only the block at height `s` carries a NewSession event. */
  function ChainBlock(s: nat, h: nat): NodeBlock {
    NodeBlock(ChainHash(h), if h == 0 then ZeroHash() else ChainHash(h - 1), h, h == s)
  }

  ghost function ChainWorld(s: nat): iset<NodeBlock> {
    iset b: NodeBlock | b == ChainBlock(s, b.height)
  }

  /** A node that serves this chain; the sets before and after the session name different authors. */
  function ChainNode(s: nat): Node {
    Node(h requires 0 <= h => Some(ChainBlock(s, h)),
         hash => if hash != [] && hash == ChainHash(|hash| - 1) then Some(ChainBlock(s, |hash| - 1)) else None,
         hash => if |hash| <= s + 1 then [[0]] else [[1]],
         (b, set_) => if set_ == [] then None else Some(set_[0]))
  }

  lemma ChainHashes(g: nat, h: nat)
    ensures ChainHash(g) == ChainHash(h) <==> g == h
    ensures ChainHash(h) != ZeroHash()
  {
    assert |ChainHash(g)| == g + 1 && |ChainHash(h)| == h + 1;
    assert ChainHash(h)[0] == 1 && ZeroHash()[0] == 0;
  }

  lemma ChainParents(s: nat, a: NodeBlock, b: NodeBlock)
    requires a in ChainWorld(s) && b in ChainWorld(s)
    ensures b.parent == a.hash <==> b.height == a.height + 1
    ensures b.parent == ZeroHash() <==> b.height == 0
  {
    ChainHashes(a.height, if b.height == 0 then 0 else b.height - 1);
    ChainHashes(b.height, a.height);
  }

  /** The hypotheses of this module hold of a node whose authority set does change. */
  lemma ChainHolds(s: nat)
    ensures ChainNode(s).Answers(ChainWorld(s)) && ChainNode(s).Stable(ChainWorld(s))
    ensures Descending(ChainWorld(s)) && HeadersNumbered(ChainWorld(s))
    ensures ChainNode(s).authorities(ChainHash(s)) != ChainNode(s).authorities(ChainHash(s + 1))
  {
    forall a, b | a in ChainWorld(s) && b in ChainWorld(s)
      ensures b.parent == a.hash <==> b.height == a.height + 1
      ensures b.parent == ZeroHash() <==> b.height == 0
    {
      ChainParents(s, a, b);
    }
    assert ChainNode(s).authorities(ChainHash(s))[0] == [0];
    assert ChainNode(s).authorities(ChainHash(s + 1))[0] == [1];
  }

  lemma ChainCanonical(s: nat, n: nat)
    ensures Canonical(ChainNode(s), n)
    ensures forall h: nat :: h <= n ==> ChainNode(s).at(h) == Some(ChainBlock(s, h)) && ChainHash(h) != ZeroHash()
  {
    forall h: nat | h <= n
      ensures ChainNode(s).byHash(ChainHash(h)) == Some(ChainBlock(s, h)) && ChainHash(h) != ZeroHash()
    {
      ChainHashes(h, h);
    }
    forall h: nat | 0 < h <= n ensures Parented(ChainNode(s), h) {
    }
  }

  /** It catches up to every height `n`, from scratch or from any block below. */
  lemma ChainCatchesUp(s: nat, last: nat, n: nat)
    requires last < n
    ensures CatchesUp(ChainNode(s), None, ChainBlock(s, n), ChainBlock(s, 0))
    ensures CatchesUp(ChainNode(s), Some(ChainBlock(s, last)), ChainBlock(s, n), ChainBlock(s, 0))
  {
    ChainCanonical(s, n);
    ChainHolds(s);
    CanonicalCatchesUp(ChainNode(s), ChainWorld(s), last, n);
  }

  lemma CanonicalCatchesUp(node: Node, world: iset<NodeBlock>, last: nat, n: nat)
    requires node.Answers(world) && Canonical(node, n) && last < n
    requires node.at(0).value.parent == ZeroHash()
    requires forall h: nat :: h <= n ==> node.at(h).value.hash != ZeroHash()
    ensures CatchesUp(node, None, node.at(n).value, node.at(0).value)
    ensures CatchesUp(node, node.at(last), node.at(n).value, node.at(0).value)
  {
  }

  /** The walk from height `n` down to the block at height `stop` passes the n - stop - 1 blocks in between. */
  lemma ChainWalk(s: nat, stop: nat, n: nat)
    requires stop < n
    ensures OnChain(ChainNode(s), ChainBlock(s, n), ChainHash(stop), ZeroHash(), stop + 1, n)
  {
    ChainCatchesUp(s, stop, n);
    ChainHolds(s);
    CanonicalWalk(ChainNode(s), ChainWorld(s), ChainBlock(s, n), ChainBlock(s, 0), stop);
  }

  lemma CanonicalWalk(node: Node, world: iset<NodeBlock>, first: NodeBlock, genesis: NodeBlock, stop: nat)
    requires node.Answers(world) && CatchesUp(node, None, first, genesis) && stop < first.height
    ensures OnChain(node, first, node.at(stop).value.hash, genesis.parent, stop + 1, first.height)
  {
    forall h | stop < h <= first.height
      ensures node.at(h).value.parent in [node.at(stop).value.hash, genesis.parent] <==> h == stop + 1
    {
      StopsOnlyAt(node, world, None, first, genesis, stop + 1, node.at(stop).value.hash, h);
    }
  }

  /** The block after the session, made with the set of the block before: its author is wrong, so it must be discarded. */
  lemma StaleAuthor(s: nat)
    ensures var node, b := ChainNode(s), ChainBlock(s, s + 1);
      MakeBlock(node, Some(node.authorities(ChainHash(s))), b).0.author != node.OwnAuthor(b)
  {
    assert [0] != [1] by { assert [0][0] != [1][0]; }
  }

  // ---------- duplicates within one subscription ----------

  /** A lower height than every later one. */
  ghost predicate Ascending(above: Option<nat>, out: seq<nat>) {
    && (forall i, j :: 0 <= i < j < |out| ==> out[i] < out[j])
    && (above.Some? ==> forall i :: 0 <= i < |out| ==> out[i] > above.value)
  }

  /** Every received height was delivered, or was not above one delivered before it (or the resume height). */
  ghost predicate Covered(above: Option<nat>, received: seq<nat>, out: seq<nat>) {
    forall i :: 0 <= i < |received| ==> received[i] in out || AlreadyPassed(above, out, received[i])
  }

  ghost predicate AlreadyPassed(above: Option<nat>, out: seq<nat>, h: nat) {
    (above.Some? && h <= above.value) || exists j :: 0 <= j < |out| && h <= out[j]
  }

  /** `subscribe_finalized_blocks`: passes a block only when it is higher than every block passed before. */
  method DropDuplicates(received: seq<nat>, above: Option<nat>) returns (out: seq<nat>)
    ensures Ascending(above, out) && Covered(above, received, out)
    ensures forall h :: h in out ==> h in received
  {
    out := [];
    var lastHeight := above;
    var i := 0;
    while i < |received|
      invariant 0 <= i <= |received|
      invariant lastHeight == if out == [] then above else Some(out[|out| - 1])
      invariant Ascending(above, out) && Covered(above, received[..i], out)
      invariant forall h :: h in out ==> h in received[..i]
    {
      var height := received[i];
      assert received[..i + 1] == received[..i] + [height];
      if lastHeight.None? || height > lastHeight.value {
        CoveredMore(above, received[..i], out, height);
        lastHeight, out := Some(height), out + [height];
      }
      i := i + 1;
    }
    assert received[..i] == received;
  }

  lemma CoveredMore(above: Option<nat>, received: seq<nat>, out: seq<nat>, h: nat)
    requires Covered(above, received, out)
    ensures Covered(above, received + [h], out + [h])
  {
    forall i | 0 <= i < |received| ensures received[i] in out + [h] || AlreadyPassed(above, out + [h], received[i]) {
      if AlreadyPassed(above, out, received[i]) && !(above.Some? && received[i] <= above.value) {
        var j :| 0 <= j < |out| && received[i] <= out[j];
        assert received[i] <= (out + [h])[j];
      }
    }
  }
}

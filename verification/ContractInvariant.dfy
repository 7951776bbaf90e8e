/** Contract pointers are the first and last successful actions, and every referenced state blob is readable. */
module ContractInvariant {
  import opened Prelude
  import opened IndexModel

  /** The content hash of state blobs. */
  type Digest = Bytes -> Bytes

  /** How replay derives an action: a failed action has an empty state and no hash. */
  predicate Hashed(sha: Digest, a: Action) {
    a.stateHash == if a.state == [] then None else Some(sha(a.state))
  }

  /** Action `id` succeeded on the contract at `address`. */
  predicate Succeeded(p: ContractPart, address: Bytes, id: nat) {
    id in p.actions && p.actions[id].address == address && p.actions[id].stateHash.Some?
  }

  ghost predicate PointersExact(p: ContractPart) {
    && (forall a, id: nat :: Succeeded(p, a, id) ==> a in p.contracts)
    && (forall a :: a in p.contracts ==>
          && Succeeded(p, a, p.contracts[a].deploy)
          && Succeeded(p, a, p.contracts[a].latest)
          && forall id: nat :: Succeeded(p, a, id) ==> p.contracts[a].deploy <= id <= p.contracts[a].latest)
  }

  ghost predicate BlobsExact(sha: Digest, p: ContractPart) {
    && (forall h :: h in p.states ==> p.states[h] != [] && sha(p.states[h]) == h)
    && (forall id :: id in p.actions && p.actions[id].stateHash.Some? ==> p.actions[id].stateHash.value in p.states)
  }

  /** `n` is the next action id. */
  ghost predicate ContractInv(sha: Digest, p: ContractPart, n: nat) {
    && (forall id :: id in p.actions <==> 0 <= id < n)
    && (forall a, id :: (a, id) in p.byAddress <==> id in p.actions && p.actions[id].address == a)
    && PointersExact(p)
    && BlobsExact(sha, p)
  }

  lemma IndexActionKeeps(sha: Digest, p: ContractPart, a: Action, n: nat, tx: nat, height: nat)
    requires ContractInv(sha, p, n) && Hashed(sha, a)
    ensures ContractInv(sha, IndexAction(p, a, n, tx, height), n + 1)
  {
    var q := IndexAction(p, a, n, tx, height);
    forall b, id: nat ensures Succeeded(q, b, id) <==> Succeeded(p, b, id) || (id == n && b == a.address && a.stateHash.Some?) {
    }
    PointersKeep(p, a, n, tx, height);
  }

  lemma PointersKeep(p: ContractPart, a: Action, n: nat, tx: nat, height: nat)
    requires (forall id :: id in p.actions <==> 0 <= id < n) && PointersExact(p)
    ensures PointersExact(IndexAction(p, a, n, tx, height))
  {
    var q := IndexAction(p, a, n, tx, height);
    forall b, id: nat ensures Succeeded(q, b, id) <==> Succeeded(p, b, id) || (id == n && b == a.address && a.stateHash.Some?) {
    }
  }

  lemma {:induction false} IndexActionsKeep(sha: Digest, p: ContractPart, acts: seq<Action>, n: nat, tx: nat,
                                            height: nat)
    requires ContractInv(sha, p, n) && forall i :: 0 <= i < |acts| ==> Hashed(sha, acts[i])
    ensures ContractInv(sha, IndexActions(p, acts, n, tx, height), n + |acts|)
  {
    if acts != [] {
      var k := |acts| - 1;
      IndexActionsKeep(sha, p, acts[..k], n, tx, height);
      IndexActionKeeps(sha, IndexActions(p, acts[..k], n, tx, height), acts[k], n + k, tx, height);
    }
  }

  /** `/contracts/{address}/state` always finds a blob, and it is the one the latest action hashed to. */
  lemma LatestStateReadable(sha: Digest, p: ContractPart, n: nat, address: Bytes)
    requires ContractInv(sha, p, n) && address in p.contracts
    ensures
      var latest := p.contracts[address].latest;
      && latest in p.actions && p.actions[latest].stateHash.Some?
      && var h := p.actions[latest].stateHash.value;
      h in p.states && sha(p.states[h]) == h && p.states[h] != []
  {
    assert Succeeded(p, address, p.contracts[address].latest);
  }

  /** Rows of earlier actions never change. */
  lemma {:induction false} IndexActionsAt(p: ContractPart, acts: seq<Action>, n: nat, tx: nat, height: nat, id: nat)
    ensures
      var q := IndexActions(p, acts, n, tx, height);
      if n <= id < n + |acts| then
        var a := acts[id - n];
        id in q.actions && q.actions[id] == ActionRecord(a.address, a.attributes, a.stateHash, tx, height)
      else
        (id in q.actions <==> id in p.actions) && (id in p.actions ==> q.actions[id] == p.actions[id])
  {
    if acts != [] {
      IndexActionsAt(p, acts[..|acts| - 1], n, tx, height, id);
    }
  }
}

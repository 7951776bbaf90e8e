/** Balances and the unspent index agree with the UTXO records, whatever is created and spent. */
module UtxoInvariant {
  import opened Prelude
  import opened IndexModel

  predicate Live(r: UtxoRecord) {
    r.spendingTx.None?
  }

  /** Values of the unspent UTXOs an account owns. */
  ghost function LiveValues(utxos: map<UtxoKey, UtxoRecord>, a: Account): map<UtxoKey, int> {
    map k | k in utxos && Live(utxos[k]) && utxos[k].utxo.account == a :: utxos[k].utxo.value
  }

  ghost predicate UnspentExact(p: UtxoPart) {
    && (forall k :: k in p.utxos ==> p.utxos[k].utxo.key == k)
    && (forall u :: u in p.unspent <==>
          u.key in p.utxos && Live(p.utxos[u.key]) && u == UnspentKeyOf(p.utxos[u.key].utxo))
    && (forall u :: u in p.unspent ==> p.unspent[u] == u.key)
  }

  ghost predicate BalancesExact(p: UtxoPart) {
    forall a :: BalanceOf(p, a) == Total(LiveValues(p.utxos, a))
  }

  ghost predicate UtxoInv(p: UtxoPart) {
    UnspentExact(p) && BalancesExact(p)
  }

  predicate Fresh(p: UtxoPart, u: Utxo) {
    u.key !in p.utxos
  }

  /** A spent UTXO is live and agrees with its creation record. */
  predicate Spendable(p: UtxoPart, u: Utxo) {
    u.key in p.utxos && Live(p.utxos[u.key]) && p.utxos[u.key].utxo == u
  }

  predicate CreatesFresh(p: UtxoPart, us: seq<Utxo>, tx: nat) {
    us == [] || (CreatesFresh(p, us[..|us| - 1], tx) && Fresh(CreateAll(p, us[..|us| - 1], tx), us[|us| - 1]))
  }

  predicate SpendsLive(p: UtxoPart, us: seq<Utxo>, tx: nat) {
    us == [] ||
    (&& SpendsLive(p, us[..|us| - 1], tx)
     && SpendAll(p, us[..|us| - 1], tx).Some?
     && Spendable(SpendAll(p, us[..|us| - 1], tx).value, us[|us| - 1]))
  }

  /** What the ledger guarantees about the UTXOs of a transaction. */
  predicate ValidUtxos(p: UtxoPart, t: AppliedTx, tx: nat) {
    CreatesFresh(p, t.created, tx) && SpendsLive(CreateAll(p, t.created, tx), t.spent, tx)
  }

  lemma CreateBalance(p: UtxoPart, u: Utxo, tx: nat, a: Account)
    requires BalanceOf(p, a) == Total(LiveValues(p.utxos, a)) && Fresh(p, u)
    ensures var q := Create(p, u, tx); BalanceOf(q, a) == Total(LiveValues(q.utxos, a))
  {
    var live, live' := LiveValues(p.utxos, a), LiveValues(Create(p, u, tx).utxos, a);
    if a == u.account {
      TotalInsert(live, u.key, u.value);
      assert live' == live[u.key := u.value];
    } else {
      assert live' == live;
    }
  }

  lemma SpendBalance(p: UtxoPart, u: Utxo, tx: nat, a: Account)
    requires BalanceOf(p, a) == Total(LiveValues(p.utxos, a)) && Spendable(p, u)
    ensures var q := Spend(p, u, tx).value; BalanceOf(q, a) == Total(LiveValues(q.utxos, a))
  {
    var live, live' := LiveValues(p.utxos, a), LiveValues(Spend(p, u, tx).value.utxos, a);
    if a == u.account {
      TotalPick(live, u.key);
      assert live' == live - {u.key};
    } else {
      assert live' == live;
    }
  }

  lemma CreateKeeps(p: UtxoPart, u: Utxo, tx: nat)
    requires UtxoInv(p) && Fresh(p, u)
    ensures UtxoInv(Create(p, u, tx))
  {
    assert UnspentExact(Create(p, u, tx));
    forall a ensures BalanceOf(Create(p, u, tx), a) == Total(LiveValues(Create(p, u, tx).utxos, a)) {
      CreateBalance(p, u, tx, a);
    }
  }

  lemma SpendKeeps(p: UtxoPart, u: Utxo, tx: nat)
    requires UtxoInv(p) && Spendable(p, u)
    ensures Spend(p, u, tx).Some? && UtxoInv(Spend(p, u, tx).value)
  {
    assert UnspentExact(Spend(p, u, tx).value);
    forall a ensures BalanceOf(Spend(p, u, tx).value, a) == Total(LiveValues(Spend(p, u, tx).value.utxos, a)) {
      SpendBalance(p, u, tx, a);
    }
  }

  lemma {:induction false} CreateAllKeeps(p: UtxoPart, us: seq<Utxo>, tx: nat)
    requires UtxoInv(p) && CreatesFresh(p, us, tx)
    ensures UtxoInv(CreateAll(p, us, tx))
  {
    if us != [] {
      CreateAllKeeps(p, us[..|us| - 1], tx);
      CreateKeeps(CreateAll(p, us[..|us| - 1], tx), us[|us| - 1], tx);
    }
  }

  lemma {:induction false} SpendAllKeeps(p: UtxoPart, us: seq<Utxo>, tx: nat)
    requires UtxoInv(p) && SpendsLive(p, us, tx)
    ensures SpendAll(p, us, tx).Some? && UtxoInv(SpendAll(p, us, tx).value)
  {
    if us != [] {
      SpendAllKeeps(p, us[..|us| - 1], tx);
      SpendKeeps(SpendAll(p, us[..|us| - 1], tx).value, us[|us| - 1], tx);
    }
  }

  /** One transaction keeps every balance equal to its live total and the unspent index exact. */
  lemma IndexUtxosKeeps(p: UtxoPart, t: AppliedTx, tx: nat)
    requires UtxoInv(p) && ValidUtxos(p, t, tx)
    ensures IndexUtxos(p, t, tx).Some? && UtxoInv(IndexUtxos(p, t, tx).value)
  {
    CreateAllKeeps(p, t.created, tx);
    SpendAllKeeps(CreateAll(p, t.created, tx), t.spent, tx);
  }

  lemma {:induction false} TotalNonNegative<K(!new)>(m: map<K, int>)
    requires forall k :: k in m ==> m[k] >= 0
    ensures Total(m) >= 0
    decreases |m|
  {
    if m != map[] {
      var k :| k in m && Total(m) == m[k] + Total(m - {k});
      TotalNonNegative(m - {k});
    }
  }

  /** No stored balance is negative, so a "balance underflow" can only be an overflow of the live total. */
  lemma BalancesNonNegative(p: UtxoPart, a: Account)
    requires UtxoInv(p)
    ensures BalanceOf(p, a) >= 0
  {
    TotalNonNegative(LiveValues(p.utxos, a));
  }
}

/** DoubleSpendingDetectionandPrevention.py: the open balance rule guarded
    by a process-wide set of spent `(sender, amount)` keys, and a sealing
    driver that scans the pool for a repeated key before sealing. */
module DoubleSpendingDetection {
  import opened Engine
  import OpenPolicy

  const Attacker: string := "attacker_node"
  const AttackAmount: int := 50

  /** `(sender, amount)`: the identity of a transaction for double-spending purposes. */
  datatype TxKey = TxKey(sender: string, amount: int)

  function KeyOf(t: Tx): TxKey
  {
    TxKey(t.sender, t.amount)
  }

  /** No two transactions of `txs` share a key. */
  predicate DistinctKeys(txs: seq<Tx>)
  {
    forall i, j :: 0 <= i < j < |txs| ==> KeyOf(txs[i]) != KeyOf(txs[j])
  }

  /** Every pooled key is marked spent, and no key is pooled twice. */
  ghost predicate KeysSpent(pool: seq<Tx>, spent: set<TxKey>)
  {
    (forall i :: 0 <= i < |pool| ==> KeyOf(pool[i]) in spent) && DistinctKeys(pool)
  }

  /** Appending a transaction whose key was not yet spent, and marking it
      spent, keeps every pooled key spent and all pooled keys distinct. */
  lemma AppendUnspentKeepsKeysSpent(pool: seq<Tx>, spent: set<TxKey>, t: Tx)
    requires KeysSpent(pool, spent) && KeyOf(t) !in spent
    ensures KeysSpent(pool + [t], spent + {KeyOf(t)})
  {
  }

  /** `detect_double_spending_in_block`: true as soon as a key repeats. */
  method DetectDoubleSpendingInBlock(transactions: seq<Tx>) returns (detected: bool)
    ensures detected <==> !DistinctKeys(transactions)
  {
    var seen: set<TxKey> := {};
    var i := 0;
    while i < |transactions|
      invariant 0 <= i <= |transactions|
      invariant seen == set k | 0 <= k < i :: KeyOf(transactions[k])
      invariant forall a, b :: 0 <= a < b < i ==> KeyOf(transactions[a]) != KeyOf(transactions[b])
    {
      var key := KeyOf(transactions[i]);
      if key in seen {
        ghost var k :| 0 <= k < i && KeyOf(transactions[k]) == key;
        return true;
      }
      seen := seen + {key};
      i := i + 1;
    }
    return false;
  }

  /** The detection variant's ledger: the shared engine plus `spent_inputs`. */
  class DetectingBlockchain {
    const ledger: Blockchain
    var spentInputs: set<TxKey>

    constructor (ledger: Blockchain)
      ensures this.ledger == ledger && spentInputs == {}
    {
      this.ledger := ledger;
      spentInputs := {};
    }

    /** `add_transaction` with the spent-set check first: a spent key is
        refused before the sender or the balance is looked at; otherwise the
        open balance rule decides, and an accepted key is marked spent. */
    method AddTransaction(sender: string, receiver: string, amount: int) returns (outcome: Outcome)
      modifies this, ledger
      ensures TxKey(sender, amount) in old(spentInputs) ==>
        outcome == DoubleSpendDetected && spentInputs == old(spentInputs) &&
        ledger.pool == old(ledger.pool) && ledger.nodes == old(ledger.nodes)
      ensures TxKey(sender, amount) !in old(spentInputs) ==>
        outcome == (if OpenPolicy.Admits(old(ledger.nodes), sender, amount) then Accepted
                    else InsufficientBalanceOrInvalidNode)
      ensures outcome == Accepted ==>
        ledger.pool == old(ledger.pool) + [Tx(sender, receiver, amount)] &&
        spentInputs == old(spentInputs) + {TxKey(sender, amount)} &&
        ledger.nodes == Debit(old(ledger.nodes), sender, amount)
      ensures outcome == InsufficientBalanceOrInvalidNode ==>
        spentInputs == old(spentInputs) &&
        ledger.pool == old(ledger.pool) && ledger.nodes == old(ledger.nodes)
      ensures ledger.chain == old(ledger.chain)
      ensures old(spentInputs) <= spentInputs
      ensures old(KeysSpent(ledger.pool, spentInputs)) ==> KeysSpent(ledger.pool, spentInputs)
      ensures old(NonNegativeBalances(ledger.nodes)) ==> NonNegativeBalances(ledger.nodes)
    {
      var key := TxKey(sender, amount);
      if key in spentInputs {
        return DoubleSpendDetected;
      }
      ghost var pool0, spent0 := ledger.pool, spentInputs;
      outcome := OpenPolicy.AddTransaction(ledger, sender, receiver, amount);
      if outcome == Accepted {
        spentInputs := spentInputs + {key};
        if KeysSpent(pool0, spent0) {
          AppendUnspentKeepsKeysSpent(pool0, spent0, Tx(sender, receiver, amount));
        }
      }
    }
  }

  datatype SealResult = NoPendingTransactions | Aborted | Sealed

  /** `create_and_add_new_block_with_detection`. An aborted attempt returns
      before the clear, so chain and pool are left exactly as they were. */
  method CreateAndAddNewBlockWithDetection(bc: DetectingBlockchain) returns (result: SealResult)
    requires bc.ledger.Valid()
    modifies bc.ledger
    ensures result == (if old(bc.ledger.pool) == [] then NoPendingTransactions
                       else if !DistinctKeys(old(bc.ledger.pool)) then Aborted
                       else Sealed)
    ensures result != Sealed ==> bc.ledger.chain == old(bc.ledger.chain) && bc.ledger.pool == old(bc.ledger.pool)
    ensures result == Sealed ==>
      var n := |old(bc.ledger.chain)|;
      |bc.ledger.chain| == n + 1 && bc.ledger.chain[..n] == old(bc.ledger.chain) &&
      bc.ledger.chain[n].index == n + 1 &&
      bc.ledger.chain[n].transactions == LivePool &&
      bc.ledger.chain[n].previousHash == old(bc.ledger.TipHash()) &&
      IsLeastNonce(bc.ledger.nonceHash, bc.ledger.difficulty, bc.ledger.chain[n].nonce) &&
      bc.ledger.pool == []
    ensures bc.ledger.nodes == old(bc.ledger.nodes)
    ensures old(KeysSpent(bc.ledger.pool, bc.spentInputs)) ==> result != Aborted
  {
    if bc.ledger.pool == [] {
      return NoPendingTransactions;
    }
    var detected := DetectDoubleSpendingInBlock(bc.ledger.pool);
    if detected {
      return Aborted;
    }
    var sealed := CreateAndAddNewBlock(bc.ledger);
    result := Sealed;
  }

  /** `double_spending_attack` of the detection variant: the attacker is
      reset to balance 50 and sends 50 twice; the second send repeats the
      key of the first and is refused before any balance check; then one
      sealing attempt is made. */
  method DoubleSpendingAttack(bc: DetectingBlockchain) returns (first: Outcome, second: Outcome, seal: SealResult)
    requires bc.ledger.Valid()
    modifies bc, bc.ledger
    ensures TxKey(Attacker, AttackAmount) !in old(bc.spentInputs) ==>
      first == Accepted && second == DoubleSpendDetected &&
      bc.ledger.nodes == old(bc.ledger.nodes)[Attacker := Node(0, 0)]
    ensures TxKey(Attacker, AttackAmount) in old(bc.spentInputs) ==>
      first == DoubleSpendDetected && second == DoubleSpendDetected &&
      bc.ledger.nodes == old(bc.ledger.nodes)[Attacker := Node(AttackAmount, 0)]
    ensures bc.spentInputs == old(bc.spentInputs) + {TxKey(Attacker, AttackAmount)}
    ensures old(KeysSpent(bc.ledger.pool, bc.spentInputs)) ==>
      seal == (if TxKey(Attacker, AttackAmount) !in old(bc.spentInputs) || old(bc.ledger.pool) != []
               then Sealed else NoPendingTransactions)
    ensures var pending := old(bc.ledger.pool) +
        (if TxKey(Attacker, AttackAmount) !in old(bc.spentInputs) then [Tx(Attacker, "node_1", AttackAmount)] else []);
      seal == (if pending == [] then NoPendingTransactions
               else if !DistinctKeys(pending) then Aborted
               else Sealed) &&
      (seal != Sealed ==> bc.ledger.chain == old(bc.ledger.chain) && bc.ledger.pool == pending) &&
      (seal == Sealed ==>
        var n := |old(bc.ledger.chain)|;
        |bc.ledger.chain| == n + 1 && bc.ledger.chain[..n] == old(bc.ledger.chain) &&
        bc.ledger.chain[n].index == n + 1 &&
        bc.ledger.chain[n].transactions == LivePool &&
        bc.ledger.chain[n].previousHash ==
          (if n == 0 then "0" else bc.ledger.blockHash(View(old(bc.ledger.chain)[n - 1], pending))) &&
        IsLeastNonce(bc.ledger.nonceHash, bc.ledger.difficulty, bc.ledger.chain[n].nonce) &&
        bc.ledger.pool == [])
    ensures old(KeysSpent(bc.ledger.pool, bc.spentInputs)) ==> KeysSpent(bc.ledger.pool, bc.spentInputs)
  {
    bc.ledger.nodes := bc.ledger.nodes[Attacker := FreshNode.(balance := AttackAmount)];
    first := bc.AddTransaction(Attacker, "node_1", AttackAmount);
    second := bc.AddTransaction(Attacker, "node_2", AttackAmount);
    ghost var pending := bc.ledger.pool;
    assert pending == old(bc.ledger.pool) +
      (if TxKey(Attacker, AttackAmount) !in old(bc.spentInputs) then [Tx(Attacker, "node_1", AttackAmount)] else []);
    assert bc.ledger.chain == old(bc.ledger.chain);
    seal := CreateAndAddNewBlockWithDetection(bc);
  }
}

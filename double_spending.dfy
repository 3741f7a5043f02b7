/** DoubleSpending.py: the open admission rule, and an attack that seals
    two blocks from slices (copies) of the pool. The plain sealing driver,
    `create_and_add_new_block`, is Engine.CreateAndAddNewBlock. */
module DoubleSpending {
  import opened Engine
  import OpenPolicy

  const Attacker: string := "attacker_node"
  const AttackAmount: int := 50

  /** `double_spending_attack`: the attacker is (re)registered with balance
      50 and sends 50 twice; the first transfer empties the balance so the
      second is refused. Two blocks are then sealed, one from `pool[:1]` and
      one from `pool[1:]`, and the pool is cleared. */
  method DoubleSpendingAttack(bc: Blockchain) returns (first: Outcome, second: Outcome)
    requires bc.Valid()
    modifies bc
    ensures first == Accepted && second == InsufficientBalanceOrInvalidNode
    ensures bc.nodes == old(bc.nodes)[Attacker := Node(0, 0)]
    ensures bc.pool == []
    ensures |bc.chain| == |old(bc.chain)| + 2 && bc.chain[..|old(bc.chain)|] == old(bc.chain)
    ensures var n, p := |old(bc.chain)|, old(bc.pool) + [Tx(Attacker, "node_1", AttackAmount)];
      bc.chain[n].index == n + 1 && bc.chain[n + 1].index == n + 2 &&
      bc.chain[n].transactions == Snapshot(p[..1]) &&
      bc.chain[n + 1].transactions == Snapshot(p[1..]) &&
      bc.chain[n].previousHash == (if n == 0 then "0" else bc.blockHash(View(old(bc.chain)[n - 1], p))) &&
      bc.chain[n + 1].previousHash == bc.blockHash(View(bc.chain[n], p))
    ensures var n := |old(bc.chain)|;
      old(bc.pool) == [] ==>
        bc.chain[n].transactions == Snapshot([Tx(Attacker, "node_1", AttackAmount)]) &&
        bc.chain[n + 1].transactions == Snapshot([])
    ensures var n := |old(bc.chain)|;
      IsLeastNonce(bc.nonceHash, bc.difficulty, bc.chain[n].nonce) &&
      IsLeastNonce(bc.nonceHash, bc.difficulty, bc.chain[n + 1].nonce)
  {
    bc.nodes := bc.nodes[Attacker := FreshNode.(balance := AttackAmount)];
    first := OpenPolicy.AddTransaction(bc, Attacker, "node_1", AttackAmount);
    second := OpenPolicy.AddTransaction(bc, Attacker, "node_2", AttackAmount);
    var fraudulent := bc.CreateBlock(Snapshot(bc.pool[..1]));
    bc.AddBlock(fraudulent);
    var honest := bc.CreateBlock(Snapshot(bc.pool[1..]));
    bc.AddBlock(honest);
    bc.pool := [];
  }
}

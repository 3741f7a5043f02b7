/** The unguarded admission rule of DoubleSpending.py and
    Sybill_Attack_User_Triggered.py: a registered sender whose balance covers
    the amount is accepted and debited at once; the receiver is never
    credited. */
module OpenPolicy {
  import opened Engine

  /** `sender in self.nodes and self.nodes[sender].balance >= amount` */
  predicate Admits(nodes: NodeMap, sender: string, amount: int)
  {
    sender in nodes && nodes[sender].balance >= amount
  }

  /** The part of a ledger that `add_transaction` reads and writes. */
  datatype Ledger = Ledger(nodes: NodeMap, pool: seq<Tx>)

  /** One submission under the open rule, as a function of the ledger: an
      admitted transaction debits its sender and joins the pool; any other
      leaves the ledger as it was. */
  function Attempt(l: Ledger, t: Tx): Ledger
  {
    if Admits(l.nodes, t.sender, t.amount)
    then Ledger(Debit(l.nodes, t.sender, t.amount), l.pool + [t])
    else l
  }

  /** `add_transaction` of the open variants. The gossip call that follows an
      acceptance in Sybill_Attack_User_Triggered.py changes no ledger state. */
  method AddTransaction(bc: Blockchain, sender: string, receiver: string, amount: int)
    returns (outcome: Outcome)
    modifies bc
    ensures outcome == (if Admits(old(bc.nodes), sender, amount) then Accepted
                        else InsufficientBalanceOrInvalidNode)
    ensures outcome == Accepted ==>
      bc.pool == old(bc.pool) + [Tx(sender, receiver, amount)] &&
      bc.nodes == Debit(old(bc.nodes), sender, amount)
    ensures outcome != Accepted ==> bc.pool == old(bc.pool) && bc.nodes == old(bc.nodes)
    ensures Ledger(bc.nodes, bc.pool) == Attempt(Ledger(old(bc.nodes), old(bc.pool)), Tx(sender, receiver, amount))
    ensures bc.chain == old(bc.chain)
    ensures bc.nodes.Keys == old(bc.nodes.Keys)
    ensures forall id :: id in bc.nodes ==> bc.nodes[id].stake == old(bc.nodes[id].stake)
    ensures TotalBalance(bc.nodes) + PoolTotal(bc.pool)
         == old(TotalBalance(bc.nodes) + PoolTotal(bc.pool))
    ensures old(NonNegativeBalances(bc.nodes)) ==> NonNegativeBalances(bc.nodes)
  {
    if sender in bc.nodes && bc.nodes[sender].balance >= amount {
      var tx := Tx(sender, receiver, amount);
      AdmitConserves(bc.nodes, bc.pool, tx);
      if NonNegativeBalances(bc.nodes) {
        DebitKeepsNonNegative(bc.nodes, sender, amount);
      }
      bc.pool := bc.pool + [tx];
      bc.nodes := Debit(bc.nodes, sender, amount);
      outcome := Accepted;
    } else {
      outcome := InsufficientBalanceOrInvalidNode;
    }
  }
}

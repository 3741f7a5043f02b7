/** Sybill_Attack_User_Triggered.py: the open admission rule, and a Sybil
    attack that registers fake nodes, floods transactions from randomly
    chosen nodes and then always seals one block. The plain sealing driver,
    `create_and_add_new_block`, is Engine.CreateAndAddNewBlock. */
module SybilUserTriggered {
  import opened Engine
  import opened OpenPolicy

  const FakePrefix: string := "fake_node_"
  const FloodReceiver: string := "node_1"

  /** The transfers the flood loop attempts: `choices[j] -> node_1` for `amounts[j]`. */
  function FloodAttempts(choices: seq<string>, amounts: seq<int>): seq<Tx>
    requires |choices| == |amounts|
  {
    seq(|choices|, j requires 0 <= j < |choices| => Tx(choices[j], FloodReceiver, amounts[j]))
  }

  /** The ledger after the open rule has judged each attempt in turn. Fake
      and real senders go through the same rule. */
  function FloodRun(l: Ledger, attempts: seq<Tx>): Ledger
    decreases |attempts|
  {
    if attempts == [] then l
    else Attempt(FloodRun(l, attempts[..|attempts| - 1]), attempts[|attempts| - 1])
  }

  /** The sum of the amounts `sender` attempts to send. */
  function Requested(attempts: seq<Tx>, sender: string): int
    decreases |attempts|
  {
    if attempts == [] then 0
    else
      var k := |attempts| - 1;
      Requested(attempts[..k], sender) + (if attempts[k].sender == sender then attempts[k].amount else 0)
  }

  /** A flood only appends, at most one transaction per attempt, each one of
      the attempts and each from a registered sender; it never changes the
      node set or a stake. */
  lemma {:induction false} FloodRunShape(l: Ledger, attempts: seq<Tx>)
    ensures var r := FloodRun(l, attempts);
      |l.pool| <= |r.pool| <= |l.pool| + |attempts| && r.pool[..|l.pool|] == l.pool &&
      (forall i :: |l.pool| <= i < |r.pool| ==> r.pool[i] in attempts && r.pool[i].sender in l.nodes) &&
      r.nodes.Keys == l.nodes.Keys &&
      (forall id :: id in r.nodes ==> r.nodes[id].stake == l.nodes[id].stake)
    decreases |attempts|
  {
    if attempts != [] {
      var k := |attempts| - 1;
      FloodRunShape(l, attempts[..k]);
      var r' := FloodRun(l, attempts[..k]);
      var r := FloodRun(l, attempts);
      forall i | |l.pool| <= i < |r.pool|
        ensures r.pool[i] in attempts && r.pool[i].sender in l.nodes
      {
        if i < |r'.pool| {
          assert r.pool[i] == r'.pool[i];
          assert r'.pool[i] in attempts[..k];
        } else {
          assert r.pool[i] == attempts[k];
        }
      }
    }
  }

  /** A flood keeps the sum of all balances plus all pending amounts, and
      keeps balances non-negative. */
  lemma {:induction false} FloodRunConserves(l: Ledger, attempts: seq<Tx>)
    ensures var r := FloodRun(l, attempts);
      TotalBalance(r.nodes) + PoolTotal(r.pool) == TotalBalance(l.nodes) + PoolTotal(l.pool) &&
      (NonNegativeBalances(l.nodes) ==> NonNegativeBalances(r.nodes))
    decreases |attempts|
  {
    if attempts != [] {
      var k := |attempts| - 1;
      FloodRunConserves(l, attempts[..k]);
      var r' := FloodRun(l, attempts[..k]);
      var t := attempts[k];
      if Admits(r'.nodes, t.sender, t.amount) {
        AdmitConserves(r'.nodes, r'.pool, t);
        if NonNegativeBalances(r'.nodes) {
          DebitKeepsNonNegative(r'.nodes, t.sender, t.amount);
        }
      }
    }
  }

  /** When every sender is registered and can cover everything it attempts,
      the open rule admits every attempt, in order, and each sender ends
      down by exactly what it sent. */
  lemma {:induction false} FloodRunAdmitsCovered(l: Ledger, attempts: seq<Tx>)
    requires forall i :: 0 <= i < |attempts| ==>
      attempts[i].amount >= 0 && attempts[i].sender in l.nodes &&
      Requested(attempts, attempts[i].sender) <= l.nodes[attempts[i].sender].balance
    ensures FloodRun(l, attempts).pool == l.pool + attempts
    ensures forall id :: id in l.nodes ==>
      id in FloodRun(l, attempts).nodes &&
      FloodRun(l, attempts).nodes[id].balance == l.nodes[id].balance - Requested(attempts, id)
    decreases |attempts|
  {
    if attempts != [] {
      var k := |attempts| - 1;
      var prefix := attempts[..k];
      var t := attempts[k];
      forall i | 0 <= i < |prefix|
        ensures prefix[i].sender in l.nodes && Requested(prefix, prefix[i].sender) <= l.nodes[prefix[i].sender].balance
      {
        assert prefix[i] == attempts[i];
      }
      FloodRunAdmitsCovered(l, prefix);
      var r' := FloodRun(l, prefix);
      assert r'.nodes[t.sender].balance == l.nodes[t.sender].balance - Requested(prefix, t.sender);
      assert Admits(r'.nodes, t.sender, t.amount);
      assert prefix + [t] == attempts;
    }
  }

  /** A fake node freshly registered by the attack holds balance 100, so the
      open rule admits any transfer of 1 to 5 it attempts first. */
  lemma FakeNodeFirstAttemptAdmitted(m: NodeMap, pool: seq<Tx>, numFakeNodes: nat, i: nat, amount: int)
    requires i < numFakeNodes && 1 <= amount <= 5
    ensures var l := Ledger(Registered(m, FakePrefix, FreshNodes(numFakeNodes)), pool);
      var t := Tx(NodeId(FakePrefix, i), FloodReceiver, amount);
      t.sender in l.nodes && l.nodes[t.sender] == FreshNode &&
      Attempt(l, t) == Ledger(Debit(l.nodes, t.sender, amount), pool + [t]) &&
      Attempt(l, t).nodes[t.sender] == Node(InitialBalance - amount, 0)
  {
    RegisteredAt(m, FakePrefix, FreshNodes(numFakeNodes), i);
  }

  /** The flood loop: attempt `choices[j] -> node_1` for `amounts[j]` under
      the open rule, for every j in order. */
  method Flood(bc: Blockchain, choices: seq<string>, amounts: seq<int>)
    requires |choices| == |amounts|
    modifies bc
    ensures Ledger(bc.nodes, bc.pool) == FloodRun(Ledger(old(bc.nodes), old(bc.pool)), FloodAttempts(choices, amounts))
    ensures bc.chain == old(bc.chain)
  {
    ghost var start := Ledger(bc.nodes, bc.pool);
    ghost var attempts := FloodAttempts(choices, amounts);
    var j := 0;
    while j < |choices|
      invariant 0 <= j <= |choices|
      invariant Ledger(bc.nodes, bc.pool) == FloodRun(start, attempts[..j])
      invariant bc.chain == old(bc.chain)
    {
      var outcome := OpenPolicy.AddTransaction(bc, choices[j], FloodReceiver, amounts[j]);
      assert attempts[..j + 1][..j] == attempts[..j];
      j := j + 1;
    }
    assert attempts[..j] == attempts;
  }

  /** `sybil_attack` without its `input()` call: `numFakeNodes` is the number
      typed in, and for flood attempt j, `choices[j]` is the
      `random.choice` among the registered nodes and `amounts[j]` the
      `random.randint(1, 5)`. A block referencing the pool is sealed even
      when the pool is empty, and the pool is cleared. */
  method SybilAttack(bc: Blockchain, numFakeNodes: int, choices: seq<string>, amounts: seq<int>)
    requires bc.Valid()
    requires |choices| == |amounts| == (if numFakeNodes > 0 then 2 * numFakeNodes else 0)
    requires forall j :: 0 <= j < |choices| ==>
      choices[j] in Registered(bc.nodes, FakePrefix, FreshNodes(numFakeNodes))
    requires forall j :: 0 <= j < |amounts| ==> 1 <= amounts[j] <= 5
    modifies bc
    ensures var registered := Registered(old(bc.nodes), FakePrefix, FreshNodes(numFakeNodes));
      forall i :: 0 <= i < numFakeNodes ==>
        NodeId(FakePrefix, i) in registered && registered[NodeId(FakePrefix, i)] == FreshNode
    ensures var registered := Registered(old(bc.nodes), FakePrefix, FreshNodes(numFakeNodes));
      var flood := FloodRun(Ledger(registered, old(bc.pool)), FloodAttempts(choices, amounts));
      var n := |old(bc.chain)|;
      bc.nodes == flood.nodes &&
      |bc.chain| == n + 1 && bc.chain[..n] == old(bc.chain) &&
      bc.chain[n].index == n + 1 &&
      bc.chain[n].transactions == LivePool &&
      bc.chain[n].previousHash == (if n == 0 then "0" else bc.blockHash(View(old(bc.chain)[n - 1], flood.pool))) &&
      IsLeastNonce(bc.nonceHash, bc.difficulty, bc.chain[n].nonce)
    ensures bc.pool == []
  {
    RegisterNodes(bc, FakePrefix, FreshNodes(numFakeNodes));
    Flood(bc, choices, amounts);
    var b := bc.CreateBlock(LivePool);
    bc.AddBlock(b);
    bc.pool := [];
  }
}

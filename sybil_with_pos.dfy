/** Sybill_Attack_With_PoS.py: admission gated by a minimum stake, and a
    Sybil attack whose fake nodes get a stake too low to transact. The
    sealing driver, `create_and_add_new_block`, is Engine.CreateAndAddNewBlock. */
module SybilWithPoS {
  import opened Engine
  import OpenPolicy

  const MinimumStake: int := 20
  /** Sybil nodes are created with a stake drawn from [0, SybilStakeMax]. */
  const SybilStakeMax: int := 10
  const SybilPrefix: string := "sybil_node_"
  /** The attack's loop selects the nodes whose identifier starts with this. */
  const SybilTag: string := "sybil"

  /** `is_eligible_for_transaction`; the dictionary lookup needs the node to
      exist (otherwise Python raises KeyError). */
  predicate IsEligibleForTransaction(nodes: NodeMap, id: string): (eligible: bool)
    requires id in nodes
    ensures 0 <= nodes[id].stake <= SybilStakeMax ==> !eligible
    ensures SybilStakesLow(nodes) && StartsWith(id, SybilTag) ==> !eligible
  {
    nodes[id].stake >= MinimumStake
  }

  /** `add_transaction` of the stake-gated variant. The stake lookup runs
      first, so an unknown sender is a KeyError fault rather than a clean
      rejection; a sender below the minimum stake is refused whatever its
      balance; the balance rule is the open one. */
  method AddTransaction(bc: Blockchain, sender: string, receiver: string, amount: int)
    returns (outcome: Outcome)
    modifies bc
    ensures sender !in old(bc.nodes) ==> outcome == UnknownSenderKeyError
    ensures sender in old(bc.nodes) ==>
      outcome == (if !IsEligibleForTransaction(old(bc.nodes), sender) then InsufficientStake
                  else if old(bc.nodes)[sender].balance >= amount then Accepted
                  else InsufficientBalance)
    ensures outcome == Accepted ==>
      bc.pool == old(bc.pool) + [Tx(sender, receiver, amount)] &&
      bc.nodes == Debit(old(bc.nodes), sender, amount)
    ensures outcome != Accepted ==> bc.pool == old(bc.pool) && bc.nodes == old(bc.nodes)
    ensures bc.chain == old(bc.chain)
    ensures bc.nodes.Keys == old(bc.nodes.Keys)
    ensures forall id :: id in bc.nodes ==> bc.nodes[id].stake == old(bc.nodes[id].stake)
    ensures TotalBalance(bc.nodes) + PoolTotal(bc.pool)
         == old(TotalBalance(bc.nodes) + PoolTotal(bc.pool))
    ensures old(NonNegativeBalances(bc.nodes)) ==> NonNegativeBalances(bc.nodes)
    ensures old(SybilStakesLow(bc.nodes)) ==> SybilStakesLow(bc.nodes)
  {
    if sender !in bc.nodes {
      return UnknownSenderKeyError;
    }
    if IsEligibleForTransaction(bc.nodes, sender) {
      var open := OpenPolicy.AddTransaction(bc, sender, receiver, amount);
      outcome := if open == Accepted then Accepted else InsufficientBalance;
    } else {
      outcome := InsufficientStake;
    }
  }

  /** Every node whose identifier starts with "sybil" is below the minimum stake. */
  ghost predicate SybilStakesLow(nodes: NodeMap)
  {
    forall id :: id in nodes && StartsWith(id, SybilTag) ==> nodes[id].stake < MinimumStake
  }

  /** Nodes as a creation loop that sets `stake = stakes[i]` on fresh node i
      registers them. */
  function StakedNodes(stakes: seq<int>, count: int): (created: seq<Node>)
    requires count <= |stakes|
    ensures (forall i :: 0 <= i < |stakes| ==> 0 <= stakes[i] <= SybilStakeMax) ==>
      forall i :: 0 <= i < |created| ==> created[i].stake < MinimumStake
  {
    seq(if count > 0 then count else 0, i requires 0 <= i < |stakes| => FreshNode.(stake := stakes[i]))
  }

  /** Registering nodes whose stakes are all below the minimum keeps every
      "sybil" node below the minimum. */
  lemma {:induction false} RegisteringLowStakesKeepsSybilStakesLow(m: NodeMap, created: seq<Node>)
    requires SybilStakesLow(m)
    requires forall i :: 0 <= i < |created| ==> created[i].stake < MinimumStake
    ensures SybilStakesLow(Registered(m, SybilPrefix, created))
    decreases |created|
  {
    if created != [] {
      var k := |created| - 1;
      RegisteringLowStakesKeepsSybilStakesLow(m, created[..k]);
    }
  }

  /** No "node_..." identifier starts with "sybil", so registering initial
      nodes, whatever their stakes, keeps every "sybil" node below the minimum. */
  lemma RegisteringInitialNodesKeepsSybilStakesLow(m: NodeMap, created: seq<Node>)
    requires SybilStakesLow(m)
    ensures SybilStakesLow(Registered(m, InitialNodePrefix, created))
  {
  }

  /** `add_initial_nodes` of the stake-gated variant: `node_1` ...
      `node_{numNodes}`, each fresh but for its stake, `stakes[i]` being the
      `random.randint(10, 30)` drawn for it. */
  method AddInitialNodes(bc: Blockchain, numNodes: int, stakes: seq<int>)
    requires numNodes <= |stakes|
    requires forall i :: 0 <= i < |stakes| ==> 10 <= stakes[i] <= 30
    modifies bc
    ensures bc.nodes == Registered(old(bc.nodes), InitialNodePrefix, StakedNodes(stakes, numNodes))
    ensures forall i :: 0 <= i < numNodes ==>
      NodeId(InitialNodePrefix, i) in bc.nodes &&
      bc.nodes[NodeId(InitialNodePrefix, i)] == Node(InitialBalance, stakes[i])
    ensures bc.pool == old(bc.pool) && bc.chain == old(bc.chain)
    ensures old(SybilStakesLow(bc.nodes)) ==> SybilStakesLow(bc.nodes)
  {
    if SybilStakesLow(bc.nodes) {
      RegisteringInitialNodesKeepsSybilStakesLow(bc.nodes, StakedNodes(stakes, numNodes));
    }
    RegisterNodes(bc, InitialNodePrefix, StakedNodes(stakes, numNodes));
  }

  /** `sybil_attack` without its `input()` call: `numSybilNodes` is the number
      typed in, `stakes[i]` the `random.randint(0, 10)` drawn for node i and
      `amountOf(id)` the `random.randint(1, 5)` drawn for node `id`. Nodes are
      visited in an unspecified order (Python uses insertion order). */
  method SybilAttack(bc: Blockchain, numSybilNodes: int, stakes: seq<int>, amountOf: string -> int)
    requires numSybilNodes <= |stakes|
    requires forall i :: 0 <= i < |stakes| ==> 0 <= stakes[i] <= SybilStakeMax
    requires forall id :: 1 <= amountOf(id) <= 5
    modifies bc
    ensures bc.nodes.Keys == Registered(old(bc.nodes), SybilPrefix, StakedNodes(stakes, numSybilNodes)).Keys
    ensures forall i :: 0 <= i < numSybilNodes ==>
      NodeId(SybilPrefix, i) in bc.nodes && bc.nodes[NodeId(SybilPrefix, i)].stake == stakes[i]
    ensures bc.chain == old(bc.chain)
    ensures old(SybilStakesLow(bc.nodes)) ==>
      SybilStakesLow(bc.nodes) && bc.pool == old(bc.pool) &&
      bc.nodes == Registered(old(bc.nodes), SybilPrefix, StakedNodes(stakes, numSybilNodes))
    ensures old(SybilStakesLow(bc.nodes)) ==>
      forall i :: 0 <= i < numSybilNodes ==> bc.nodes[NodeId(SybilPrefix, i)] == Node(InitialBalance, stakes[i])
  {
    var created := StakedNodes(stakes, numSybilNodes);
    if SybilStakesLow(bc.nodes) {
      RegisteringLowStakesKeepsSybilStakesLow(bc.nodes, created);
    }
    RegisterNodes(bc, SybilPrefix, created);
    ghost var afterCreation := bc.nodes;

    var remaining := bc.nodes.Keys;
    while remaining != {}
      invariant bc.nodes.Keys == afterCreation.Keys
      invariant forall id :: id in bc.nodes ==> bc.nodes[id].stake == afterCreation[id].stake
      invariant bc.chain == old(bc.chain)
      invariant SybilStakesLow(afterCreation) ==> bc.nodes == afterCreation && bc.pool == old(bc.pool)
      decreases remaining
    {
      var id :| id in remaining;
      if StartsWith(id, SybilTag) {
        var outcome := AddTransaction(bc, id, "node_1", amountOf(id));
      }
      remaining := remaining - {id};
    }
  }
}

/** The ledger engine shared by the four variants of the toy proof-of-work
    chain: accounts, transactions, blocks, proof-of-work mining, block
    construction and the sealing driver that all but the detection variant
    share. */
module Engine {

  /** Every node starts with this balance. */
  const InitialBalance: int := 100

  /** Number of leading '0' hex digits the nonce hash must show. */
  const Difficulty: nat := 3

  /** The `transactions` field of the genesis block. */
  const GenesisText: string := "Genesis Block"

  /** An account. The double-spending files have no stake field; their nodes
      keep stake 0, which nothing in those files reads. */
  datatype Node = Node(balance: int, stake: int)

  /** A node as its constructor leaves it. */
  const FreshNode: Node := Node(InitialBalance, 0)

  type NodeMap = map<string, Node>

  datatype Tx = Tx(sender: string, receiver: string, amount: int)

  /** What a block's `transactions` field holds: the genesis text, a list of
      its own, or a reference to the pending pool list itself. A block built
      by `create_block(self.pending_transactions)` keeps a reference to the
      pool, so it shows whatever the pool holds at the time it is looked at. */
  datatype Txs = Marker(text: string) | Snapshot(txs: seq<Tx>) | LivePool

  datatype Block = Block(index: int, transactions: Txs, previousHash: string, nonce: nat)

  /** What the block record shows (and what `str(block)` renders) when it is
      looked at while the pool holds some list. */
  datatype Shown = Text(text: string) | List(txs: seq<Tx>)
  datatype BlockView = BlockView(index: int, transactions: Shown, previousHash: string, nonce: nat)

  function View(b: Block, pool: seq<Tx>): BlockView
  {
    var shown := match b.transactions
      case Marker(t) => Text(t)
      case Snapshot(s) => List(s)
      case LivePool => List(pool);
    BlockView(b.index, shown, b.previousHash, b.nonce)
  }

  // ---------------------------------------------------------------------
  // Proof of work
  // ---------------------------------------------------------------------

  /** `"0" * d` */
  function Zeros(d: nat): string
  {
    seq(d, _ => '0')
  }

  /** Python's `s[:d]`: the whole string when it is shorter than `d`. */
  function Prefix(s: string, d: nat): string
  {
    if d <= |s| then s[..d] else s
  }

  /** The test `guess_hash[:difficulty] == "0" * difficulty`, where
      `nonceHash(n)` stands for the hex SHA-256 digest of the decimal text of `n`. */
  predicate Meets(nonceHash: nat -> string, d: nat, n: nat)
  {
    Prefix(nonceHash(n), d) == Zeros(d)
  }

  /** `n` passes the test and no smaller nonce does. */
  ghost predicate IsLeastNonce(nonceHash: nat -> string, d: nat, n: nat)
  {
    Meets(nonceHash, d, n) && forall k: nat :: k < n ==> !Meets(nonceHash, d, k)
  }

  /** Meeting the difficulty means the digest starts with `d` zeros. */
  lemma MeetsMeansLeadingZeros(nonceHash: nat -> string, d: nat, n: nat)
    requires Meets(nonceHash, d, n)
    ensures |nonceHash(n)| >= d
    ensures forall i :: 0 <= i < d ==> nonceHash(n)[i] == '0'
  {
  }

  /** Mining reads no block content, so every block mined at one difficulty
      carries the same nonce. */
  lemma LeastNonceUnique(nonceHash: nat -> string, d: nat, a: nat, b: nat)
    requires IsLeastNonce(nonceHash, d, a) && IsLeastNonce(nonceHash, d, b)
    ensures a == b
  {
  }

  // ---------------------------------------------------------------------
  // Accounting: sums of balances and of pending amounts
  // ---------------------------------------------------------------------

  ghost function PickKey(ks: set<string>): (k: string)
    requires ks != {}
    ensures k in ks
  {
    var k :| k in ks; k
  }

  /** Sum of the balances of the accounts named in `ks`. */
  ghost function BalanceOn(m: NodeMap, ks: set<string>): int
    requires ks <= m.Keys
    decreases ks
  {
    if ks == {} then 0 else var k := PickKey(ks); m[k].balance + BalanceOn(m, ks - {k})
  }

  /** Sum of all balances. */
  ghost function TotalBalance(m: NodeMap): int
  {
    BalanceOn(m, m.Keys)
  }

  /** Sum of the amounts of the pending transactions. */
  function PoolTotal(p: seq<Tx>): int
  {
    if p == [] then 0 else p[0].amount + PoolTotal(p[1..])
  }

  ghost predicate NonNegativeBalances(m: NodeMap)
  {
    forall id :: id in m ==> m[id].balance >= 0
  }

  /** `nodes[id].balance -= amount` */
  function Debit(m: NodeMap, id: string, amount: int): NodeMap
    requires id in m
  {
    m[id := m[id].(balance := m[id].balance - amount)]
  }

  /** A debit touches only the sender, and only its balance, by exactly `amount`. */
  lemma DebitChangesOnlySender(m: NodeMap, id: string, amount: int)
    requires id in m
    ensures Debit(m, id, amount).Keys == m.Keys
    ensures Debit(m, id, amount)[id].balance == m[id].balance - amount
    ensures forall k :: k in m ==> Debit(m, id, amount)[k].stake == m[k].stake
    ensures forall k :: k in m && k != id ==> Debit(m, id, amount)[k] == m[k]
  {
  }

  /** A debit allowed only when the balance covers the amount keeps every
      balance non-negative. */
  lemma DebitKeepsNonNegative(m: NodeMap, id: string, amount: int)
    requires id in m && m[id].balance >= amount
    requires NonNegativeBalances(m)
    ensures NonNegativeBalances(Debit(m, id, amount))
  {
  }

  lemma {:induction false} BalanceOnRemove(m: NodeMap, ks: set<string>, k: string)
    requires ks <= m.Keys && k in ks
    ensures BalanceOn(m, ks) == m[k].balance + BalanceOn(m, ks - {k})
    decreases ks
  {
    var j := PickKey(ks);
    if j != k {
      BalanceOnRemove(m, ks - {j}, k);
      BalanceOnRemove(m, ks - {k}, j);
      assert ks - {j} - {k} == ks - {k} - {j};
    }
  }

  lemma {:induction false} BalanceOnAgree(m: NodeMap, m': NodeMap, ks: set<string>)
    requires ks <= m.Keys && ks <= m'.Keys
    requires forall k :: k in ks ==> m[k].balance == m'[k].balance
    ensures BalanceOn(m, ks) == BalanceOn(m', ks)
    decreases ks
  {
    if ks != {} {
      var k := PickKey(ks);
      BalanceOnAgree(m, m', ks - {k});
    }
  }

  /** Debiting `amount` lowers the sum of all balances by exactly `amount`. */
  lemma DebitTotal(m: NodeMap, id: string, amount: int)
    requires id in m
    ensures TotalBalance(Debit(m, id, amount)) == TotalBalance(m) - amount
  {
    var m' := Debit(m, id, amount);
    assert m'.Keys == m.Keys;
    BalanceOnRemove(m, m.Keys, id);
    BalanceOnRemove(m', m.Keys, id);
    BalanceOnAgree(m, m', m.Keys - {id});
  }

  lemma {:induction false} PoolTotalConcat(p: seq<Tx>, q: seq<Tx>)
    ensures PoolTotal(p + q) == PoolTotal(p) + PoolTotal(q)
  {
    if p == [] {
      assert p + q == q;
    } else {
      assert (p + q)[0] == p[0];
      assert (p + q)[1..] == p[1..] + q;
      PoolTotalConcat(p[1..], q);
    }
  }

  /** Admitting a transaction (debit the sender, append to the pool) keeps
      the sum of all balances plus all pending amounts. */
  lemma AdmitConserves(m: NodeMap, pool: seq<Tx>, t: Tx)
    requires t.sender in m
    ensures TotalBalance(Debit(m, t.sender, t.amount)) + PoolTotal(pool + [t])
         == TotalBalance(m) + PoolTotal(pool)
  {
    DebitTotal(m, t.sender, t.amount);
    PoolTotalConcat(pool, [t]);
    assert PoolTotal([t]) == t.amount + PoolTotal([]);
  }

  // ---------------------------------------------------------------------
  // Text helpers for node identifiers
  // ---------------------------------------------------------------------

  function Digit(d: nat): char
    requires d < 10
  {
    ('0' as int + d) as char
  }

  /** Python's `f"{n}"` for a natural number: its decimal digits. */
  function DecimalString(n: nat): (s: string)
    ensures |s| >= 1
    ensures n < 10 <==> |s| == 1
  {
    if n < 10 then [Digit(n)] else DecimalString(n / 10) + [Digit(n % 10)]
  }

  /** Different numbers have different decimal texts. */
  lemma {:induction false} DecimalStringInjective(a: nat, b: nat)
    requires DecimalString(a) == DecimalString(b)
    ensures a == b
    decreases a
  {
    var s := DecimalString(a);
    if a >= 10 && b >= 10 {
      assert s[..|s| - 1] == DecimalString(a / 10);
      assert DecimalString(b)[..|s| - 1] == DecimalString(b / 10);
      DecimalStringInjective(a / 10, b / 10);
      assert Digit(a % 10) == s[|s| - 1] == Digit(b % 10);
      assert (Digit(a % 10) as int) == '0' as int + a % 10;
    } else {
      assert Digit(a) as int == '0' as int + a;
    }
  }

  /** `f"{prefix}{i+1}"`: the identifier loop iteration `i` registers. */
  function NodeId(prefix: string, i: nat): string
  {
    prefix + DecimalString(i + 1)
  }

  lemma NodeIdInjective(prefix: string, i: nat, j: nat)
    requires NodeId(prefix, i) == NodeId(prefix, j)
    ensures i == j
  {
    assert DecimalString(i + 1) == NodeId(prefix, i)[|prefix|..];
    assert DecimalString(j + 1) == NodeId(prefix, j)[|prefix|..];
    DecimalStringInjective(i + 1, j + 1);
  }

  /** The node map after a registration loop that writes
      `nodes[f"{prefix}{i+1}"] = created[i]` for each `i` in order,
      overwriting any entry already there. */
  function Registered(m: NodeMap, prefix: string, created: seq<Node>): NodeMap
    decreases |created|
  {
    if created == [] then m
    else
      var k := |created| - 1;
      Registered(m, prefix, created[..k])[NodeId(prefix, k) := created[k]]
  }

  /** Iteration `i` of a registration loop leaves `created[i]` under its
      identifier: no later iteration writes the same identifier. */
  lemma {:induction false} RegisteredAt(m: NodeMap, prefix: string, created: seq<Node>, i: nat)
    requires i < |created|
    ensures NodeId(prefix, i) in Registered(m, prefix, created)
    ensures Registered(m, prefix, created)[NodeId(prefix, i)] == created[i]
    decreases |created|
  {
    var k := |created| - 1;
    if i < k {
      if NodeId(prefix, i) == NodeId(prefix, k) {
        NodeIdInjective(prefix, i, k);
      }
      RegisteredAt(m, prefix, created[..k], i);
    }
  }

  /** A registration loop leaves every identifier without its prefix as it was. */
  lemma {:induction false} RegisteredElsewhere(m: NodeMap, prefix: string, created: seq<Node>, id: string)
    requires !StartsWith(id, prefix)
    ensures id in Registered(m, prefix, created) <==> id in m
    ensures id in m ==> Registered(m, prefix, created)[id] == m[id]
    decreases |created|
  {
    if created != [] {
      var k := |created| - 1;
      assert NodeId(prefix, k)[..|prefix|] == prefix;
      RegisteredElsewhere(m, prefix, created[..k], id);
    }
  }

  /** A registration loop adds exactly its own identifiers to the key set. */
  lemma {:induction false} RegisteredKeys(m: NodeMap, prefix: string, created: seq<Node>)
    ensures Registered(m, prefix, created).Keys
         == m.Keys + (set i | 0 <= i < |created| :: NodeId(prefix, i))
    decreases |created|
  {
    if created != [] {
      var k := |created| - 1;
      RegisteredKeys(m, prefix, created[..k]);
      assert (set i | 0 <= i < |created| :: NodeId(prefix, i))
          == (set i | 0 <= i < k :: NodeId(prefix, i)) + {NodeId(prefix, k)};
    }
  }

  /** `count` fresh nodes; a negative count, like `range` of one, gives none. */
  function FreshNodes(count: int): seq<Node>
  {
    seq(if count > 0 then count else 0, _ => FreshNode)
  }

  const InitialNodePrefix: string := "node_"

  /** Python's `s.startswith(p)`. */
  predicate StartsWith(s: string, p: string)
  {
    |p| <= |s| && s[..|p|] == p
  }

  /** Outcome of a transaction submission; the names follow the messages
      each variant prints. */
  datatype Outcome =
    | Accepted
    | DoubleSpendDetected           // "Double-spending detected! ..."
    | InsufficientBalanceOrInvalidNode  // "... failed: Insufficient balance or invalid node."
    | InsufficientBalance           // "... failed: Insufficient balance."
    | InsufficientStake             // "... blocked: Insufficient stake."
    | UnknownSenderKeyError         // `self.nodes[node_id]` raises KeyError

  // ---------------------------------------------------------------------
  // The ledger object
  // ---------------------------------------------------------------------

  class Blockchain {
    var chain: seq<Block>
    var pool: seq<Tx>   // pending_transactions
    var nodes: NodeMap
    const difficulty: nat := Difficulty
    /** `hashlib.sha256(str(block).encode()).hexdigest()` */
    const blockHash: BlockView -> string
    /** `hashlib.sha256(f"{nonce}".encode()).hexdigest()` */
    const nonceHash: nat -> string

    /** The nonce search has a solution, so mining ends. */
    ghost predicate Valid()
    {
      exists n: nat :: Meets(nonceHash, difficulty, n)
    }

    constructor (blockHash: BlockView -> string, nonceHash: nat -> string)
      requires exists n: nat :: Meets(nonceHash, Difficulty, n)
      ensures Valid()
      ensures chain == [] && pool == [] && nodes == map[]
      ensures this.blockHash == blockHash && this.nonceHash == nonceHash
    {
      this.blockHash := blockHash;
      this.nonceHash := nonceHash;
      chain, pool, nodes := [], [], map[];
      new;
      ghost var w: nat :| Meets(nonceHash, Difficulty, w);
      assert Meets(this.nonceHash, difficulty, w);
    }

    /** The `previous_hash` a block created now would carry: the hash of the
        tail block as it shows now, or "0" for an empty chain. */
    function TipHash(): string
      reads this
    {
      if chain == [] then "0" else blockHash(View(chain[|chain| - 1], pool))
    }

    /** `mine_block_nonce`: count up from 0 until the nonce hash meets the difficulty. */
    method MineBlockNonce() returns (nonce: nat)
      requires Valid()
      ensures IsLeastNonce(nonceHash, difficulty, nonce)
    {
      ghost var w: nat :| Meets(nonceHash, difficulty, w);
      nonce := 0;
      while !Meets(nonceHash, difficulty, nonce)
        invariant nonce <= w
        invariant forall k: nat :: k < nonce ==> !Meets(nonceHash, difficulty, k)
        decreases w - nonce
      {
        nonce := nonce + 1;
      }
    }

    /** `create_block`: index one past the chain length, the tail's hash as
        `previous_hash`, the least nonce meeting the difficulty. */
    method CreateBlock(txs: Txs) returns (b: Block)
      requires Valid()
      ensures b.index == |chain| + 1
      ensures b.transactions == txs
      ensures b.previousHash == (if chain == [] then "0" else blockHash(View(chain[|chain| - 1], pool)))
      ensures IsLeastNonce(nonceHash, difficulty, b.nonce)
    {
      var prev := if |chain| > 0 then blockHash(View(chain[|chain| - 1], pool)) else "0";
      var nonce := MineBlockNonce();
      b := Block(|chain| + 1, txs, prev, nonce);
    }

    /** `add_block`: append without any validation. */
    method AddBlock(b: Block)
      modifies this
      ensures chain == old(chain) + [b]
      ensures pool == old(pool) && nodes == old(nodes)
    {
      chain := chain + [b];
    }

    /** `create_genesis_block` */
    method CreateGenesisBlock()
      requires Valid()
      modifies this
      ensures |chain| == |old(chain)| + 1 && chain[..|old(chain)|] == old(chain)
      ensures chain[|old(chain)|].index == |old(chain)| + 1
      ensures chain[|old(chain)|].transactions == Marker(GenesisText)
      ensures chain[|old(chain)|].previousHash == old(TipHash())
      ensures IsLeastNonce(nonceHash, difficulty, chain[|old(chain)|].nonce)
      ensures old(chain) == [] ==> chain[0].index == 1 && chain[0].previousHash == "0"
      ensures pool == old(pool) && nodes == old(nodes)
    {
      var genesis := CreateBlock(Marker(GenesisText));
      chain := chain + [genesis];
    }
  }

  /** `create_and_add_new_block` (the same code in DoubleSpending.py,
      Sybill_Attack_User_Triggered.py and Sybill_Attack_With_PoS.py): with an
      empty pool nothing happens; otherwise one block referencing the pool is
      appended and the pool is cleared. Because the block holds the pool list
      itself, the clear also empties what the new block shows. */
  method CreateAndAddNewBlock(bc: Blockchain) returns (sealed: bool)
    requires bc.Valid()
    modifies bc
    ensures sealed <==> old(bc.pool) != []
    ensures !sealed ==> bc.chain == old(bc.chain) && bc.pool == old(bc.pool)
    ensures sealed ==> |bc.chain| == |old(bc.chain)| + 1 && bc.chain[..|old(bc.chain)|] == old(bc.chain)
    ensures sealed ==> bc.chain[|old(bc.chain)|].index == |old(bc.chain)| + 1
    ensures sealed ==> bc.chain[|old(bc.chain)|].transactions == LivePool
    ensures sealed ==> bc.chain[|old(bc.chain)|].previousHash == old(bc.TipHash())
    ensures sealed ==> IsLeastNonce(bc.nonceHash, bc.difficulty, bc.chain[|old(bc.chain)|].nonce)
    ensures sealed ==> bc.pool == [] && View(bc.chain[|old(bc.chain)|], bc.pool).transactions == List([])
    ensures bc.nodes == old(bc.nodes)
  {
    sealed := bc.pool != [];
    if sealed {
      var b := bc.CreateBlock(LivePool);
      bc.AddBlock(b);
      bc.pool := [];
    }
  }

  /** A registration loop: `nodes[f"{prefix}{i+1}"] = created[i]` for each
      `i` in order, overwriting any node of the same name. */
  method RegisterNodes(bc: Blockchain, prefix: string, created: seq<Node>)
    modifies bc
    ensures bc.nodes == Registered(old(bc.nodes), prefix, created)
    ensures forall i :: 0 <= i < |created| ==>
      NodeId(prefix, i) in bc.nodes && bc.nodes[NodeId(prefix, i)] == created[i]
    ensures bc.pool == old(bc.pool) && bc.chain == old(bc.chain)
  {
    var i := 0;
    while i < |created|
      invariant 0 <= i <= |created|
      invariant bc.nodes == Registered(old(bc.nodes), prefix, created[..i])
      invariant bc.pool == old(bc.pool) && bc.chain == old(bc.chain)
    {
      bc.nodes := bc.nodes[NodeId(prefix, i) := created[i]];
      assert created[..i + 1][..i] == created[..i];
      i := i + 1;
    }
    assert created[..i] == created;
    forall k | 0 <= k < |created|
      ensures NodeId(prefix, k) in bc.nodes && bc.nodes[NodeId(prefix, k)] == created[k]
    {
      RegisteredAt(old(bc.nodes), prefix, created, k);
    }
  }

  /** `add_initial_nodes` of the three files without stakes: `node_1` ...
      `node_{numNodes}`, each fresh. */
  method AddInitialNodes(bc: Blockchain, numNodes: int)
    modifies bc
    ensures bc.nodes == Registered(old(bc.nodes), InitialNodePrefix, FreshNodes(numNodes))
    ensures forall i :: 0 <= i < numNodes ==>
      NodeId(InitialNodePrefix, i) in bc.nodes && bc.nodes[NodeId(InitialNodePrefix, i)] == FreshNode
    ensures bc.pool == old(bc.pool) && bc.chain == old(bc.chain)
  {
    RegisterNodes(bc, InitialNodePrefix, FreshNodes(numNodes));
  }
}

# A verified model of a toy proof-of-work ledger and its attack variants

The repository holds four variants of one small blockchain simulator. Each
has a `Blockchain` object with a chain of blocks, a pool of pending
transactions, a dictionary of nodes (accounts) and a mining difficulty of 3.
The variants differ in the rule that admits a transaction and in the driver
that seals blocks:

- `DoubleSpending.py`: open admission. A registered sender whose balance
  covers the amount is debited immediately. The attack seals two blocks from
  copies of the pool.
- `DoubleSpendingDetectionandPrevention.py`: a process-wide set of spent
  `(sender, amount)` keys is checked before anything else. The sealing
  driver scans the pool for a repeated key before it seals.
- `Sybill_Attack_With_PoS.py`: admission also needs a stake of at least 20.
  Sybil nodes get a stake between 0 and 10.
- `Sybill_Attack_User_Triggered.py`: open admission. The attack registers
  fake nodes, floods the pool from randomly chosen nodes and always seals
  one block.

The Dafny project models the engine these files share and each variant's
admission rule and drivers. It consists of:

- `engine.dfy` (module `Engine`): nodes, transactions, blocks, proof-of-work
  mining, block construction, the `Blockchain` class, node registration
  loops, the sealing driver shared by three files, and balance accounting.
- `open_policy.dfy` (module `OpenPolicy`): the open `add_transaction` that
  `DoubleSpending.py` and `Sybill_Attack_User_Triggered.py` share.
- `double_spending.dfy`, `double_spending_detection.dfy`,
  `sybil_with_pos.dfy`, `sybil_user_triggered.dfy`: one module per variant.

Modelling choices:

- **Hashes.** SHA-256 over `str(block)` and over the decimal text of a
  nonce cannot be looked into. They are the constructor's arguments
  `blockHash: BlockView -> string` and `nonceHash: nat -> string`, and are
  kept as `const` fields. `Meets(nonceHash, d, n)` is the source's test
  `guess_hash[:d] == "0" * d`, including Python's slicing of a short string.
  The constructor requires that some nonce meets difficulty 3, so mining
  terminates.
- **Aliasing.** `create_block(self.pending_transactions)` stores the pool
  list itself, so the later `clear()` also empties the sealed block, and
  later appends show up in it. A block's `transactions` field is therefore
  `Marker(text)` (genesis), `Snapshot(list)` (the copies made by
  `pool[:1]` and `pool[1:]`), or `LivePool`. `View(block, pool)` is what
  the block shows, and hashes, while the pool holds `pool`. A previous hash
  is taken over the tail block as it shows at the moment it is taken.
- **Node objects** are values in a `map<string, Node>`. Each dictionary
  entry is its own object in the source, so reassigning the entry is
  equivalent to updating the object's field.
- **Random draws** (`random.randint`, `random.choice`) are parameters
  whose preconditions give their ranges. The typed-in node counts are
  parameters too. Like Python's `range`, a negative count registers
  nothing.
- **Outcomes.** The source's operations return nothing and print a
  message. Each modelled operation returns an `Outcome` (or a seal result)
  named after the message it prints.

Behaviour worth noting, as the code has it:

- Registering a node overwrites any existing entry of the same name
  (`DoubleSpending.py:91`, `Sybill_Attack_User_Triggered.py:153`). It is
  not idempotent.
- When the detection driver finds a conflict, it returns before clearing
  the pool (`DoubleSpendingDetectionandPrevention.py:89-91`). Chain and
  pool stay unchanged.
- In the detection variant, an unregistered sender whose key is already
  spent is reported as a double spend. The spent-set check runs first.
- In the stake variant, an unknown sender raises `KeyError` in the stake
  lookup before any membership check. The model returns
  `UnknownSenderKeyError` and changes nothing.

Where each source operation is modelled (the same code appears in several
files):

| source operation | files and lines | model |
|---|---|---|
| `Node.__init__` | DoubleSpending.py:7-9, Sybill_Attack_With_PoS.py:7-10 (and the other two files) | `Engine.FreshNode` |
| `Blockchain.__init__` | DoubleSpending.py:15-19, Sybill_Attack_User_Triggered.py:15-19, Sybill_Attack_With_PoS.py:16-21 | `Engine.Blockchain.constructor`, `SybilWithPoS.MinimumStake` |
| `Blockchain.__init__` with `spent_inputs` | DoubleSpendingDetectionandPrevention.py:15-20 | `DoubleSpendingDetection.DetectingBlockchain.constructor` |
| `create_genesis_block` | DoubleSpending.py:21-23 and the same in each file | `Engine.Blockchain.CreateGenesisBlock` |
| `create_block` | DoubleSpending.py:25-32 and the same in each file | `Engine.Blockchain.CreateBlock` |
| `add_block` | DoubleSpending.py:34-36 and the same in each file | `Engine.Blockchain.AddBlock` |
| `hash` | DoubleSpending.py:47-48 and the same in each file | the `blockHash` argument |
| `mine_block_nonce` | DoubleSpending.py:50-58, DoubleSpendingDetectionandPrevention.py:59-67, Sybill_Attack_User_Triggered.py:51-59, Sybill_Attack_With_PoS.py:60-68 | `Engine.Blockchain.MineBlockNonce` |
| open `add_transaction` | DoubleSpending.py:38-45, Sybill_Attack_User_Triggered.py:38-46 | `OpenPolicy.AddTransaction` |
| `add_transaction` with `spent_inputs` | DoubleSpendingDetectionandPrevention.py:39-54 | `DoubleSpendingDetection.DetectingBlockchain.AddTransaction` |
| stake-gated `add_transaction`, `is_eligible_for_transaction` | Sybill_Attack_With_PoS.py:40-55 | `SybilWithPoS.AddTransaction`, `SybilWithPoS.IsEligibleForTransaction` |
| `add_initial_nodes` | DoubleSpending.py:70-74, DoubleSpendingDetectionandPrevention.py:79-83, Sybill_Attack_User_Triggered.py:81-85 | `Engine.AddInitialNodes` |
| `add_initial_nodes` with stakes | Sybill_Attack_With_PoS.py:90-95 | `SybilWithPoS.AddInitialNodes` |
| `create_and_add_new_block` | DoubleSpending.py:77-84, Sybill_Attack_User_Triggered.py:88-95, Sybill_Attack_With_PoS.py:116-123 | `Engine.CreateAndAddNewBlock` |
| `create_and_add_new_block_with_detection` | DoubleSpendingDetectionandPrevention.py:86-98 | `DoubleSpendingDetection.CreateAndAddNewBlockWithDetection` |
| `detect_double_spending_in_block` | DoubleSpendingDetectionandPrevention.py:101-109 | `DoubleSpendingDetection.DetectDoubleSpendingInBlock` |
| `double_spending_attack` | DoubleSpending.py:87-109 | `DoubleSpending.DoubleSpendingAttack` |
| `double_spending_attack` | DoubleSpendingDetectionandPrevention.py:112-125 | `DoubleSpendingDetection.DoubleSpendingAttack` |
| `sybil_attack` | Sybill_Attack_With_PoS.py:98-113 | `SybilWithPoS.SybilAttack` |
| `sybil_attack` | Sybill_Attack_User_Triggered.py:146-162 | `SybilUserTriggered.SybilAttack` (with `Engine.RegisterNodes` and `SybilUserTriggered.Flood`) |

## Model

| member | source | states |
|---|---|---|
| `Engine.Blockchain.constructor` | DoubleSpending.py:15-19 | A new ledger has an empty chain, an empty pool and no nodes. Its hash functions are the ones supplied. |
| `Engine.Blockchain.MineBlockNonce` | DoubleSpending.py:50-58 | The nonce returned passes the difficulty-3 prefix test, and no smaller nonce does. |
| `Engine.LeastNonceUnique` | DoubleSpending.py:50-58 | At most one nonce is the least one, so every block mined gets the same nonce whatever its content. |
| `Engine.MeetsMeansLeadingZeros` | DoubleSpending.py:56 | A nonce that passes the test has a digest of at least `d` characters whose first `d` are all '0'. |
| `Engine.Blockchain.CreateBlock` | DoubleSpending.py:25-32 | The block's index is the chain length plus 1 and its transactions are the ones given. Its previous hash is "0" on an empty chain, else the hash of the tail block as it shows now. Its nonce is the least valid nonce. |
| `Engine.Blockchain.AddBlock` | DoubleSpending.py:34-35 | The block is appended without validation. Pool and nodes are unchanged. |
| `Engine.Blockchain.CreateGenesisBlock` | DoubleSpending.py:21-23 | The chain grows by one block holding the "Genesis Block" marker. On an empty chain it has index 1 and previous hash "0". |
| `Engine.CreateAndAddNewBlock` | DoubleSpending.py:77-84 | It seals exactly when the pool is non-empty. An empty pool changes nothing. Otherwise the chain grows by one block (index old length + 1, previous hash of the old tail, least nonce) holding the pool list itself. The pool becomes empty, so the new block shows no transactions. Nodes are unchanged. |
| `Engine.DebitChangesOnlySender` | DoubleSpending.py:42 | A debit lowers only the sender's balance, by exactly the amount. Every stake and every other node is unchanged. |
| `Engine.DebitKeepsNonNegative` | DoubleSpendingDetectionandPrevention.py:47-51 | A debit allowed only when the balance covers the amount keeps all balances non-negative. |
| `Engine.DebitTotal` | DoubleSpending.py:42 | A debit lowers the sum of all balances by exactly the amount. |
| `Engine.AdmitConserves` | Sybill_Attack_User_Triggered.py:39-42 | Debiting the sender and appending the transaction to the pool keeps the sum of all balances plus all pending amounts. |
| `Engine.NodeIdInjective` | Sybill_Attack_User_Triggered.py:152 | Different loop iterations produce different identifiers `f"{prefix}{i+1}"`. |
| `Engine.RegisteredAt` | Sybill_Attack_User_Triggered.py:151-153 | After a registration loop, each identifier it wrote holds the node that iteration created, even if a node of that name existed before. |
| `Engine.RegisteredElsewhere` | Sybill_Attack_User_Triggered.py:151-153 | A registration loop leaves every identifier without its prefix as it was. |
| `Engine.RegisteredKeys` | Sybill_Attack_User_Triggered.py:151-153 | A registration loop adds exactly its own identifiers to the node set. |
| `Engine.RegisterNodes` | Sybill_Attack_User_Triggered.py:151-154 | The loop's final node map is the registration of the created nodes, in order. Pool and chain are unchanged. |
| `Engine.AddInitialNodes` | DoubleSpending.py:70-74 | `node_1` to `node_n` are registered fresh, each with balance 100. |
| `OpenPolicy.AddTransaction` | DoubleSpending.py:38-45 | It accepts if and only if the sender is registered and its balance is at least the amount. On acceptance one transaction is appended and only the sender is debited; the receiver is never credited. A rejection leaves pool and nodes unchanged. The chain, node set and stakes never change. The sum of balances plus pending amounts is preserved, and so are non-negative balances. The new nodes and pool are `Attempt` of the old ones, the rule as a function that the flood's fold `FloodRun` applies. |
| `DoubleSpending.DoubleSpendingAttack` | DoubleSpending.py:87-109 | The attacker is reset to balance 50. The first 50-transfer is accepted and the second rejected for insufficient balance. The attacker ends at balance 0 and the pool ends empty. The chain grows by exactly two blocks, holding copies of `pool[:1]` and `pool[1:]`, each linked to the hash of the block before it as it showed at that moment. With an empty starting pool they hold the first transfer and nothing. |
| `DoubleSpendingDetection.DetectDoubleSpendingInBlock` | DoubleSpendingDetectionandPrevention.py:101-109 | Returns true if and only if two transactions in the list share the same (sender, amount) key. |
| `DoubleSpendingDetection.AppendUnspentKeepsKeysSpent` | DoubleSpendingDetectionandPrevention.py:43-50 | Appending a transaction whose key is not spent, and marking that key spent, keeps every pool key spent and all pool keys distinct. |
| `DoubleSpendingDetection.DetectingBlockchain.constructor` | DoubleSpendingDetectionandPrevention.py:20 | The spent set starts empty. |
| `DoubleSpendingDetection.DetectingBlockchain.AddTransaction` | DoubleSpendingDetectionandPrevention.py:39-54 | A spent key is refused before the sender or the balance is checked, and nothing changes. Otherwise the open balance rule decides. On acceptance one transaction is appended, the key is marked spent and only the sender is debited. A balance or unknown-sender rejection changes nothing, not even the spent set. The spent set never shrinks. The invariant "every pool key is spent, pool keys are distinct" is preserved. |
| `DoubleSpendingDetection.CreateAndAddNewBlockWithDetection` | DoubleSpendingDetectionandPrevention.py:86-98 | Three cases. An empty pool changes nothing. A repeated key aborts and leaves chain and pool as they were. Otherwise one block holding the pool list is appended with index old length + 1 and the old tail's hash, and the pool is cleared. Under the pool invariant the abort never happens. |
| `DoubleSpendingDetection.DoubleSpendingAttack` | DoubleSpendingDetectionandPrevention.py:112-125 | The attacker's balance is reset to 50. If the key (attacker, 50) was not spent, the first transfer is accepted (balance 0) and the second refused as a double spend. If it was spent, both are refused and the balance stays 50. The key ends up spent. The pool before sealing is the old pool plus the first transfer when it was accepted. Sealing then aborts exactly when that pool repeats a key; otherwise a non-empty pool is sealed as one block (index old length + 1, the old tail's hash as it showed with that pool, the least nonce) and cleared. Without a seal, chain and pool stay as they were before sealing. The pool invariant is preserved, and under it the abort never happens. |
| `SybilWithPoS.AddTransaction` | Sybill_Attack_With_PoS.py:40-55 | An unknown sender is a KeyError fault. A sender below the minimum stake of 20 is refused whatever its balance. An eligible sender is accepted if and only if its balance covers the amount, and then one transaction is appended and only it is debited. Every refusal or fault changes nothing. Node set and stakes never change, so "sybil stakes below the minimum" is preserved. |
| `SybilWithPoS.IsEligibleForTransaction` | Sybill_Attack_With_PoS.py:53-55 | Eligibility is a stake of at least the minimum of 20, looked up for a node that must exist (otherwise `KeyError`). A stake in the sybil range 0 to 10 is never eligible, and neither is a "sybil" node while every "sybil" node is below the minimum. |
| `SybilWithPoS.StakedNodes` | Sybill_Attack_With_PoS.py:103-106 | When every drawn stake lies in the sybil range 0 to 10, every node the sybil loop creates is below the minimum stake of 20. |
| `SybilWithPoS.RegisteringLowStakesKeepsSybilStakesLow` | Sybill_Attack_With_PoS.py:103-107 | Registering nodes whose stakes are all below 20 keeps every "sybil" node below 20. |
| `SybilWithPoS.RegisteringInitialNodesKeepsSybilStakesLow` | Sybill_Attack_With_PoS.py:90-95 | Initial nodes are named `node_i`, so registering them keeps every "sybil" node below 20. |
| `SybilWithPoS.AddInitialNodes` | Sybill_Attack_With_PoS.py:90-95 | `node_1` to `node_n` are registered with balance 100 and the stake drawn for each. The sybil-stake invariant is preserved. |
| `SybilWithPoS.SybilAttack` | Sybill_Attack_With_PoS.py:98-113 | Sybil node i is registered with the stake drawn for it, between 0 and 10. When every pre-existing "sybil" node is below the minimum stake, every transfer the attack attempts is refused. Pool and every node stay as they were after registration, and the invariant still holds. The chain is unchanged. |
| `SybilUserTriggered.FloodRunShape` | Sybill_Attack_User_Triggered.py:157-159 | A flood only appends to the pool, at most one transaction per attempt. Each appended transaction is one of the attempts and comes from a registered sender. The node set and every stake are unchanged. |
| `SybilUserTriggered.FloodRunConserves` | Sybill_Attack_User_Triggered.py:157-159 | A flood keeps the sum of all balances plus all pending amounts, and keeps balances non-negative. |
| `SybilUserTriggered.FloodRunAdmitsCovered` | Sybill_Attack_User_Triggered.py:157-159 | When every sender is registered and its balance covers the total it attempts, every attempt is admitted in order, and each node ends down by exactly what it sent. Fake and real nodes go through the same rule. |
| `SybilUserTriggered.FakeNodeFirstAttemptAdmitted` | Sybill_Attack_User_Triggered.py:151-153 | A fake node just registered holds a fresh node with balance 100, so its first transfer of 1 to 5 is admitted and leaves it at 100 minus the amount. |
| `SybilUserTriggered.Flood` | Sybill_Attack_User_Triggered.py:156-159 | The loop's final nodes and pool are exactly the open rule applied to each attempt `choices[j] -> node_1` for `amounts[j]` in turn (`FloodRun`). The chain is unchanged. |
| `SybilUserTriggered.SybilAttack` | Sybill_Attack_User_Triggered.py:146-162 | Fake node i is registered as a fresh node with balance 100, overwriting any node of the same name. The final nodes are the flood of the 2N attempts over the ledger after registration. The chain always grows by exactly one block, even with an empty pool. That block holds the pool list, has index old length + 1, carries the hash of the old tail as it showed with the flooded pool, and has the least nonce. The pool ends empty. |

## Left out

- `main`, its menu loop, `input()` and `int(input())` parsing, and every `print`: interactive I/O. The operations the menu calls are modelled.
- `print_chain`, `print_balances`, `print_balances_and_stakes`: read-only display.
- `gossip_transaction` and `Node.receive_transaction`: random fan-out with `time.sleep` that only prints. The call inside `add_transaction` is treated as a no-op. With fewer than two registered nodes, `random.sample(..., 2)` would raise `ValueError` after the transaction was already admitted. The model does not represent that exception, which cannot happen once `add_initial_nodes` has run.
- SHA-256 and the exact text of `str(block)`: foreign library code. They are the constructor's `blockHash` and `nonceHash` arguments. The one thing assumed about them is the constructor's precondition: some nonce meets difficulty 3, so that mining terminates.
- `random.*` itself: replaced by parameters that carry the drawn values' ranges.
- `SybilWithPoS.SybilAttack`: visits the nodes in an unspecified order, where Python uses the dictionary's insertion order. No outcome depends on the order once the stake invariant holds.
- `SybilWithPoS.SybilAttack`: draws a transfer amount per node identifier (`amountOf`) instead of from a sequence of draws. The amounts do not affect any refused transfer.
- Exceptions in general: the uncaught `KeyError` of the stake variant becomes the `UnknownSenderKeyError` outcome with no state change. The program itself would end there.

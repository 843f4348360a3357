# XiaoCoin ledger core, modelled in Dafny

XiaoCoin keeps a single-node, hash-linked ledger in three classes:

- **Transactions** carry a sender, a recipient, an amount and an ECDSA signature over their content hash. A transaction with no sender is a system-minted mining reward and is valid without a signature.
- **Blocks** hold a list of transactions, the hash of the previous block, a timestamp, a nonce and a stored hash. Mining (proof of work) refuses a batch holding an invalid transaction. Otherwise it advances the nonce until the hash starts with `difficulty` zero characters.
- **The chain** starts from an unmined genesis block and keeps a pool of accepted transactions. A mining round adds a 50-unit reward to the pool, seals the pool into a block linked to the latest hash, appends the block and clears the pool. `validateChain` re-derives the stored hash of every block after the genesis block (the genesis block's only when it stands alone) and checks every link.

The model has four modules:

- `LedgerTypes` (`ledger_types.dfy`): the value types.
- `Transactions` (`transaction.dfy`).
- `Blocks` (`block.dfy`).
- `Chains` (`chain.dfy`).

Transactions, blocks and the chain are classes whose methods update their fields as the source's methods do. Every property is stated over value snapshots (`TxRecord`, `BlockView`) and pure specification functions:

- `TxValidity` specifies `isValid`.
- `TxsVerdict` / `PayloadVerdict` specify `validateTransactions`.
- `Intake` specifies `addTransaction`.
- `ChainVerdict` specifies `validateChain`.

The methods are proved against these functions, and lemmas state what the functions mean.

The foreign primitives are fields of a `Primitives` value and are left uninterpreted: SHA-256, the JSON rendering of a block's transaction list, the text a number becomes when joined to a string, ECDSA signing and verification, and the public half of a key. The source's thrown errors become `Result` / `Outcome` values carrying an `Error`.

Behaviour of the source the model keeps:

- `isValid` throws on a missing signature. That throw propagates out of `validateTransactions`, `mine`, `addTransaction` and `validateChain`; it is not turned into `false`.
- When mining aborts inside `mineTransactionPool`, the reward transaction has already been pushed onto the pool and stays there.
- Any non-negative difficulty is accepted, including 0.

## Model

| member | source | states |
|---|---|---|
| `Transactions.Transaction.constructor` | src/xiaoChain.js:5-9 | a new transaction carries the given sender, recipient and amount, and no signature |
| `Transactions.Transaction.ComputeHash` | src/xiaoChain.js:11-13 | the content hash is the digest of sender, recipient and amount, whatever the signature is |
| `Transactions.TxHashIgnoresSignature` | src/xiaoChain.js:11-13 | changing the signature never changes the content hash |
| `Transactions.Transaction.Sign` | src/xiaoChain.js:15-17 | the signature becomes the signature of the content hash under the given key; sender, recipient and amount are unchanged |
| `Transactions.TxValidity` | src/xiaoChain.js:19-25 | a transaction with no sender is valid whether or not it is signed; one with a sender and no (or an empty) signature throws, and that is the only error; a signed transaction with a sender is valid exactly when its signature verifies under the sender's key over the content hash, so false means the check failed and a failed check gives false |
| `Transactions.Transaction.IsValid` | src/xiaoChain.js:19-25 | the validity of the object is the validity of its current fields as a value |
| `Transactions.SignedByOwnerIsValid` | src/xiaoChain.js:15-25 | under a sound signature scheme, a transaction signed with the private key whose public half is its sender is valid |
| `Blocks.Block.constructor` | src/xiaoChain.js:29-35 | a new block keeps its transactions, previous hash and the clock reading, starts at nonce 1, and stores the hash of its contents |
| `Blocks.Block.ComputeHash` | src/xiaoChain.js:37-44 | the block hash is the digest of transactions, previous hash, nonce and timestamp, and the stored hash does not enter it |
| `Blocks.GetAnswer` | src/xiaoChain.js:46-50 | the target is exactly `difficulty` characters, each of them '0' |
| `Blocks.MeetsTargetIff` | src/xiaoChain.js:60 | a hash meets the target iff it has at least `difficulty` characters and the first `difficulty` are all '0' |
| `Blocks.TxsVerdict` | src/xiaoChain.js:70-78 | validating a list can only throw the missing-signature error |
| `Blocks.PayloadVerdict` | src/xiaoChain.js:70-78 | validating a block's payload throws only the missing-signature error or, for the genesis text, the not-a-transaction error |
| `Blocks.TxsVerdictAllValid` | src/xiaoChain.js:70-78 | a list of transactions validates iff every transaction in it is valid |
| `Blocks.TxsVerdictFirstFailure` | src/xiaoChain.js:71-76 | validation reports the outcome of the first transaction that is not valid; the transactions after it play no part |
| `Blocks.TxsVerdictAppend` | src/xiaoChain.js:71-77 | validating a concatenation reports the first part's failure, or else the second part's verdict |
| `Blocks.Block.ValidateTransactions` | src/xiaoChain.js:70-78 | the early-exit loop returns exactly the specified verdict of the block's payload |
| `Blocks.Block.Mine` | src/xiaoChain.js:52-68 | if validation fails, mining throws (validation's error, or the tampering error) and nonce and hash are unchanged; if mining succeeds, the stored hash is the recomputed hash and meets the target, the nonce has not decreased, no nonce it passed over met the target, and transactions, previous hash and timestamp are unchanged |
| `Chains.Chain.constructor` | src/xiaoChain.js:82-87 | a new chain holds only a fresh genesis block, has an empty pool and the given difficulty, and validates |
| `Chains.Chain.SetDifficulty` | src/xiaoChain.js:89-91 | the difficulty becomes the given value; the chain stays non-empty with its reward fixed |
| `Chains.Chain.BigBang` | src/xiaoChain.js:93-96 | the genesis block holds the placeholder text, has an empty previous hash and nonce 1, and is not mined |
| `Chains.Chain.GetLatestBlock` | src/xiaoChain.js:98-101 | returns the last block of the chain |
| `Chains.Intake` | src/xiaoChain.js:102-107 | a transaction is accepted iff its sender and recipient are truthy and it is valid; a falsy sender or recipient (so any reward transaction) is refused first; a false signature check is refused; a missing signature throws |
| `Chains.ForgedSignatureRefused` | src/xiaoChain.js:102-107 | a transfer with truthy sender and recipient whose signature does not verify under the sender's key is refused as invalid |
| `Chains.Chain.AddTransaction` | src/xiaoChain.js:102-110 | the outcome is the intake decision; the pool becomes the old pool followed by the transaction on acceptance and is untouched otherwise; the chain stays non-empty with its reward fixed |
| `Chains.RewardKeepsVerdict` | src/xiaoChain.js:113-124 | adding the system-minted reward never changes what validating the pool reports |
| `Chains.AcceptedPoolValidates` | src/xiaoChain.js:102-124 | a pool of transactions that each pass intake, followed by the reward, validates, so mining it is never refused |
| `Chains.Chain.MineTransactionPool` | src/xiaoChain.js:112-128 | on success the chain grows by one fresh block, and every existing block is left in place. The new block links to the old latest hash, holds the old pool followed by the 50-unit reward to the given address, carries a hash meeting the difficulty, and the pool is emptied. Mining is refused exactly when the old pool does not validate, with validation's error. When it is refused the chain is unchanged and the pool keeps the reward appended. A chain that validated before still validates |
| `Chains.Chain.PushReward` | src/xiaoChain.js:113-118 | the pool becomes the old pool followed by a fresh unsigned 50-unit reward, with no sender, to the given address |
| `Chains.Chain.AppendBlock` | src/xiaoChain.js:126-127 | the chain becomes the old chain followed by the block and the pool is emptied; a block whose transactions validate, whose stored hash is its own and which names the latest hash keeps a valid chain valid |
| `Chains.StepVerdict` | src/xiaoChain.js:139-152 | the per-block verdict is true iff the block's transactions validate, its stored hash is recomputed, and it names the previous block's hash; an error is the transactions' error |
| `Chains.ChainVerdictGenesisOnly` | src/xiaoChain.js:131-136 | a genesis-only chain validates iff its stored hash equals the recomputed one |
| `Chains.LinksFromIff` | src/xiaoChain.js:138-154 | the loop from block i on reports true iff every block from i on passes all three checks |
| `Chains.ChainVerdictIff` | src/xiaoChain.js:130-155 | any other chain validates iff every block after the first has valid transactions, stores the hash of its contents, and names the hash of the block before it |
| `Chains.ChainVerdictFirstFailure` | src/xiaoChain.js:138-153 | validation reports the verdict of the first block that fails a check; the blocks after it play no part |
| `Chains.ChainVerdictAppend` | src/xiaoChain.js:130-155 | appending a block that validates, stores its own hash and links to the last block keeps a valid chain valid |
| `Chains.LinksFromAgree` | src/xiaoChain.js:138-153 | the loop gives equal verdicts on equally long chains whose blocks get equal per-block verdicts |
| `Chains.GenesisUncheckedOnceExtended` | src/xiaoChain.js:130-155 | once a chain has a second block, only the first block's stored hash matters to validation, never its contents |
| `Chains.ResealedBlockBreaksLink` | src/xiaoChain.js:145-152 | in a valid chain, giving a block that has a successor a different stored hash (for instance by rehashing tampered contents) makes validation fail |
| `Chains.Chain.ValidateChain` | src/xiaoChain.js:130-155 | the early-exit loop returns exactly the specified verdict of the chain as it stands |

## Left out

- SHA-256, `JSON.stringify`, the conversion of a number to text, and the secp256k1 key operations (`keyFromPublic`, `sign(...).toDER`, `verify`) are foreign calls. They are uninterpreted fields of `Primitives`, and no cryptographic property of them is proved. The one assumption ever made is `SignaturesSound`, and only in `SignedByOwnerIsValid`. Errors the elliptic-curve library itself may throw on malformed keys or signatures are not modelled.
- `Date.now()` is a clock read. It is the `now` parameter of the block constructor, `BigBang`, the chain constructor and `MineTransactionPool`.
- `console.log` output is not modelled.
- Blocks.Block.Mine: the source's search loop has no bound and never returns without a solution. The model bounds it by a `fuel` parameter and reports the extra outcome `SearchExhausted` when the fuel runs out; only the result on exit is proved, not that a solution is ever found.
- Chains.Chain.MineTransactionPool: passes its `fuel` to `Mine`; on `SearchExhausted` the chain is unchanged and the reward stays in the pool, like any other aborted mining. The source would loop forever instead.
- A block keeps its transactions as values (`TxRecord`), copied from the pool's transaction objects when the block is sealed. In the source the block holds the same objects as the pool. A transaction object changed after it has been sealed into a block would change that block's hash and validity there, but not in this model. Tampering with a sealed block is modelled by changing the block's own fields.
- JavaScript's dynamic typing is not modelled:
  - The sender is a string or null (never `undefined`), and the recipient is a string.
  - Amounts are integers, so the text of non-integral numbers is left out.
  - The difficulty is a natural number, so `"0".repeat` on a negative count does not arise.
- `minerReward` is a mutable property in the source that nothing ever changes; the model keeps it as a constant field fixed to 50.
- That changing any field of a historical block makes validation fail cannot be proved without assuming the hash is collision-free. The model proves the structural forms instead: `ChainVerdictIff` (a block whose contents no longer hash to its stored hash fails) and `ResealedBlockBreaksLink` (a rehashed block breaks its successor's link).

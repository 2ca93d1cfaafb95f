# Hash-chained ledger with proof-of-work and a peer-gated rewrite

A Dafny model of the in-memory ledger in `blockchainServer.js`, with proofs about it:

- **Blocks** (`Block.dfy`, module `Blocks`). A `Block` is a class, because the chain overwrites its
  `data`, `previousHash`, `hash` and `nonce` in place. `index` and `timestamp` are never reassigned,
  so they are `const`. `BlockRecord` holds the field values at one moment.
  The constructor stores the digest of an input whose nonce part is the text `undefined`, because
  `hash` is computed before `nonce` is assigned. `calculateHash()` uses the current nonce.
- **Hashing** (`Hashing.dfy`, module `Hashing`). The digest is SHA-256 of the text
  `index + previousHash + timestamp + JSON.stringify(data) + nonce`. A nonce that is not yet
  assigned is rendered as `"undefined"`. A `HashEngine` value supplies three outside functions:
  SHA-256, `JSON.stringify`, and number-to-text conversion. The exit test of the mining loop,
  `hash.substring(0, d) === Array(d + 1).join('0')`, is `MeetsDifficulty`. It keeps JavaScript's
  clamping of `substring`.
- **Chain** (`Blockchain.dfy`, module `Ledger`). `Blockchain` holds `chain: seq<Block>`, the
  difficulty (2) and the engine. Its methods follow the source: the genesis block, `getLatestBlock`,
  `mineBlock` (a loop), `addBlock`, `isChainValid` (a loop with an early exit) and `modifyBlock`.
  Each method is specified against `View()`, the sequence of block records. It is also specified
  against the pure definitions `ChainValid` (what `isChainValid` computes) and `Modified` (what
  `modifyBlock` does to the records). The lemmas say how appending and rewriting affect validity.
- **Quorum** (`Consensus.dfy`, module `Consensus`). The modification route needs enough peers to
  answer. `ApprovalCount` counts the status-200 replies. `QuorumReached` holds when
  `approvals >= peers.length / 2`. `ProposeModification` applies `modifyBlock` exactly when the
  quorum is reached.
- **Scenarios** (`Scenarios.dfy`). These runs state the finding below for every engine. A toy
  engine shows that the conditions can be met.

Two behaviours of the code worth knowing:

- The genesis block, like every constructed block, stores a hash computed over an unassigned nonce
  (the text `undefined`), not its `calculateHash()`. `isChainValid` never checks block 0, so this
  is only visible for appended blocks (see Findings).
- After mining, `hash` equals `calculateHash()` only when the loop body ran at least once
  (`MineBlock`'s postconditions).

## Model

| member | source | states |
|---|---|---|
| `Blocks.Block.constructor` | blockchainServer.js:21-28 | The block keeps the given index, timestamp, data and previousHash (default `""`), and its nonce is 0. Its hash is the digest of the fields with the nonce part `undefined`, not `calculateHash()`. |
| `Hashing.UnassignedNonceInputDiffers` | blockchainServer.js:26-34 | For the same fields, the constructor's hash input is a different string from `calculateHash()`'s input for any assigned non-negative decimal nonce. |
| `Blocks.ConstructTwice` | blockchainServer.js:21-28 | Constructing a block twice from the same arguments gives the same hash, and that hash is the unassigned-nonce digest. |
| `Hashing.HashInputLayout` | blockchainServer.js:31-34 | The hash input starts with the rendered index, then previousHash, and ends with the rendered nonce. Its length is the sum of the five parts, so no separators are added. |
| `Hashing.DigestSeesOnlyConcatenation` | blockchainServer.js:32-34 | The digest depends on the fields only through their concatenation: moving characters from previousHash to the front of the timestamp gives the same digest, whatever SHA-256 is. |
| `Blocks.Block.CalculateHash` | blockchainServer.js:31-35 | Returns the digest of the block's current fields with the nonce as assigned, and stores nothing. |
| `Hashing.Zeros` | blockchainServer.js:60 | `Array(d + 1).join('0')` is a string of exactly d characters, all `'0'`. |
| `Hashing.Prefix` | blockchainServer.js:60 | `substring(0, d)` has length d, or the whole length when the hash is shorter, and is a prefix of the hash. |
| `Hashing.MeetsDifficulty` | blockchainServer.js:60 | A hash shorter than the difficulty never passes the exit test, although `substring` clamps. |
| `Hashing.MeetsDifficultyIff` | blockchainServer.js:60 | The loop's exit test `substring(0, d) === "0"*d` holds iff the hash has at least d characters and its first d are all `'0'`. |
| `Ledger.GenesisRecord` | blockchainServer.js:45-47 | The genesis record has index 0, previousHash `"0"` and nonce 0, and its hash is the digest of its own fields over an unassigned nonce. |
| `Ledger.GenesisNotSelfHashed` | blockchainServer.js:21-27 | When numbers render in decimal, the genesis hash is computed from a different string than its `calculateHash()` input. The chain of the genesis block alone is still valid. |
| `Ledger.Blockchain.CreateGenesisBlock` | blockchainServer.js:45-47 | Returns a new block: index 0, timestamp `01/01/2020`, data `"Genesis block"`, previousHash `"0"`, nonce 0, hash over an unassigned nonce. |
| `Ledger.Blockchain.constructor` | blockchainServer.js:40-47 | A new chain holds exactly the genesis block, its difficulty is 2, and it is valid. |
| `Ledger.Blockchain.GetLatestBlock` | blockchainServer.js:49-51 | Returns the last block of the chain, which is never empty. |
| `Ledger.Blockchain.MineBlock` | blockchainServer.js:59-65 | On exit the stored hash passes the difficulty test. Only nonce and hash change, and the nonce never decreases. If the incoming hash already passed, nothing changes. Otherwise the nonce grew, the hash is `calculateHash()`, and no nonce strictly between the old and the final one passes. |
| `Ledger.Blockchain.AddBlock` | blockchainServer.js:53-57 | The chain grows by exactly the new block, earlier blocks are unchanged, and the new block's previousHash is the old last block's hash. The block is mined as in `MineBlock`: the least passing nonce is used, and a stale hash that already passes is kept. When mining recomputed the hash, the nonce grew, the hash is `calculateHash()`, and the chain is valid afterwards iff it was valid before. |
| `Ledger.ChainValid` | blockchainServer.js:67-81 | A chain of zero or one block is valid, whatever the genesis block's stored hash. |
| `Ledger.AppendValid` | blockchainServer.js:67-80 | Appending a block keeps a chain valid iff the chain was valid, the block links to the old last hash, and the block stores its own recomputed hash. |
| `Ledger.Blockchain.IsChainValid` | blockchainServer.js:67-81 | Returns true iff every block i with 1 <= i < len stores its recomputed hash and links to block i-1's stored hash. Block 0 is never checked. |
| `Ledger.Modified` | blockchainServer.js:83-88 | For 1 <= index < len, block index gets the new data and its recomputed hash. Its index, timestamp, previousHash and nonce are kept, as are the length and every other block. Any other index leaves the records unchanged. |
| `Ledger.Blockchain.ModifyBlock` | blockchainServer.js:83-88 | Returns true iff 1 <= index < len. The block records become `Modified(old records, index, newData)`. The sequence of block objects is unchanged. |
| `Ledger.ModifyInteriorValidIff` | blockchainServer.js:83-88 | On a valid chain, rewriting a block that has a successor leaves the chain valid iff the block's hash did not change, since the successor is not re-linked. |
| `Ledger.ModifyLastKeepsValid` | blockchainServer.js:83-88 | On a valid chain of two or more blocks, rewriting the last block keeps the chain valid. |
| `Consensus.ApprovalCount` | blockchainServer.js:117 | The number of approvals is the number of replies whose status is 200, and it is at most the number of replies. |
| `Consensus.QuorumReached` | blockchainServer.js:119 | The integer test `2 * approvals >= peers` is exactly `approvals >= peers.length / 2` in real division. |
| `Consensus.RejectionCount` | blockchainServer.js:117 | The number of replies with a status other than 200 is at most the number of replies. |
| `Consensus.ApprovalsAndRejectionsPartition` | blockchainServer.js:117-119 | Every reply counts once, either as an approval or as a rejection: the two counts add up to the number of peers. |
| `Consensus.QuorumIffApprovalsAtLeastRejections` | blockchainServer.js:119 | The quorum is reached iff the approvals are at least the independently counted rejections. Ties pass. |
| `Consensus.QuorumMonotone` | blockchainServer.js:117-119 | One more 200 reply keeps a reached quorum. One more non-200 reply keeps a rejection. |
| `Consensus.QuorumExamples` | blockchainServer.js:116-123 | The vote passes with no peers and with 2 approvals of 4. It fails with 1 approval of 4. |
| `Consensus.ProposeModification` | blockchainServer.js:116-124 | Reports approval iff the quorum is reached. If approved, the chain becomes `Modified(old, index, newData)`, including the silent no-op for an index out of range. If not, the chain is unchanged. |
| `Scenarios.StaleHashBreaksAppend` | blockchainServer.js:53-63 | On a new chain, suppose the block's constructor-time hash passes the difficulty and differs from its linked `calculateHash()`. Then after `addBlock`, `isChainValid` returns false. |
| `Scenarios.ToyEngineSkipsMining` | blockchainServer.js:26-27 | There is an engine and a block for which the conditions of `StaleHashBreaksAppend` hold. |
| `Ledger.Blockchain.AddBlockRehashed` | blockchainServer.js:53-63 | The correction: `addBlock` with the hash recomputed after linking. The new block stores its own recomputed hash that passes difficulty, and validity is kept in every case. |
| `Scenarios.RehashedAppendStaysValid` | blockchainServer.js:53-63 | With the corrected append, any minable block leaves a new chain valid. |
| `Scenarios.ToyEngineMinesAtOne` | blockchainServer.js:60-63 | On the toy engine, the corrected append's block can be mined: nonce 0 fails and nonce 1 passes. |

## Findings

| source | as written | input that shows it | evidently intended | confidence | as-written member | corrected member |
|---|---|---|---|---|---|---|
| blockchainServer.js:26-27, 53-63 | The constructor hashes before `nonce` is set, with `previousHash` `''`. `addBlock` relinks the block without rehashing it, and `mineBlock` tests that stale hash before the first recomputation. | Any appended block whose constructor-time hash already begins with `"00"` (about one block in 256 at difficulty 2). The loop does not run, and the block is pushed with a hash that is not its `calculateHash()`. | A chain built only by `addBlock` stays valid: the hash is recomputed after linking, or the test runs after recomputing. | not executed | `Scenarios.StaleHashBreaksAppend` | `Ledger.Blockchain.AddBlockRehashed` |

## Left out

- HTTP plumbing is not modelled: the Express app, the four routes, status codes and response
  bodies, and `app.listen`. `addBlock`, `isChainValid` and `modifyBlock` are modelled as the
  operations those routes call.
- The `/addData` glue is not modelled: `new Block(latest.index + 1, new Date().toISOString(), body)`.
  The clock is outside the model; a caller gives the timestamp to the `Block` constructor.
- The peer fan-out is not modelled: `fetch` to every peer and `Promise.all`. The peers' reply
  statuses are an input, one per peer and in peer order, so `peers.length` is their number. A
  rejected `fetch` makes `Promise.all` reject; that path is not modelled.
- `Consensus.ProposeModification`: the chain snapshot in the reply is not returned. Callers read it
  through `View()`.
- The `Web3` provider is not modelled: the source creates it and never uses it.
- `console.log` is not modelled: it is output only.
- SHA-256, `JSON.stringify` and number-to-text conversion are not modelled: they are outside code.
  They are the three functions of `HashEngine`, and nothing is assumed about them. The decimal
  rendering `IntToDecimal` is used only where a lemma asks the engine to render a number in
  decimal.
- Json numbers are restricted to integers, because floating point is not modelled.
- `parseInt` is not modelled: its NaN case is specific to JavaScript, and the index is an integer.
- `Ledger.Blockchain.MineBlock`: requires `Minable`, meaning the stored hash passes or some larger
  nonce passes. The source instead loops forever when no such nonce exists. Unbounded brute force
  cannot be proved to terminate, and diverging runs have no final state to describe.
- `Ledger.Blockchain.AddBlock`: requires `Minable` of the linked block, for the same reason as
  `MineBlock`. It also requires that the block is not already in the chain. In the source, pushing
  the same object twice would alias two positions. The route always passes a fresh block, so this
  aliasing is not modelled.
- `Ledger.Blockchain.AddBlockRehashed`: requires `Minable` of the linked, rehashed block, as above.
- Interleaving is not modelled: another request may run while the modification route awaits its peers; here each operation runs alone.

# A proof-of-work ledger, modelled in Dafny

The ledger keeps a chain of blocks. Each block commits to one customer record
through the Merkle root of three category digests: customer, location and
payment. A block is sealed by proof-of-work. Its digest is computed over
blockId, prevHash, timestamp, merkleRoot, difficulty, nonce and status, and
mining looks for a nonce whose digest starts with `difficulty` zeros. The
chain accepts a block only if it links to the current tip (the next id, and
the tip's hash as prevHash) and if its recomputed hash has the zero prefix.
It appends the block only after a durable save succeeds.

The model has five modules:

- `Outcomes` (outcomes.dfy): the result values, `Result` and `Outcome`.
- `Hashing` (hashing.dfy): the abstract digest function, the abstract
  rendering of numbers, and the zero-prefix test.
- `MerkleTree` (merkle_tree.dfy), for merkle_tree.js:
  - `NextLevel` and `MerkleRoot` specify a round and the root as functions.
  - `CalculateMerkleRoot` and `PairUp` are merkle_tree.js's two loops, proved
    against those functions.
- `Blocks` (block.dfy), for block.js: a `Block` class.
  - Its constructor and `SetHashes` assign fields.
  - `CalculateHash` is a function that reads exactly the seven committed
    fields.
  - `Mine` is the nonce-search loop.
- `Chain` (blockchain.js, modelled in blockchain.dfy): a `Blockchain` class
  with a `chain: seq<Block>` field.
  - `IsValid` overwrites the candidate's hash, as blockchain.js does.
  - `AddBlock` validates, saves and then appends, and it preserves the chain
    invariant `Valid`. `Valid` means every block links to the one before it
    and every block's stored hash is its recomputation with the zero prefix.
  - Starting from the empty chain of the constructor, this invariant gives
    the sequential integrity of any chain built through `AddBlock`.
- `Ledger` (ledger.dfy), for the commit step in main_blockchain.js:
  - building the next block on the tip;
  - one record's commit;
  - the end-to-end run: a genesis block, then one committed record.

External effects are parameters:

- the digest function: `BlockHashing.sha`;
- the text a number becomes in a string concatenation: `BlockHashing.render`;
- the mining time limit, as an attempt budget: `budget`;
- the outcome of the database save: `saveOk`;
- the table rows `init` loads: `rows`;
- the clock: `timestamp`.

Every property below holds for every digest function, with one exception.
MerkleTree.ThreeLeaves assumes a digest function that never returns "". No
property relies on collision resistance.

Three behaviours of the code are easy to miss. The model keeps each of them:

- `mine` tests the stored hash before its first increment (block.js:40-45).
  The first digest it computes is therefore at nonce 1. A fresh block at
  difficulty 0 is accepted with nonce 0 and the empty hash.
- `addBlock` catches a failed save and only logs it (blockchain.js:70-72).
  The chain is unchanged and no error reaches the caller. This holds for
  `init` too: a failed save of the genesis block leaves `init` completing
  normally with an empty chain.
- `createBlockInstance` does not copy a stored row's status
  (blockchain.js:32-48). A reloaded block keeps status `"new"`.

## Model

| member | source | states |
|---|---|---|
| Hashing.Zeros | blockchain.js:83 | `'0'.repeat(n)` has length n and every character is '0' |
| Hashing.JoinedZerosAreZeros | block.js:40 | the miner's prefix `Array(d + 1).join("0")` equals the validator's `'0'.repeat(d)` |
| Hashing.StartsWithZerosIsMeetsDifficulty | blockchain.js:83 | `startsWith` of d zeros holds exactly when the digest meets difficulty d |
| Hashing.MeetsDifficultyMeans | blockchain.js:83 | a digest meets difficulty d if and only if it has at least d characters and each of the first d is '0' |
| Hashing.DifficultyBounds | block.js:40 | difficulty 0 is met by every digest, even the empty one; a difficulty above the digest's length never is |
| MerkleTree.NextLevel | merkle_tree.js:9-15 | a round maps n nodes to ceil(n/2) parents (`n <= 2 * parents <= n + 1`) |
| MerkleTree.NextLevelAt | merkle_tree.js:10-14 | parent k of a round is the digest of node 2k and node 2k+1, or of node 2k with itself when 2k+1 is past the end or holds "" (pairing strictly from the left) |
| MerkleTree.NextLevelIsParents | merkle_tree.js:9-15 | a level whose k-th entry is the parent at 2k, for every k, and which has the round's length, is the round |
| MerkleTree.RoundShrinks | merkle_tree.js:8-15 | a round over two or more nodes yields a shorter non-empty level, so the outer loop ends |
| MerkleTree.SingleLeafIsRoot | merkle_tree.js:8-18 | a single leaf is returned as the root, unhashed |
| MerkleTree.TwoLeaves | merkle_tree.js:8-18 | with a non-empty right leaf, two leaves give `H(a + b)` |
| MerkleTree.ThreeLeaves | merkle_tree.js:8-16 | three leaves give `H(H(a + b) + H(c + c))`, the odd leaf duplicated |
| MerkleTree.EmptyRightLeafIsReplaced | merkle_tree.js:12 | because of `||`, an empty right leaf is replaced by the left one: `[a, ""]` gives `H(a + a)` |
| MerkleTree.PairUp | merkle_tree.js:9-14 | the inner loop's `temp` is exactly the round `NextLevel` of the level |
| MerkleTree.CalculateMerkleRoot | merkle_tree.js:3-19 | an empty input fails with "Invalid hash array for Merkle Root calculation"; any other input returns `MerkleRoot` of the leaves |
| Blocks.Block.constructor | block.js:4-16 | the given id, prevHash, timestamp and difficulty (default 4); empty merkleRoot, category digests and hash; nonce 0; status "new" |
| Blocks.Block.SetHashes | block.js:18-23 | the four digest fields take the given values; its frame names only those four fields, so nothing else changes |
| Blocks.HashDependsOnCommittedFields | block.js:25-35 | two blocks that agree on blockId, prevHash, timestamp, merkleRoot, difficulty, nonce and status have the same calculateHash, whatever their category digests and stored hash |
| Blocks.Block.Mine | block.js:37-48 | nonce only grows, by at most the budget; after an attempt, hash is calculateHash at the final nonce; no nonce between the start and the end solves the puzzle; success exactly when the hash has the zero prefix; a spent budget fails with the timeout message and keeps the advanced nonce and hash |
| Blocks.MineFreshBlockAtDifficultyZero | block.js:40 | a fresh block mined at difficulty 0 succeeds at once with nonce 0 and hash "" |
| Blocks.MineWithNoBudget | block.js:40-43 | a fresh block at a positive difficulty with no budget fails with the timeout message, with nonce 0 and hash "" |
| Chain.Blockchain.constructor | blockchain.js:6-10 | an empty chain with the given difficulty (default 4) and name (default "My Blockchain"); the empty chain satisfies `Valid` |
| Chain.Blockchain.GetLastBlock | blockchain.js:50-52 | null exactly when the chain is empty, otherwise the final element |
| Chain.Blockchain.CreateBlockInstance | blockchain.js:32-48 | a fresh block copying id, prevHash, timestamp, difficulty, the four digests, hash and nonce from the row; the status stays "new" |
| Chain.Blockchain.Init | blockchain.js:12-30 | stored rows are loaded one block per row, unvalidated; an empty table gets a genesis block mined and offered to addBlock, so the chain holds one block when the save succeeds and none when it fails; a timeout fails with nothing stored, and no budget at a positive difficulty always times out; after the genesis path the chain is `Valid` |
| Chain.Blockchain.CreateGenesisBlock | blockchain.js:54-58 | a fresh block 0 with prevHash "0" at the chain's difficulty; on success its recomputed hash has the zero prefix; no budget at a positive difficulty fails |
| Chain.Blockchain.IsValid | blockchain.js:75-84 | a block that does not follow the tip is refused with its hash untouched; otherwise its hash becomes calculateHash, and the verdict is whether that has the zero prefix (only this test on an empty chain) |
| Chain.Blockchain.AddBlock | blockchain.js:60-73 | an invalid block is rejected with the chain unchanged; a failed save leaves the chain unchanged; otherwise the chain becomes the old chain plus the block; a `Valid` chain stays `Valid` |
| Chain.IdsConsecutive | blockchain.js:78 | in a linked chain the id at position j is the id at position i plus j - i |
| Chain.IdsUnique | blockchain.js:78 | in a linked chain the ids strictly increase, so no block object occurs twice |
| Chain.RepeatedIdNeverFollowsLast | blockchain.js:75-80 | a block whose blockId repeats the id of any block of a linked chain, whether the same object or a different one, never follows the tip, so isValid refuses it and addBlock rejects it |
| Chain.NoMemberFollowsLast | blockchain.js:62-80 | a block already in a linked chain never follows its tip, so it cannot be appended again |
| Chain.AppendKeepsIntegrity | blockchain.js:62-68 | appending a sealed block that links to the tip keeps a linked, sealed chain linked and sealed |
| Chain.SealedLinkedMeans | blockchain.js:78-83 | at every position of a `Valid` chain: the id is one past the previous block's, prevHash is its hash, the stored hash is the recomputation, and it starts with difficulty zeros |
| Ledger.NextBlock | main_blockchain.js:72-77 | the new block takes the tip's id plus one and the tip's hash (id 0 and "0" on an empty chain) at the chain's difficulty, and it follows the tip |
| Ledger.BuildBlock | main_blockchain.js:70-81 | the record's block carries the three digests and their Merkle root and follows the tip; when mining succeeds, its recomputed hash has the zero prefix |
| Ledger.CommitRecord | main_blockchain.js:70-82 | a mining timeout leaves the chain unchanged; otherwise the block is sealed, and the chain gains exactly that block when the save succeeds; a `Valid` chain stays `Valid` |
| Ledger.StartOnEmptyTable | main_blockchain.js:23-24 | on an empty table, the chain holds one block exactly when the genesis block is mined and its save succeeds, and that block is block 0 after "0" with a hash meeting the difficulty; a failed save leaves the chain empty; no budget at a positive difficulty means no genesis block is mined |
| Ledger.GenesisThenOneBlock | main_blockchain.js:23-82 | on an empty table, a genesis mining timeout ends the run with nothing stored. Otherwise the chain gets one block per mined and saved block. With both saves it holds blocks 0 and 1: block 1's prevHash is block 0's hash and it carries the record's Merkle root. With only the record's save, the record's block becomes block 0 after "0". Every stored hash meets the difficulty |

## Left out

- The database is not modelled: `sql.connect`, the SELECT in `init`, the
  body of `saveBlockToDatabase` and `sql.close`. `rows` stands for the
  loaded table and `saveOk` for the save's outcome. A failed load, which
  `init` rethrows, is not modelled.
- SHA-256 and its hexadecimal encoding are an abstract `string -> string`
  function. This means no properties that depend on collision resistance
  or on a particular digest, such as "different inputs give different
  roots".
- JavaScript's conversion of numbers to text in `+` is an abstract
  `int -> string` function.
- Blocks.Block.Mine: the 5000 ms wall-clock limit is an attempt budget.
  Which nonce the real clock stops at is not captured.
- Timestamps (`Date.now()`) are parameters.
- Negative difficulties are not modelled, because difficulty is a `nat`. In
  the JavaScript they make `Array(d + 1)` or `'0'.repeat(d)` throw a
  RangeError.
- A null column in a stored row is not modelled: every row field is typed.
- The non-array check in calculateMerkleRoot is ruled out by the parameter
  type. Only the empty-input error path remains.
- `async`/`await`, all `console` output and `printBlockchainInfo` are left
  out. Beyond sequencing, they carry no logic.
- Of main_blockchain.js, only the commit step of a record is modelled:
  - Not modelled: record fetching, the `JSON.stringify` and SHA-256 of the
    row fields into the three category digests, and the UPDATE that marks a
    record processed.
  - Not modelled either: the catch that moves on to the next record after
    an error.
  - The category digests are parameters.
- MerkleTree.ThreeLeaves: stated for a non-empty middle leaf and a digest
  function that never returns "". Otherwise the `||` substitution changes
  the pairing. MerkleTree.NextLevelAt covers that case in general.
- Aliasing of one `Block` object between the chain and a caller is not
  modelled as a hazard. What is proved is narrower:
  Chain.RepeatedIdNeverFollowsLast shows that a block that repeats an id
  already in a valid chain, including a block of the chain itself, never
  follows its tip, so `AddBlock` rejects it.

/** A block of the ledger and its proof-of-work miner (block.js). */
module Blocks {
  import opened Hashing
  import opened Outcomes

  /** The difficulty a block gets when none is given. */
  const DefaultDifficulty: nat := 4

  /** The lifecycle tag of a freshly built block. */
  const NewStatus := "new"

  /** The message of the Error thrown when the mining budget runs out. */
  const MiningTimeout := "Mining timeout: unable to find a valid hash within the time limit"

  class Block {
    var blockId: int
    var prevHash: string
    var timestamp: int
    var merkleRoot: string
    var hashCustomer: string
    var hashLocation: string
    var hashPayment: string
    var hash: string
    var difficulty: nat
    var nonce: int
    var status: string

    /** A fresh, unsealed block: no Merkle root, no category digests, no hash,
        nonce 0 and status "new". */
    constructor (blockId: int, prevHash: string, timestamp: int, difficulty: nat := DefaultDifficulty)
      ensures this.blockId == blockId && this.prevHash == prevHash && this.timestamp == timestamp
      ensures this.difficulty == difficulty
      ensures merkleRoot == "" && hashCustomer == "" && hashLocation == "" && hashPayment == ""
      ensures hash == "" && nonce == 0 && status == NewStatus
    {
      this.blockId := blockId;
      this.prevHash := prevHash;
      this.timestamp := timestamp;
      merkleRoot := "";
      hashCustomer := "";
      hashLocation := "";
      hashPayment := "";
      hash := "";
      this.difficulty := difficulty;
      nonce := 0;
      status := NewStatus;
    }

    /** Records the three category digests and the Merkle root over them; the
        frame lets no other field change. */
    method SetHashes(hashCustomer: string, hashLocation: string, hashPayment: string, merkleRoot: string)
      modifies this`hashCustomer, this`hashLocation, this`hashPayment, this`merkleRoot
      ensures this.hashCustomer == hashCustomer && this.hashLocation == hashLocation
      ensures this.hashPayment == hashPayment && this.merkleRoot == merkleRoot
    {
      this.hashCustomer := hashCustomer;
      this.hashLocation := hashLocation;
      this.hashPayment := hashPayment;
      this.merkleRoot := merkleRoot;
    }

    /** The digest of this block's committed fields with nonce n: blockId,
        prevHash, timestamp, merkleRoot, difficulty, n and status, rendered
        and concatenated in that order. The reads clause is the whole
        dependency: the category digests and the stored hash are not read. */
    function HashAtNonce(bh: BlockHashing, n: int): string
      reads this`blockId, this`prevHash, this`timestamp, this`merkleRoot, this`difficulty, this`status
    {
      bh.sha(bh.render(blockId) + prevHash + bh.render(timestamp) + merkleRoot +
             bh.render(difficulty) + bh.render(n) + status)
    }

    /** Whether nonce n solves this block's proof-of-work puzzle. */
    predicate SolvedBy(bh: BlockHashing, n: int)
      reads this`blockId, this`prevHash, this`timestamp, this`merkleRoot, this`difficulty, this`status
    {
      MeetsDifficulty(HashAtNonce(bh, n), difficulty)
    }

    /** calculateHash: the digest of the committed fields at the current nonce. */
    function CalculateHash(bh: BlockHashing): string
      reads this`blockId, this`prevHash, this`timestamp, this`merkleRoot, this`difficulty, this`nonce, this`status
    {
      HashAtNonce(bh, nonce)
    }

    /** mine: while the stored hash lacks the zero prefix, advance the nonce by
        one and recompute the hash. The stored hash is tested before the first
        increment, so the first digest computed is at nonce + 1, and a hash
        that already passes (always, at difficulty 0) ends the search at once.
        The wall-clock limit is modelled as a budget of attempts: when it is
        spent, mining fails and the block keeps its advanced nonce and hash. */
    method Mine(bh: BlockHashing, budget: nat) returns (outcome: Outcome)
      modifies this`nonce, this`hash
      ensures old(nonce) <= nonce <= old(nonce) + budget
      ensures nonce == old(nonce) ==> hash == old(hash)
      ensures nonce > old(nonce) ==> hash == CalculateHash(bh) && !MeetsDifficulty(old(hash), difficulty)
      ensures forall n :: old(nonce) < n < nonce ==> !SolvedBy(bh, n)
      ensures outcome.Pass? <==> MeetsDifficulty(hash, difficulty)
      ensures outcome.Fail? ==> outcome == Fail(MiningTimeout) && nonce == old(nonce) + budget
      ensures outcome.Pass? && old(hash) == "" ==> MeetsDifficulty(CalculateHash(bh), difficulty)
    {
      var attempts: nat := 0;
      JoinedZerosAreZeros(difficulty);
      StartsWithZerosIsMeetsDifficulty(hash, difficulty);
      while !StartsWith(hash, JoinEmpty(difficulty + 1, "0"))
        invariant attempts <= budget && nonce == old(nonce) + attempts
        invariant attempts == 0 ==> hash == old(hash)
        invariant attempts > 0 ==> hash == CalculateHash(bh) && !MeetsDifficulty(old(hash), difficulty)
        invariant forall n :: old(nonce) < n < nonce ==> !SolvedBy(bh, n)
        invariant StartsWith(hash, Zeros(difficulty)) <==> MeetsDifficulty(hash, difficulty)
        decreases budget - attempts
      {
        if attempts == budget {
          return Fail(MiningTimeout);
        }
        ghost var tried := nonce;
        assert attempts > 0 ==> !SolvedBy(bh, tried);
        nonce := nonce + 1;
        hash := CalculateHash(bh);
        StartsWithZerosIsMeetsDifficulty(hash, difficulty);
        attempts := attempts + 1;
        assert forall n :: old(nonce) < n < tried ==> !SolvedBy(bh, n);
      }
      DifficultyBounds(CalculateHash(bh), 0);
      return Pass;
    }
  }

  /** calculateHash depends on the seven committed fields and nothing else:
      two blocks that agree on them have the same hash, whatever their
      category digests and stored hashes. */
  lemma HashDependsOnCommittedFields(bh: BlockHashing, a: Block, b: Block)
    requires a.blockId == b.blockId && a.prevHash == b.prevHash && a.timestamp == b.timestamp
    requires a.merkleRoot == b.merkleRoot && a.difficulty == b.difficulty
    requires a.nonce == b.nonce && a.status == b.status
    ensures a.CalculateHash(bh) == b.CalculateHash(bh)
  {
  }

  /** Mining a fresh block at difficulty 0 does nothing: the empty hash
      already has the empty prefix, so nonce stays 0 and hash stays "". */
  method MineFreshBlockAtDifficultyZero(bh: BlockHashing, blockId: int, prevHash: string, timestamp: int, budget: nat)
    returns (outcome: Outcome, nonce: int, hash: string)
    ensures outcome == Pass && nonce == 0 && hash == ""
  {
    var b := new Block(blockId, prevHash, timestamp, 0);
    outcome := b.Mine(bh, budget);
    nonce, hash := b.nonce, b.hash;
  }

  /** Mining a fresh block at a positive difficulty with no budget times out
      before any attempt, leaving the block unsealed. */
  method MineWithNoBudget(bh: BlockHashing, blockId: int, prevHash: string, timestamp: int, difficulty: nat)
    returns (outcome: Outcome, nonce: int, hash: string)
    requires difficulty > 0
    ensures outcome == Fail(MiningTimeout) && nonce == 0 && hash == ""
  {
    var b := new Block(blockId, prevHash, timestamp, difficulty);
    outcome := b.Mine(bh, 0);
    nonce, hash := b.nonce, b.hash;
  }
}

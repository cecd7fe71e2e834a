/** The chain of blocks and its validate-then-append protocol (blockchain.js). */
module Chain {
  import opened Hashing
  import opened Outcomes
  import opened Blocks

  /** The name a chain gets when none is given. */
  const DefaultName := "My Blockchain"

  /** The prevHash of a genesis block. */
  const GenesisPrevHash := "0"

  /** What addBlock did with a candidate: appended it, rejected it as invalid,
      or dropped it because the durable save failed (blockchain.js logs the last
      two and returns normally in all three cases). */
  datatype AddOutcome = Appended | Rejected | SaveFailed

  /** A row of the blockchain table, as init reads it back. */
  datatype BlockRecord = BlockRecord(
    blockId: int, prevHash: string, timestamp: int, difficulty: nat,
    hashCustomer: string, hashLocation: string, hashPayment: string,
    merkleRoot: string, hash: string, nonce: int, status: string)

  /** isValid's linkage test: next carries the following id and the hash of prev. */
  predicate LinksTo(prev: Block, next: Block)
    reads prev`blockId, prev`hash, next`blockId, next`prevHash
  {
    next.blockId == prev.blockId + 1 && next.prevHash == prev.hash
  }

  /** A block as the chain accepts it: its stored hash is the recomputation
      of its committed fields and has the zero prefix its difficulty asks. */
  ghost predicate Sealed(bh: BlockHashing, b: Block)
    reads b
  {
    b.hash == b.CalculateHash(bh) && MeetsDifficulty(b.hash, b.difficulty)
  }

  /** Block i of the sequence links to block i - 1. */
  ghost predicate LinkedAt(blocks: seq<Block>, i: nat)
    requires 0 < i < |blocks|
    reads blocks
  {
    LinksTo(blocks[i - 1], blocks[i])
  }

  /** Sequential integrity: every block links to the one before it. */
  ghost predicate Linked(blocks: seq<Block>)
    reads blocks
  {
    forall i :: 0 < i < |blocks| ==> LinkedAt(blocks, i)
  }

  /** Every block of the sequence is sealed. */
  ghost predicate AllSealed(bh: BlockHashing, blocks: seq<Block>)
    reads blocks
  {
    forall i :: 0 <= i < |blocks| ==> Sealed(bh, blocks[i])
  }

  /** In a linked sequence the ids go up by exactly one per position. */
  lemma {:induction false} IdsConsecutive(blocks: seq<Block>, i: nat, j: nat)
    requires Linked(blocks) && i <= j < |blocks|
    ensures blocks[j].blockId == blocks[i].blockId + (j - i)
    decreases j - i
  {
    if i < j {
      IdsConsecutive(blocks, i, j - 1);
      assert LinkedAt(blocks, j);
    }
  }

  /** Ids are unique along a linked sequence, so its blocks are distinct objects. */
  lemma IdsUnique(blocks: seq<Block>, i: nat, j: nat)
    requires Linked(blocks) && i < j < |blocks|
    ensures blocks[i].blockId < blocks[j].blockId && blocks[i] != blocks[j]
  {
    IdsConsecutive(blocks, i, j);
  }

  /** A block whose id repeats the id of any block of a linked sequence
      cannot follow its last block, whether or not it is the same object:
      isValid's id test rejects every duplicate index. */
  lemma RepeatedIdNeverFollowsLast(blocks: seq<Block>, k: nat, b: Block)
    requires Linked(blocks) && k < |blocks| && blocks[k].blockId == b.blockId
    ensures !LinksTo(blocks[|blocks| - 1], b)
  {
    IdsConsecutive(blocks, k, |blocks| - 1);
  }

  /** In particular, no block already in a linked sequence can follow its
      last block, so it is never appended twice. */
  lemma NoMemberFollowsLast(blocks: seq<Block>, b: Block)
    requires Linked(blocks) && b in blocks
    ensures !LinksTo(blocks[|blocks| - 1], b)
  {
    var k :| 0 <= k < |blocks| && blocks[k] == b;
    RepeatedIdNeverFollowsLast(blocks, k, b);
  }

  /** Appending a sealed block that links to the last one keeps a linked,
      sealed sequence linked and sealed. */
  lemma AppendKeepsIntegrity(bh: BlockHashing, blocks: seq<Block>, b: Block)
    requires Linked(blocks) && AllSealed(bh, blocks) && Sealed(bh, b)
    requires |blocks| > 0 ==> LinksTo(blocks[|blocks| - 1], b)
    ensures Linked(blocks + [b]) && AllSealed(bh, blocks + [b])
  {
    var grown := blocks + [b];
    forall i | 0 < i < |grown| ensures LinkedAt(grown, i) {
      if i < |blocks| {
        assert LinkedAt(blocks, i);
      }
    }
    forall i | 0 <= i < |grown| ensures Sealed(bh, grown[i]) {
      if i < |blocks| {
        assert Sealed(bh, blocks[i]);
      }
    }
  }

  /** What a linked, sealed sequence guarantees at every position, in the
      terms isValid checks: the id after the previous one, the previous
      block's hash, and a stored hash that is the recomputation and starts
      with difficulty zeros. */
  lemma SealedLinkedMeans(bh: BlockHashing, blocks: seq<Block>, i: nat)
    requires Linked(blocks) && AllSealed(bh, blocks) && i < |blocks|
    ensures 0 < i ==> blocks[i].blockId == blocks[i - 1].blockId + 1 && blocks[i].prevHash == blocks[i - 1].hash
    ensures blocks[i].hash == blocks[i].CalculateHash(bh)
    ensures StartsWith(blocks[i].hash, Zeros(blocks[i].difficulty))
  {
    if 0 < i {
      assert LinkedAt(blocks, i);
    }
    assert Sealed(bh, blocks[i]);
    StartsWithZerosIsMeetsDifficulty(blocks[i].hash, blocks[i].difficulty);
  }

  class Blockchain {
    var chain: seq<Block>
    var difficulty: nat
    var name: string

    /** The invariant of a chain built through AddBlock: linked and sealed. */
    ghost predicate Valid(bh: BlockHashing)
      reads this, chain
    {
      Linked(chain) && AllSealed(bh, chain)
    }

    /** An empty chain with the given (or default) difficulty and name. */
    constructor (difficulty: nat := DefaultDifficulty, name: string := DefaultName)
      ensures chain == [] && this.difficulty == difficulty && this.name == name
      ensures forall bh :: Valid(bh)
    {
      chain := [];
      this.difficulty := difficulty;
      this.name := name;
    }

    /** getLastBlock: the final block, or null on an empty chain. */
    function GetLastBlock(): (last: Block?)
      reads this
      ensures (last == null) == (|chain| == 0)
      ensures last != null ==> last == chain[|chain| - 1]
    {
      if |chain| > 0 then chain[|chain| - 1] else null
    }

    /** The linkage half of isValid: an empty chain accepts any block;
        otherwise the block must follow the last one. */
    predicate FollowsTip(block: Block)
      reads this, block, chain
    {
      var last := GetLastBlock();
      last == null || LinksTo(last, block)
    }

    /** createBlockInstance: a block rebuilt from a stored row. The row's status
        is not copied, so the block keeps the status "new". */
    method CreateBlockInstance(row: BlockRecord) returns (b: Block)
      ensures fresh(b) && Mirrors(b, row)
    {
      b := new Block(row.blockId, row.prevHash, row.timestamp, row.difficulty);
      b.SetHashes(row.hashCustomer, row.hashLocation, row.hashPayment, row.merkleRoot);
      b.hash := row.hash;
      b.nonce := row.nonce;
    }

    /** init, with the table's rows given: the stored blocks are loaded as they
        are, without validation. An empty table gets a mined genesis block,
        offered to AddBlock; a mining timeout is raised to the caller. */
    method Init(bh: BlockHashing, rows: seq<BlockRecord>, timestamp: int, budget: nat, saveOk: bool)
      returns (outcome: Outcome)
      modifies this`chain
      ensures |rows| > 0 ==> outcome == Pass && |chain| == |rows|
      ensures |rows| > 0 ==> forall i :: 0 <= i < |rows| ==> fresh(chain[i]) && Mirrors(chain[i], rows[i])
      ensures |rows| == 0 && outcome.Fail? ==> outcome == Fail(MiningTimeout) && chain == []
      ensures |rows| == 0 && budget == 0 && difficulty > 0 ==> outcome.Fail?
      ensures |rows| == 0 && outcome.Pass? ==> |chain| == (if saveOk then 1 else 0)
      ensures |rows| == 0 ==> Valid(bh)
      ensures |rows| == 0 && |chain| == 1 ==>
                chain[0].blockId == 0 && chain[0].prevHash == GenesisPrevHash &&
                chain[0].timestamp == timestamp && chain[0].difficulty == difficulty
    {
      var loaded: seq<Block> := [];
      var k := 0;
      while k < |rows|
        invariant k <= |rows| && |loaded| == k
        invariant forall i :: 0 <= i < k ==> fresh(loaded[i]) && Mirrors(loaded[i], rows[i])
      {
        var b := CreateBlockInstance(rows[k]);
        loaded := loaded + [b];
        k := k + 1;
      }
      chain := loaded;
      if |chain| == 0 {
        var genesis, mined := CreateGenesisBlock(bh, timestamp, budget);
        if mined.Fail? {
          return mined;
        }
        var added := AddBlock(bh, genesis, saveOk);
      }
      return Pass;
    }

    /** createGenesisBlock: block 0 after "0", at the chain's difficulty, mined.
        A mined genesis block passes re-validation. */
    method CreateGenesisBlock(bh: BlockHashing, timestamp: int, budget: nat) returns (genesis: Block, outcome: Outcome)
      ensures fresh(genesis)
      ensures genesis.blockId == 0 && genesis.prevHash == GenesisPrevHash && genesis.timestamp == timestamp
      ensures genesis.difficulty == difficulty && genesis.merkleRoot == "" && genesis.status == NewStatus
      ensures outcome.Pass? <==> MeetsDifficulty(genesis.hash, genesis.difficulty)
      ensures outcome.Pass? ==> MeetsDifficulty(genesis.CalculateHash(bh), genesis.difficulty)
      ensures outcome.Fail? ==> outcome == Fail(MiningTimeout)
      ensures budget == 0 && difficulty > 0 ==> outcome.Fail?
    {
      genesis := new Block(0, GenesisPrevHash, timestamp, difficulty);
      outcome := genesis.Mine(bh, budget);
    }

    /** isValid: a block that does not follow the tip is refused with its hash
        untouched; otherwise its hash is overwritten by the recomputation, and
        the verdict is whether that has the zero prefix. */
    method IsValid(bh: BlockHashing, block: Block) returns (valid: bool)
      modifies block`hash
      ensures valid == (old(FollowsTip(block)) && MeetsDifficulty(block.CalculateHash(bh), block.difficulty))
      ensures !old(FollowsTip(block)) ==> block.hash == old(block.hash)
      ensures old(FollowsTip(block)) ==> block.hash == block.CalculateHash(bh)
    {
      var last := GetLastBlock();
      if last != null {
        if block.blockId != last.blockId + 1 || block.prevHash != last.hash {
          return false;
        }
      }
      block.hash := block.CalculateHash(bh);
      valid := StartsWith(block.hash, Zeros(block.difficulty));
      StartsWithZerosIsMeetsDifficulty(block.hash, block.difficulty);
    }

    /** addBlock: validate, then save durably, then push. The save is given as
        its outcome; an invalid block and a failed save both leave the chain
        as it was. A chain that was linked and sealed stays so. */
    method AddBlock(bh: BlockHashing, newBlock: Block, saveOk: bool) returns (outcome: AddOutcome)
      modifies this`chain, newBlock`hash
      ensures old(Valid(bh)) ==> Valid(bh)
      ensures outcome ==
                if !old(FollowsTip(newBlock)) || !MeetsDifficulty(newBlock.CalculateHash(bh), newBlock.difficulty) then Rejected
                else if saveOk then Appended
                else SaveFailed
      ensures chain == if outcome == Appended then old(chain) + [newBlock] else old(chain)
      ensures !old(FollowsTip(newBlock)) ==> newBlock.hash == old(newBlock.hash)
      ensures old(FollowsTip(newBlock)) ==> newBlock.hash == newBlock.CalculateHash(bh)
    {
      ghost var wasValid := Valid(bh);
      if wasValid && newBlock in chain {
        NoMemberFollowsLast(chain, newBlock);
      }
      var valid := IsValid(bh, newBlock);
      if wasValid {
        KeptValid(bh);
      }
      if !valid {
        return Rejected;
      }
      if !saveOk {
        return SaveFailed;
      }
      ghost var grown := chain + [newBlock];
      if wasValid {
        assert Linked(grown) && AllSealed(bh, grown) by {
          TipStillLinks(newBlock);
          assert newBlock.hash == newBlock.CalculateHash(bh);
          AppendKeepsIntegrity(bh, chain, newBlock);
        }
      }
      chain := chain + [newBlock];
      outcome := Appended;
    }

    /** A block that followed the tip still does once only its own hash has
        been overwritten. */
    twostate lemma TipStillLinks(b: Block)
      requires old(FollowsTip(b)) && chain == old(chain)
      requires b.blockId == old(b.blockId) && b.prevHash == old(b.prevHash)
      requires |chain| > 0 ==> chain[|chain| - 1] == b || unchanged(chain[|chain| - 1])
      ensures |chain| > 0 ==> LinksTo(chain[|chain| - 1], b)
    {
      if |chain| > 0 {
        assert old(LinksTo(chain[|chain| - 1], b));
      }
    }

    /** Overwriting the hash of a block that is not in a valid chain, or that
        is but keeps its hash, leaves the chain valid. */
    twostate lemma KeptValid(bh: BlockHashing)
      requires old(Valid(bh)) && chain == old(chain)
      requires forall i :: 0 <= i < |chain| ==> unchanged(chain[i])
      ensures Valid(bh)
    {
      assert Linked(chain) by {
        forall i | 0 < i < |chain| ensures LinkedAt(chain, i) {
          assert old(LinkedAt(chain, i));
        }
      }
      forall i | 0 <= i < |chain| ensures Sealed(bh, chain[i]) {
        assert old(Sealed(bh, chain[i]));
      }
    }
  }

  /** How a rebuilt block relates to its row: every column but status copied. */
  ghost predicate Mirrors(b: Block, row: BlockRecord)
    reads b
  {
    && b.blockId == row.blockId && b.prevHash == row.prevHash && b.timestamp == row.timestamp
    && b.difficulty == row.difficulty && b.hashCustomer == row.hashCustomer
    && b.hashLocation == row.hashLocation && b.hashPayment == row.hashPayment
    && b.merkleRoot == row.merkleRoot && b.hash == row.hash && b.nonce == row.nonce
    && b.status == NewStatus
  }
}

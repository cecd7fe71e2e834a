/** The commit step of the ledger's driver (main_blockchain.js): a block is
    built on the chain's tip, given the Merkle root of a record's three
    category digests, mined, and offered to the chain. Fetching records, the
    database and logging are not part of this model. */
module Ledger {
  import opened Hashing
  import opened Outcomes
  import opened MerkleTree
  import opened Blocks
  import opened Chain

  /** The next block for a chain: the id after the tip's
      and the tip's hash, or id 0 and "0" on an empty chain, at the chain's
      difficulty. It always passes the linkage half of isValid. */
  method NextBlock(bc: Blockchain, timestamp: int) returns (b: Block)
    ensures fresh(b)
    ensures b.blockId == (if |bc.chain| > 0 then bc.chain[|bc.chain| - 1].blockId + 1 else 0)
    ensures b.prevHash == (if |bc.chain| > 0 then bc.chain[|bc.chain| - 1].hash else GenesisPrevHash)
    ensures b.timestamp == timestamp && b.difficulty == bc.difficulty
    ensures b.hash == "" && b.nonce == 0 && b.status == NewStatus
    ensures bc.FollowsTip(b)
  {
    var last := bc.GetLastBlock();
    b := new Block(if last != null then last.blockId + 1 else 0,
                   if last != null then last.hash else GenesisPrevHash,
                   timestamp, bc.difficulty);
  }

  /** The block a record becomes (main_blockchain.js): the block after the
      chain's tip, carrying the record's three category digests and their
      Merkle root, mined. On success its recomputed hash has the zero prefix,
      so isValid will accept it. */
  method BuildBlock(bh: BlockHashing, bc: Blockchain, timestamp: int,
                    hashCustomer: string, hashLocation: string, hashPayment: string, budget: nat)
    returns (b: Block, mined: Outcome)
    ensures fresh(b)
    ensures bc.FollowsTip(b)
    ensures |bc.chain| == 0 ==> b.blockId == 0 && b.prevHash == GenesisPrevHash
    ensures b.difficulty == bc.difficulty
    ensures b.hashCustomer == hashCustomer && b.hashLocation == hashLocation && b.hashPayment == hashPayment
    ensures b.merkleRoot == MerkleRoot(bh.sha, [hashCustomer, hashLocation, hashPayment])
    ensures mined.Fail? ==> mined == Fail(MiningTimeout)
    ensures mined.Pass? ==> MeetsDifficulty(b.CalculateHash(bh), b.difficulty)
  {
    b := NextBlock(bc, timestamp);
    assert b !in bc.chain;
    var root := CalculateMerkleRoot(bh.sha, [hashCustomer, hashLocation, hashPayment]);
    b.SetHashes(hashCustomer, hashLocation, hashPayment, root.value);
    mined := b.Mine(bh, budget);
  }

  /** One commit step of the driver's loop: the record's block is built and,
      when mining succeeds, offered to the chain, which then grows by that
      block exactly when the save succeeds. A mining timeout skips the
      record and leaves the chain as it was. Either way a valid chain stays
      valid. */
  method CommitRecord(bh: BlockHashing, bc: Blockchain, timestamp: int,
                      hashCustomer: string, hashLocation: string, hashPayment: string,
                      budget: nat, saveOk: bool)
    returns (b: Block, mined: Outcome)
    modifies bc`chain
    ensures fresh(b)
    ensures b.blockId == (if |old(bc.chain)| > 0 then old(bc.chain)[|old(bc.chain)| - 1].blockId + 1 else 0)
    ensures b.prevHash == (if |old(bc.chain)| > 0 then old(bc.chain)[|old(bc.chain)| - 1].hash else GenesisPrevHash)
    ensures b.difficulty == bc.difficulty
    ensures b.merkleRoot == MerkleRoot(bh.sha, [hashCustomer, hashLocation, hashPayment])
    ensures mined.Fail? ==> mined == Fail(MiningTimeout) && bc.chain == old(bc.chain)
    ensures mined.Pass? ==> Sealed(bh, b) && bc.chain == old(bc.chain) + (if saveOk then [b] else [])
    ensures old(bc.Valid(bh)) ==> bc.Valid(bh)
  {
    b, mined := BuildBlock(bh, bc, timestamp, hashCustomer, hashLocation, hashPayment, budget);
    if mined.Fail? {
      return;
    }
    var added := bc.AddBlock(bh, b, saveOk);
  }

  /** The driver's start on an empty table: a new chain whose init mines a
      genesis block and offers it to addBlock. The chain holds that block
      when the save succeeds; a failed save is swallowed, so init still
      completes and leaves the chain empty. */
  method StartOnEmptyTable(bh: BlockHashing, difficulty: nat, timestamp: int, budget: nat, saveOk: bool)
    returns (bc: Blockchain, mined: bool)
    ensures fresh(bc) && bc.difficulty == difficulty
    ensures |bc.chain| == (if mined && saveOk then 1 else 0)
    ensures |bc.chain| == 1 ==> bc.chain[0].blockId == 0 && bc.chain[0].prevHash == GenesisPrevHash
    ensures |bc.chain| == 1 ==> MeetsDifficulty(bc.chain[0].hash, difficulty)
    ensures budget == 0 && difficulty > 0 ==> !mined
  {
    bc := new Blockchain(difficulty);
    var init := bc.Init(bh, [], timestamp, budget, saveOk);
    mined := init.Pass?;
    if |bc.chain| == 1 {
      assert Sealed(bh, bc.chain[0]);
    }
  }

  /** The end-to-end run on an empty table: init mines a genesis block and
      offers it, then one record is committed. A mining timeout in init ends
      the run with nothing stored, and no budget at a positive difficulty
      always times out. Otherwise each block that is mined and saved is
      appended: with both saves, blocks 0 and 1, the second linked to the
      first and carrying the record's Merkle root; with only the record's
      save, the record's block becomes block 0 after "0". Every stored hash
      meets the difficulty. */
  method GenesisThenOneBlock(bh: BlockHashing, difficulty: nat, t0: int, t1: int,
                             hashCustomer: string, hashLocation: string, hashPayment: string,
                             budget: nat, saveGenesis: bool, saveRecord: bool)
    returns (genesisMined: bool, blockMined: bool, chain: seq<Block>)
    ensures !genesisMined ==> chain == [] && !blockMined
    ensures |chain| == (if genesisMined && saveGenesis then 1 else 0) + (if blockMined && saveRecord then 1 else 0)
    ensures genesisMined && saveGenesis ==> chain[0].blockId == 0 && chain[0].prevHash == GenesisPrevHash
    ensures |chain| == 2 ==> chain[1].blockId == 1 && chain[1].prevHash == chain[0].hash
    ensures |chain| == 2 ==> chain[1].merkleRoot == MerkleRoot(bh.sha, [hashCustomer, hashLocation, hashPayment])
    ensures !saveGenesis && |chain| == 1 ==> chain[0].blockId == 0 && chain[0].prevHash == GenesisPrevHash
    ensures !saveGenesis && |chain| == 1 ==> chain[0].merkleRoot == MerkleRoot(bh.sha, [hashCustomer, hashLocation, hashPayment])
    ensures forall i :: 0 <= i < |chain| ==> MeetsDifficulty(chain[i].hash, difficulty)
    ensures budget == 0 && difficulty > 0 ==> !genesisMined
  {
    var bc;
    bc, genesisMined := StartOnEmptyTable(bh, difficulty, t0, budget, saveGenesis);
    blockMined := false;
    chain := bc.chain;
    if !genesisMined {
      return;
    }
    var before := bc.chain;
    ghost var sealedHash := if |before| == 1 then before[0].hash else "";
    var b, mined := CommitRecord(bh, bc, t1, hashCustomer, hashLocation, hashPayment, budget, saveRecord);
    blockMined := mined.Pass?;
    chain := bc.chain;
    assert |before| == 1 ==> before[0].hash == sealedHash;
    if blockMined && saveRecord {
      assert chain == before + [b];
      assert Sealed(bh, b);
    } else {
      assert chain == before;
    }
    forall i | 0 <= i < |chain|
      ensures MeetsDifficulty(chain[i].hash, difficulty)
    {
      if i == |before| {
        assert chain[i] == b;
      } else {
        assert chain[i] == before[0];
      }
    }
  }
}

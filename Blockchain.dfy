/** The chain of blocks: the specification of its validity and of the
    in-place rewrite on sequences of block records, and the `Blockchain`
    class whose methods change the blocks and the chain in place. */
module Ledger {
  import opened Hashing
  import opened Blocks

  const GenesisTimestamp := "01/01/2020"
  const GenesisData := JString("Genesis block")

  /** The block `createGenesisBlock` builds, nonce 0, hash computed over
      an unassigned nonce. */
  function GenesisRecord(e: HashEngine): (r: BlockRecord)
    ensures r.nonce == 0 && r.index == 0 && r.previousHash == "0"
    ensures r.hash == Digest(e, r.index, r.previousHash, r.timestamp, r.data, None)
  {
    BlockRecord(0, GenesisTimestamp, GenesisData, "0",
                Digest(e, 0, "0", GenesisTimestamp, GenesisData, None), 0)
  }

  /** The two checks `isChainValid` makes of block i (i >= 1). */
  predicate BlockValidAt(e: HashEngine, rs: seq<BlockRecord>, i: int)
    requires 1 <= i < |rs|
  {
    rs[i].hash == RecordHash(e, rs[i]) && rs[i].previousHash == rs[i - 1].hash
  }

  /** What `isChainValid` reports: every block after the genesis block
      stores its own recomputed hash and links to its predecessor's stored
      hash. The genesis block is never checked. */
  predicate ChainValid(e: HashEngine, rs: seq<BlockRecord>)
    ensures |rs| <= 1 ==> ChainValid(e, rs)
  {
    forall i :: 1 <= i < |rs| ==> BlockValidAt(e, rs, i)
  }

  /** What `modifyBlock(index, newData)` does to the chain's records. */
  function Modified(e: HashEngine, rs: seq<BlockRecord>, index: int, newData: Json): (rs': seq<BlockRecord>)
    ensures |rs'| == |rs|
    ensures !(1 <= index < |rs|) ==> rs' == rs
    ensures 1 <= index < |rs| ==>
              && (forall j :: 0 <= j < |rs| && j != index ==> rs'[j] == rs[j])
              && rs'[index].data == newData
              && rs'[index].hash == RecordHash(e, rs'[index])
              && rs'[index].index == rs[index].index
              && rs'[index].timestamp == rs[index].timestamp
              && rs'[index].previousHash == rs[index].previousHash
              && rs'[index].nonce == rs[index].nonce
  {
    if 1 <= index < |rs| then
      var r := rs[index].(data := newData);
      rs[index := r.(hash := RecordHash(e, r))]
    else
      rs
  }

  /** The genesis block's stored hash is computed from another string than
      the one its `calculateHash()` hashes, once numbers render in decimal;
      a chain of the genesis block alone is valid all the same. */
  lemma GenesisNotSelfHashed(e: HashEngine)
    requires e.numberText(0) == IntToDecimal(0)
    ensures HashInput(e, 0, "0", GenesisTimestamp, GenesisData, None)
         != HashInput(e, 0, "0", GenesisTimestamp, GenesisData, Some(GenesisRecord(e).nonce))
    ensures ChainValid(e, [GenesisRecord(e)])
  {
    UnassignedNonceInputDiffers(e, 0, "0", GenesisTimestamp, GenesisData, 0);
  }

  /** Appending to a non-empty chain keeps it valid exactly when the new
      block links to the old last block and stores its own recomputed hash. */
  lemma AppendValid(e: HashEngine, rs: seq<BlockRecord>, r: BlockRecord)
    requires |rs| >= 1
    ensures ChainValid(e, rs + [r]) <==>
              ChainValid(e, rs) && r.previousHash == rs[|rs| - 1].hash && r.hash == RecordHash(e, r)
  {
    var t := rs + [r];
    if ChainValid(e, t) {
      forall i | 1 <= i < |rs| ensures BlockValidAt(e, rs, i) {
        assert BlockValidAt(e, t, i);
      }
      assert BlockValidAt(e, t, |rs|);
    }
    if ChainValid(e, rs) && r.previousHash == rs[|rs| - 1].hash && r.hash == RecordHash(e, r) {
      forall i | 1 <= i < |t| ensures BlockValidAt(e, t, i) {
        if i < |rs| { assert BlockValidAt(e, rs, i); }
      }
    }
  }

  /** Rewriting a block that has a successor, in a valid chain, leaves the
      chain valid exactly when the rewritten block's hash did not change:
      the successor still links to the old hash, since nothing re-links it. */
  lemma ModifyInteriorValidIff(e: HashEngine, rs: seq<BlockRecord>, index: int, newData: Json)
    requires ChainValid(e, rs)
    requires 1 <= index < |rs| - 1
    ensures ChainValid(e, Modified(e, rs, index, newData)) <==>
              Modified(e, rs, index, newData)[index].hash == rs[index].hash
  {
    var t := Modified(e, rs, index, newData);
    if ChainValid(e, t) {
      assert BlockValidAt(e, t, index + 1);
      assert BlockValidAt(e, rs, index + 1);
    }
    if t[index].hash == rs[index].hash {
      forall i | 1 <= i < |t| ensures BlockValidAt(e, t, i) {
        assert BlockValidAt(e, rs, i);
      }
    }
  }

  /** Rewriting the last block of a valid chain keeps it valid. */
  lemma ModifyLastKeepsValid(e: HashEngine, rs: seq<BlockRecord>, newData: Json)
    requires ChainValid(e, rs)
    requires |rs| >= 2
    ensures ChainValid(e, Modified(e, rs, |rs| - 1, newData))
  {
    var t := Modified(e, rs, |rs| - 1, newData);
    forall i | 1 <= i < |t| ensures BlockValidAt(e, t, i) {
      assert BlockValidAt(e, rs, i);
    }
  }

  /** A block can be mined: either its stored hash already passes the exit
      test, or some larger nonce gives an admissible `calculateHash()`.
      Without one of the two the mining loop never ends. */
  ghost predicate Minable(e: HashEngine, r: BlockRecord, difficulty: nat)
  {
    MeetsDifficulty(r.hash, difficulty) ||
    exists n: int :: n > r.nonce && MeetsDifficulty(NonceHash(e, r, n), difficulty)
  }

  /** The record with its stored hash replaced by its recomputed hash. */
  function Rehashed(e: HashEngine, r: BlockRecord): (r': BlockRecord)
    ensures r'.hash == RecordHash(e, r')
    ensures r' == r.(hash := r'.hash)
  {
    r.(hash := RecordHash(e, r))
  }

  class Blockchain {
    var chain: seq<Block>
    const difficulty: nat
    const engine: HashEngine

    /** The chain is never empty and holds no block object twice. */
    ghost predicate Valid()
      reads this
    {
      |chain| >= 1 &&
      forall i, j :: 0 <= i < j < |chain| ==> chain[i] != chain[j]
    }

    /** The field values of the blocks, in chain order. */
    ghost function View(): (rs: seq<BlockRecord>)
      reads this, chain
      ensures |rs| == |chain|
      ensures forall i :: 0 <= i < |chain| ==> rs[i] == chain[i].Record()
    {
      RecordsOf(chain)
    }

    static ghost function RecordsOf(bs: seq<Block>): (rs: seq<BlockRecord>)
      reads bs
      ensures |rs| == |bs|
      ensures forall i :: 0 <= i < |bs| ==> rs[i] == bs[i].Record()
    {
      if bs == [] then [] else RecordsOf(bs[..|bs| - 1]) + [bs[|bs| - 1].Record()]
    }

    static method CreateGenesisBlock(e: HashEngine) returns (b: Block)
      ensures fresh(b)
      ensures b.Record() == GenesisRecord(e)
    {
      b := new Block(0, GenesisTimestamp, GenesisData, e, "0");
    }

    /** A new chain holds the genesis block alone; difficulty is 2. */
    constructor (e: HashEngine)
      ensures Valid() && engine == e && difficulty == 2
      ensures |chain| == 1 && fresh(chain[0])
      ensures chain[0].index == 0 && chain[0].timestamp == "01/01/2020"
      ensures chain[0].data == JString("Genesis block") && chain[0].previousHash == "0"
      ensures chain[0].nonce == 0
      ensures View() == [GenesisRecord(e)]
      ensures ChainValid(engine, View())
    {
      var genesis := CreateGenesisBlock(e);
      chain := [genesis];
      difficulty := 2;
      engine := e;
    }

    function GetLatestBlock(): (b: Block)
      reads this
      requires Valid()
      ensures b == chain[|chain| - 1]
      ensures b in chain
    {
      chain[|chain| - 1]
    }

    /** `mineBlock`: bump the nonce and recompute the hash until the stored
        hash passes the exit test. The test is made on the hash as it stands
        before the first recomputation, so a stale hash that already passes
        ends the loop at once. */
    method MineBlock(block: Block)
      requires Minable(engine, block.Record(), difficulty)
      modifies block
      ensures block.data == old(block.data) && block.previousHash == old(block.previousHash)
      ensures MeetsDifficulty(block.hash, difficulty)
      ensures block.nonce >= old(block.nonce)
      ensures MeetsDifficulty(old(block.hash), difficulty) ==>
                block.nonce == old(block.nonce) && block.hash == old(block.hash)
      ensures !MeetsDifficulty(old(block.hash), difficulty) ==>
                block.nonce > old(block.nonce) && block.hash == block.CalculateHash(engine)
      ensures forall n :: old(block.nonce) < n < block.nonce ==>
                !MeetsDifficulty(Digest(engine, block.index, block.previousHash, block.timestamp,
                                        block.data, Some(n)), difficulty)
    {
      ghost var start, stale := block.nonce, block.hash;
      ghost var data, prev := block.data, block.previousHash;
      ghost var target: int := start;
      if !MeetsDifficulty(stale, difficulty) {
        target :| target > start && MeetsDifficulty(NonceHash(engine, block.Record(), target), difficulty);
      }
      while !MeetsDifficulty(block.hash, difficulty)
        invariant start <= block.nonce <= target
        invariant block.data == data && block.previousHash == prev
        invariant block.nonce == start ==> block.hash == stale
        invariant block.nonce > start ==> block.hash == block.CalculateHash(engine)
        invariant forall n :: start < n < block.nonce ==>
                    !MeetsDifficulty(Digest(engine, block.index, prev, block.timestamp, data, Some(n)), difficulty)
        decreases target - block.nonce
      {
        block.nonce := block.nonce + 1;
        block.hash := block.CalculateHash(engine);
      }
    }

    /** `addBlock`: link the block to the last stored hash, mine it, push it.
        The chain stays valid when mining recomputed the hash; a block whose
        stale hash already passed the exit test is pushed unmined. */
    method AddBlock(newBlock: Block)
      requires Valid() && newBlock !in chain
      requires Minable(engine, newBlock.Record().(previousHash := chain[|chain| - 1].hash), difficulty)
      modifies this, newBlock
      ensures Valid() && chain == old(chain) + [newBlock]
      ensures View() == old(View()) + [newBlock.Record()]
      ensures newBlock.previousHash == old(chain[|chain| - 1].hash)
      ensures newBlock.data == old(newBlock.data)
      ensures MeetsDifficulty(newBlock.hash, difficulty)
      ensures newBlock.nonce >= old(newBlock.nonce)
      ensures MeetsDifficulty(old(newBlock.hash), difficulty) ==>
                newBlock.nonce == old(newBlock.nonce) && newBlock.hash == old(newBlock.hash)
      ensures forall n :: old(newBlock.nonce) < n < newBlock.nonce ==>
                !MeetsDifficulty(Digest(engine, newBlock.index, newBlock.previousHash, newBlock.timestamp,
                                        newBlock.data, Some(n)), difficulty)
      ensures !MeetsDifficulty(old(newBlock.hash), difficulty) ==>
                newBlock.nonce > old(newBlock.nonce) &&
                newBlock.hash == newBlock.CalculateHash(engine) &&
                (ChainValid(engine, View()) <==> ChainValid(engine, old(View())))
    {
      ghost var before := View();
      newBlock.previousHash := GetLatestBlock().hash;
      MineBlock(newBlock);
      chain := chain + [newBlock];
      assert View() == before + [newBlock.Record()];
      AppendValid(engine, before, newBlock.Record());
    }

    /** `addBlock` with the hash recomputed after the block is linked, so
        the mining loop always tests a current hash. It keeps the chain
        valid in every case. */
    method AddBlockRehashed(newBlock: Block)
      requires Valid() && newBlock !in chain
      requires Minable(engine, Rehashed(engine, newBlock.Record().(previousHash := chain[|chain| - 1].hash)), difficulty)
      modifies this, newBlock
      ensures Valid() && chain == old(chain) + [newBlock]
      ensures View() == old(View()) + [newBlock.Record()]
      ensures newBlock.previousHash == old(chain[|chain| - 1].hash)
      ensures newBlock.data == old(newBlock.data)
      ensures MeetsDifficulty(newBlock.hash, difficulty)
      ensures newBlock.hash == newBlock.CalculateHash(engine)
      ensures forall n :: old(newBlock.nonce) < n < newBlock.nonce ==>
                !MeetsDifficulty(Digest(engine, newBlock.index, newBlock.previousHash, newBlock.timestamp,
                                        newBlock.data, Some(n)), difficulty)
      ensures ChainValid(engine, View()) <==> ChainValid(engine, old(View()))
    {
      ghost var before := View();
      newBlock.previousHash := GetLatestBlock().hash;
      newBlock.hash := newBlock.CalculateHash(engine);
      MineBlock(newBlock);
      chain := chain + [newBlock];
      assert View() == before + [newBlock.Record()];
      AppendValid(engine, before, newBlock.Record());
    }

    /** `isChainValid`: scan blocks 1 .. len-1 and stop at the first whose
        stored hash is not its recomputed hash or whose link is broken. */
    method IsChainValid() returns (valid: bool)
      requires Valid()
      ensures valid == ChainValid(engine, View())
    {
      var i := 1;
      while i < |chain|
        invariant 1 <= i <= |chain|
        invariant forall k :: 1 <= k < i ==> BlockValidAt(engine, View(), k)
      {
        var currentBlock := chain[i];
        var previousBlock := chain[i - 1];
        if currentBlock.hash != currentBlock.CalculateHash(engine) {
          assert !BlockValidAt(engine, View(), i);
          return false;
        }
        if currentBlock.previousHash != previousBlock.hash {
          assert !BlockValidAt(engine, View(), i);
          return false;
        }
        i := i + 1;
      }
      return true;
    }

    /** `modifyBlock`: refuse the genesis block and indices past the end;
        otherwise overwrite the block's data and store its recomputed hash.
        The block is not re-mined and its successor is not re-linked. */
    method ModifyBlock(index: int, newData: Json) returns (ok: bool)
      requires Valid()
      modifies chain
      ensures ok <==> 1 <= index < |chain|
      ensures Valid() && chain == old(chain)
      ensures View() == Modified(engine, old(View()), index, newData)
    {
      if index < 1 || index >= |chain| {
        return false;
      }
      ghost var before := View();
      chain[index].data := newData;
      chain[index].hash := chain[index].CalculateHash(engine);
      ghost var after := Modified(engine, before, index, newData);
      forall j | 0 <= j < |chain| ensures View()[j] == after[j] {
        if j != index {
          assert chain[j] != chain[index];
        }
      }
      assert View() == after;
      return true;
    }
  }
}

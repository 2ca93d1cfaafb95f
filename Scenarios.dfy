/** Concrete runs of the ledger against a toy hash engine, chosen so that
    the hash computed by the `Block` constructor (whose input ends in
    "undefined") already starts with "00". A real SHA-256 does this for
    about one block in 256 at difficulty 2. */
module Scenarios {
  import opened Hashing
  import opened Blocks
  import opened Ledger

  /** Digests an input ending in 'd' or '1' to "00" and any other input
      to "11"; renders numbers in decimal. */
  function ToyEngine(): HashEngine
  {
    HashEngine(s => if |s| > 0 && (s[|s| - 1] == 'd' || s[|s| - 1] == '1') then "00" else "11",
               j => "{}",
               n => IntToDecimal(n))
  }

  /** The digests the scenarios below rely on. */
  lemma ToyDigests(prev: string)
    ensures Digest(ToyEngine(), 1, "", "t", JNull, None) == "00"
    ensures Digest(ToyEngine(), 1, prev, "t", JNull, Some(0)) == "11"
    ensures Digest(ToyEngine(), 1, prev, "t", JNull, Some(1)) == "00"
    ensures MeetsDifficulty("00", 2) && !MeetsDifficulty("11", 2)
  {
    var e := ToyEngine();
    var stale := HashInput(e, 1, "", "t", JNull, None);
    assert stale == "1" + "" + "t" + "{}" + "undefined";
    assert stale[|stale| - 1] == 'd';
    var input0 := HashInput(e, 1, prev, "t", JNull, Some(0));
    assert input0 == "1" + prev + "t" + "{}" + "0";
    assert input0[|input0| - 1] == '0';
    var input1 := HashInput(e, 1, prev, "t", JNull, Some(1));
    assert input1 == "1" + prev + "t" + "{}" + "1";
    assert input1[|input1| - 1] == '1';
    assert Zeros(2) == "00";
    assert Prefix("11", 2) == "11";
    assert "11"[0] != "00"[0];
  }

  /** `addBlock` as written, on a new chain: when the block's
      constructor-time hash (previousHash "", nonce undefined) already passes
      the difficulty test and differs from its `calculateHash()` once linked,
      the mining loop does not run and `isChainValid` reports the chain
      invalid after nothing but an append. */
  method StaleHashBreaksAppend(e: HashEngine, index: int, timestamp: string, data: Json)
    returns (valid: bool)
    requires MeetsDifficulty(Digest(e, index, "", timestamp, data, None), 2)
    requires Digest(e, index, "", timestamp, data, None)
          != Digest(e, index, GenesisRecord(e).hash, timestamp, data, Some(0))
    ensures !valid
  {
    var ledger := new Blockchain(e);
    var block := new Block(index, timestamp, data, e);
    ledger.AddBlock(block);
    valid := ledger.IsChainValid();
    assert !BlockValidAt(e, ledger.View(), 1);
  }

  /** The toy engine meets both conditions above for block 1 with
      timestamp "t" and payload null. */
  lemma ToyEngineSkipsMining()
    ensures MeetsDifficulty(Digest(ToyEngine(), 1, "", "t", JNull, None), 2)
    ensures Digest(ToyEngine(), 1, "", "t", JNull, None)
         != Digest(ToyEngine(), 1, GenesisRecord(ToyEngine()).hash, "t", JNull, Some(0))
  {
    ToyDigests(GenesisRecord(ToyEngine()).hash);
  }

  /** The same append with the hash recomputed after linking leaves a new
      chain valid, whatever the engine, once some nonce can be mined. */
  method RehashedAppendStaysValid(e: HashEngine, index: int, timestamp: string, data: Json)
    returns (valid: bool)
    requires Minable(e, Rehashed(e, BlockRecord(index, timestamp, data, GenesisRecord(e).hash, "", 0)), 2)
    ensures valid
  {
    var ledger := new Blockchain(e);
    var block := new Block(index, timestamp, data, e);
    assert block.Record().(previousHash := ledger.chain[0].hash).(hash := "")
        == BlockRecord(index, timestamp, data, GenesisRecord(e).hash, "", 0);
    ledger.AddBlockRehashed(block);
    valid := ledger.IsChainValid();
  }

  /** On the toy engine that append can be mined: the recomputed hash at
      nonce 0 fails the test and the one at nonce 1 passes. */
  lemma ToyEngineMinesAtOne()
    ensures Minable(ToyEngine(), Rehashed(ToyEngine(), BlockRecord(1, "t", JNull, GenesisRecord(ToyEngine()).hash, "", 0)), 2)
    ensures !MeetsDifficulty(Digest(ToyEngine(), 1, GenesisRecord(ToyEngine()).hash, "t", JNull, Some(0)), 2)
  {
    var e := ToyEngine();
    var r := Rehashed(e, BlockRecord(1, "t", JNull, GenesisRecord(e).hash, "", 0));
    ToyDigests(GenesisRecord(e).hash);
    assert NonceHash(e, r, 1) == "00";
  }
}

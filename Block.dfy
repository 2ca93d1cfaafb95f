/** A block of the ledger: an object whose `data`, `previousHash`, `hash`
    and `nonce` are overwritten in place by the chain, and the record of
    its field values at one moment. */
module Blocks {
  import opened Hashing

  /** The values of a block's six fields. */
  datatype BlockRecord = BlockRecord(index: int, timestamp: string, data: Json,
                                     previousHash: string, hash: string, nonce: nat)

  /** `calculateHash()` of a block whose fields are `r`, had its nonce been `n`. */
  function NonceHash(e: HashEngine, r: BlockRecord, n: int): string
  {
    Digest(e, r.index, r.previousHash, r.timestamp, r.data, Some(n))
  }

  /** `calculateHash()` of a block whose fields are `r`. */
  function RecordHash(e: HashEngine, r: BlockRecord): string
  {
    NonceHash(e, r, r.nonce)
  }

  class Block {
    const index: int
    const timestamp: string
    var data: Json
    var previousHash: string
    var hash: string
    var nonce: nat

    /** The constructor computes `hash` before `nonce` is assigned, so the
        stored hash is the digest of an input ending in "undefined", not
        `calculateHash()` of the finished block. `previousHash` defaults to
        the empty string. */
    constructor (index: int, timestamp: string, data: Json, e: HashEngine, previousHash: string := "")
      ensures this.index == index && this.timestamp == timestamp
      ensures this.data == data && this.previousHash == previousHash
      ensures this.nonce == 0
      ensures hash == Digest(e, index, previousHash, timestamp, data, None)
    {
      this.index := index;
      this.timestamp := timestamp;
      this.data := data;
      this.previousHash := previousHash;
      this.hash := Digest(e, index, previousHash, timestamp, data, None);
      this.nonce := 0;
    }

    function Record(): BlockRecord
      reads this
    {
      BlockRecord(index, timestamp, data, previousHash, hash, nonce)
    }

    /** `calculateHash()`: the digest of the current fields, the nonce
        included as assigned; it does not store the result. */
    function CalculateHash(e: HashEngine): (h: string)
      reads this
      ensures h == Digest(e, index, previousHash, timestamp, data, Some(nonce))
    {
      RecordHash(e, Record())
    }
  }

  /** Two blocks constructed from the same arguments carry the same hash,
      and that hash is not, in general, the one `calculateHash()` gives.
      This is determinism of the constructor: both facts follow directly
      from its postcondition, with no further proof. */
  method ConstructTwice(index: int, timestamp: string, data: Json, previousHash: string, e: HashEngine)
    returns (first: string, second: string)
    ensures first == second
    ensures first == Digest(e, index, previousHash, timestamp, data, None)
  {
    var a := new Block(index, timestamp, data, e, previousHash);
    var b := new Block(index, timestamp, data, e, previousHash);
    first, second := a.hash, b.hash;
  }
}

/** The digest a block carries: SHA-256 over the concatenation
    index + previousHash + timestamp + JSON.stringify(data) + nonce,
    as JavaScript's `+` renders each operand as text. SHA-256,
    JSON.stringify and the rendering of a number as text are outside
    code; they are the three functions of a `HashEngine` value and
    nothing is assumed about them, except where a lemma says so. */
module Hashing {

  datatype Option<T> = None | Some(value: T)

  /** The payload of a block: any value JSON can carry (the request body,
      or the genesis string). Numbers are restricted to integers. */
  datatype Json =
    | JNull
    | JBool(b: bool)
    | JNumber(n: int)
    | JString(s: string)
    | JArray(items: seq<Json>)
    | JObject(members: seq<(string, Json)>)

  /** The outside functions the digest is built from: SHA-256 (as a hex
      string), JSON.stringify, and JavaScript's conversion of a number
      to a string. */
  datatype HashEngine = HashEngine(sha256: string -> string, stringify: Json -> string,
                                   numberText: int -> string)

  function DigitChar(d: nat): (c: char)
    requires d < 10
    ensures '0' <= c <= '9'
  {
    (48 + d) as char
  }

  /** Decimal text of a natural number, as `String(n)` prints it. */
  function NatToDecimal(n: nat): (r: string)
    ensures |r| >= 1
    ensures forall k :: 0 <= k < |r| ==> '0' <= r[k] <= '9'
    decreases n
  {
    if n < 10 then [DigitChar(n)] else NatToDecimal(n / 10) + [DigitChar(n % 10)]
  }

  /** Decimal text of an integer, with a leading '-' when negative: what
      JavaScript's number-to-string conversion gives for an integer. */
  function IntToDecimal(n: int): (r: string)
    ensures |r| >= 1
    ensures n >= 0 ==> forall k :: 0 <= k < |r| ==> '0' <= r[k] <= '9'
  {
    if n < 0 then "-" + NatToDecimal(-n) else NatToDecimal(n)
  }

  /** How the nonce is rendered in the hash input: a field that has not
      been assigned yet reads as `undefined`. */
  function NonceText(e: HashEngine, nonce: Option<int>): string
  {
    match nonce
    case None => "undefined"
    case Some(n) => e.numberText(n)
  }

  /** The string that is handed to SHA-256: the five fields rendered as
      text, in this order, with nothing between them. */
  function HashInput(e: HashEngine, index: int, previousHash: string, timestamp: string,
                     data: Json, nonce: Option<int>): string
  {
    e.numberText(index) + previousHash + timestamp + e.stringify(data) + NonceText(e, nonce)
  }

  /** The hash input starts with the rendered index, continues with
      previousHash and ends with the rendered nonce; its length is the sum
      of the five parts, so nothing separates the fields. */
  lemma HashInputLayout(e: HashEngine, index: int, previousHash: string, timestamp: string,
                        data: Json, nonce: Option<int>)
    ensures var r := HashInput(e, index, previousHash, timestamp, data, nonce);
            && |r| == |e.numberText(index)| + |previousHash| + |timestamp|
                      + |e.stringify(data)| + |NonceText(e, nonce)|
            && r[..|e.numberText(index)|] == e.numberText(index)
            && r[|e.numberText(index)|..|e.numberText(index)| + |previousHash|] == previousHash
            && r[|r| - |NonceText(e, nonce)|..] == NonceText(e, nonce)
  {
  }

  function Digest(e: HashEngine, index: int, previousHash: string, timestamp: string,
                  data: Json, nonce: Option<int>): string
  {
    e.sha256(HashInput(e, index, previousHash, timestamp, data, nonce))
  }

  /** The digest sees the fields only through their concatenation: moving
      characters from the end of previousHash to the front of the
      timestamp gives another block with the same digest, whatever
      SHA-256 is. */
  lemma DigestSeesOnlyConcatenation(e: HashEngine, index: int, previousHash: string, moved: string,
                                    timestamp: string, data: Json, nonce: Option<int>)
    ensures Digest(e, index, previousHash + moved, timestamp, data, nonce)
         == Digest(e, index, previousHash, moved + timestamp, data, nonce)
  {
    var a := e.numberText(index);
    assert a + (previousHash + moved) + timestamp + e.stringify(data) + NonceText(e, nonce)
        == a + previousHash + (moved + timestamp) + e.stringify(data) + NonceText(e, nonce);
  }

  /** The hash input the constructor uses (nonce not yet assigned) is a
      different string from the one `calculateHash` uses for the same
      fields and any assigned non-negative nonce rendered in decimal: the
      former ends in the letter 'd' of "undefined", the latter in a digit.
      Nothing forces their digests apart, since SHA-256 is not modelled. */
  lemma UnassignedNonceInputDiffers(e: HashEngine, index: int, previousHash: string,
                                    timestamp: string, data: Json, n: int)
    requires n >= 0 && e.numberText(n) == IntToDecimal(n)
    ensures HashInput(e, index, previousHash, timestamp, data, None)
         != HashInput(e, index, previousHash, timestamp, data, Some(n))
  {
    var prefix := e.numberText(index) + previousHash + timestamp + e.stringify(data);
    var a := HashInput(e, index, previousHash, timestamp, data, None);
    var b := HashInput(e, index, previousHash, timestamp, data, Some(n));
    var digits := IntToDecimal(n);
    assert a == prefix + "undefined";
    assert b == prefix + digits;
    assert a[|a| - 1] == 'd';
    assert b[|b| - 1] == digits[|digits| - 1];
  }

  /** `Array(d + 1).join('0')`: the string of d zero characters. */
  function Zeros(d: nat): (z: string)
    ensures |z| == d
    ensures forall k :: 0 <= k < d ==> z[k] == '0'
  {
    if d == 0 then "" else Zeros(d - 1) + "0"
  }

  /** `h.substring(0, d)`: JavaScript clamps the end to the length. */
  function Prefix(h: string, d: nat): (p: string)
    ensures |p| == if d <= |h| then d else |h|
    ensures p == h[..|p|]
  {
    if d <= |h| then h[..d] else h
  }

  /** The mining loop's exit test: `h.substring(0, d) === Array(d + 1).join('0')`. */
  predicate MeetsDifficulty(h: string, d: nat)
    ensures MeetsDifficulty(h, d) ==> d <= |h|
  {
    Prefix(h, d) == Zeros(d)
  }

  /** The exit test holds exactly when the hash has at least d characters
      and its first d characters are all '0'. */
  lemma MeetsDifficultyIff(h: string, d: nat)
    ensures MeetsDifficulty(h, d) <==> d <= |h| && forall k :: 0 <= k < d ==> h[k] == '0'
  {
    if d <= |h| && forall k :: 0 <= k < d ==> h[k] == '0' {
      assert h[..d] == Zeros(d);
    }
    if d > |h| {
      assert |Prefix(h, d)| < |Zeros(d)|;
    }
  }
}

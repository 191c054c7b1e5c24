/** The keys of equivalent proofs: a hash or a nonce, a separator, and a shard. */
module ProofKeys {
  import opened Machine
  import opened Text

  const SEPARATOR: char := '-'

  datatype KeyError = InvalidHashShardKey | InvalidNonceShardKey | InvalidHex | InvalidNumber

  function GetEquivalentProofNonceShardKey(nonce: uint64, shardID: uint32): string {
    FormatNat(nonce) + [SEPARATOR] + FormatNat(shardID)
  }

  function GetEquivalentProofHashShardKey(hash: seq<byte>, shardID: uint32): string {
    EncodeHex(hash) + [SEPARATOR] + FormatNat(shardID)
  }

  /** The shard is converted to uint32, which keeps its low 32 bits. */
  function GetHashAndShardFromKey(key: string): Result<(seq<byte>, uint32), KeyError> {
    var result := Split(key, SEPARATOR);
    if |result| != 2 then Err(InvalidHashShardKey) else ParseHashAndShard(result[0], result[1])
  }

  function ParseHashAndShard(hashPart: string, shardPart: string): Result<(seq<byte>, uint32), KeyError> {
    match DecodeHex(hashPart)
    case None => Err(InvalidHex)
    case Some(hash) =>
      match Atoi(shardPart)
      case None => Err(InvalidNumber)
      case Some(shard) => Ok((hash, shard % TWO_32))
  }

  function GetNonceAndShardFromKey(key: string): Result<(uint64, uint32), KeyError> {
    var result := Split(key, SEPARATOR);
    if |result| != 2 then Err(InvalidNonceShardKey) else ParseNonceAndShard(result[0], result[1])
  }

  function ParseNonceAndShard(noncePart: string, shardPart: string): Result<(uint64, uint32), KeyError> {
    match Atoi(noncePart)
    case None => Err(InvalidNumber)
    case Some(nonce) =>
      match Atoi(shardPart)
      case None => Err(InvalidNumber)
      case Some(shard) => Ok((nonce % TWO_64, shard % TWO_32))
  }

  /** Parsing a printed hash-shard key gives hash and shard back, for every byte string. */
  lemma HashShardKeyRoundTrip(hash: seq<byte>, shardID: uint32)
    ensures GetHashAndShardFromKey(GetEquivalentProofHashShardKey(hash, shardID)) == Ok((hash, shardID))
    ensures var key, n := GetEquivalentProofHashShardKey(hash, shardID), 2 * |hash|;
            n < |key| && key[n] == '-' && (forall i :: 0 <= i < n ==> IsLowerHexDigit(key[i])) && IsPlainNumber(key[n + 1..], shardID)
  {
    HashShardKeyText(hash, shardID);
    hide IsLowerHexDigit, IsPlainNumber;
    hide EncodeHex, DecodeHex, FormatNat, Atoi, Split;
    HexRoundTrip(hash);
    FormatNatDigits(shardID);
    AtoiOfFormatted(shardID);
    assert ParseHashAndShard(EncodeHex(hash), FormatNat(shardID)) == Ok((hash, shardID));
    hide ParseHashAndShard;
    SplitTwo(EncodeHex(hash), FormatNat(shardID), SEPARATOR);
  }

  /**
   Parsing a printed nonce-shard key gives nonce and shard back exactly if the nonce is below
   2^63; a larger nonce does not fit the int it is read into, and its own key is rejected.
   */
  lemma NonceShardKeyRoundTrip(nonce: uint64, shardID: uint32)
    ensures GetNonceAndShardFromKey(GetEquivalentProofNonceShardKey(nonce, shardID)) ==
            if nonce <= MAX_INT then Ok((nonce, shardID)) else Err(InvalidNumber)
  {
    hide FormatNat, Atoi, Split;
    FormatNatDigits(nonce);
    FormatNatDigits(shardID);
    AtoiOfFormatted(nonce);
    AtoiOfFormatted(shardID);
    assert ParseNonceAndShard(FormatNat(nonce), FormatNat(shardID)) ==
           if nonce <= MAX_INT then Ok((nonce, shardID)) else Err(InvalidNumber);
    hide ParseNonceAndShard;
    SplitTwo(FormatNat(nonce), FormatNat(shardID), SEPARATOR);
  }

  /** Different nonces or shards never share a key, large nonces included. */
  lemma NonceShardKeyInjective(nonce: uint64, shardID: uint32, nonce': uint64, shardID': uint32)
    requires GetEquivalentProofNonceShardKey(nonce, shardID) == GetEquivalentProofNonceShardKey(nonce', shardID')
    ensures nonce == nonce' && shardID == shardID'
  {
    FormatNatDigits(nonce);
    FormatNatDigits(shardID);
    FormatNatDigits(nonce');
    FormatNatDigits(shardID');
    SplitTwo(FormatNat(nonce), FormatNat(shardID), SEPARATOR);
    SplitTwo(FormatNat(nonce'), FormatNat(shardID'), SEPARATOR);
    hide Split;
    assert [FormatNat(nonce), FormatNat(shardID)][0] == [FormatNat(nonce'), FormatNat(shardID')][0];
    assert [FormatNat(nonce), FormatNat(shardID)][1] == [FormatNat(nonce'), FormatNat(shardID')][1];
  }

  // ---------- the text of a key ----------

  /** A number without leading zeros. */
  predicate IsPlainNumber(s: string, n: nat) {
    s != "" && AllDigits(s) && DigitsValue(s) == n && (s[0] == '0' ==> |s| == 1)
  }

  lemma PrintedIsPlain(n: nat)
    ensures IsPlainNumber(FormatNat(n), n)
  {
    FormatNatDigits(n);
    FormatNatIsPlain(n);
  }

  /** A hash-shard key is the hash in lower-case hexadecimal, a hyphen, and the shard in plain decimal. */
  lemma HashShardKeyText(hash: seq<byte>, shardID: uint32)
    ensures var key, n := GetEquivalentProofHashShardKey(hash, shardID), 2 * |hash|;
            && n < |key| && key[n] == '-'
            && (forall i :: 0 <= i < n ==> IsLowerHexDigit(key[i])) && DecodeHex(key[..n]) == Some(hash)
            && IsPlainNumber(key[n + 1..], shardID)
  {
    HexRoundTrip(hash);
    HexIsLowerCase(hash);
    PrintedIsPlain(shardID);
    hide EncodeHex, DecodeHex, FormatNat, IsPlainNumber, IsLowerHexDigit;
    var key, n := GetEquivalentProofHashShardKey(hash, shardID), 2 * |hash|;
    assert key[..n] == EncodeHex(hash) && key[n + 1..] == FormatNat(shardID);
  }

  /** A nonce-shard key is the nonce, a hyphen, and the shard, both in plain decimal. */
  lemma NonceShardKeyText(nonce: uint64, shardID: uint32)
    ensures var key, n := GetEquivalentProofNonceShardKey(nonce, shardID), |FormatNat(nonce)|;
            && n < |key| && key[n] == '-'
            && IsPlainNumber(key[..n], nonce) && IsPlainNumber(key[n + 1..], shardID)
  {
    PrintedIsPlain(nonce);
    PrintedIsPlain(shardID);
    hide FormatNat, IsPlainNumber;
    var key, n := GetEquivalentProofNonceShardKey(nonce, shardID), |FormatNat(nonce)|;
    assert key[..n] == FormatNat(nonce) && key[n + 1..] == FormatNat(shardID);
  }

  // ---------- which keys are accepted ----------

  /** The key is two texts around its only hyphen. */
  predicate Around(key: string, a: string, b: string) {
    '-' !in a && '-' !in b && key == a + ['-'] + b
  }

  /**
   A hash-shard key is accepted exactly if it has one hyphen, hexadecimal text before it and a
   number that fits 64 bits behind it; of that number the low 32 bits are kept.
   */
  lemma HashShardKeyParses(key: string, hash: seq<byte>, shardID: uint32)
    ensures GetHashAndShardFromKey(key) == Ok((hash, shardID)) <==>
            exists a, b :: Around(key, a, b) && DecodeHex(a) == Some(hash)
                           && Atoi(b).Some? && shardID == Atoi(b).value % 0x1_0000_0000
  {
    hide DecodeHex, Atoi, Split;
    if |Split(key, '-')| == 2 {
      SplitIntoTwo(key, '-');
      assert Around(key, Split(key, '-')[0], Split(key, '-')[1]);
    }
    forall a, b | Around(key, a, b)
      ensures Split(key, '-') == [a, b]
    {
      SplitTwo(a, b, '-');
    }
  }

  /** A nonce-shard key is accepted exactly if it has one hyphen and numbers that fit 64 bits on both sides. */
  lemma NonceShardKeyParses(key: string, nonce: uint64, shardID: uint32)
    ensures GetNonceAndShardFromKey(key) == Ok((nonce, shardID)) <==>
            exists a, b :: Around(key, a, b) && Atoi(a).Some? && nonce == Atoi(a).value % 0x1_0000_0000_0000_0000
                           && Atoi(b).Some? && shardID == Atoi(b).value % 0x1_0000_0000
  {
    hide Atoi, Split;
    if |Split(key, '-')| == 2 {
      SplitIntoTwo(key, '-');
      assert Around(key, Split(key, '-')[0], Split(key, '-')[1]);
    }
    forall a, b | Around(key, a, b)
      ensures Split(key, '-') == [a, b]
    {
      SplitTwo(a, b, '-');
    }
  }

  /** Which error a refused key gives. */
  lemma RefusedKeys(key: string)
    ensures GetHashAndShardFromKey(key) == Err(InvalidHashShardKey) <==> forall a, b :: !Around(key, a, b)
    ensures GetNonceAndShardFromKey(key) == Err(InvalidNonceShardKey) <==> forall a, b :: !Around(key, a, b)
    ensures forall a, b :: Around(key, a, b) ==>
              && (DecodeHex(a) == None ==> GetHashAndShardFromKey(key) == Err(InvalidHex))
              && (DecodeHex(a).Some? && Atoi(b) == None ==> GetHashAndShardFromKey(key) == Err(InvalidNumber))
              && (Atoi(a) == None || Atoi(b) == None ==> GetNonceAndShardFromKey(key) == Err(InvalidNumber))
  {
    hide DecodeHex, Atoi, Split;
    if |Split(key, '-')| == 2 {
      SplitIntoTwo(key, '-');
      assert Around(key, Split(key, '-')[0], Split(key, '-')[1]);
    }
    forall a, b | Around(key, a, b)
      ensures Split(key, '-') == [a, b]
    {
      SplitTwo(a, b, '-');
    }
  }
}

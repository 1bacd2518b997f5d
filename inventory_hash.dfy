/** `InventoryHash`, the entry of `inv` and `getdata` messages: a 4-byte
    little-endian type code followed by a 32-byte hash, and for witnessed
    transactions (code 5) a second 32-byte authorizing-data digest. */
module InventoryHashCodec {
  import opened Wrappers
  import opened Serialization

  type Hash32 = s: seq<Byte> | |s| == 32 witness ZeroHash()

  function ZeroHash(): (s: seq<Byte>)
    ensures |s| == 32 && forall i :: 0 <= i < |s| ==> s[i] == 0
  {
    seq(32, _ => 0)
  }

  const INVALID_INVENTORY_CODE: string := "invalid inventory code"

  /** The largest encoding: code, transaction id and authorizing-data digest. */
  const MAX_INVENTORY_HASH_SIZE: nat := 4 + 32 + 32

  datatype InventoryHash =
    | Error
    | Tx(hash: Hash32)
    | Block(hash: Hash32)
    | FilteredBlock(hash: Hash32)
    | Wtx(txId: Hash32, authDigest: Hash32)

  /** The type code each variant is written with. */
  function Code(h: InventoryHash): nat
  {
    match h
    case Error => 0
    case Tx(_) => 1
    case Block(_) => 2
    case FilteredBlock(_) => 3
    case Wtx(_, _) => 5
  }

  /** The code, then the hash (all zeros for `Error`), then for `Wtx` the
      digest: 36 bytes, or MAX_INVENTORY_HASH_SIZE for `Wtx`. */
  function Encode(h: InventoryHash): (r: seq<Byte>)
    ensures |r| == if h.Wtx? then MAX_INVENTORY_HASH_SIZE else 36
  {
    match h
    case Error => ToLE(0, 4) + ZeroHash()
    case Tx(hash) => ToLE(1, 4) + hash
    case Block(hash) => ToLE(2, 4) + hash
    case FilteredBlock(hash) => ToLE(3, 4) + hash
    case Wtx(id, digest) => ToLE(5, 4) + id + digest
  }

  /** Reads the code and the 32-byte hash before looking at the code; an
      `Error` entry ignores its hash; code 5 reads a second 32-byte field;
      any other code is rejected. */
  function Decode(input: seq<Byte>): (r: Result<Parsed<InventoryHash>, SerializationError>)
    ensures r.Ok? ==> |r.value.rest| < |input|
  {
    var code :- ReadLE(input, 4);
    var hash :- ReadBytes(code.rest, 32);
    if code.value == 0 then Ok(Parsed(Error, hash.rest))
    else if code.value == 1 then Ok(Parsed(Tx(hash.value), hash.rest))
    else if code.value == 2 then Ok(Parsed(Block(hash.value), hash.rest))
    else if code.value == 3 then Ok(Parsed(FilteredBlock(hash.value), hash.rest))
    else if code.value == 5 then
      var digest :- ReadBytes(hash.rest, 32);
      Ok(Parsed(Wtx(hash.value, digest.value), digest.rest))
    else Err(Parse(INVALID_INVENTORY_CODE))
  }

  /** A code is one of the valid ones exactly when its three high bytes are
      zero and its low byte is 0, 1, 2, 3 or 5. */
  predicate ValidCodeBytes(header: seq<Byte>)
    requires |header| >= 4
  {
    header[1] == 0 && header[2] == 0 && header[3] == 0 && header[0] <= 5 && header[0] != 4
  }

  /** The 4-byte little-endian code is its low byte when the three high
      bytes are zero, and at least 256 otherwise. */
  lemma CodeOfHeader(input: seq<Byte>)
    requires |input| >= 4
    ensures var code := FromLE(input[..4]);
      (input[1] == 0 && input[2] == 0 && input[3] == 0 ==> code == input[0])
      && (input[1] != 0 || input[2] != 0 || input[3] != 0 ==> code >= 256)
  {
    var header := input[..4];
    FromLEZero(header[1..]);
    assert header[1..][0] == input[1] && header[1..][1] == input[2] && header[1..][2] == input[3];
  }

  /** Decoding by cases on the input, as the decoder's property tests pin
      it: too short for code and hash is an I/O error whatever the code;
      otherwise an invalid code is a parse error; code 5 without room for
      the digest is an I/O error; everything else decodes, leaving the
      bytes after the entry unread. */
  lemma DecodeCases(input: seq<Byte>)
    ensures |input| < 36 ==> Decode(input) == Err(Io)
    ensures |input| >= 36 && !ValidCodeBytes(input) ==>
      Decode(input) == Err(Parse(INVALID_INVENTORY_CODE))
    ensures |input| >= 36 && ValidCodeBytes(input) && input[0] == 5 && |input| < 68 ==>
      Decode(input) == Err(Io)
    ensures |input| >= 36 && ValidCodeBytes(input) && input[0] != 5 ==>
      Decode(input).Ok? && Decode(input).value.rest == input[36..]
      && Code(Decode(input).value.value) == input[0]
    ensures |input| >= 68 && ValidCodeBytes(input) && input[0] == 5 ==>
      Decode(input).Ok? && Decode(input).value.rest == input[68..]
      && Decode(input).value.value == Wtx(input[4..36], input[36..68])
  {
    if |input| >= 36 {
      CodeOfHeader(input);
      assert input[4..][32..] == input[36..];
      assert input[4..][..32] == input[4..36];
      if |input| >= 68 {
        assert input[36..][32..] == input[68..];
        assert input[36..][..32] == input[36..68];
      }
    }
  }

  /** Reading 32 bytes from a hash followed by more bytes gives the hash. */
  lemma ReadHashOf(hash: Hash32, more: seq<Byte>)
    ensures ReadBytes(hash + more, 32) == Ok(Parsed(hash, more))
  {
    assert (hash + more)[..32] == hash && (hash + more)[32..] == more;
  }

  /** Reading the code of an encoded entry gives the code back and leaves
      the hash and what follows it. */
  lemma ReadCodeOf(code: nat, hash: Hash32, more: seq<Byte>)
    requires code <= 5
    ensures ReadLE(ToLE(code, 4) + hash + more, 4) == Ok(Parsed(code, hash + more))
  {
    Pow256Values();
    FromLEOfToLE(code, 4);
    var input := ToLE(code, 4) + hash + more;
    assert input[..4] == ToLE(code, 4);
    assert input[4..] == hash + more;
  }

  /** Encoding then decoding, with any bytes after it, gives the entry back
      and leaves those bytes unread. */
  lemma RoundTrip(h: InventoryHash, rest: seq<Byte>)
    ensures Decode(Encode(h) + rest) == Ok(Parsed(h, rest))
  {
    if h.Wtx? {
      ReadCodeOf(5, h.txId, h.authDigest + rest);
      ReadHashOf(h.txId, h.authDigest + rest);
      ReadHashOf(h.authDigest, rest);
      assert Encode(h) + rest == ToLE(5, 4) + h.txId + (h.authDigest + rest);
    } else {
      var hash := if h.Error? then ZeroHash() else h.hash;
      ReadCodeOf(Code(h), hash, rest);
      ReadHashOf(hash, rest);
      assert Encode(h) == ToLE(Code(h), 4) + hash;
    }
  }
}

/** Byte-level reading helpers shared by the wire decoders: fixed-width
    little-endian integers, byte strings and Bitcoin-style CompactSize
    integers, with Zebra's two kinds of `SerializationError`. */
module Serialization {
  import opened Wrappers

  type Byte = b: int | 0 <= b < 256

  /** `SerializationError::Io` (the input ended early: "failed to fill whole
      buffer") or `SerializationError::Parse` with its message. */
  datatype SerializationError = Io | Parse(msg: string)

  /** A decoded value together with the bytes left after it. */
  datatype Parsed<+T> = Parsed(value: T, rest: seq<Byte>)

  const U16_LIMIT: nat := 0x1_0000
  const U32_LIMIT: nat := 0x1_0000_0000
  const U64_LIMIT: nat := 0x1_0000_0000_0000_0000

  function Pow256(k: nat): (r: nat)
    ensures r >= 1
  {
    if k == 0 then 1 else 256 * Pow256(k - 1)
  }

  lemma Pow256Values()
    ensures Pow256(1) == 256 && Pow256(2) == U16_LIMIT
    ensures Pow256(4) == U32_LIMIT && Pow256(8) == U64_LIMIT
  {
  }

  /** The unsigned integer whose little-endian encoding is `bs`. */
  function FromLE(bs: seq<Byte>): nat
  {
    if bs == [] then 0 else bs[0] + 256 * FromLE(bs[1..])
  }

  /** The `k`-byte little-endian encoding of `n` (of `n mod 256^k`). */
  function ToLE(n: nat, k: nat): (r: seq<Byte>)
    ensures |r| == k
  {
    if k == 0 then [] else [n % 256] + ToLE(n / 256, k - 1)
  }

  lemma {:induction false} FromLEBound(bs: seq<Byte>)
    ensures FromLE(bs) < Pow256(|bs|)
  {
    if bs != [] {
      FromLEBound(bs[1..]);
    }
  }

  lemma {:induction false} FromLEOfToLE(n: nat, k: nat)
    requires n < Pow256(k)
    ensures FromLE(ToLE(n, k)) == n
  {
    if k > 0 {
      assert n / 256 < Pow256(k - 1);
      FromLEOfToLE(n / 256, k - 1);
      assert ToLE(n, k)[1..] == ToLE(n / 256, k - 1);
    }
  }

  lemma {:induction false} ToLEOfFromLE(bs: seq<Byte>)
    ensures ToLE(FromLE(bs), |bs|) == bs
  {
    if bs != [] {
      var n := FromLE(bs);
      assert n % 256 == bs[0] && n / 256 == FromLE(bs[1..]);
      ToLEOfFromLE(bs[1..]);
    }
  }

  /** A value is zero exactly when every byte of its encoding is zero. */
  lemma {:induction false} FromLEZero(bs: seq<Byte>)
    ensures FromLE(bs) == 0 <==> forall i :: 0 <= i < |bs| ==> bs[i] == 0
  {
    if bs != [] {
      FromLEZero(bs[1..]);
      assert forall i :: 1 <= i < |bs| ==> bs[i] == bs[1..][i - 1];
    }
  }

  /** Reads exactly `n` bytes. */
  function ReadBytes(input: seq<Byte>, n: nat): (r: Result<Parsed<seq<Byte>>, SerializationError>)
    ensures r.Ok? <==> n <= |input|
    ensures r.Err? ==> r.error == Io
    ensures r.Ok? ==> r.value.value + r.value.rest == input && |r.value.value| == n
  {
    if |input| < n then Err(Io) else Ok(Parsed(input[..n], input[n..]))
  }

  /** Reads a `k`-byte little-endian unsigned integer. */
  function ReadLE(input: seq<Byte>, k: nat): (r: Result<Parsed<nat>, SerializationError>)
    ensures r.Ok? <==> k <= |input|
    ensures r.Err? ==> r.error == Io
    ensures r.Ok? ==> r.value.rest == input[k..] && r.value.value < Pow256(k)
  {
    var bytes :- ReadBytes(input, k);
    FromLEBound(bytes.value);
    Ok(Parsed(FromLE(bytes.value), bytes.rest))
  }

  /** Whatever `ReadLE` reads is the `k`-byte encoding of its value. */
  lemma ReadLECanonical(input: seq<Byte>, k: nat)
    requires ReadLE(input, k).Ok?
    ensures var p := ReadLE(input, k).value;
      input == ToLE(p.value, k) + p.rest
  {
    ToLEOfFromLE(input[..k]);
    assert input == input[..k] + input[k..];
  }

  /** A one-byte little-endian integer is that byte. */
  lemma ReadByteCanonical(input: seq<Byte>)
    requires ReadLE(input, 1).Ok?
    ensures var p := ReadLE(input, 1).value;
      p.value == input[0] && input == [input[0]] + p.rest
  {
    assert input[..1][1..] == [];
    assert input == [input[0]] + input[1..];
  }

  /** Reads a big-endian `u16`. */
  function ReadU16BE(input: seq<Byte>): (r: Result<Parsed<nat>, SerializationError>)
    ensures r.Ok? <==> 2 <= |input|
    ensures r.Err? ==> r.error == Io
    ensures r.Ok? ==> r.value.rest == input[2..] && r.value.value == input[0] as nat * 256 + input[1] as nat
  {
    if |input| < 2 then Err(Io) else Ok(Parsed(input[0] as nat * 256 + input[1] as nat, input[2..]))
  }

  /** Reading a big-endian `u16` from its two bytes gives it back. */
  lemma ReadU16BEOfEncoding(n: nat, rest: seq<Byte>)
    requires n < U16_LIMIT
    ensures ReadU16BE([n / 256, n % 256] + rest) == Ok(Parsed(n, rest))
  {
    var input: seq<Byte> := [n / 256, n % 256] + rest;
    assert input[0] as nat * 256 + input[1] as nat == n;
    assert input[2..] == rest;
  }

  /** Whatever `ReadU16BE` reads is the two-byte encoding of its value. */
  lemma ReadU16BECanonical(input: seq<Byte>)
    requires ReadU16BE(input).Ok?
    ensures var p := ReadU16BE(input).value;
      p.value < U16_LIMIT && input == [p.value / 256, p.value % 256] + p.rest
  {
    var n := input[0] as nat * 256 + input[1] as nat;
    assert n / 256 == input[0] && n % 256 == input[1];
    assert input == [input[0], input[1]] + input[2..];
  }

  const NON_CANONICAL_COMPACT_SIZE: string := "non-canonical CompactSize"

  /** Reads a CompactSize integer: one byte below 0xfd holds the value; the
      markers 0xfd, 0xfe and 0xff announce a 2-, 4- or 8-byte little-endian
      value, which must not fit a shorter form. */
  function ReadCompactSize(input: seq<Byte>): (r: Result<Parsed<nat>, SerializationError>)
    ensures r.Ok? ==> r.value.value < U64_LIMIT && |r.value.rest| < |input|
    ensures r.Ok? ==> r.value.rest == input[|input| - |r.value.rest|..]
  {
    Pow256Values();
    var flag :- ReadLE(input, 1);
    if flag.value < 0xfd then
      Ok(flag)
    else if flag.value == 0xfd then
      var n :- ReadLE(flag.rest, 2);
      if n.value < 0xfd then Err(Parse(NON_CANONICAL_COMPACT_SIZE)) else Ok(n)
    else if flag.value == 0xfe then
      var n :- ReadLE(flag.rest, 4);
      if n.value < U16_LIMIT then Err(Parse(NON_CANONICAL_COMPACT_SIZE)) else Ok(n)
    else
      var n :- ReadLE(flag.rest, 8);
      if n.value < U32_LIMIT then Err(Parse(NON_CANONICAL_COMPACT_SIZE)) else Ok(n)
  }

  /** The shortest CompactSize encoding of `n`. */
  function EncodeCompactSize(n: nat): (r: seq<Byte>)
    requires n < U64_LIMIT
  {
    if n < 0xfd then [n]
    else if n < U16_LIMIT then [0xfd] + ToLE(n, 2)
    else if n < U32_LIMIT then [0xfe] + ToLE(n, 4)
    else [0xff] + ToLE(n, 8)
  }

  /** Decoding an encoded CompactSize gives the value back and leaves the
      following bytes untouched. */
  lemma CompactSizeRoundTrip(n: nat, rest: seq<Byte>)
    requires n < U64_LIMIT
    ensures ReadCompactSize(EncodeCompactSize(n) + rest) == Ok(Parsed(n, rest))
  {
    Pow256Values();
    var e := EncodeCompactSize(n);
    var input := e + rest;
    assert input[0] == e[0];
    assert FromLE(input[..1]) == e[0];
    if n >= 0xfd {
      var k := if n < U16_LIMIT then 2 else if n < U32_LIMIT then 4 else 8;
      assert e == [e[0]] + ToLE(n, k);
      assert input[1..] == ToLE(n, k) + rest;
      assert input[1..][..k] == ToLE(n, k);
      FromLEOfToLE(n, k);
    }
  }

  /** The decoder accepts only shortest encodings: whatever it reads is
      exactly the encoding of the value it returns. */
  lemma CompactSizeCanonical(input: seq<Byte>)
    requires ReadCompactSize(input).Ok?
    ensures var p := ReadCompactSize(input).value;
      input == EncodeCompactSize(p.value) + p.rest
  {
    Pow256Values();
    var p := ReadCompactSize(input).value;
    if input[0] >= 0xfd {
      var k := if input[0] == 0xfd then 2 else if input[0] == 0xfe then 4 else 8;
      var body := input[1..][..k];
      ToLEOfFromLE(body);
      assert input == [input[0]] + body + input[1..][k..];
    }
  }
}

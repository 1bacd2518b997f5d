/** The raw encoding of an Orchard shielded payment address (section
    5.6.4.1 of the Zcash Protocol Specification): the 11-byte diversifier
    followed by the 32-byte encoding of the transmission key, 43 bytes in
    all. */
module OrchardAddress {
  import opened Serialization

  const DIVERSIFIER_SIZE: nat := 11
  const TRANSMISSION_KEY_SIZE: nat := 32
  const RAW_ADDRESS_SIZE: nat := DIVERSIFIER_SIZE + TRANSMISSION_KEY_SIZE

  function Zeros(n: nat): (s: seq<Byte>)
    ensures |s| == n && forall i :: 0 <= i < n ==> s[i] == 0
  {
    seq(n, _ => 0)
  }

  type DiversifierBytes = s: seq<Byte> | |s| == DIVERSIFIER_SIZE witness Zeros(DIVERSIFIER_SIZE)
  type TransmissionKeyBytes = s: seq<Byte> | |s| == TRANSMISSION_KEY_SIZE witness Zeros(TRANSMISSION_KEY_SIZE)

  /** A diversifier is its 11 bytes. */
  datatype Diversifier = Diversifier(bytes: DiversifierBytes)

  /** A transmission key, a curve point, represented by its 32-byte
      encoding; the point arithmetic behind that encoding is not part of
      this model. */
  datatype TransmissionKey = TransmissionKey(bytes: TransmissionKeyBytes)

  datatype Address = Address(diversifier: Diversifier, transmissionKey: TransmissionKey)

  /** `Address::new`: the components are stored as given. */
  function New(diversifier: Diversifier, transmissionKey: TransmissionKey): (a: Address)
    ensures a.diversifier == diversifier && a.transmissionKey == transmissionKey
  {
    Address(diversifier, transmissionKey)
  }

  /** The raw encoding: 43 bytes, the diversifier in bytes 0..11 and the
      transmission key in bytes 11..43. */
  function RawEncoding(a: Address): (r: seq<Byte>)
    ensures |r| == RAW_ADDRESS_SIZE
    ensures r[..DIVERSIFIER_SIZE] == a.diversifier.bytes
    ensures r[DIVERSIFIER_SIZE..] == a.transmissionKey.bytes
  {
    a.diversifier.bytes + a.transmissionKey.bytes
  }

  /** Splitting a raw encoding at byte 11. */
  function Split(raw: seq<Byte>): (a: Address)
    requires |raw| == RAW_ADDRESS_SIZE
    ensures a.diversifier.bytes == raw[..DIVERSIFIER_SIZE]
    ensures a.transmissionKey.bytes == raw[DIVERSIFIER_SIZE..]
  {
    Address(Diversifier(raw[..DIVERSIFIER_SIZE]), TransmissionKey(raw[DIVERSIFIER_SIZE..]))
  }

  /** `From<Address> for [u8; 43]`: a zeroed buffer, the diversifier copied
      into its first 11 bytes and the transmission key into the rest. */
  method ToRawBytes(a: Address) returns (raw: seq<Byte>)
    ensures raw == RawEncoding(a)
  {
    var bytes := new Byte[RAW_ADDRESS_SIZE](_ => 0);
    var addressBytes := a.diversifier.bytes;
    var addressEnd := |addressBytes|;
    forall i | 0 <= i < addressEnd {
      bytes[i] := addressBytes[i];
    }
    var keyBytes := a.transmissionKey.bytes;
    forall i | addressEnd <= i < bytes.Length {
      bytes[i] := keyBytes[i - addressEnd];
    }
    raw := bytes[..];
    assert raw[..DIVERSIFIER_SIZE] == addressBytes;
    assert raw[DIVERSIFIER_SIZE..] == keyBytes;
    assert raw == raw[..DIVERSIFIER_SIZE] + raw[DIVERSIFIER_SIZE..];
  }

  /** Splitting the encoding recovers the address. */
  lemma SplitEncoding(a: Address)
    ensures Split(RawEncoding(a)) == a
  {
    var r := RawEncoding(a);
    assert Split(r).diversifier == a.diversifier;
    assert Split(r).transmissionKey == a.transmissionKey;
  }

  /** Every 43-byte string is the encoding of the address it splits into. */
  lemma EncodingOfSplit(raw: seq<Byte>)
    requires |raw| == RAW_ADDRESS_SIZE
    ensures RawEncoding(Split(raw)) == raw
  {
    assert raw == raw[..DIVERSIFIER_SIZE] + raw[DIVERSIFIER_SIZE..];
  }

  /** Distinct addresses have distinct encodings. */
  lemma EncodingInjective(a: Address, b: Address)
    ensures RawEncoding(a) == RawEncoding(b) <==> a == b
  {
    if RawEncoding(a) == RawEncoding(b) {
      SplitEncoding(a);
      SplitEncoding(b);
    }
  }
}

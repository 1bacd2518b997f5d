/** The `addrv2` node-address entry of ZIP 155 ("Specification" section):
    its decoder, its conversion to a gossiped `MetaAddr`, its minimum
    encoded size and the preallocation bound derived from it. */
module AddrV2Codec {
  import opened Wrappers
  import opened Serialization
  import opened NetTypes

  /** The longest `addr` field a client may accept, whatever the network id. */
  const MAX_ADDR_V2_ADDR_SIZE: nat := 512
  const ADDR_V2_IPV4_ADDR_SIZE: nat := 4
  const ADDR_V2_IPV6_ADDR_SIZE: nat := 16

  /** Network ids with an address interpretation. */
  const IPV4_NETWORK_ID: nat := 0x01
  const IPV6_NETWORK_ID: nat := 0x02

  /** 4-byte time, 1-byte services, 1-byte network id, 1-byte size, empty
      address, 2-byte port. */
  const ADDR_V2_MIN_SIZE: nat := 4 + 1 + 1 + 1 + 0 + 2

  /** The largest network protocol message, 2 MiB. */
  const MAX_PROTOCOL_MESSAGE_LEN: nat := 2 * 1024 * 1024

  const ADDR_TOO_LONG: string := "addr field longer than MAX_ADDR_V2_ADDR_SIZE in addrv2 message"
  const IPV4_WRONG_LENGTH: string := "IPv4 field length did not match ADDR_V2_IPV4_ADDR_SIZE in addrv2 message"
  const IPV6_WRONG_LENGTH: string := "IPv6 field length did not match ADDR_V2_IPV6_ADDR_SIZE in addrv2 message"

  /** A decoded `addrv2` entry: an IPv4 or IPv6 peer address, or the marker
      for an address on a network Zebra does not implement. */
  datatype AddrV2 =
    | IpAddr(
        untrustedLastSeen: DateTime32,
        untrustedServices: PeerServices,
        ip: IpAddress,
        port: Port)
    | Unimplemented

  /** The five raw fields of an entry, before validation. */
  datatype Entry = Entry(
    time: DateTime32,
    services: nat,
    networkId: Byte,
    addr: seq<Byte>,
    port: Port)
  {
    ghost predicate Encodable() {
      services < U64_LIMIT && |addr| < U64_LIMIT
    }
  }

  /** Reads the five fields in wire order: 4-byte little-endian time,
      CompactSize services, 1-byte network id, CompactSize-prefixed address
      bytes, 2-byte big-endian port. */
  function ReadEntry(input: seq<Byte>): (r: Result<Parsed<Entry>, SerializationError>)
    ensures r.Ok? ==> r.value.value.Encodable()
  {
    Pow256Values();
    var lastSeen :- ReadLE(input, 4);
    var services :- ReadCompactSize(lastSeen.rest);
    var networkId :- ReadLE(services.rest, 1);
    var addrLen :- ReadCompactSize(networkId.rest);
    var addr :- ReadBytes(addrLen.rest, addrLen.value);
    var port :- ReadU16BE(addr.rest);
    Ok(Parsed(Entry(lastSeen.value, services.value, networkId.value, addr.value, port.value), port.rest))
  }

  /** Checks the address length, first against the 512-byte limit and then
      against the length its network id demands. */
  function Validate(e: Entry): (r: Result<AddrV2, SerializationError>)
    requires e.Encodable()
    ensures r.Err? <==>
      || |e.addr| > MAX_ADDR_V2_ADDR_SIZE
      || (e.networkId == IPV4_NETWORK_ID && |e.addr| != ADDR_V2_IPV4_ADDR_SIZE)
      || (e.networkId == IPV6_NETWORK_ID && |e.addr| != ADDR_V2_IPV6_ADDR_SIZE)
    ensures r.Err? && |e.addr| > MAX_ADDR_V2_ADDR_SIZE ==> r.error == Parse(ADDR_TOO_LONG)
    ensures r.Ok? ==>
      (r.value.Unimplemented? <==> e.networkId != IPV4_NETWORK_ID && e.networkId != IPV6_NETWORK_ID)
    ensures r.Ok? && r.value.IpAddr? ==>
      && r.value.ip.Valid()
      && r.value.ip.V4? == (e.networkId == IPV4_NETWORK_ID)
      && r.value.untrustedLastSeen == e.time && r.value.port == e.port
  {
    var untrustedServices := FromBitsTruncate(e.services as bv64);
    if |e.addr| > MAX_ADDR_V2_ADDR_SIZE then
      Err(Parse(ADDR_TOO_LONG))
    else if e.networkId == IPV4_NETWORK_ID then
      if |e.addr| != ADDR_V2_IPV4_ADDR_SIZE then Err(Parse(IPV4_WRONG_LENGTH))
      else Ok(IpAddr(e.time, untrustedServices, V4(e.addr), e.port))
    else if e.networkId == IPV6_NETWORK_ID then
      if |e.addr| != ADDR_V2_IPV6_ADDR_SIZE then Err(Parse(IPV6_WRONG_LENGTH))
      else Ok(IpAddr(e.time, untrustedServices, V6(e.addr), e.port))
    else
      // unimplemented or unrecognised network id: the bytes are consumed
      Ok(Unimplemented)
  }

  /** `ZcashDeserialize for AddrV2`: decodes one entry. All five fields are
      read before any of them is validated. */
  function Decode(input: seq<Byte>): (r: Result<Parsed<AddrV2>, SerializationError>)
    ensures r.Ok? && r.value.value.IpAddr? ==> r.value.value.ip.Valid()
  {
    var entry :- ReadEntry(input);
    var addr :- Validate(entry.value);
    Ok(Parsed(addr, entry.rest))
  }

  /** The wire form of an entry: the fields in order, the time little-endian,
      the port big-endian. */
  function Encode(e: Entry): (r: seq<Byte>)
    requires e.Encodable()
    ensures |r| >= ADDR_V2_MIN_SIZE
  {
    Pow256Values();
    ToLE(e.time, 4) + EncodeCompactSize(e.services) + [e.networkId]
      + EncodeCompactSize(|e.addr|) + e.addr + [e.port / 256, e.port % 256]
  }

  /** Reading the wire form of any entry, followed by any bytes, gives the
      entry back and leaves those bytes unread. */
  lemma ReadEncoded(e: Entry, rest: seq<Byte>)
    requires e.Encodable()
    ensures ReadEntry(Encode(e) + rest) == Ok(Parsed(e, rest))
  {
    Pow256Values();
    var s5 := [e.port / 256, e.port % 256] + rest;
    var s4 := e.addr + s5;
    var s3 := EncodeCompactSize(|e.addr|) + s4;
    var s2 := [e.networkId] + s3;
    var s1 := EncodeCompactSize(e.services) + s2;
    var input := Encode(e) + rest;
    assert ReadLE(input, 4) == Ok(Parsed(e.time as nat, s1)) by {
      EncodeThenRest(e, rest);
      assert input[..4] == ToLE(e.time, 4) && input[4..] == s1;
      FromLEOfToLE(e.time, 4);
    }
    assert ReadCompactSize(s1) == Ok(Parsed(e.services, s2)) by {
      CompactSizeRoundTrip(e.services, s2);
    }
    ReadAfterServices(e, rest);
  }

  /** The reads after the services field: the network id, the address
      length, the address and the port, each leaving what follows it. */
  lemma ReadAfterServices(e: Entry, rest: seq<Byte>)
    requires e.Encodable()
    ensures var s5 := [e.port / 256, e.port % 256] + rest;
      var s4 := e.addr + s5;
      var s3 := EncodeCompactSize(|e.addr|) + s4;
      var s2 := [e.networkId] + s3;
      && ReadLE(s2, 1) == Ok(Parsed(e.networkId as nat, s3))
      && ReadCompactSize(s3) == Ok(Parsed(|e.addr|, s4))
      && ReadBytes(s4, |e.addr|) == Ok(Parsed(e.addr, s5))
      && ReadU16BE(s5) == Ok(Parsed(e.port as nat, rest))
  {
    var s5 := [e.port / 256, e.port % 256] + rest;
    var s4 := e.addr + s5;
    var s3 := EncodeCompactSize(|e.addr|) + s4;
    var s2 := [e.networkId] + s3;
    assert ReadLE(s2, 1) == Ok(Parsed(e.networkId as nat, s3)) by {
      Pow256Values();
      assert s2[..1] == [e.networkId] && s2[1..] == s3;
    }
    assert ReadCompactSize(s3) == Ok(Parsed(|e.addr|, s4)) by {
      CompactSizeRoundTrip(|e.addr|, s4);
    }
    assert ReadBytes(s4, |e.addr|) == Ok(Parsed(e.addr, s5)) by {
      assert s4[..|e.addr|] == e.addr && s4[|e.addr|..] == s5;
    }
    assert ReadU16BE(s5) == Ok(Parsed(e.port as nat, rest)) by {
      ReadU16BEOfEncoding(e.port, rest);
    }
  }

  /** Conversely, whatever the reader accepts is the wire form of the entry
      it returns, followed by the unread bytes: the reader takes no byte it
      does not account for. */
  lemma ReadEntryCanonical(input: seq<Byte>)
    requires ReadEntry(input).Ok?
    ensures var p := ReadEntry(input).value;
      input == Encode(p.value) + p.rest
  {
    Pow256Values();
    var time := ReadLE(input, 4).value;
    var services := ReadCompactSize(time.rest).value;
    var networkId := ReadLE(services.rest, 1).value;
    var addrLen := ReadCompactSize(networkId.rest).value;
    var addr := ReadBytes(addrLen.rest, addrLen.value).value;
    var port := ReadU16BE(addr.rest).value;
    var e := Entry(time.value, services.value, networkId.value, addr.value, port.value);
    assert ReadEntry(input).value == Parsed(e, port.rest);
    ReadLECanonical(input, 4);
    CompactSizeCanonical(time.rest);
    ReadByteCanonical(services.rest);
    CompactSizeCanonical(networkId.rest);
    ReadU16BECanonical(addr.rest);
    var port2 := [e.port / 256, e.port % 256];
    assert addrLen.rest == e.addr + (port2 + port.rest);
    assert input == ToLE(e.time, 4) + (EncodeCompactSize(e.services) + ([e.networkId]
      + (EncodeCompactSize(|e.addr|) + (e.addr + (port2 + port.rest)))));
    EncodeThenRest(e, port.rest);
  }

  /** The wire form followed by further bytes, grouped field by field. */
  lemma EncodeThenRest(e: Entry, rest: seq<Byte>)
    requires e.Encodable()
    ensures Encode(e) + rest == ToLE(e.time, 4) + (EncodeCompactSize(e.services) + ([e.networkId]
      + (EncodeCompactSize(|e.addr|) + (e.addr + ([e.port / 256, e.port % 256] + rest)))))
  {
  }

  /** Decoding the wire form of any entry, followed by any bytes: the address
      length is checked first, then the length the network id demands; IPv4
      and IPv6 keep the address octets in order; unknown service bits are
      dropped; unknown network ids give `Unimplemented`; the following bytes
      are left unread. */
  lemma DecodeEncoded(e: Entry, rest: seq<Byte>)
    requires e.Encodable()
    ensures var r := Decode(Encode(e) + rest);
      var services := FromBitsTruncate(e.services as bv64);
      && (|e.addr| > MAX_ADDR_V2_ADDR_SIZE ==> r == Err(Parse(ADDR_TOO_LONG)))
      && (|e.addr| <= MAX_ADDR_V2_ADDR_SIZE && e.networkId == IPV4_NETWORK_ID ==>
            r == if |e.addr| == ADDR_V2_IPV4_ADDR_SIZE
                 then Ok(Parsed(IpAddr(e.time, services, V4(e.addr), e.port), rest))
                 else Err(Parse(IPV4_WRONG_LENGTH)))
      && (|e.addr| <= MAX_ADDR_V2_ADDR_SIZE && e.networkId == IPV6_NETWORK_ID ==>
            r == if |e.addr| == ADDR_V2_IPV6_ADDR_SIZE
                 then Ok(Parsed(IpAddr(e.time, services, V6(e.addr), e.port), rest))
                 else Err(Parse(IPV6_WRONG_LENGTH)))
      && (&& |e.addr| <= MAX_ADDR_V2_ADDR_SIZE
          && e.networkId != IPV4_NETWORK_ID
          && e.networkId != IPV6_NETWORK_ID
          ==> r == Ok(Parsed(Unimplemented, rest)))
  {
    DecodeValidates(e, rest);
  }

  /** Decoding the wire form of an entry is validating that entry. */
  lemma DecodeValidates(e: Entry, rest: seq<Byte>)
    requires e.Encodable()
    ensures var v := Validate(e);
      Decode(Encode(e) + rest) == if v.Ok? then Ok(Parsed(v.value, rest)) else Err(v.error)
  {
    ReadEncoded(e, rest);
  }

  /** A successful decode consumes at least ADDR_V2_MIN_SIZE bytes and
      leaves a suffix of its input. */
  lemma DecodeConsumesMinSize(input: seq<Byte>)
    requires Decode(input).Ok?
    ensures var rest := Decode(input).value.rest;
      |input| >= |rest| + ADDR_V2_MIN_SIZE && rest == input[|input| - |rest|..]
  {
    ReadEntryCanonical(input);
    var p := ReadEntry(input).value;
    assert input == Encode(p.value) + p.rest;
  }

  /** `From<AddrV2> for Option<MetaAddr>`: unimplemented networks give no
      address; an IP entry becomes a gossiped `MetaAddr` for `(ip, port)`
      with its services and last-seen time unchanged. */
  function ToMetaAddr(a: AddrV2): (m: Option<MetaAddr>)
    ensures m.None? <==> a.Unimplemented?
    ensures m.Some? ==>
      && m.value.addr == SocketAddr(a.ip, a.port)
      && m.value.untrustedServices == a.untrustedServices
      && m.value.untrustedLastSeen == a.untrustedLastSeen
  {
    match a
    case IpAddr(lastSeen, services, ip, port) => Some(MetaAddr(SocketAddr(ip, port), services, lastSeen))
    case Unimplemented => None
  }

  /** Decodes `count` consecutive entries, as the body of a `Vec<AddrV2>`. */
  function DecodeEntries(input: seq<Byte>, count: nat): (r: Result<Parsed<seq<AddrV2>>, SerializationError>)
    ensures r.Ok? ==> |r.value.value| == count
    ensures r.Ok? ==> |input| - |r.value.rest| >= count * ADDR_V2_MIN_SIZE
    decreases count
  {
    if count == 0 then
      Ok(Parsed([], input))
    else
      var first :- Decode(input);
      DecodeConsumesMinSize(input);
      var others :- DecodeEntries(first.rest, count - 1);
      Ok(Parsed([first.value] + others.value, others.rest))
  }

  /** `TrustedPreallocate::max_allocation`: a message carries at least three
      bytes of length prefix, and every entry at least ADDR_V2_MIN_SIZE bytes. */
  function MaxAllocation(): nat
  {
    (MAX_PROTOCOL_MESSAGE_LEN - 3) / ADDR_V2_MIN_SIZE
  }

  /** No list of entries that fits in a protocol message after its length
      prefix holds more than `MaxAllocation()` entries, so preallocating that
      many is always enough. */
  lemma MaxAllocationSuffices(body: seq<Byte>, count: nat)
    requires |body| <= MAX_PROTOCOL_MESSAGE_LEN - 3
    requires DecodeEntries(body, count).Ok?
    ensures count <= MaxAllocation()
  {
    assert count * ADDR_V2_MIN_SIZE <= MAX_PROTOCOL_MESSAGE_LEN - 3;
  }
}

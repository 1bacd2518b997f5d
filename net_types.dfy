/** Network value types shared by the peer-address code: IP and socket
    addresses, the advertised service bits, 32-bit timestamps and the
    gossiped form of `MetaAddr`. */
module NetTypes {
  import opened Serialization

  /** `DateTime32`: seconds since the Unix epoch, as an unsigned 32-bit integer. */
  type DateTime32 = n: nat | n < U32_LIMIT

  type Port = n: nat | n < U16_LIMIT

  /** `PeerServices`: a 64-bit set of service flags. */
  type PeerServices = bv64

  /** `PeerServices::NODE_NETWORK`, the only service flag Zebra knows. */
  const NODE_NETWORK: PeerServices := 1

  /** All service flags Zebra recognises. */
  const KNOWN_SERVICES: PeerServices := NODE_NETWORK

  /** `PeerServices::from_bits_truncate`: keeps the recognised flags and drops
      every other bit. */
  function FromBitsTruncate(bits: bv64): (s: PeerServices)
    ensures s & KNOWN_SERVICES == bits & KNOWN_SERVICES
    ensures s & !KNOWN_SERVICES == 0
  {
    bits & KNOWN_SERVICES
  }

  /** `IpAddr`: an IPv4 or IPv6 address, as its octets in network order. */
  datatype IpAddress =
    | V4(v4: seq<Byte>)
    | V6(v6: seq<Byte>)
  {
    ghost predicate Valid() {
      match this
      case V4(o) => |o| == 4
      case V6(o) => |o| == 16
    }
  }

  /** `SocketAddr`: an IP address and a TCP port. */
  datatype SocketAddr = SocketAddr(ip: IpAddress, port: Port)

  /** A `MetaAddr` made by `MetaAddr::new_gossiped_meta_addr`: an address
      another peer told us about, with the services and last-seen time it
      claimed. */
  datatype MetaAddr = MetaAddr(
    addr: SocketAddr,
    untrustedServices: PeerServices,
    untrustedLastSeen: DateTime32)
}

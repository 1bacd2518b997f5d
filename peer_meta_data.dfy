/** Meta-data of a peer connection: its address and reported protocol
    version. Two values refer to the same peer when their addresses are
    equal, whatever their versions. */
module PeerMetaDatas {
  import opened NetTypes

  /** The reported protocol version, a `u32`. */
  type ProtocolVersion = nat

  datatype PeerMetaData = PeerMetaData(address: SocketAddr, version: ProtocolVersion)

  function New(address: SocketAddr, version: ProtocolVersion): (d: PeerMetaData)
    ensures d.address == address && d.version == version
  {
    PeerMetaData(address, version)
  }

  function Address(d: PeerMetaData): SocketAddr
  {
    d.address
  }

  function Version(d: PeerMetaData): ProtocolVersion
  {
    d.version
  }

  /** `PartialEq`: only the addresses are compared. */
  predicate Eq(d: PeerMetaData, e: PeerMetaData)
  {
    d.address == e.address
  }

  /** The accessors return what `new` was given. */
  lemma AccessorsOfNew(a: SocketAddr, v: ProtocolVersion)
    ensures Address(New(a, v)) == a && Version(New(a, v)) == v
  {
    var d := New(a, v);
    assert d.address == a && d.version == v;
  }

  /** Two values are equal exactly when their addresses are, so values that
      differ only in their versions are equal. */
  lemma EqIffSameAddress(a: SocketAddr, v: ProtocolVersion, b: SocketAddr, w: ProtocolVersion)
    ensures Eq(New(a, v), New(b, w)) <==> a == b
  {
    var d, e := New(a, v), New(b, w);
    assert d.address == a && e.address == b;
  }

  /** `Eq`: the comparison is an equivalence relation. */
  lemma EqIsEquivalence(d: PeerMetaData, e: PeerMetaData, f: PeerMetaData)
    ensures Eq(d, d)
    ensures Eq(d, e) ==> Eq(e, d)
    ensures Eq(d, e) && Eq(e, f) ==> Eq(d, f)
  {
  }
}

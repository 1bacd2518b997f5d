/** `validate_addrs`: the candidate set's clean-up of gossiped peer
    addresses before they reach the address book. Gossiped last-seen times
    come from untrusted clocks; when any of them lies after the limit (the
    local time), every time in the batch is moved back by the same offset,
    and a batch that the offset would push before the epoch is dropped. */
module ValidateAddrs {
  import opened Serialization
  import opened NetTypes

  /** `u32::MAX`, the latest `DateTime32`. */
  const U32_MAX: nat := U32_LIMIT - 1

  /** The latest last-seen time of the batch (a maximum folded from 0). */
  function Newest(addrs: seq<MetaAddr>): (r: DateTime32)
    ensures forall i :: 0 <= i < |addrs| ==> addrs[i].untrustedLastSeen <= r
    ensures |addrs| == 0 ==> r == 0
    ensures |addrs| > 0 ==> exists i :: 0 <= i < |addrs| && addrs[i].untrustedLastSeen == r
  {
    if |addrs| == 0 then 0
    else
      var rest := Newest(addrs[1..]);
      assert forall i :: 1 <= i < |addrs| ==> addrs[i] == addrs[1..][i - 1];
      if addrs[0].untrustedLastSeen >= rest then addrs[0].untrustedLastSeen else rest
  }

  /** The earliest last-seen time of the batch (a minimum folded from
      `u32::MAX`). */
  function Oldest(addrs: seq<MetaAddr>): (r: DateTime32)
    ensures forall i :: 0 <= i < |addrs| ==> r <= addrs[i].untrustedLastSeen
    ensures |addrs| == 0 ==> r == U32_MAX
    ensures |addrs| > 0 ==> exists i :: 0 <= i < |addrs| && addrs[i].untrustedLastSeen == r
  {
    if |addrs| == 0 then U32_MAX
    else
      var rest := Oldest(addrs[1..]);
      assert forall i :: 1 <= i < |addrs| ==> addrs[i] == addrs[1..][i - 1];
      if addrs[0].untrustedLastSeen <= rest then addrs[0].untrustedLastSeen else rest
  }

  /** Every address of the batch with its last-seen time moved back by
      `offset`; nothing else about the addresses changes. */
  function Shift(addrs: seq<MetaAddr>, offset: nat): (r: seq<MetaAddr>)
    requires forall i :: 0 <= i < |addrs| ==> offset <= addrs[i].untrustedLastSeen
    ensures |r| == |addrs|
    ensures forall i :: 0 <= i < |addrs| ==>
      r[i] == addrs[i].(untrustedLastSeen := addrs[i].untrustedLastSeen - offset)
  {
    if |addrs| == 0 then []
    else
      assert forall i :: 1 <= i < |addrs| ==> addrs[i] == addrs[1..][i - 1];
      [addrs[0].(untrustedLastSeen := addrs[0].untrustedLastSeen - offset)] + Shift(addrs[1..], offset)
  }

  /** The validated batch. If the newest time is after the limit, the
      offset is their difference; when the oldest time minus the offset
      would be negative the whole batch is rejected, otherwise every time
      is moved back by the offset. A batch with no time after the limit is
      returned as it is. No validated address is later than the limit. */
  function Validate(addrs: seq<MetaAddr>, limit: DateTime32): (r: seq<MetaAddr>)
    ensures forall i :: 0 <= i < |r| ==> r[i].untrustedLastSeen <= limit
    ensures |r| == 0 || |r| == |addrs|
  {
    var newest := Newest(addrs);
    if newest > limit then
      var offset := newest - limit;
      if Oldest(addrs) < offset then []
      else Shift(addrs, offset)
    else addrs
  }

  /** When no time lies after the limit (the newest may equal it), the
      batch comes back unchanged. */
  lemma PastUnchanged(addrs: seq<MetaAddr>, limit: DateTime32)
    requires forall i :: 0 <= i < |addrs| ==> addrs[i].untrustedLastSeen <= limit
    ensures Validate(addrs, limit) == addrs
  {
  }

  /** When some time lies after the limit and none would underflow, every
      address, past ones included, is moved back by the same offset, the
      newest time minus the limit, so the newest lands on the limit; the
      addresses, services and order are kept. */
  lemma FutureShifted(addrs: seq<MetaAddr>, limit: DateTime32, j: nat)
    requires j < |addrs| && addrs[j].untrustedLastSeen > limit
    requires forall i, k :: 0 <= i < |addrs| && 0 <= k < |addrs| ==>
      addrs[k].untrustedLastSeen - limit <= addrs[i].untrustedLastSeen
    ensures var r := Validate(addrs, limit);
      var offset := Newest(addrs) - limit;
      && offset > 0
      && |r| == |addrs|
      && (forall i :: 0 <= i < |addrs| ==>
            && r[i].untrustedLastSeen == addrs[i].untrustedLastSeen - offset
            && r[i].addr == addrs[i].addr
            && r[i].untrustedServices == addrs[i].untrustedServices)
      && (exists i :: 0 <= i < |r| && r[i].untrustedLastSeen == limit)
  {
    var newest := Newest(addrs);
    var k :| 0 <= k < |addrs| && addrs[k].untrustedLastSeen == newest;
    var o :| 0 <= o < |addrs| && addrs[o].untrustedLastSeen == Oldest(addrs);
    assert addrs[k].untrustedLastSeen - limit <= addrs[o].untrustedLastSeen;
    var r := Validate(addrs, limit);
    assert r[k].untrustedLastSeen == limit;
  }

  /** When some time lies after the limit and another lies earlier than the
      offset after the epoch, the whole batch is rejected. */
  lemma UnderflowRejected(addrs: seq<MetaAddr>, limit: DateTime32, j: nat, k: nat)
    requires j < |addrs| && k < |addrs|
    requires addrs[j].untrustedLastSeen > limit
    requires addrs[k].untrustedLastSeen < addrs[j].untrustedLastSeen - limit
    ensures Validate(addrs, limit) == []
  {
  }

  /** The batch of the underflow vector: times 0, the limit and `u32::MAX`,
      for any limit before `u32::MAX`, is rejected. */
  lemma UnderflowExample(a: SocketAddr, services: PeerServices, limit: DateTime32)
    requires limit < U32_MAX
    ensures Validate([MetaAddr(a, services, 0), MetaAddr(a, services, limit),
                      MetaAddr(a, services, U32_MAX)], limit) == []
  {
    var addrs := [MetaAddr(a, services, 0), MetaAddr(a, services, limit),
                  MetaAddr(a, services, U32_MAX)];
    UnderflowRejected(addrs, limit, 2, 0);
  }
}

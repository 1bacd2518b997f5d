/** The minimum protocol version a remote peer must advertise, which
    depends on the network and the best chain tip height. The tracker reads
    the tip height from a chain-tip watcher, recomputes the minimum on each
    query, and remembers whether it changed since it was last reported. */
module PeerVersion {
  import opened Wrappers

  type Height = nat

  /** A protocol version number. */
  type Version = nat

  datatype Network = Mainnet | Testnet

  /** `Version::min_remote_for_height`, whose table of network upgrades is
      not part of this model, is a parameter of the tracker. */
  type MinRemoteForHeight = (Network, Option<Height>) -> Version

  /** `MinimumPeerVersion`, with its chain tip modelled by the best tip
      height the watcher currently holds. */
  class MinimumPeerVersion {
    const network: Network
    const minRemoteForHeight: MinRemoteForHeight
    var chainTip: Option<Height>
    var currentMinimum: Version
    var hasChanged: bool

    /** A new tracker over a chain tip that has no height yet; its first
        minimum counts as a change. */
    constructor (minRemoteForHeight: MinRemoteForHeight, network: Network)
      ensures this.network == network && this.minRemoteForHeight == minRemoteForHeight
      ensures chainTip == None
      ensures currentMinimum == minRemoteForHeight(network, None)
      ensures hasChanged
    {
      this.network := network;
      this.minRemoteForHeight := minRemoteForHeight;
      chainTip := None;
      currentMinimum := minRemoteForHeight(network, None);
      hasChanged := true;
    }

    /** The chain tip's watcher receiving a new best tip height. */
    method SetBestTipHeight(height: Option<Height>)
      modifies this
      ensures chainTip == height
      ensures currentMinimum == old(currentMinimum) && hasChanged == old(hasChanged)
    {
      chainTip := height;
    }

    /** Recomputes the minimum from the tip height, noting a change. */
    method Update()
      modifies this
      ensures chainTip == old(chainTip)
      ensures currentMinimum == minRemoteForHeight(network, chainTip)
      ensures hasChanged == (old(hasChanged) || old(currentMinimum) != currentMinimum)
    {
      var newMinimum := minRemoteForHeight(network, chainTip);
      if currentMinimum != newMinimum {
        currentMinimum := newMinimum;
        hasChanged := true;
      }
    }

    /** `current`: the minimum for the current tip height. */
    method Current() returns (v: Version)
      modifies this
      ensures v == minRemoteForHeight(network, chainTip)
      ensures chainTip == old(chainTip) && currentMinimum == v
      ensures hasChanged == (old(hasChanged) || old(currentMinimum) != v)
    {
      Update();
      v := currentMinimum;
    }

    /** `changed`: the minimum for the current tip height if it differs
        from the one last reported (or none was reported yet), and nothing
        otherwise; either way the change is now reported. */
    method Changed() returns (r: Option<Version>)
      modifies this
      ensures chainTip == old(chainTip)
      ensures currentMinimum == minRemoteForHeight(network, chainTip)
      ensures r.Some? <==> (old(hasChanged) || old(currentMinimum) != currentMinimum)
      ensures r.Some? ==> r.value == currentMinimum
      ensures !hasChanged
    {
      Update();
      if hasChanged {
        hasChanged := false;
        r := Some(currentMinimum);
      } else {
        r := None;
      }
    }
  }

  /** One step of the expected reports: a tip update (`Some`) gives the
      new minimum when it differs from the current one and nothing
      otherwise; no update (`None`) gives nothing. The first component is
      the new current minimum. */
  function ExpectedStep(f: MinRemoteForHeight, network: Network, current: Version,
                        update: Option<Option<Height>>): (Version, Option<Version>)
  {
    match update
    case Some(height) =>
      var newMinimum := f(network, height);
      (newMinimum, if newMinimum != current then Some(newMinimum) else None)
    case None => (current, None)
  }

  /** The reports expected after a sequence of updates, oldest first,
      starting with the minimum for no tip height, together with the
      current minimum after them. */
  function Expected(f: MinRemoteForHeight, network: Network,
                    updates: seq<Option<Option<Height>>>): (r: (Version, seq<Option<Version>>))
    ensures |r.1| == |updates| + 1
    ensures r.1[0] == Some(f(network, None))
    decreases |updates|
  {
    if |updates| == 0 then (f(network, None), [Some(f(network, None))])
    else
      var before := Expected(f, network, updates[..|updates| - 1]);
      var step := ExpectedStep(f, network, before.0, updates[|updates| - 1]);
      (step.0, before.1 + [step.1])
  }

  /** After a series of tip heights, each `current` call returns the
      minimum for the height just sent. */
  method TracksChainTip(f: MinRemoteForHeight, network: Network, heights: seq<Option<Height>>)
    returns (observed: seq<Version>)
    ensures |observed| == |heights|
    ensures forall i :: 0 <= i < |heights| ==> observed[i] == f(network, heights[i])
  {
    var tracker := new MinimumPeerVersion(f, network);
    observed := [];
    for i := 0 to |heights|
      invariant tracker.network == network && tracker.minRemoteForHeight == f
      invariant |observed| == i
      invariant forall k :: 0 <= k < i ==> observed[k] == f(network, heights[k])
    {
      tracker.SetBestTipHeight(heights[i]);
      var v := tracker.Current();
      observed := observed + [v];
    }
  }

  /** The first `changed` call reports the minimum for no tip height, and
      after each update `changed` reports exactly what `Expected` does: a
      new minimum once, and nothing when the minimum is unchanged or no
      height was sent. */
  method ReportsChangesCorrectly(f: MinRemoteForHeight, network: Network,
                                 updates: seq<Option<Option<Height>>>)
    returns (observed: seq<Option<Version>>)
    ensures observed == Expected(f, network, updates).1
  {
    var tracker := new MinimumPeerVersion(f, network);
    var first := tracker.Changed();
    observed := [first];
    for i := 0 to |updates|
      invariant tracker.network == network && tracker.minRemoteForHeight == f
      invariant !tracker.hasChanged
      invariant tracker.currentMinimum == f(network, tracker.chainTip)
      invariant (tracker.currentMinimum, observed) == Expected(f, network, updates[..i])
    {
      if updates[i].Some? {
        tracker.SetBestTipHeight(updates[i].value);
      }
      var r := tracker.Changed();
      observed := observed + [r];
      assert updates[..i + 1][..i] == updates[..i];
    }
    assert updates[..|updates|] == updates;
  }
}

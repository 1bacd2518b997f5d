/** The receiving end of the best tip height, as read by the network
    stack: it watches the finalized height and the best non-finalized tip
    height separately and prefers the non-finalized one. */
module BestTipHeightReceiver {
  import opened Wrappers
  import opened BestTipHeightTracker

  /** The finalized height a new receiver starts from. */
  const INITIAL_FINALIZED_HEIGHT: Height := 1

  /** The two watched values, as last sent on their channels. */
  datatype Receiver = Receiver(finalized: Height, nonFinalized: Option<Height>)

  /** `BestTipHeightReceiver::new`: the finalized channel starts at height
      1 and the non-finalized channel empty. */
  function NewReceiver(): (r: Receiver)
    ensures r.finalized == INITIAL_FINALIZED_HEIGHT && r.nonFinalized == None
  {
    Receiver(INITIAL_FINALIZED_HEIGHT, None)
  }

  /** `best_tip_height`: the non-finalized tip height when there is one,
      even when it is below the finalized height, and the finalized height
      otherwise. The result is always one of the two stored heights. */
  function BestTipHeight(r: Receiver): (h: Height)
    ensures r.nonFinalized.Some? ==> h == r.nonFinalized.value
    ensures r.nonFinalized.None? ==> h == r.finalized
    ensures h == r.finalized || (r.nonFinalized.Some? && h == r.nonFinalized.value)
  {
    match r.nonFinalized
    case Some(h) => h
    case None => r.finalized
  }

  /** A fresh receiver reports height 1. */
  lemma NewReceiverHeight()
    ensures BestTipHeight(NewReceiver()) == INITIAL_FINALIZED_HEIGHT
  {
    var r := NewReceiver();
    assert r.nonFinalized.None?;
  }

  /** The receiver does not take a maximum: it agrees with the tracker's
      best height, the larger of the two, exactly when there is no
      non-finalized height or it is not below the finalized one. */
  lemma AgreesWithBestIff(r: Receiver)
    ensures BestTipHeight(r) == Best(r.finalized, r.nonFinalized)
        <==> (r.nonFinalized.None? || r.nonFinalized.value >= r.finalized)
  {
    match r.nonFinalized
    case None =>
    case Some(n) =>
      assert BestTipHeight(r) == n;
  }

  /** A non-finalized height below the finalized one is reported as it is. */
  lemma LowerNonFinalizedReported(finalized: Height, nonFinalized: Height)
    requires nonFinalized < finalized
    ensures BestTipHeight(Receiver(finalized, Some(nonFinalized))) == nonFinalized
    ensures BestTipHeight(Receiver(finalized, Some(nonFinalized))) < Best(finalized, Some(nonFinalized))
  {
    AgreesWithBestIff(Receiver(finalized, Some(nonFinalized)));
  }
}

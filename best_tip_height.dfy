/** The state service's best-tip-height tracker: it keeps the finalized
    height and the best non-finalized tip height, and publishes the larger
    of the two on a watch channel, but only when that value changes. */
module BestTipHeightTracker {
  import opened Wrappers

  /** `block::Height`. */
  type Height = nat

  const GENESIS_HEIGHT: Height := 0

  /** The best tip height: the larger of the two heights, or the finalized
      height when no non-finalized block is known. */
  function Best(finalized: Height, nonFinalized: Option<Height>): (h: Height)
    ensures h >= finalized
    ensures nonFinalized.Some? ==> h >= nonFinalized.value
    ensures h == finalized || (nonFinalized.Some? && h == nonFinalized.value)
  {
    match nonFinalized
    case Some(n) => if finalized >= n then finalized else n
    case None => finalized
  }

  /** The tracker's state: the two heights, the last published value, and
      every value the channel has held, oldest first. */
  datatype Tracker = Tracker(
    finalized: Height,
    nonFinalized: Option<Height>,
    activeValue: Height,
    published: seq<Height>)
  {
    /** The active value is the best tip height and the channel's latest
        value, and the channel never received the value it already held. */
    ghost predicate Valid()
    {
      && |published| > 0
      && published[|published| - 1] == activeValue
      && activeValue == Best(finalized, nonFinalized)
      && forall i :: 0 <= i < |published| - 1 ==> published[i] != published[i + 1]
    }
  }

  /** `BestTipHeight::new`: both heights at genesis, the channel holding the
      genesis height. */
  function NewTracker(): (t: Tracker)
    ensures t.Valid()
    ensures t.published == [GENESIS_HEIGHT]
  {
    Tracker(GENESIS_HEIGHT, None, GENESIS_HEIGHT, [GENESIS_HEIGHT])
  }

  /** `update`: sends the best tip height when it differs from the active
      value. */
  function Updated(t: Tracker): Tracker
  {
    var newValue := Best(t.finalized, t.nonFinalized);
    if newValue != t.activeValue then
      t.(published := t.published + [newValue], activeValue := newValue)
    else t
  }

  function SetFinalized(t: Tracker, h: Height): Tracker
  {
    if t.finalized != h then Updated(t.(finalized := h)) else t
  }

  function SetNonFinalized(t: Tracker, h: Option<Height>): Tracker
  {
    if t.nonFinalized != h then Updated(t.(nonFinalized := h)) else t
  }

  /** After `update` the tracker is valid again; the channel gains one
      value exactly when the best tip height differs from the active one. */
  lemma UpdateValid(t: Tracker)
    requires |t.published| > 0 && t.published[|t.published| - 1] == t.activeValue
    requires forall i :: 0 <= i < |t.published| - 1 ==> t.published[i] != t.published[i + 1]
    ensures var u := Updated(t);
      && u.Valid()
      && u.finalized == t.finalized && u.nonFinalized == t.nonFinalized
      && (Best(t.finalized, t.nonFinalized) != t.activeValue <==> |u.published| == |t.published| + 1)
      && (Best(t.finalized, t.nonFinalized) == t.activeValue <==> u.published == t.published)
      && u.published[..|t.published|] == t.published
  {
    var u := Updated(t);
    if Best(t.finalized, t.nonFinalized) != t.activeValue {
      forall i | 0 <= i < |u.published| - 1 ensures u.published[i] != u.published[i + 1] {
        if i < |t.published| - 1 {
          assert u.published[i] == t.published[i] && u.published[i + 1] == t.published[i + 1];
        }
      }
    }
  }

  /** `set_finalized_height`: stores the height and updates; setting the
      height already stored changes nothing. */
  lemma SetFinalizedValid(t: Tracker, h: Height)
    requires t.Valid()
    ensures var u := SetFinalized(t, h);
      && u.Valid()
      && u.finalized == h && u.nonFinalized == t.nonFinalized
      && u.published[..|t.published|] == t.published
      && (t.finalized == h ==> u == t)
  {
    if t.finalized != h {
      UpdateValid(t.(finalized := h));
    }
  }

  /** `set_best_non_finalized_height`: stores the height and updates;
      setting the height already stored changes nothing. */
  lemma SetNonFinalizedValid(t: Tracker, h: Option<Height>)
    requires t.Valid()
    ensures var u := SetNonFinalized(t, h);
      && u.Valid()
      && u.nonFinalized == h && u.finalized == t.finalized
      && u.published[..|t.published|] == t.published
      && (t.nonFinalized == h ==> u == t)
  {
    if t.nonFinalized != h {
      UpdateValid(t.(nonFinalized := h));
    }
  }

  /** A call to one of the two setters. */
  datatype Call = SetFinalizedCall(height: Height) | SetNonFinalizedCall(maybeHeight: Option<Height>)

  function Apply(t: Tracker, c: Call): Tracker
  {
    match c
    case SetFinalizedCall(h) => SetFinalized(t, h)
    case SetNonFinalizedCall(h) => SetNonFinalized(t, h)
  }

  function ApplyAll(t: Tracker, calls: seq<Call>): Tracker
    decreases |calls|
  {
    if |calls| == 0 then t else ApplyAll(Apply(t, calls[0]), calls[1..])
  }

  /** After any sequence of setter calls from a new tracker: the channel
      holds the best tip height, which is never below the finalized height;
      no two consecutive published values are equal; and the channel's
      earlier values are kept. */
  lemma {:induction false} ApplyAllValid(t: Tracker, calls: seq<Call>)
    requires t.Valid()
    ensures var u := ApplyAll(t, calls);
      && u.Valid()
      && u.published[|u.published| - 1] == Best(u.finalized, u.nonFinalized)
      && u.published[|u.published| - 1] >= u.finalized
      && |u.published| >= |t.published|
      && u.published[..|t.published|] == t.published
    decreases |calls|
  {
    if |calls| > 0 {
      var next := Apply(t, calls[0]);
      if calls[0].SetFinalizedCall? {
        SetFinalizedValid(t, calls[0].height);
      } else {
        SetNonFinalizedValid(t, calls[0].maybeHeight);
      }
      ApplyAllValid(next, calls[1..]);
      var u := ApplyAll(t, calls);
      assert u.published[..|t.published|] == u.published[..|next.published|][..|t.published|];
    }
  }

  /** The scenario of the tracker's property test: a new tracker, the
      non-finalized height set, then the finalized height set if given. The
      channel then holds the larger height when both are given, the given
      one when one is, and the genesis height when neither is. */
  lemma PropertyScenario(finalized: Option<Height>, nonFinalized: Option<Height>)
    ensures var t1 := SetNonFinalized(NewTracker(), nonFinalized);
      var t2 := if finalized.Some? then SetFinalized(t1, finalized.value) else t1;
      var latest := t2.published[|t2.published| - 1];
      && (finalized.Some? && nonFinalized.Some? ==>
            latest == if finalized.value >= nonFinalized.value then finalized.value else nonFinalized.value)
      && (finalized.Some? && nonFinalized.None? ==> latest == finalized.value)
      && (finalized.None? && nonFinalized.Some? ==> latest == nonFinalized.value)
      && (finalized.None? && nonFinalized.None? ==> latest == GENESIS_HEIGHT)
  {
    var t1 := SetNonFinalized(NewTracker(), nonFinalized);
    SetNonFinalizedValid(NewTracker(), nonFinalized);
    if finalized.Some? {
      SetFinalizedValid(t1, finalized.value);
    }
  }

  /** `BestTipHeight`, with the sending half of the watch channel modelled
      by the sequence of values it has held. */
  class BestTipHeight {
    var finalized: Height
    var nonFinalized: Option<Height>
    var activeValue: Height
    var published: seq<Height>

    function State(): Tracker
      reads this
    {
      Tracker(finalized, nonFinalized, activeValue, published)
    }

    constructor ()
      ensures State() == NewTracker()
    {
      finalized := GENESIS_HEIGHT;
      nonFinalized := None;
      activeValue := GENESIS_HEIGHT;
      published := [GENESIS_HEIGHT];
    }

    /** `set_finalized_height`. */
    method SetFinalizedHeight(newHeight: Height)
      requires State().Valid()
      modifies this
      ensures State() == SetFinalized(old(State()), newHeight)
      ensures State().Valid()
    {
      SetFinalizedValid(State(), newHeight);
      if finalized != newHeight {
        finalized := newHeight;
        Update();
      }
    }

    /** `set_best_non_finalized_height`. */
    method SetBestNonFinalizedHeight(newHeight: Option<Height>)
      requires State().Valid()
      modifies this
      ensures State() == SetNonFinalized(old(State()), newHeight)
      ensures State().Valid()
    {
      SetNonFinalizedValid(State(), newHeight);
      if nonFinalized != newHeight {
        nonFinalized := newHeight;
        Update();
      }
    }

    /** `update`: sends and records the new best tip height if it changed. */
    method Update()
      modifies this
      ensures State() == Updated(old(State()))
    {
      var newValue := match nonFinalized
        case Some(n) => if finalized >= n then finalized else n
        case None => finalized;
      if newValue != activeValue {
        published := published + [newValue];
        activeValue := newValue;
      }
    }
  }
}

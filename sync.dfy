/** The syncer's rules for following chain tips: how `ObtainTips` and
    `ExtendTips` responses (lists of block hashes from peers) are trimmed
    and checked, which prospective tips they produce, and which hashes they
    queue for download; and which block download or verify errors restart
    the sync. */
module Sync {
  import opened Wrappers

  type BlockHash = nat

  /** The checkpoint interval of the block verifier. */
  const MAX_CHECKPOINT_HEIGHT_GAP: nat := 400

  /** The smallest lookahead limit: two checkpoint intervals. */
  const MIN_LOOKAHEAD_LIMIT: nat := MAX_CHECKPOINT_HEIGHT_GAP * 2

  const DEFAULT_LOOKAHEAD_LIMIT: nat := MAX_CHECKPOINT_HEIGHT_GAP * 5

  const BEHIND_TIP_ERROR: string := "queued download of hash behind our chain tip"

  /** A tip the syncer follows: a block hash and the hash expected to come
      right after it in the next response. */
  datatype CheckedTip = CheckedTip(tip: BlockHash, expectedNext: BlockHash)

  /** One peer's answer to a `FindBlocks` request: the hashes it sent, or a
      failure (timeouts and network errors, which are ignored). */
  datatype TipsResponse = BlockHashes(hashes: seq<BlockHash>) | NetworkError

  ghost predicate Distinct(s: seq<BlockHash>)
  {
    forall i, j :: 0 <= i < j < |s| ==> s[i] != s[j]
  }

  /** The hash list without its last hash, or `None` for an empty list: the
      last hash may be unrelated, so it never becomes part of a tip. */
  function DropLast(hashes: seq<BlockHash>): (r: Option<seq<BlockHash>>)
    ensures r.None? <==> |hashes| == 0
    ensures r.Some? ==> r.value + [hashes[|hashes| - 1]] == hashes
  {
    if |hashes| == 0 then None else Some(hashes[..|hashes| - 1])
  }

  /** The index of the first hash the state does not contain, if any. */
  function FirstUnknownIndex(hashes: seq<BlockHash>, state: set<BlockHash>): (r: Option<nat>)
    ensures r.Some? ==> r.value < |hashes| && hashes[r.value] !in state
    ensures r.Some? ==> forall j :: 0 <= j < r.value ==> hashes[j] in state
    ensures r.None? ==> forall j :: 0 <= j < |hashes| ==> hashes[j] in state
  {
    if |hashes| == 0 then None
    else if hashes[0] !in state then Some(0)
    else
      match FirstUnknownIndex(hashes[1..], state)
      case None => None
      case Some(i) => Some(i + 1)
  }

  /** The search of `obtain_tips` for the first unknown hash, a loop that
      stops at the first hash the state lacks. */
  method FirstUnknown(hashes: seq<BlockHash>, state: set<BlockHash>) returns (r: Option<nat>)
    ensures r == FirstUnknownIndex(hashes, state)
  {
    var i := 0;
    while i < |hashes|
      invariant 0 <= i <= |hashes|
      invariant forall j :: 0 <= j < i ==> hashes[j] in state
    {
      if hashes[i] !in state {
        return Some(i);
      }
      i := i + 1;
    }
    return None;
  }

  /** The tip made from the last two hashes of a list (`rchunks_exact(2)`):
      the second-to-last is the tip and the last is expected next. */
  function NewTip(unknown: seq<BlockHash>): (r: Option<CheckedTip>)
    ensures r.Some? <==> |unknown| >= 2
    ensures r.Some? ==> r.value.tip == unknown[|unknown| - 2]
    ensures r.Some? ==> r.value.expectedNext == unknown[|unknown| - 1]
  {
    if |unknown| < 2 then None
    else Some(CheckedTip(unknown[|unknown| - 2], unknown[|unknown| - 1]))
  }

  /** The check `extend_tips` applies to a response for `tip`: the hashes
      after `expectedNext` when it is the first or the second hash, and
      `None` for an empty list, a single hash, or two unexpected hashes. */
  function ExtendMatch(hashes: seq<BlockHash>, expectedNext: BlockHash): (r: Option<seq<BlockHash>>)
    ensures r.Some? <==>
      || (|hashes| >= 1 && hashes[0] == expectedNext)
      || (|hashes| >= 2 && hashes[1] == expectedNext)
    ensures |hashes| >= 1 && hashes[0] == expectedNext ==> r == Some(hashes[1..])
    ensures |hashes| >= 2 && hashes[0] != expectedNext && hashes[1] == expectedNext ==>
      r == Some(hashes[2..])
  {
    if |hashes| >= 1 && hashes[0] == expectedNext then Some(hashes[1..])
    else if |hashes| >= 2 && hashes[1] == expectedNext then Some(hashes[2..])
    else None
  }

  /** The prospective-tip update for a new tip made from `unknown`: if its
      expected next hash is already queued the tips do not change;
      otherwise every tip expecting one of the new hashes is replaced by
      the new tip. */
  function UpdateTips(tips: set<CheckedTip>, downloadSet: seq<BlockHash>,
                      unknown: seq<BlockHash>, newTip: CheckedTip): (r: set<CheckedTip>)
    requires newTip.expectedNext in unknown
    ensures newTip.expectedNext in downloadSet ==> r == tips
    ensures newTip.expectedNext !in downloadSet ==>
      && newTip in r
      && (forall t :: t in r && t.expectedNext in unknown ==> t == newTip)
      && (forall t :: t in tips && t.expectedNext !in unknown ==> t in r)
      && (forall t :: t in r ==> t in tips || t == newTip)
  {
    if newTip.expectedNext !in downloadSet then
      (set t | t in tips && t.expectedNext !in unknown) + {newTip}
    else tips
  }

  /** `IndexSet::extend`: appends, in order, each hash not already present. */
  function ExtendDownloadSet(downloadSet: seq<BlockHash>, hashes: seq<BlockHash>): (r: seq<BlockHash>)
    ensures |r| >= |downloadSet| && r[..|downloadSet|] == downloadSet
    ensures forall h :: h in r <==> h in downloadSet || h in hashes
    ensures Distinct(downloadSet) ==> Distinct(r)
    decreases |hashes|
  {
    if |hashes| == 0 then downloadSet
    else if hashes[0] in downloadSet then ExtendDownloadSet(downloadSet, hashes[1..])
    else
      var next := downloadSet + [hashes[0]];
      assert Distinct(downloadSet) ==> Distinct(next);
      var r := ExtendDownloadSet(next, hashes[1..]);
      assert r[..|downloadSet|] == next[..|downloadSet|];
      r
  }

  function Elements(s: seq<BlockHash>): set<BlockHash>
  {
    set h | h in s
  }

  /** The hashes of `hashes` that are not in `seen`, each once, in the order
      of their first occurrence. */
  function NewInOrder(seen: set<BlockHash>, hashes: seq<BlockHash>): seq<BlockHash>
    decreases |hashes|
  {
    if |hashes| == 0 then []
    else if hashes[0] in seen then NewInOrder(seen, hashes[1..])
    else [hashes[0]] + NewInOrder(seen + {hashes[0]}, hashes[1..])
  }

  /** `IndexSet::extend` appends the new hashes in the order of their first
      occurrence, skipping the ones the set already holds. */
  lemma {:induction false} ExtendDownloadSetOrder(downloadSet: seq<BlockHash>, hashes: seq<BlockHash>)
    ensures ExtendDownloadSet(downloadSet, hashes)
      == downloadSet + NewInOrder(Elements(downloadSet), hashes)
    decreases |hashes|
  {
    if |hashes| > 0 {
      var h := hashes[0];
      if h in downloadSet {
        ExtendDownloadSetOrder(downloadSet, hashes[1..]);
      } else {
        var next := downloadSet + [h];
        ExtendDownloadSetOrder(next, hashes[1..]);
        assert Elements(next) == Elements(downloadSet) + {h};
        var rest := NewInOrder(Elements(next), hashes[1..]);
        assert next + rest == downloadSet + ([h] + rest);
      }
    }
  }

  /** The download set grows by exactly the number of hashes it did not
      hold yet. */
  lemma {:induction false} ExtendDownloadSetGrowth(downloadSet: seq<BlockHash>, hashes: seq<BlockHash>)
    requires Distinct(downloadSet)
    ensures |ExtendDownloadSet(downloadSet, hashes)| - |downloadSet|
      == |Elements(hashes) - Elements(downloadSet)|
    decreases |hashes|
  {
    if |hashes| == 0 {
      assert Elements(hashes) == {};
    } else {
      var h := hashes[0];
      ElementsOfCons(hashes);
      if h in downloadSet {
        ExtendDownloadSetGrowth(downloadSet, hashes[1..]);
        assert Elements(hashes) - Elements(downloadSet)
          == Elements(hashes[1..]) - Elements(downloadSet);
      } else {
        var next := downloadSet + [h];
        assert Distinct(next);
        ExtendDownloadSetGrowth(next, hashes[1..]);
        NewElementCounts(Elements(hashes[1..]), Elements(downloadSet), h);
        assert Elements(next) == Elements(downloadSet) + {h};
      }
    }
  }

  lemma ElementsOfCons(hashes: seq<BlockHash>)
    requires |hashes| > 0
    ensures Elements(hashes) == {hashes[0]} + Elements(hashes[1..])
  {
    assert forall h :: h in hashes <==> h == hashes[0] || h in hashes[1..];
  }

  /** Adding an element `h` outside `known` to the set of new elements adds
      one to its size. */
  lemma NewElementCounts(rest: set<BlockHash>, known: set<BlockHash>, h: BlockHash)
    requires h !in known
    ensures |({h} + rest) - known| == |rest - (known + {h})| + 1
  {
    var x := rest - (known + {h});
    assert ({h} + rest) - known == x + {h};
    assert h !in x;
  }

  /** The tips and the download set built while processing responses. */
  datatype Round = Round(tips: set<CheckedTip>, downloadSet: seq<BlockHash>)

  /** Every tip's hashes are queued, and no hash is queued twice. */
  ghost predicate Covered(s: Round)
  {
    && Distinct(s.downloadSet)
    && forall t :: t in s.tips ==> t.tip in s.downloadSet && t.expectedNext in s.downloadSet
  }

  /** Uses a trimmed list of new hashes: a list of fewer than two hashes is
      discarded; otherwise the tip made from its last two hashes updates
      the prospective tips and the list is added to the download set. */
  function AcceptHashes(s: Round, unknown: seq<BlockHash>): (r: Round)
    ensures |unknown| < 2 ==> r == s
    ensures |r.downloadSet| >= |s.downloadSet| && r.downloadSet[..|s.downloadSet|] == s.downloadSet
    ensures forall h :: h in r.downloadSet <==> h in s.downloadSet || (|unknown| >= 2 && h in unknown)
  {
    match NewTip(unknown)
    case None => s
    case Some(newTip) =>
      Round(UpdateTips(s.tips, s.downloadSet, unknown, newTip),
            ExtendDownloadSet(s.downloadSet, unknown))
  }

  lemma AcceptKeepsCovered(s: Round, unknown: seq<BlockHash>)
    requires Covered(s)
    ensures Covered(AcceptHashes(s, unknown))
    ensures |unknown| >= 2 ==>
      AcceptHashes(s, unknown).downloadSet == ExtendDownloadSet(s.downloadSet, unknown)
    ensures |unknown| < 2 ==> AcceptHashes(s, unknown) == s
  {
  }

  /** One `obtain_tips` response: failures and empty lists are ignored; the
      last hash is dropped; a list whose hashes the state all holds is
      ignored; otherwise the hashes from the first unknown one on are
      accepted. */
  function ObtainStep(s: Round, response: TipsResponse, state: set<BlockHash>): (r: Round)
    ensures response.NetworkError? ==> r == s
    ensures |r.downloadSet| >= |s.downloadSet| && r.downloadSet[..|s.downloadSet|] == s.downloadSet
  {
    match response
    case NetworkError => s
    case BlockHashes(hashes) =>
      match DropLast(hashes)
      case None => s
      case Some(trimmed) =>
        match FirstUnknownIndex(trimmed, state)
        case None => s
        case Some(i) => AcceptHashes(s, trimmed[i..])
  }

  /** All `obtain_tips` responses, in the order they arrive. */
  function ObtainAll(s: Round, responses: seq<TipsResponse>, state: set<BlockHash>): Round
    decreases |responses|
  {
    if |responses| == 0 then s
    else ObtainStep(ObtainAll(s, responses[..|responses| - 1], state), responses[|responses| - 1], state)
  }

  /** A response to `obtain_tips` changes nothing when it is empty or has a
      single hash, when the state holds every hash but the last, or when
      fewer than two hashes remain from the first unknown one on. */
  lemma ObtainIgnored(s: Round, hashes: seq<BlockHash>, state: set<BlockHash>)
    requires
      || |hashes| <= 1
      || (forall j :: 0 <= j < |hashes| - 1 ==> hashes[j] in state)
      || (exists i :: 0 <= i < |hashes| - 1 && hashes[i] !in state
            && (forall j :: 0 <= j < i ==> hashes[j] in state) && |hashes| - 1 - i < 2)
    ensures ObtainStep(s, BlockHashes(hashes), state) == s
  {
    if |hashes| > 1 {
      var trimmed := hashes[..|hashes| - 1];
      var first := FirstUnknownIndex(trimmed, state);
      if first.Some? {
        var i :| 0 <= i < |hashes| - 1 && hashes[i] !in state
          && (forall j :: 0 <= j < i ==> hashes[j] in state) && |hashes| - 1 - i < 2;
        assert first.value == i;
      }
    }
  }

  /** A response to `obtain_tips` with at least two hashes from the first
      unknown one up to (not including) the last queues those hashes. */
  lemma ObtainAccepted(s: Round, hashes: seq<BlockHash>, state: set<BlockHash>, i: nat)
    requires i < |hashes| - 1 && hashes[i] !in state
    requires forall j :: 0 <= j < i ==> hashes[j] in state
    requires |hashes| - 1 - i >= 2
    ensures var r := ObtainStep(s, BlockHashes(hashes), state);
      var newTip := CheckedTip(hashes[|hashes| - 3], hashes[|hashes| - 2]);
      && r.downloadSet == ExtendDownloadSet(s.downloadSet, hashes[i..|hashes| - 1])
      && r.tips == UpdateTips(s.tips, s.downloadSet, hashes[i..|hashes| - 1], newTip)
  {
    var trimmed := hashes[..|hashes| - 1];
    assert FirstUnknownIndex(trimmed, state) == Some(i);
    assert trimmed[i..] == hashes[i..|hashes| - 1];
  }

  lemma {:induction false} ObtainAllCovered(s: Round, responses: seq<TipsResponse>, state: set<BlockHash>)
    requires Covered(s)
    ensures Covered(ObtainAll(s, responses, state))
    decreases |responses|
  {
    if |responses| > 0 {
      var before := ObtainAll(s, responses[..|responses| - 1], state);
      ObtainAllCovered(s, responses[..|responses| - 1], state);
      var response := responses[|responses| - 1];
      if response.BlockHashes? && |response.hashes| > 0 {
        var trimmed := response.hashes[..|response.hashes| - 1];
        var first := FirstUnknownIndex(trimmed, state);
        if first.Some? {
          AcceptKeepsCovered(before, trimmed[first.value..]);
        }
      }
    }
  }

  /** One `extend_tips` response for `tip`: it must continue from the tip's
      expected next hash (as first or second hash); the last hash is
      dropped; the rest is accepted. */
  function ExtendStep(s: Round, tip: CheckedTip, response: TipsResponse): (r: Round)
    ensures response.NetworkError? ==> r == s
    ensures |r.downloadSet| >= |s.downloadSet| && r.downloadSet[..|s.downloadSet|] == s.downloadSet
  {
    match response
    case NetworkError => s
    case BlockHashes(hashes) =>
      match ExtendMatch(hashes, tip.expectedNext)
      case None => s
      case Some(rest) =>
        match DropLast(rest)
        case None => s
        case Some(unknown) => AcceptHashes(s, unknown)
  }

  /** All responses for one tip, in the order they arrive. */
  function ExtendAll(s: Round, tip: CheckedTip, responses: seq<TipsResponse>): Round
    decreases |responses|
  {
    if |responses| == 0 then s
    else ExtendStep(ExtendAll(s, tip, responses[..|responses| - 1]), tip, responses[|responses| - 1])
  }

  /** The responses for every tip, tip after tip. */
  function ExtendTipsAll(s: Round, order: seq<CheckedTip>, responses: seq<seq<TipsResponse>>): Round
    requires |order| == |responses|
    decreases |order|
  {
    if |order| == 0 then s
    else
      var k := |order| - 1;
      ExtendAll(ExtendTipsAll(s, order[..k], responses[..k]), order[k], responses[k])
  }

  /** A response to `extend_tips` is discarded when it does not continue
      from the tip's expected next hash in its first or second position. */
  lemma ExtendMismatchIgnored(s: Round, tip: CheckedTip, hashes: seq<BlockHash>)
    requires |hashes| == 0 || hashes[0] != tip.expectedNext
    requires |hashes| <= 1 || hashes[1] != tip.expectedNext
    ensures ExtendStep(s, tip, BlockHashes(hashes)) == s
  {
  }

  /** A response to `extend_tips` that continues from the expected next
      hash queues the hashes after it, without the last one. */
  lemma ExtendAccepted(s: Round, tip: CheckedTip, hashes: seq<BlockHash>, k: nat)
    requires k < 2 && k < |hashes| && hashes[k] == tip.expectedNext
    requires k == 1 ==> hashes[0] != tip.expectedNext
    requires |hashes| - (k + 1) >= 3
    ensures var r := ExtendStep(s, tip, BlockHashes(hashes));
      var newTip := CheckedTip(hashes[|hashes| - 3], hashes[|hashes| - 2]);
      && r.downloadSet == ExtendDownloadSet(s.downloadSet, hashes[k + 1..|hashes| - 1])
      && r.tips == UpdateTips(s.tips, s.downloadSet, hashes[k + 1..|hashes| - 1], newTip)
  {
    var rest := hashes[k + 1..];
    assert ExtendMatch(hashes, tip.expectedNext) == Some(rest);
    assert rest[..|rest| - 1] == hashes[k + 1..|hashes| - 1];
  }

  /** A response to `extend_tips` that continues from the expected next
      hash but leaves fewer than two hashes once the last one is dropped is
      discarded. */
  lemma ExtendShortIgnored(s: Round, tip: CheckedTip, hashes: seq<BlockHash>, k: nat)
    requires k < 2 && k < |hashes| && hashes[k] == tip.expectedNext
    requires k == 1 ==> hashes[0] != tip.expectedNext
    requires |hashes| - (k + 1) < 3
    ensures ExtendStep(s, tip, BlockHashes(hashes)) == s
  {
    assert ExtendMatch(hashes, tip.expectedNext) == Some(hashes[k + 1..]);
  }

  lemma {:induction false} ExtendAllCovered(s: Round, tip: CheckedTip, responses: seq<TipsResponse>)
    requires Covered(s)
    ensures Covered(ExtendAll(s, tip, responses))
    decreases |responses|
  {
    if |responses| > 0 {
      var before := ExtendAll(s, tip, responses[..|responses| - 1]);
      ExtendAllCovered(s, tip, responses[..|responses| - 1]);
      var response := responses[|responses| - 1];
      if response.BlockHashes? {
        var m := ExtendMatch(response.hashes, tip.expectedNext);
        if m.Some? && |m.value| > 0 {
          AcceptKeepsCovered(before, m.value[..|m.value| - 1]);
        }
      }
    }
  }

  /** After `extend_tips` (which starts from no tips and an empty download
      set), every prospective tip's hashes are queued for download, and no
      hash is queued twice. */
  lemma {:induction false} ExtendTipsAllCovered(order: seq<CheckedTip>, responses: seq<seq<TipsResponse>>)
    requires |order| == |responses|
    ensures Covered(ExtendTipsAll(Round({}, []), order, responses))
    decreases |order|
  {
    if |order| > 0 {
      var k := |order| - 1;
      ExtendTipsAllCovered(order[..k], responses[..k]);
      ExtendAllCovered(ExtendTipsAll(Round({}, []), order[..k], responses[..k]), order[k], responses[k]);
    }
  }

  /** After `obtain_tips` starting from no prospective tips, every tip's
      hashes are queued for download, and no hash is queued twice. */
  lemma ObtainFromNoTipsCovered(responses: seq<TipsResponse>, state: set<BlockHash>)
    ensures Covered(ObtainAll(Round({}, []), responses, state))
  {
    ObtainAllCovered(Round({}, []), responses, state);
  }

  /** The syncer's tip-following state. Requests to peers and to the state
      service are replaced by their answers: the `FindBlocks` responses in
      arrival order, and the set of hashes the state holds. */
  class ChainSync {
    /** The configured lookahead limit. */
    const lookaheadLimit: nat
    /** The tips the syncer is following. */
    var prospectiveTips: set<CheckedTip>
    /** The hashes handed to the block downloader, in order. */
    var requested: seq<BlockHash>
    /** The recent `obtain_tips` and `extend_tips` download counts. */
    var obtainLengths: seq<nat>
    var extendLengths: seq<nat>

    /** `ChainSync::new`: a lookahead limit below MIN_LOOKAHEAD_LIMIT is a
        configuration error (the constructor panics). */
    constructor (lookaheadLimit: nat)
      requires lookaheadLimit >= MIN_LOOKAHEAD_LIMIT
      ensures this.lookaheadLimit == lookaheadLimit
      ensures prospectiveTips == {} && requested == []
      ensures obtainLengths == [] && extendLengths == []
    {
      this.lookaheadLimit := lookaheadLimit;
      prospectiveTips := {};
      requested := [];
      obtainLengths := [];
      extendLengths := [];
    }

    /** `obtain_tips`: processes the responses in arrival order, updating
        the prospective tips as it goes; then fails if the state already
        holds a queued hash, and otherwise queues the download set. */
    method ObtainTips(responses: seq<TipsResponse>, state: set<BlockHash>) returns (r: Result<(), string>)
      modifies this
      ensures var s := ObtainAll(Round(old(prospectiveTips), []), responses, state);
        && prospectiveTips == s.tips
        && (r.Err? <==> exists h :: h in s.downloadSet && h in state)
        && (r.Err? ==>
              && r.error == BEHIND_TIP_ERROR
              && requested == old(requested)
              && obtainLengths == old(obtainLengths))
        && (r.Ok? ==>
              && requested == old(requested) + s.downloadSet
              && obtainLengths == old(obtainLengths) + [|s.downloadSet|])
      ensures extendLengths == old(extendLengths)
    {
      var start := Round(prospectiveTips, []);
      var downloadSet: seq<BlockHash> := [];
      var i := 0;
      while i < |responses|
        invariant 0 <= i <= |responses|
        invariant Round(prospectiveTips, downloadSet) == ObtainAll(start, responses[..i], state)
        invariant requested == old(requested) && obtainLengths == old(obtainLengths)
        invariant extendLengths == old(extendLengths)
      {
        assert responses[..i + 1][..i] == responses[..i];
        downloadSet := ObtainFromResponse(responses[i], state, downloadSet);
        i := i + 1;
      }
      assert responses[..|responses|] == responses;
      var j := 0;
      while j < |downloadSet|
        invariant 0 <= j <= |downloadSet|
        invariant forall k :: 0 <= k < j ==> downloadSet[k] !in state
      {
        if downloadSet[j] in state {
          return Err(BEHIND_TIP_ERROR);
        }
        j := j + 1;
      }
      obtainLengths := obtainLengths + [|downloadSet|];
      requested := requested + downloadSet;
      return Ok(());
    }

    /** One `obtain_tips` response: the last hash is dropped, the hashes
        from the first one the state lacks are kept, and when at least two
        remain they may replace tips and extend the download set. */
    method ObtainFromResponse(response: TipsResponse, state: set<BlockHash>, downloadSet0: seq<BlockHash>)
      returns (downloadSet: seq<BlockHash>)
      modifies this
      ensures Round(prospectiveTips, downloadSet)
        == ObtainStep(Round(old(prospectiveTips), downloadSet0), response, state)
      ensures requested == old(requested) && obtainLengths == old(obtainLengths)
      ensures extendLengths == old(extendLengths)
    {
      downloadSet := downloadSet0;
      if response.BlockHashes? && |response.hashes| > 0 {
        var hashes := response.hashes[..|response.hashes| - 1];
        assert DropLast(response.hashes) == Some(hashes);
        var firstUnknown := FirstUnknown(hashes, state);
        if firstUnknown.Some? {
          var unknown := hashes[firstUnknown.value..];
          ghost var before := Round(prospectiveTips, downloadSet);
          assert ObtainStep(before, response, state) == AcceptHashes(before, unknown);
          if |unknown| >= 2 {
            var newTip := CheckedTip(unknown[|unknown| - 2], unknown[|unknown| - 1]);
            assert NewTip(unknown) == Some(newTip);
            if newTip.expectedNext !in downloadSet {
              prospectiveTips := set t | t in prospectiveTips && t.expectedNext !in unknown;
              prospectiveTips := prospectiveTips + {newTip};
            }
            downloadSet := ExtendDownloadSet(downloadSet, unknown);
          }
        }
      }
    }

    /** The responses for one tip, in arrival order: each response that
        continues from the tip may replace tips and extends the download
        set. */
    method ExtendFromTip(tip: CheckedTip, tipResponses: seq<TipsResponse>, downloadSet0: seq<BlockHash>)
      returns (downloadSet: seq<BlockHash>)
      modifies this
      ensures Round(prospectiveTips, downloadSet)
        == ExtendAll(Round(old(prospectiveTips), downloadSet0), tip, tipResponses)
      ensures requested == old(requested) && extendLengths == old(extendLengths)
      ensures obtainLengths == old(obtainLengths)
    {
      downloadSet := downloadSet0;
      var i := 0;
      while i < |tipResponses|
        invariant 0 <= i <= |tipResponses|
        invariant Round(prospectiveTips, downloadSet)
          == ExtendAll(Round(old(prospectiveTips), downloadSet0), tip, tipResponses[..i])
        invariant requested == old(requested) && extendLengths == old(extendLengths)
        invariant obtainLengths == old(obtainLengths)
      {
        assert tipResponses[..i + 1][..i] == tipResponses[..i];
        var response := tipResponses[i];
        if response.BlockHashes? {
          var matched := ExtendMatch(response.hashes, tip.expectedNext);
          if matched.Some? && |matched.value| > 0 {
            var unknown := matched.value[..|matched.value| - 1];
            if |unknown| >= 2 {
              var newTip := CheckedTip(unknown[|unknown| - 2], unknown[|unknown| - 1]);
              if newTip.expectedNext !in downloadSet {
                prospectiveTips := set t | t in prospectiveTips && t.expectedNext !in unknown;
                prospectiveTips := prospectiveTips + {newTip};
              }
              downloadSet := ExtendDownloadSet(downloadSet, unknown);
            }
          }
        }
        i := i + 1;
      }
      assert tipResponses[..|tipResponses|] == tipResponses;
    }

    /** `extend_tips`: takes all prospective tips and, tip by tip in the
        set's iteration order `order`, processes that tip's responses in
        arrival order; then queues the download set. */
    method ExtendTips(order: seq<CheckedTip>, responses: seq<seq<TipsResponse>>)
      requires |order| == |responses|
      requires forall t :: t in order <==> t in prospectiveTips
      requires forall i, j :: 0 <= i < j < |order| ==> order[i] != order[j]
      modifies this
      ensures var s := ExtendTipsAll(Round({}, []), order, responses);
        && prospectiveTips == s.tips
        && requested == old(requested) + s.downloadSet
        && extendLengths == old(extendLengths) + [|s.downloadSet|]
      ensures obtainLengths == old(obtainLengths)
    {
      prospectiveTips := {};
      var downloadSet: seq<BlockHash> := [];
      var k := 0;
      while k < |order|
        invariant 0 <= k <= |order|
        invariant Round(prospectiveTips, downloadSet)
          == ExtendTipsAll(Round({}, []), order[..k], responses[..k])
        invariant requested == old(requested) && extendLengths == old(extendLengths)
        invariant obtainLengths == old(obtainLengths)
      {
        var tip := order[k];
        downloadSet := ExtendFromTip(tip, responses[k], downloadSet);
        assert order[..k + 1][..k] == order[..k] && responses[..k + 1][..k] == responses[..k];
        k := k + 1;
      }
      assert order[..|order|] == order && responses[..|responses|] == responses;
      extendLengths := extendLengths + [|downloadSet|];
      requested := requested + downloadSet;
    }
  }

  /** The errors of the checkpoint verifier that the syncer tells apart. */
  datatype VerifyCheckpointError = AlreadyVerified | OtherCheckpointError(debug: string)

  /** The errors of block validation that the syncer tells apart. */
  datatype BlockError = AlreadyInChain | OtherBlockError(debug: string)

  /** `VerifyBlockError`: a block validation error, or a state commit error
      known only by its `Debug` text. */
  datatype VerifyBlockError = BlockInvalid(source: BlockError) | Commit(commitDebug: string)
                            | OtherVerifyBlockError(debug: string)

  datatype VerifyChainError = Checkpoint(checkpoint: VerifyCheckpointError)
                            | Block(block: VerifyBlockError)

  /** `BlockDownloadVerifyError`; a download failure is known only by the
      `Debug` text of its source, and the downloader's other errors by
      their own. */
  datatype BlockDownloadVerifyError =
    | Invalid(chain: VerifyChainError)
    | DownloadFailed(downloadDebug: string)
    | CancelledDuringDownload
    | CancelledDuringVerification
    | BehindTipHeightLimit
    | OtherDownloadError(debug: string)

  const ALREADY_COMMITTED: string := "block is already committed to the state"
  const NOT_FOUND: string := "NotFound"

  predicate OccursAt(s: string, part: string, i: int)
  {
    0 <= i <= |s| - |part| && s[i..i + |part|] == part
  }

  /** Whether `part` occurs in `s` (`str::contains`). */
  predicate ContainsSubstring(s: string, part: string)
  {
    exists i :: 0 <= i <= |s| - |part| && OccursAt(s, part, i)
  }

  /** `should_restart_sync`: whether a download or verify error restarts
      the sync. */
  function ShouldRestartSync(e: BlockDownloadVerifyError): bool
  {
    match e
    case Invalid(Checkpoint(AlreadyVerified)) => false
    case Invalid(Block(BlockInvalid(AlreadyInChain))) => false
    case CancelledDuringDownload => false
    case CancelledDuringVerification => false
    case BehindTipHeightLimit => false
    case Invalid(Block(Commit(debug))) =>
      !ContainsSubstring(debug, ALREADY_COMMITTED)
    case DownloadFailed(debug) =>
      !ContainsSubstring(debug, NOT_FOUND)
    case _ => true
  }

  /** The block was already handled, possibly by a previous sync run:
      already verified by the checkpointer, already in the chain, or
      reported by the state as already committed. */
  ghost predicate AlreadyHandled(e: BlockDownloadVerifyError)
  {
    e.Invalid?
    && (|| e.chain == Checkpoint(AlreadyVerified)
        || e.chain == Block(BlockInvalid(AlreadyInChain))
        || (e.chain.Block? && e.chain.block.Commit?
            && ContainsSubstring(e.chain.block.commitDebug, ALREADY_COMMITTED)))
  }

  /** The download or the verification was cancelled. */
  ghost predicate Cancelled(e: BlockDownloadVerifyError)
  {
    e.CancelledDuringDownload? || e.CancelledDuringVerification?
  }

  /** The peer did not have the block (yet). */
  ghost predicate NotFoundAtPeer(e: BlockDownloadVerifyError)
  {
    e.DownloadFailed? && ContainsSubstring(e.downloadDebug, NOT_FOUND)
  }

  /** The errors that are expected during a normal sync, and do not
      restart it: the block was already handled, the work was cancelled,
      the block is behind the state's tip, or the peer did not have it. */
  ghost predicate Expected(e: BlockDownloadVerifyError)
  {
    AlreadyHandled(e) || Cancelled(e) || e.BehindTipHeightLimit? || NotFoundAtPeer(e)
  }

  /** The sync restarts on every error except the expected ones: the
      catch-all arm receives no expected error. */
  lemma RestartUnlessExpected(e: BlockDownloadVerifyError)
    ensures ShouldRestartSync(e) <==> !Expected(e)
  {
  }

  /** A commit error whose text reports an already-committed block, and a
      download error whose text reports `NotFound`, do not restart the
      sync, wherever the marker appears in the text. */
  lemma MarkersAnywhere(prefix: string, suffix: string)
    ensures !ShouldRestartSync(Invalid(Block(Commit(prefix + ALREADY_COMMITTED + suffix))))
    ensures !ShouldRestartSync(DownloadFailed(prefix + NOT_FOUND + suffix))
  {
    var s1 := prefix + ALREADY_COMMITTED + suffix;
    assert OccursAt(s1, ALREADY_COMMITTED, |prefix|);
    var s2 := prefix + NOT_FOUND + suffix;
    assert OccursAt(s2, NOT_FOUND, |prefix|);
  }
}

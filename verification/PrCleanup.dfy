/** Decisions of the stale-draft pass over community pull requests. Times are in seconds. */
module PrCleanup {
  import opened Wrappers

  const DAY := 86400
  const DRAFT_WARNING_AFTER := 21 * DAY
  const DRAFT_CLOSE_AFTER_WARNING := 7 * DAY

  datatype Marker = DraftWarning | DraftClose

  /** A comment and the automation marker that its body carries, if any */
  datatype Comment = Comment(at: int, marker: Option<Marker>)

  datatype Transition = ConvertToDraft(at: int) | ReadyForReview(at: int)

  /** What the query returns for a pull request: the transitions are the last ones of the timeline. */
  datatype PullRequest = PullRequest(
    number: nat, open: bool, isDraft: bool, createdAt: int, lastCommitAt: Option<int>, transitions: seq<Transition>)

  function Max(a: int, b: int): int { if a >= b then a else b }

  // ---------- Activity ----------

  /** `max(transitions, key=createdAt)`: the first one among equals */
  function LatestTransition(ts: seq<Transition>): (t: Transition)
    requires |ts| > 0
    ensures t in ts && forall i :: 0 <= i < |ts| ==> ts[i].at <= t.at
  {
    if |ts| == 1 then ts[0]
    else
      var earlier := LatestTransition(ts[..|ts| - 1]);
      var last := ts[|ts| - 1];
      assert forall i :: 0 <= i < |ts| - 1 ==> ts[..|ts| - 1][i] == ts[i];
      if last.at > earlier.at then last else earlier
  }

  /** Of transitions at the same time the first one counts. */
  lemma {:induction false} LatestIsFirst(ts: seq<Transition>) returns (k: nat)
    requires |ts| > 0
    ensures k < |ts| && ts[k] == LatestTransition(ts)
    ensures (forall i :: 0 <= i < k ==> ts[i].at < ts[k].at) && forall i :: k <= i < |ts| ==> ts[i].at <= ts[k].at
  {
    var n := |ts| - 1;
    if n == 0 {
      k := 0;
    } else {
      k := LatestIsFirst(ts[..n]);
      if ts[n].at > ts[k].at {
        k := n;
      }
    }
  }

  function CurrentDraftStartedAt(pr: PullRequest): Option<int>
  {
    if !pr.open || !pr.isDraft then None
    else if |pr.transitions| == 0 then Some(pr.createdAt)
    else
      var latest := LatestTransition(pr.transitions);
      if latest.ConvertToDraft? then Some(latest.at) else None
  }

  function LatestDraftActivityAt(pr: PullRequest): Option<int>
  {
    match CurrentDraftStartedAt(pr)
    case None => None
    case Some(draft) => Some(if pr.lastCommitAt.Some? then Max(draft, pr.lastCommitAt.value) else draft)
  }

  // ---------- Marker comments ----------

  predicate Counts(c: Comment, marker: Marker, notBefore: int)
  {
    c.marker == Some(marker) && c.at >= notBefore
  }

  /** r is the latest time of a comment with the marker that is not too early. */
  ghost predicate IsLatestMarker(comments: seq<Comment>, marker: Marker, notBefore: int, r: Option<int>)
  {
    match r
    case None => forall c :: c in comments ==> !Counts(c, marker, notBefore)
    case Some(at) =>
      && (exists c :: c in comments && Counts(c, marker, notBefore) && c.at == at)
      && forall c :: c in comments && Counts(c, marker, notBefore) ==> c.at <= at
  }

  function LatestMarkerCommentAt(comments: seq<Comment>, marker: Marker, notBefore: int): (r: Option<int>)
    ensures IsLatestMarker(comments, marker, notBefore, r)
  {
    if |comments| == 0 then None
    else
      var init, last := comments[..|comments| - 1], comments[|comments| - 1];
      var r := LatestMarkerCommentAt(init, marker, notBefore);
      assert comments == init + [last];
      if !Counts(last, marker, notBefore) then r
      else if r.None? || last.at > r.value then Some(last.at)
      else r
  }

  method FindLatestMarkerCommentAt(comments: seq<Comment>, marker: Marker, notBefore: int) returns (latest: Option<int>)
    ensures latest == LatestMarkerCommentAt(comments, marker, notBefore)
  {
    latest := None;
    for i := 0 to |comments|
      invariant latest == LatestMarkerCommentAt(comments[..i], marker, notBefore)
    {
      assert comments[..i + 1][..i] == comments[..i];
      if comments[i].marker != Some(marker) {
        continue;
      }
      if comments[i].at < notBefore {
        continue;
      }
      if latest.None? || comments[i].at > latest.value {
        latest := Some(comments[i].at);
      }
    }
    assert comments[..|comments|] == comments;
  }

  // ---------- The decision ----------

  /** Nothing, or an optional marker comment to post followed by an optional close */
  datatype Action = Nothing | Act(post: Option<Marker>, close: bool)

  function DraftAction(activityAt: int, comments: seq<Comment>, now: int): Action
  {
    if LatestMarkerCommentAt(comments, DraftClose, activityAt).Some? then Act(None, true)
    else
      match LatestMarkerCommentAt(comments, DraftWarning, activityAt)
      case Some(warningAt) =>
        if now - warningAt >= DRAFT_CLOSE_AFTER_WARNING then Act(Some(DraftClose), true) else Nothing
      case None => Act(Some(DraftWarning), false)
  }

  function IsStale(pr: PullRequest, now: int): bool
  {
    var activity := LatestDraftActivityAt(pr);
    activity.Some? && now - activity.value >= DRAFT_WARNING_AFTER
  }

  function StaleDrafts(prs: seq<PullRequest>, now: int): seq<(PullRequest, int)>
  {
    if |prs| == 0 then []
    else
      var n := |prs| - 1;
      StaleDrafts(prs[..n], now)
      + if IsStale(prs[n], now) then [(prs[n], LatestDraftActivityAt(prs[n]).value)] else []
  }

  method FindStaleDrafts(prs: seq<PullRequest>, now: int) returns (stale: seq<(PullRequest, int)>)
    ensures stale == StaleDrafts(prs, now)
  {
    stale := [];
    for i := 0 to |prs|
      invariant stale == StaleDrafts(prs[..i], now)
    {
      assert prs[..i + 1][..i] == prs[..i];
      var activity := LatestDraftActivityAt(prs[i]);
      if activity.Some? && now - activity.value >= DRAFT_WARNING_AFTER {
        stale := stale + [(prs[i], activity.value)];
      }
    }
    assert prs[..|prs|] == prs;
  }

  // ---------- The act loop ----------

  /** The calls that change the pull requests, in order */
  datatype Effect = Posted(number: nat, marker: Marker) | Closed(number: nat)

  function Fetch(comments: map<nat, seq<Comment>>, number: nat): seq<Comment>
  {
    if number in comments then comments[number] else []
  }

  class GitHub {
    const comments: map<nat, seq<Comment>>
    var effects: seq<Effect>

    constructor (comments: map<nat, seq<Comment>>)
      ensures this.comments == comments && effects == []
    {
      this.comments := comments;
      effects := [];
    }

    method PostComment(number: nat, marker: Marker, dryRun: bool)
      modifies this
      ensures effects == old(effects) + if dryRun then [] else [Posted(number, marker)]
    {
      if !dryRun {
        effects := effects + [Posted(number, marker)];
      }
    }

    method ClosePullRequest(number: nat, dryRun: bool)
      modifies this
      ensures effects == old(effects) + if dryRun then [] else [Closed(number)]
    {
      if !dryRun {
        effects := effects + [Closed(number)];
      }
    }
  }

  function EffectsOf(number: nat, action: Action): seq<Effect>
  {
    if action == Nothing then []
    else
      (if action.post.Some? then [Posted(number, action.post.value)] else [])
      + if action.close then [Closed(number)] else []
  }

  function AllEffects(stale: seq<(PullRequest, int)>, comments: map<nat, seq<Comment>>, now: int): seq<Effect>
  {
    if |stale| == 0 then []
    else
      var n := |stale| - 1;
      var (pr, activity) := stale[n];
      var action := DraftAction(activity, Fetch(comments, pr.number), now);
      AllEffects(stale[..n], comments, now) + EffectsOf(pr.number, action)
  }

  function CountWhere(stale: seq<(PullRequest, int)>, comments: map<nat, seq<Comment>>, now: int, close: bool): nat
  {
    if |stale| == 0 then 0
    else
      var n := |stale| - 1;
      var (pr, activity) := stale[n];
      var action := DraftAction(activity, Fetch(comments, pr.number), now);
      CountWhere(stale[..n], comments, now, close) + if action.Act? && action.close == close then 1 else 0
  }

  lemma NoEffects(comments: map<nat, seq<Comment>>, now: int)
    ensures AllEffects([], comments, now) == []
    ensures forall close :: CountWhere([], comments, now, close) == 0
  {
  }

  lemma EffectCases(number: nat, action: Action)
    ensures action == Nothing ==> EffectsOf(number, action) == []
    ensures action.Act? && action.post.Some? && action.close ==>
              EffectsOf(number, action) == [Posted(number, action.post.value)] + [Closed(number)]
    ensures action.Act? && action.post.Some? && !action.close ==>
        EffectsOf(number, action) == [Posted(number, action.post.value)]
    ensures action.Act? && action.post.None? && action.close ==> EffectsOf(number, action) == [Closed(number)]
  {
  }

  lemma DecisionShape(activityAt: int, comments: seq<Comment>, now: int)
    ensures var action := DraftAction(activityAt, comments, now);
            action.Act? && !action.close ==> action.post == Some(DraftWarning)
  {
  }

  lemma AllEffectsStep(stale: seq<(PullRequest, int)>, i: nat, comments: map<nat, seq<Comment>>, now: int)
    requires i < |stale|
    ensures var (pr, activity) := stale[i];
            var action := DraftAction(activity, Fetch(comments, pr.number), now);
            && AllEffects(stale[..i + 1], comments, now)
               == AllEffects(stale[..i], comments, now) + EffectsOf(pr.number, action)
            && forall close :: CountWhere(stale[..i + 1], comments, now, close) ==
                               CountWhere(stale[..i], comments, now, close) + if action.Act? && action.close == close
                                   then 1 else 0
  {
    hide DraftAction, Fetch, EffectsOf;
    assert stale[..i + 1][..i] == stale[..i];
  }

  method WarnOrCloseStaleDrafts(stale: seq<(PullRequest, int)>, now: int, dryRun: bool, gh: GitHub)
    returns (warned: nat, closed: nat)
    modifies gh
    ensures gh.effects == old(gh.effects) + if dryRun then [] else AllEffects(stale, gh.comments, now)
    ensures warned == CountWhere(stale, gh.comments, now, false) && closed == CountWhere(stale, gh.comments, now, true)
  {
    hide DraftAction, Fetch, AllEffects, CountWhere, EffectsOf;
    warned, closed := 0, 0;
    NoEffects(gh.comments, now);
    var before := gh.effects;
    var i := 0;
    while i < |stale|
      invariant 0 <= i <= |stale|
      invariant gh.effects == before + if dryRun then [] else AllEffects(stale[..i], gh.comments, now)
      invariant warned == CountWhere(stale[..i], gh.comments, now, false)
      invariant closed == CountWhere(stale[..i], gh.comments, now, true)
    {
      var (pr, activity) := stale[i];
      var action := DraftAction(activity, Fetch(gh.comments, pr.number), now);
      DecisionShape(activity, Fetch(gh.comments, pr.number), now);
      ghost var sofar := gh.effects;
      if action.Act? {
        if action.close {
          if action.post.Some? {
            gh.PostComment(pr.number, action.post.value, dryRun);
          }
          gh.ClosePullRequest(pr.number, dryRun);
          closed := closed + 1;
        } else {
          gh.PostComment(pr.number, DraftWarning, dryRun);
          warned := warned + 1;
        }
      }
      assert gh.effects == sofar + if dryRun then [] else EffectsOf(pr.number, action) by {
        EffectCases(pr.number, action);
      }
      AllEffectsStep(stale, i, gh.comments, now);
      i := i + 1;
    }
    assert stale[..|stale|] == stale;
  }

  /** A comment is posted only without an earlier one of its kind since the last activity, and a
      close always has a warning at least seven days old or an explanation behind it. */
  lemma DecisionIsJustified(activityAt: int, comments: seq<Comment>, now: int)
    ensures var action := DraftAction(activityAt, comments, now);
            && (action.Act? && action.post.Some? ==>
                  forall c :: c in comments ==> !Counts(c, action.post.value, activityAt))
            && (action.Act? && action.close && action.post.Some? ==>
                  exists c :: c in comments && Counts(c, DraftWarning, activityAt) &&
                      now - c.at >= DRAFT_CLOSE_AFTER_WARNING)
            && (action.Act? && action.close && action.post.None? ==>
                  exists c :: c in comments && Counts(c, DraftClose, activityAt))
            && (action.Act? ==> action.post.Some? || action.close)
            && (action.Act? && action.post == Some(DraftWarning) ==> !action.close)
  {
    var warning := LatestMarkerCommentAt(comments, DraftWarning, activityAt);
    var close := LatestMarkerCommentAt(comments, DraftClose, activityAt);
    assert IsLatestMarker(comments, DraftWarning, activityAt, warning);
    assert IsLatestMarker(comments, DraftClose, activityAt, close);
  }

  /** Each decision exactly: an explanation since the activity closes; otherwise warnings since then
      close when all of them are seven days old; without either the author is warned. */
  lemma DecisionIff(activityAt: int, comments: seq<Comment>, now: int)
    ensures var action := DraftAction(activityAt, comments, now);
            var explained := exists c :: c in comments && Counts(c, DraftClose, activityAt);
            var warned := exists c :: c in comments && Counts(c, DraftWarning, activityAt);
            var aged := forall c :: c in comments && Counts(c, DraftWarning, activityAt) ==>
                                     now - c.at >= DRAFT_CLOSE_AFTER_WARNING;
            && (action == Act(None, true) <==> explained)
            && (action == Act(Some(DraftClose), true) <==> !explained && warned && aged)
            && (action == Act(Some(DraftWarning), false) <==> !explained && !warned)
            && (action == Nothing <==> !explained && warned && !aged)
  {
    hide Counts;
    var warning := LatestMarkerCommentAt(comments, DraftWarning, activityAt);
    var close := LatestMarkerCommentAt(comments, DraftClose, activityAt);
    assert IsLatestMarker(comments, DraftWarning, activityAt, warning);
    assert IsLatestMarker(comments, DraftClose, activityAt, close);
  }

  // ---------- What the loop does ----------

  predicate HasMarker(c: Comment, marker: Marker, since: int)
  {
    c.marker == Some(marker) && since <= c.at
  }

  ghost predicate WasMarked(comments: seq<Comment>, marker: Marker, since: int)
  {
    exists c :: c in comments && HasMarker(c, marker, since)
  }

  /** The effects on one stale draft, each with its exact occasion: a warning first; when all warnings since the
      activity are seven days old, an explanation and the close; after an explanation only the close. */
  lemma EffectsIff(number: nat, activityAt: int, comments: seq<Comment>, now: int)
    ensures EffectsOf(number, DraftAction(activityAt, comments, now)) ==
            if WasMarked(comments, DraftClose, activityAt) then [Closed(number)]
            else if !WasMarked(comments, DraftWarning, activityAt) then [Posted(number, DraftWarning)]
            else if exists c :: c in comments && HasMarker(c, DraftWarning, activityAt) && now - c.at < 7 * 24 * 3600
              then []
            else [Posted(number, DraftClose), Closed(number)]
  {
    hide DraftAction;
    DecisionIff(activityAt, comments, now);
    assert forall c, marker :: Counts(c, marker, activityAt) <==> HasMarker(c, marker, activityAt);
    assert DraftAction(activityAt, comments, now) == Nothing || DraftAction(activityAt, comments, now).Act?;
    EffectCases(number, DraftAction(activityAt, comments, now));
  }

  function Warnings(effects: seq<Effect>): nat
  {
    if |effects| == 0 then 0
    else (if effects[0].Posted? && effects[0].marker == DraftWarning then 1 else 0) + Warnings(effects[1..])
  }

  function Closings(effects: seq<Effect>): nat
  {
    if |effects| == 0 then 0 else (if effects[0].Closed? then 1 else 0) + Closings(effects[1..])
  }

  lemma {:induction false} CountsOfConcat(a: seq<Effect>, b: seq<Effect>)
    ensures Warnings(a + b) == Warnings(a) + Warnings(b) && Closings(a + b) == Closings(a) + Closings(b)
  {
    if |a| == 0 {
      assert a + b == b;
    } else {
      assert (a + b)[1..] == a[1..] + b;
      CountsOfConcat(a[1..], b);
    }
  }

  lemma CountsOfOne(number: nat, activityAt: int, comments: seq<Comment>, now: int)
    ensures var action := DraftAction(activityAt, comments, now);
            var effects := EffectsOf(number, action);
            && Warnings(effects) == (if action.Act? && !action.close then 1 else 0)
            && Closings(effects) == if action.Act? && action.close then 1 else 0
  {
    hide DraftAction, EffectsOf;
    var action := DraftAction(activityAt, comments, now);
    DecisionIff(activityAt, comments, now);
    DecisionIsJustified(activityAt, comments, now);
    DecisionShape(activityAt, comments, now);
    EffectCases(number, action);
    if action.Act? && action.close && action.post.Some? {
      assert action.post == Some(DraftClose) by { ClosingPost(activityAt, comments, now); }
      CountsOfConcat([Posted(number, DraftClose)], [Closed(number)]);
    }
  }

  lemma ClosingPost(activityAt: int, comments: seq<Comment>, now: int)
    ensures var action := DraftAction(activityAt, comments, now);
            action.Act? && action.close && action.post.Some? ==> action.post == Some(DraftClose)
  {
  }

  /** The two numbers that the loop reports are those of its warnings and of its closes. */
  lemma {:induction false} CountsMatch(stale: seq<(PullRequest, int)>, comments: map<nat, seq<Comment>>, now: int)
    ensures CountWhere(stale, comments, now, false) == Warnings(AllEffects(stale, comments, now))
    ensures CountWhere(stale, comments, now, true) == Closings(AllEffects(stale, comments, now))
  {
    hide DraftAction, Fetch, EffectsOf;
    if |stale| != 0 {
      var n := |stale| - 1;
      var (pr, activity) := stale[n];
      var fetched := Fetch(comments, pr.number);
      CountsMatch(stale[..n], comments, now);
      CountsOfOne(pr.number, activity, fetched, now);
      CountsOfConcat(AllEffects(stale[..n], comments, now), EffectsOf(pr.number, DraftAction(activity, fetched, now)));
    }
  }
}

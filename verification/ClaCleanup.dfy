/** Decisions of the pass over pull requests without a signed contributor agreement. Times are in
    seconds. */
module ClaCleanup {
  import opened Wrappers

  const DAY := 86400
  const CLA_RETRY_AFTER := 7 * DAY
  const CLA_CLOSE_AFTER_RETRY := DAY

  /** The author of the pull request, the community bot, or anybody else */
  datatype Writer = Author | Bot | Other

  /** A comment: whether it is nothing but the request for a re-check, and whether it carries the
      marker of the close explanation */
  datatype Comment = Comment(at: int, writer: Writer, isCheck: bool, isExplanation: bool)

  datatype PullRequest = PullRequest(number: nat, createdAt: int, byUser: bool, hasLogin: bool, signed: bool)

  predicate NeedsFollowUp(pr: PullRequest, now: int)
  {
    now - pr.createdAt >= CLA_RETRY_AFTER && pr.byUser && pr.hasLogin && !pr.signed
  }

  /** The author wrote something else than a request for a re-check. */
  predicate IsWord(c: Comment) { c.writer == Author && !c.isCheck }

  predicate IsRetry(c: Comment) { c.writer == Bot && c.isCheck }

  predicate AuthorSpoke(comments: seq<Comment>)
  {
    exists c :: c in comments && IsWord(c)
  }

  function LatestRetryAt(comments: seq<Comment>): Option<int>
  {
    if |comments| == 0 then None
    else
      var last := comments[|comments| - 1];
      match LatestRetryAt(comments[..|comments| - 1])
      case None => if IsRetry(last) then Some(last.at) else None
      case Some(at) => Some(if IsRetry(last) && last.at > at then last.at else at)
  }

  predicate Explained(comments: seq<Comment>)
  {
    exists c :: c in comments && c.isExplanation
  }

  datatype Post = Retry | Explanation

  /** Nothing, or an optional comment to post followed by an optional close */
  datatype Action = Nothing | Act(post: Option<Post>, close: bool)

  function ClaAction(comments: seq<Comment>, now: int): Action
  {
    if AuthorSpoke(comments) then Nothing
    else
      match LatestRetryAt(comments)
      case None => Act(Some(Retry), false)
      case Some(retryAt) =>
        if now - retryAt < CLA_CLOSE_AFTER_RETRY then Nothing
        else if Explained(comments) then Act(None, true)
        else Act(Some(Explanation), true)
  }

  lemma {:induction false} LatestRetrySpec(comments: seq<Comment>)
    ensures match LatestRetryAt(comments)
            case None => forall c :: c in comments ==> !IsRetry(c)
            case Some(at) =>
              && (exists c :: c in comments && IsRetry(c) && c.at == at)
              && forall c :: c in comments && IsRetry(c) ==> c.at <= at
  {
    if |comments| != 0 {
      var n := |comments| - 1;
      LatestRetrySpec(comments[..n]);
      assert comments == comments[..n] + [comments[n]];
      assert comments[n] in comments;
    }
  }

  ghost predicate RetriesAreOld(comments: seq<Comment>, now: int)
  {
    && (exists c :: c in comments && IsRetry(c))
    && (forall c :: c in comments && IsRetry(c) ==> now - c.at >= CLA_CLOSE_AFTER_RETRY)
  }

  /** A silent author gets one re-check, then the close a day after it, with one explanation. */
  lemma DecisionIsJustified(comments: seq<Comment>, now: int)
    ensures var action := ClaAction(comments, now);
            && (action == Act(Some(Retry), false) <==>
                !AuthorSpoke(comments) && forall c :: c in comments ==> !IsRetry(c))
            && (action.Act? && action.close <==> !AuthorSpoke(comments) && RetriesAreOld(comments, now))
            && (action.Act? && action.close ==> action.post == if Explained(comments) then None else Some(Explanation))
            && (action.Act? && !action.close ==> action.post == Some(Retry))
  {
    hide LatestRetryAt, AuthorSpoke, Explained, IsRetry;
    LatestRetrySpec(comments);
  }

  // ---------- The loop ----------

  datatype Effect = Posted(number: nat, post: Post) | Closed(number: nat)

  function EffectsOf(number: nat, action: Action): seq<Effect>
  {
    match action
    case Nothing => []
    case Act(post, close) =>
      (if post.Some? then [Posted(number, post.value)] else []) + if close then [Closed(number)] else []
  }

  function Fetch(comments: map<nat, seq<Comment>>, number: nat): seq<Comment>
  {
    if number in comments then comments[number] else []
  }

  function AllEffects(prs: seq<PullRequest>, comments: map<nat, seq<Comment>>, now: int): seq<Effect>
  {
    if |prs| == 0 then []
    else
      var n := |prs| - 1;
      AllEffects(prs[..n], comments, now) + EffectsOf(prs[n].number, ClaAction(Fetch(comments, prs[n].number), now))
  }

  function Closes(prs: seq<PullRequest>, comments: map<nat, seq<Comment>>, now: int): nat
  {
    if |prs| == 0 then 0
    else
      var n := |prs| - 1;
      var action := ClaAction(Fetch(comments, prs[n].number), now);
      Closes(prs[..n], comments, now) + if action.Act? && action.close then 1 else 0
  }

  class GitHub {
    const comments: map<nat, seq<Comment>>
    var effects: seq<Effect>

    constructor (comments: map<nat, seq<Comment>>)
      ensures this.comments == comments && effects == []
    {
      this.comments, effects := comments, [];
    }

    method PostComment(number: nat, post: Post, dryRun: bool)
      modifies this
      ensures effects == old(effects) + if dryRun then [] else [Posted(number, post)]
    {
      if dryRun { return; }
      effects := effects + [Posted(number, post)];
    }

    method ClosePullRequest(number: nat, dryRun: bool)
      modifies this
      ensures effects == old(effects) + if dryRun then [] else [Closed(number)]
    {
      if dryRun { return; }
      effects := effects + [Closed(number)];
    }
  }

  /** One turn of the loop */
  method RetryOrClose(number: nat, now: int, dryRun: bool, gh: GitHub) returns (close: bool)
    modifies gh
    ensures var action := ClaAction(Fetch(gh.comments, number), now);
            && close == (action.Act? && action.close)
            && gh.effects == old(gh.effects) + if dryRun then [] else EffectsOf(number, action)
  {
    hide AuthorSpoke, Explained, LatestRetryAt;
    var action := ClaAction(Fetch(gh.comments, number), now);
    if action == Nothing {
      return false;
    }
    if action.close {
      if action.post.Some? {
        gh.PostComment(number, action.post.value, dryRun);
      }
      gh.ClosePullRequest(number, dryRun);
      return true;
    }
    gh.PostComment(number, action.post.value, dryRun);
    return false;
  }

  method RetryOrCloseUnsigned(prs: seq<PullRequest>, now: int, dryRun: bool, gh: GitHub) returns (closed: nat)
    modifies gh
    ensures gh.effects == old(gh.effects) + if dryRun then [] else AllEffects(prs, gh.comments, now)
    ensures closed == Closes(prs, gh.comments, now)
  {
    hide ClaAction, EffectsOf;
    closed := 0;
    for i := 0 to |prs|
      invariant gh.effects == old(gh.effects) + if dryRun then [] else AllEffects(prs[..i], gh.comments, now)
      invariant closed == Closes(prs[..i], gh.comments, now)
    {
      assert prs[..i + 1][..i] == prs[..i];
      var close := RetryOrClose(prs[i].number, now, dryRun, gh);
      if close {
        closed := closed + 1;
      }
    }
    assert prs[..|prs|] == prs;
  }

  // ---------- What the loop does ----------

  predicate IsSpoken(c: Comment) { c.writer == Author && !c.isCheck }
  predicate IsRecheck(c: Comment) { c.writer == Bot && c.isCheck }

  /** The effects on one pull request, each with its exact occasion: nothing once the author has spoken; a re-check
      first; when all re-checks are a day old, an explanation unless there is one, and the close. */
  lemma EffectsIff(number: nat, comments: seq<Comment>, now: int)
    ensures EffectsOf(number, ClaAction(comments, now)) ==
            if exists c :: c in comments && IsSpoken(c) then []
            else if !exists c :: c in comments && IsRecheck(c) then [Posted(number, Retry)]
            else if exists c :: c in comments && IsRecheck(c) && now - c.at < 24 * 3600 then []
            else if exists c :: c in comments && c.isExplanation then [Closed(number)]
            else [Posted(number, Explanation), Closed(number)]
  {
    hide LatestRetryAt;
    LatestRetrySpec(comments);
    assert forall c :: (IsRetry(c) <==> IsRecheck(c)) && (IsWord(c) <==> IsSpoken(c));
  }

  /** Whom the pass is about: people with a login who have not signed, a week after they opened it */
  lemma FollowUpIff(pr: PullRequest, now: int)
    ensures NeedsFollowUp(pr, now) <==>
            pr.byUser && pr.hasLogin && !pr.signed && pr.createdAt + 7 * 24 * 3600 <= now
  {
  }

  function Closings(effects: seq<Effect>): nat
  {
    if |effects| == 0 then 0 else (if effects[0].Closed? then 1 else 0) + Closings(effects[1..])
  }

  lemma {:induction false} ClosingsOfConcat(a: seq<Effect>, b: seq<Effect>)
    ensures Closings(a + b) == Closings(a) + Closings(b)
  {
    if |a| == 0 {
      assert a + b == b;
    } else {
      assert (a + b)[1..] == a[1..] + b;
      ClosingsOfConcat(a[1..], b);
    }
  }

  /** The number that the loop reports is that of its closes. */
  lemma {:induction false} ClosesMatch(prs: seq<PullRequest>, comments: map<nat, seq<Comment>>, now: int)
    ensures Closes(prs, comments, now) == Closings(AllEffects(prs, comments, now))
  {
    hide ClaAction, Fetch;
    if |prs| != 0 {
      var n := |prs| - 1;
      var action := ClaAction(Fetch(comments, prs[n].number), now);
      ClosesMatch(prs[..n], comments, now);
      ClosingsOfConcat(AllEffects(prs[..n], comments, now), EffectsOf(prs[n].number, action));
      if action.Act? {
        ClosingsOfConcat(if action.post.Some? then [Posted(prs[n].number, action.post.value)] else [],
                         if action.close then [Closed(prs[n].number)] else []);
      }
    }
  }
}

/** The stale sweep over the guild board: one decision for each issue in progress. Times are in
    seconds. */
module GuildSweep {
  import opened Wrappers

  const DAY := 86400
  const CHECK_IN_AFTER_DAYS := 14
  const AUTO_CLEAR_AFTER_DAYS := 7

  /** `timedelta.days`, rounded down also for a negative difference */
  function Days(difference: int): int { difference / DAY }

  datatype Comment = Comment(at: int, author: string, isCheckIn: bool)
  datatype Assignment = Assignment(at: int, assignee: string)

  function Max(a: int, b: int): int { if a >= b then a else b }

  // ---------- Activity and check-ins ----------

  /** `max` of the times at which the user was assigned, an error if there is none */
  function LatestAssignmentTime(assignments: seq<Assignment>, user: string): Option<int>
  {
    if |assignments| == 0 then None
    else
      var last := assignments[|assignments| - 1];
      match LatestAssignmentTime(assignments[..|assignments| - 1], user)
      case None => if last.assignee == user then Some(last.at) else None
      case Some(at) => Some(if last.assignee == user then Max(at, last.at) else at)
  }

  predicate IsReply(c: Comment, user: string) { !c.isCheckIn && c.author == user }

  /** The latest of the assignment and the user's comments */
  function LastActivity(assignedAt: int, comments: seq<Comment>, user: string): int
  {
    if |comments| == 0 then assignedAt
    else
      var last := comments[|comments| - 1];
      var earlier := LastActivity(assignedAt, comments[..|comments| - 1], user);
      if IsReply(last, user) then Max(earlier, last.at) else earlier
  }

  function CheckInAt(comments: seq<Comment>): Option<int>
  {
    if |comments| == 0 then None
    else
      var last := comments[|comments| - 1];
      match CheckInAt(comments[..|comments| - 1])
      case None => if last.isCheckIn then Some(last.at) else None
      case Some(at) => Some(if last.isCheckIn then Max(at, last.at) else at)
  }

  /** One pass over the comments finds both. */
  method ScanComments(assignedAt: int, comments: seq<Comment>, assignee: string)
    returns (lastActivity: int, checkInAt: Option<int>)
    ensures lastActivity == LastActivity(assignedAt, comments, assignee) && checkInAt == CheckInAt(comments)
  {
    lastActivity, checkInAt := assignedAt, None;
    for i := 0 to |comments|
      invariant lastActivity == LastActivity(assignedAt, comments[..i], assignee) &&
          checkInAt == CheckInAt(comments[..i])
    {
      assert comments[..i + 1][..i] == comments[..i];
      var comment := comments[i];
      if comment.isCheckIn {
        if checkInAt.None? || comment.at > checkInAt.value {
          checkInAt := Some(comment.at);
        }
      } else if comment.author == assignee {
        if comment.at > lastActivity {
          lastActivity := comment.at;
        }
      }
    }
    assert comments[..|comments|] == comments;
  }

  lemma {:induction false} LastActivitySpec(assignedAt: int, comments: seq<Comment>, user: string)
    ensures var at := LastActivity(assignedAt, comments, user);
            && at >= assignedAt && (forall c :: c in comments && IsReply(c, user) ==> c.at <= at)
            && (at == assignedAt || exists c :: c in comments && IsReply(c, user) && c.at == at)
  {
    if |comments| != 0 {
      var n := |comments| - 1;
      LastActivitySpec(assignedAt, comments[..n], user);
      assert comments == comments[..n] + [comments[n]];
      assert comments[n] in comments;
    }
  }

  lemma {:induction false} LatestAssignmentSpec(assignments: seq<Assignment>, user: string)
    ensures match LatestAssignmentTime(assignments, user)
            case None => forall a :: a in assignments ==> a.assignee != user
            case Some(at) =>
              && Assignment(at, user) in assignments
              && forall a :: a in assignments && a.assignee == user ==> a.at <= at
  {
    if |assignments| != 0 {
      var n := |assignments| - 1;
      LatestAssignmentSpec(assignments[..n], user);
      assert assignments == assignments[..n] + [assignments[n]];
    }
  }

  lemma {:induction false} CheckInSpec(comments: seq<Comment>)
    ensures match CheckInAt(comments)
            case None => forall c :: c in comments ==> !c.isCheckIn
            case Some(at) =>
              && (exists c :: c in comments && c.isCheckIn && c.at == at)
              && forall c :: c in comments && c.isCheckIn ==> c.at <= at
  {
    if |comments| != 0 {
      var n := |comments| - 1;
      CheckInSpec(comments[..n]);
      assert comments == comments[..n] + [comments[n]];
      assert comments[n] in comments;
    }
  }

  // ---------- The decision ----------

  datatype Action = Leave | CheckIn | Clear

  function Decide(lastActivity: int, checkInAt: Option<int>, now: int): Action
  {
    if checkInAt.None? || checkInAt.value < lastActivity then
      if Days(now - lastActivity) < CHECK_IN_AFTER_DAYS then Leave else CheckIn
    else
      if Days(now - checkInAt.value) < AUTO_CLEAR_AFTER_DAYS then Leave else Clear
  }

  function DecideFor(assignedAt: int, comments: seq<Comment>, user: string, now: int): Action
  {
    Decide(LastActivity(assignedAt, comments, user), CheckInAt(comments), now)
  }

  predicate IsNudge(c: Comment, activity: int) { c.isCheckIn && c.at >= activity }

  /** A check-in follows fourteen days of silence after which no check-in was posted yet; a clear
      follows a check-in that no activity followed, all of them seven days old. */
  lemma DecisionIsJustified(assignedAt: int, comments: seq<Comment>, user: string, now: int)
    ensures var activity := LastActivity(assignedAt, comments, user);
            var action := DecideFor(assignedAt, comments, user, now);
            var nudged := exists c :: c in comments && IsNudge(c, activity);
            && (action == CheckIn <==> !nudged && now - activity >= CHECK_IN_AFTER_DAYS * DAY)
            && (action == Clear <==>
                nudged && forall c :: c in comments && c.isCheckIn ==> now - c.at >= AUTO_CLEAR_AFTER_DAYS * DAY)
  {
    hide LastActivity, CheckInAt;
    CheckInSpec(comments);
    var activity, checkInAt := LastActivity(assignedAt, comments, user), CheckInAt(comments);
    if checkInAt.Some? {
      var c :| c in comments && c.isCheckIn && c.at == checkInAt.value;
      assert IsNudge(c, activity) <==> checkInAt.value >= activity;
    }
  }

  // ---------- The sweep ----------

  /** An item of the board with what is fetched for it; `status` is the column of its type. */
  datatype Item = Item(
    archived: bool, isIssue: bool, inProgress: bool, guildAssignees: seq<string>, onHold: bool, hasClosingPrs: bool,
    number: nat, status: Option<string>, assignments: seq<Assignment>, comments: seq<Comment>)

  datatype Effect =
    | PostCheckIn(number: nat, assignee: string)
    | RemoveAssignees(number: nat, assignees: seq<string>)
    | SetStatus(number: nat, status: string)
    | SendSlack(number: nat)

  datatype Error = NoAssignmentEvent(number: nat, assignee: string)

  predicate IsSwept(item: Item)
  {
    && !item.archived && item.isIssue && item.inProgress && |item.guildAssignees| > 0
    && !item.onHold && !item.hasClosingPrs
  }

  predicate Fails(item: Item)
  {
    IsSwept(item) && LatestAssignmentTime(item.assignments, item.guildAssignees[0]).None?
  }

  function ActionFor(item: Item, now: int): Action
  {
    if !IsSwept(item) || Fails(item) then Leave
    else
      var assignee := item.guildAssignees[0];
      DecideFor(LatestAssignmentTime(item.assignments, assignee).value, item.comments, assignee, now)
  }

  function EffectsFor(item: Item, now: int): seq<Effect>
  {
    match ActionFor(item, now)
    case Leave => []
    case CheckIn => [PostCheckIn(item.number, item.guildAssignees[0])]
    case Clear =>
      [RemoveAssignees(item.number, item.guildAssignees)]
      + (if item.status.Some? then [SetStatus(item.number, item.status.value)] else [])
      + [SendSlack(item.number)]
  }

  function Effects(items: seq<Item>, now: int): seq<Effect>
  {
    if |items| == 0 then [] else Effects(items[..|items| - 1], now) + EffectsFor(items[|items| - 1], now)
  }

  function CountOf(items: seq<Item>, action: Action, now: int): nat
  {
    if |items| == 0 then 0
    else CountOf(items[..|items| - 1], action, now) + if ActionFor(items[|items| - 1], now) == action then 1 else 0
  }

  /** The items before the first one whose assignment cannot be found */
  function UntilFailure(items: seq<Item>): (done: seq<Item>)
    ensures done <= items && forall x :: x in done ==> !Fails(x)
    ensures |done| < |items| ==> Fails(items[|done|])
  {
    if |items| == 0 || Fails(items[0]) then [] else [items[0]] + UntilFailure(items[1..])
  }

  class Board {
    var effects: seq<Effect>

    constructor ()
      ensures effects == []
    {
      effects := [];
    }

    method Do(effect: Effect)
      modifies this
      ensures effects == old(effects) + [effect]
    {
      effects := effects + [effect];
    }
  }

  /** One turn of the loop; a skipped item is left alone. */
  method SweepItem(item: Item, now: int, board: Board) returns (result: Result<Action, Error>)
    modifies board
    ensures result.Err? <==> Fails(item)
    ensures result.Ok? ==> result.value == ActionFor(item, now)
    ensures board.effects == old(board.effects) + EffectsFor(item, now)
  {
    hide LatestAssignmentTime, LastActivity, CheckInAt;
    if item.archived || !item.isIssue || !item.inProgress {
      return Ok(Leave);
    }
    if |item.guildAssignees| == 0 || item.onHold || item.hasClosingPrs {
      return Ok(Leave);
    }
    var assignee := item.guildAssignees[0];
    var assignedAt := LatestAssignmentTime(item.assignments, assignee);
    if assignedAt.None? {
      return Err(NoAssignmentEvent(item.number, assignee));
    }
    var lastActivity, checkInAt := ScanComments(assignedAt.value, item.comments, assignee);
    if checkInAt.None? || checkInAt.value < lastActivity {
      if Days(now - lastActivity) < CHECK_IN_AFTER_DAYS {
        return Ok(Leave);
      }
      board.Do(PostCheckIn(item.number, assignee));
      return Ok(CheckIn);
    }
    if Days(now - checkInAt.value) < AUTO_CLEAR_AFTER_DAYS {
      return Ok(Leave);
    }
    board.Do(RemoveAssignees(item.number, item.guildAssignees));
    if item.status.Some? {
      board.Do(SetStatus(item.number, item.status.value));
    }
    board.Do(SendSlack(item.number));
    return Ok(Clear);
  }

  method RunStale(items: seq<Item>, now: int, board: Board) returns (result: Result<(nat, nat), Error>)
    modifies board
    ensures board.effects == old(board.effects) + Effects(UntilFailure(items), now)
    ensures result.Ok? <==> UntilFailure(items) == items
    ensures result.Ok? ==> result.value == (CountOf(items, CheckIn, now), CountOf(items, Clear, now))
  {
    hide UntilFailure, Fails, EffectsFor, ActionFor;
    var checkedIn, cleared := 0, 0;
    for i := 0 to |items|
      invariant forall j :: 0 <= j < i ==> !Fails(items[j])
      invariant board.effects == old(board.effects) + Effects(items[..i], now)
      invariant checkedIn == CountOf(items[..i], CheckIn, now) && cleared == CountOf(items[..i], Clear, now)
    {
      assert items[..i + 1][..i] == items[..i];
      var swept := SweepItem(items[i], now, board);
      if swept.Err? {
        StopsAt(items, i);
        FailureDoesNothing(items[i], now);
        return Err(swept.error);
      }
      if swept.value == CheckIn {
        checkedIn := checkedIn + 1;
      } else if swept.value == Clear {
        cleared := cleared + 1;
      }
    }
    assert items[..|items|] == items;
    StopsAt(items, |items|);
    result := Ok((checkedIn, cleared));
  }

  lemma FailureDoesNothing(item: Item, now: int)
    requires Fails(item)
    ensures EffectsFor(item, now) == []
  {
  }

  lemma {:induction false} StopsAt(items: seq<Item>, i: nat)
    requires i <= |items| && (forall j :: 0 <= j < i ==> !Fails(items[j])) && (i < |items| ==> Fails(items[i]))
    ensures UntilFailure(items) == items[..i]
  {
    hide Fails;
    if i > 0 {
      assert !Fails(items[0]);
      var rest := items[1..];
      forall j | 0 <= j < i - 1
        ensures !Fails(rest[j])
      {
        assert rest[j] == items[j + 1];
      }
      StopsAt(rest, i - 1);
      assert items[..i] == [items[0]] + rest[..i - 1];
    }
  }
}

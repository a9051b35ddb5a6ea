/** What a sweep does, in terms of what is on the board: every effect with its exact occasion, and the counts. */
module GuildLaws {
  import opened Wrappers
  import opened GuildSweep

  /** The user was assigned or replied at that time. */
  predicate ActiveAt(item: Item, user: string, at: int)
  {
    Assignment(at, user) in item.assignments || exists c :: c in item.comments && IsReplyAt(c, user, at)
  }

  predicate IsReplyAt(c: Comment, user: string, at: int) { c == Comment(at, user, false) }

  /** An issue in progress with an assignee from the guild who was assigned at some time, and nothing in the way */
  ghost predicate IsDue(item: Item)
  {
    && item.isIssue && item.inProgress && !item.archived && !item.onHold && !item.hasClosingPrs
    && |item.guildAssignees| >= 1 && exists at :: Assignment(at, item.guildAssignees[0]) in item.assignments
  }

  /** A check-in that no activity of the user followed */
  ghost predicate IsPending(item: Item, user: string, c: Comment)
  {
    c in item.comments && c.isCheckIn && forall at :: ActiveAt(item, user, at) ==> at <= c.at
  }

  /** Fourteen days without activity, and no check-in since */
  ghost predicate NeedsCheckIn(item: Item, user: string, now: int)
  {
    && (forall at :: ActiveAt(item, user, at) ==> now - at >= 14 * 24 * 3600)
    && !exists c :: IsPending(item, user, c)
  }

  /** A check-in without an answer, and seven days since every check-in */
  ghost predicate NeedsClear(item: Item, user: string, now: int)
  {
    && (exists c :: IsPending(item, user, c))
    && forall c :: c in item.comments && c.isCheckIn ==> now - c.at >= 7 * 24 * 3600
  }

  lemma ActivityIsLatest(item: Item, user: string, assignedAt: int)
    requires LatestAssignmentTime(item.assignments, user) == Some(assignedAt)
    ensures var last := LastActivity(assignedAt, item.comments, user);
            ActiveAt(item, user, last) && forall at :: ActiveAt(item, user, at) ==> at <= last
  {
    hide LatestAssignmentTime, LastActivity;
    LatestAssignmentSpec(item.assignments, user);
    LastActivitySpec(assignedAt, item.comments, user);
    var last := LastActivity(assignedAt, item.comments, user);
    if last != assignedAt {
      var c :| c in item.comments && IsReply(c, user) && c.at == last;
      assert IsReplyAt(c, user, last);
    }
    forall at | ActiveAt(item, user, at)
      ensures at <= last
    {
      if Assignment(at, user) !in item.assignments {
        var c :| c in item.comments && IsReplyAt(c, user, at);
        assert IsReply(c, user);
      }
    }
  }

  lemma PendingIff(item: Item, user: string, last: int)
    requires ActiveAt(item, user, last) && forall at :: ActiveAt(item, user, at) ==> at <= last
    ensures (exists c :: IsPending(item, user, c)) <==> exists c :: c in item.comments && IsNudge(c, last)
  {
    if c :| IsPending(item, user, c) {
      assert IsNudge(c, last);
    }
    if c :| c in item.comments && IsNudge(c, last) {
      assert IsPending(item, user, c);
    }
  }

  lemma DecisionOf(item: Item, now: int)
    requires IsDue(item)
    ensures var user := item.guildAssignees[0];
            && (ActionFor(item, now) == CheckIn <==> NeedsCheckIn(item, user, now))
            && (ActionFor(item, now) == Clear <==> NeedsClear(item, user, now))
  {
    hide LatestAssignmentTime, LastActivity, CheckInAt, DecideFor, ActiveAt, IsPending;
    var user := item.guildAssignees[0];
    LatestAssignmentSpec(item.assignments, user);
    var assignedAt := LatestAssignmentTime(item.assignments, user).value;
    ActivityIsLatest(item, user, assignedAt);
    PendingIff(item, user, LastActivity(assignedAt, item.comments, user));
    DecisionIsJustified(assignedAt, item.comments, user, now);
  }

  lemma NotDueIsLeft(item: Item, now: int)
    requires !IsDue(item)
    ensures ActionFor(item, now) == Leave
  {
    hide LatestAssignmentTime;
    if IsSwept(item) {
      LatestAssignmentSpec(item.assignments, item.guildAssignees[0]);
    }
  }

  /** The effects of one item, each with its exact occasion */
  lemma EffectsIff(item: Item, now: int)
    ensures EffectsFor(item, now) ==
            if !IsDue(item) then []
            else
              var n, user := item.number, item.guildAssignees[0];
              if NeedsCheckIn(item, user, now) then [PostCheckIn(n, user)]
              else if !NeedsClear(item, user, now) then []
              else if item.status.None? then [RemoveAssignees(n, item.guildAssignees), SendSlack(n)]
              else [RemoveAssignees(n, item.guildAssignees), SetStatus(n, item.status.value), SendSlack(n)]
  {
    hide ActionFor, NeedsCheckIn, NeedsClear, IsDue;
    if IsDue(item) {
      DecisionOf(item, now);
      assert item.guildAssignees != [] by { HasAssignee(item); }
    } else {
      NotDueIsLeft(item, now);
    }
  }

  lemma HasAssignee(item: Item)
    requires IsDue(item)
    ensures item.guildAssignees != []
  {
  }

  // ---------- The whole sweep ----------

  function Posts(effects: seq<Effect>): nat
  {
    if |effects| == 0 then 0 else (if effects[0].PostCheckIn? then 1 else 0) + Posts(effects[1..])
  }

  function Removals(effects: seq<Effect>): nat
  {
    if |effects| == 0 then 0 else (if effects[0].RemoveAssignees? then 1 else 0) + Removals(effects[1..])
  }

  lemma {:induction false} CountsOfConcat(a: seq<Effect>, b: seq<Effect>)
    ensures Posts(a + b) == Posts(a) + Posts(b) && Removals(a + b) == Removals(a) + Removals(b)
  {
    if |a| == 0 {
      assert a + b == b;
    } else {
      assert (a + b)[1..] == a[1..] + b;
      CountsOfConcat(a[1..], b);
    }
  }

  lemma CountsOfItem(item: Item, now: int)
    ensures Posts(EffectsFor(item, now)) == if ActionFor(item, now) == CheckIn then 1 else 0
    ensures Removals(EffectsFor(item, now)) == if ActionFor(item, now) == Clear then 1 else 0
  {
    hide ActionFor;
    var effects := EffectsFor(item, now);
    if ActionFor(item, now) == Clear {
      var status := if item.status.Some? then [SetStatus(item.number, item.status.value)] else [];
      assert effects == [RemoveAssignees(item.number, item.guildAssignees)] + (status + [SendSlack(item.number)]);
      CountsOfConcat([RemoveAssignees(item.number, item.guildAssignees)], status + [SendSlack(item.number)]);
      CountsOfConcat(status, [SendSlack(item.number)]);
    }
  }

  /** The two numbers that a sweep reports are those of its check-ins and of its removals. */
  lemma {:induction false} CountsMatch(items: seq<Item>, now: int)
    ensures CountOf(items, CheckIn, now) == Posts(Effects(items, now))
    ensures CountOf(items, Clear, now) == Removals(Effects(items, now))
  {
    hide EffectsFor, ActionFor;
    if |items| != 0 {
      var n := |items| - 1;
      CountsMatch(items[..n], now);
      CountsOfItem(items[n], now);
      CountsOfConcat(Effects(items[..n], now), EffectsFor(items[n], now));
    }
  }

  /** The sweep goes through the items in order and stops at the first one that fails. */
  lemma {:induction false} EffectsInOrder(a: seq<Item>, item: Item, b: seq<Item>, now: int)
    ensures Effects(a + [item] + b, now) == Effects(a, now) + EffectsFor(item, now) + Effects(b, now)
  {
    hide EffectsFor;
    var all := a + [item] + b;
    if |b| == 0 {
      assert all[..|a|] == a && all[|a|] == item;
    } else {
      var n := |b| - 1;
      EffectsInOrder(a, item, b[..n], now);
      assert all[..|all| - 1] == a + [item] + b[..n];
    }
  }
}

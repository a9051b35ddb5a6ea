/** The triage queue: the days on which an issue is eligible, and bringing the board in line with the
    eligible issues. Days are numbered, day 0 being a Monday. */
module TriageBoard {

  // ---------- The eligibility window ----------

  function IsoWeekday(day: int): int { day % 7 + 1 }

  datatype Window = Window(start: int, end: int) {
    predicate Contains(day: int) { start <= day <= end }
  }

  function EligibilityWindow(today: int): Window
  {
    var weekend := IsoWeekday(today) >= 6;
    var day := if weekend then today - (IsoWeekday(today) - 5) else today;
    var weekday := if weekend then 5 else IsoWeekday(today);
    var thisMonday := day - (weekday - 1);
    Window(thisMonday - 4, day - if weekday <= 2 then 4 else 2)
  }

  /** An issue created on a day is eligible on another. */
  predicate Eligible(created: int, today: int)
  {
    EligibilityWindow(today).Contains(created)
  }

  predicate IsBusinessDay(day: int) { day % 7 < 5 }

  function Monday(day: int): int { day - day % 7 }

  /** On the weekend the queue is the one of Friday. */
  function EvaluationDay(today: int): int
  {
    if IsBusinessDay(today) then today else Monday(today) + 4
  }

  /** The week in which an issue is in the queue: Thursday and Friday belong to the next one. */
  function QueueMonday(created: int): int { Monday(created + 4) }

  /** The first day in the queue: the second business day after the creation, where the weekend
      counts as the Monday after it */
  function FirstEligible(created: int): int
  {
    var day := if IsBusinessDay(created) then created else Monday(created) + 7;
    if day % 7 <= 2 then day + 2 else day + 4
  }

  lemma DayOfWeek(week: int, weekday: int)
    requires 0 <= weekday < 7
    ensures (7 * week + weekday) % 7 == weekday && Monday(7 * week + weekday) == 7 * week
  {
  }

  lemma WindowOf(week: int, weekday: int)
    requires 0 <= weekday < 7
    ensures EligibilityWindow(7 * week + weekday) ==
            Window(7 * week - 4,
                   7 * week + if weekday <= 1 then weekday - 4 else if weekday <= 4 then weekday - 2 else 2)
  {
    DayOfWeek(week, weekday);
  }

  lemma QueueOf(week: int, weekday: int)
    requires 0 <= weekday < 7
    ensures QueueMonday(7 * week + weekday) == if weekday <= 2 then 7 * week else 7 * week + 7
    ensures FirstEligible(7 * week + weekday) ==
            if weekday <= 2 then 7 * week + weekday + 2 else if weekday <= 4 then 7 * week + weekday + 4
                else 7 * week + 9
  {
    hide Monday;
    DayOfWeek(week, weekday);
    DayOfWeek(week + 1, 0);
    if weekday <= 2 {
      DayOfWeek(week, weekday + 4);
      assert 7 * week + weekday + 4 == 7 * week + (weekday + 4);
    } else {
      DayOfWeek(week + 1, weekday - 3);
      assert 7 * week + weekday + 4 == 7 * (week + 1) + (weekday - 3);
    }
  }

  /** An issue is eligible exactly from its first day to the Sunday of one week. */
  lemma WindowsTileTheCalendar(created: int, today: int)
    ensures Eligible(created, today) <==> FirstEligible(created) <= today <= QueueMonday(created) + 6
    ensures QueueMonday(created) <= FirstEligible(created) <= QueueMonday(created) + 4
  {
    hide EligibilityWindow, FirstEligible, QueueMonday;
    var a, r := created / 7, created % 7;
    var b, s := today / 7, today % 7;
    assert created == 7 * a + r && today == 7 * b + s;
    WindowOf(b, s);
    QueueOf(a, r);
  }

  /** The queue of a week holds every issue that was created from Thursday to Wednesday, and no other;
      on Friday it holds all of them. */
  lemma EveryDayHasOneWeek(created: int, monday: int)
    requires monday % 7 == 0
    ensures (exists today :: monday <= today <= monday + 6 && Eligible(created, today)) <==>
        monday == QueueMonday(created)
    ensures Eligible(created, monday + 4) <==> monday - 4 <= created <= monday + 2
  {
    FridayHoldsAll(created, monday);
    QueueStartsOnMonday(created);
    hide Eligible, FirstEligible, QueueMonday;
    var first := FirstEligible(created);
    if monday == QueueMonday(created) {
      WindowsTileTheCalendar(created, first);
      assert monday <= first <= monday + 6 && Eligible(created, first);
    }
    if today :| monday <= today <= monday + 6 && Eligible(created, today) {
      WindowsTileTheCalendar(created, today);
      SameWeek(monday, QueueMonday(created), today);
    }
  }

  lemma SameWeek(a: int, b: int, day: int)
    requires a % 7 == 0 && b % 7 == 0 && a <= day <= a + 6 && b <= day <= b + 6
    ensures a == b
  {
    assert a == 7 * (a / 7) && b == 7 * (b / 7);
  }

  lemma QueueStartsOnMonday(created: int)
    ensures QueueMonday(created) % 7 == 0
  {
  }

  lemma FridayHoldsAll(created: int, monday: int)
    requires monday % 7 == 0
    ensures Eligible(created, monday + 4) <==> monday - 4 <= created <= monday + 2
  {
    hide EligibilityWindow;
    WindowOf(monday / 7, 4);
    assert monday == 7 * (monday / 7);
  }

  lemma StaysUntilSunday(created: int, today: int, later: int)
    requires Eligible(created, today) && today <= later <= Monday(today) + 6
    ensures Eligible(created, later)
  {
    WindowsTileTheCalendar(created, today);
    WindowsTileTheCalendar(created, later);
    QueueStartsOnMonday(created);
    MondayOfWeek(today);
    hide Eligible, FirstEligible, QueueMonday, Monday;
    SameWeek(Monday(today), QueueMonday(created), today);
  }

  lemma MondayOfWeek(day: int)
    ensures Monday(day) % 7 == 0 && Monday(day) <= day <= Monday(day) + 6
  {
  }

  lemma DayBeforeFirst(created: int) returns (between: int)
    ensures IsBusinessDay(between) && created < between < FirstEligible(created)
  {
    hide FirstEligible, QueueMonday;
    var a, r := created / 7, created % 7;
    assert created == 7 * a + r;
    QueueOf(a, r);
    between := if r <= 3 then 7 * a + (r + 1) else 7 * (a + 1);
    if r <= 3 {
      DayOfWeek(a, r + 1);
    } else {
      DayOfWeek(a + 1, 0);
    }
  }

  lemma EvaluatedLater(created: int, today: int)
    requires Eligible(created, today)
    ensures FirstEligible(created) <= EvaluationDay(today)
  {
    WindowsTileTheCalendar(created, today);
    QueueStartsOnMonday(created);
    MondayOfWeek(today);
    hide Eligible, FirstEligible, QueueMonday, Monday;
    SameWeek(Monday(today), QueueMonday(created), today);
  }

  /** A full business day lies between the creation and the evaluation. */
  lemma FullDayBetween(created: int, today: int)
    requires Eligible(created, today)
    ensures exists between :: IsBusinessDay(between) && created < between < EvaluationDay(today)
  {
    hide Eligible, FirstEligible, EvaluationDay, IsBusinessDay;
    var between := DayBeforeFirst(created);
    EvaluatedLater(created, today);
  }

  ghost predicate HasFullDay(created: int, today: int)
  {
    exists between :: IsBusinessDay(between) && created < between < EvaluationDay(today)
  }

  lemma AfterWeekend(week: int, day: int)
    requires IsBusinessDay(day) && day >= 7 * week + 5
    ensures day >= 7 * week + 7
  {
    assert day == 7 * (day / 7) + day % 7;
  }

  lemma EvaluationIsBusinessDay(today: int)
    ensures IsBusinessDay(EvaluationDay(today)) && EvaluationDay(today) <= today
    ensures Monday(EvaluationDay(today)) == Monday(today)
  {
    var week, weekday := today / 7, today % 7;
    assert today == 7 * week + weekday;
    DayOfWeek(week, weekday);
    DayOfWeek(week, 4);
  }

  /** For an issue of a business day the first eligible day is the earliest with a full day before it. */
  lemma FullDayIff(created: int, today: int)
    requires IsBusinessDay(created)
    ensures HasFullDay(created, today) <==> FirstEligible(created) <= EvaluationDay(today)
  {
    var first := DayBeforeFirst(created);
    EvaluationIsBusinessDay(today);
    var a, r := created / 7, created % 7;
    assert created == 7 * a + r;
    QueueOf(a, r);
    hide FirstEligible, QueueMonday, EvaluationDay, IsBusinessDay, Monday;
    if between :| IsBusinessDay(between) && created < between < EvaluationDay(today) {
      if r == 3 {
        AfterWeekend(a, EvaluationDay(today));
      } else if r == 4 {
        AfterWeekend(a, between);
      }
    }
  }

  lemma WeekendFullDayIff(created: int, today: int)
    requires !IsBusinessDay(created)
    ensures HasFullDay(created, today) <==> EvaluationDay(today) >= Monday(created) + 8
  {
    var a, r := created / 7, created % 7;
    assert created == 7 * a + r;
    DayOfWeek(a, r);
    DayOfWeek(a + 1, 0);
    assert IsBusinessDay(7 * (a + 1));
    hide EvaluationDay, IsBusinessDay, Monday;
    if between :| IsBusinessDay(between) && created < between < EvaluationDay(today) {
      AfterWeekend(a, between);
    }
  }

  /** The day on which work on the issue can begin */
  function WorkDay(created: int): int
  {
    if IsBusinessDay(created) then created else Monday(created) + 7
  }

  lemma WorkDayQueues(created: int)
    ensures IsBusinessDay(WorkDay(created)) && FirstEligible(WorkDay(created)) == FirstEligible(created)
    ensures QueueMonday(WorkDay(created)) == QueueMonday(created)
  {
    var a, r := created / 7, created % 7;
    assert created == 7 * a + r;
    DayOfWeek(a, r);
    DayOfWeek(a + 1, 0);
    QueueOf(a, r);
    QueueOf(a + 1, 0);
    hide FirstEligible, QueueMonday, Monday;
  }

  /** Up to the end of its week an issue is eligible exactly when a full business day has passed since its
      work day, which for an issue of the weekend is the Monday after it. */
  lemma EligibleIff(created: int, today: int)
    requires Monday(today) <= QueueMonday(created)
    ensures Eligible(created, today) <==> HasFullDay(WorkDay(created), today)
  {
    WindowsTileTheCalendar(created, today);
    WorkDayQueues(created);
    FullDayIff(WorkDay(created), today);
    EvaluationIsBusinessDay(today);
    MondayOfWeek(today);
    hide Eligible, FirstEligible, QueueMonday, Monday, EvaluationDay, WorkDay, IsBusinessDay, HasFullDay;
    if Eligible(created, today) {
      EvaluatedLater(created, today);
    }
  }

  /** The promise of a full business day since the creation is kept on all days up to the end of the week
      but one: the Tuesday after a weekend, for the issues of that weekend. */
  lemma PromiseIsKeptIff(created: int, today: int)
    requires Monday(today) <= QueueMonday(created)
    ensures (Eligible(created, today) <==> HasFullDay(created, today)) <==>
            IsBusinessDay(created) || today != Monday(created) + 8
  {
    EligibleIff(created, today);
    if !IsBusinessDay(created) {
      WeekendFullDayIff(created, today);
      FullDayIff(WorkDay(created), today);
      var a, r := created / 7, created % 7;
      assert created == 7 * a + r;
      DayOfWeek(a, r);
      QueueOf(a, r);
      WorkDayQueues(created);
      TuesdayOnly(a, today);
    }
  }

  lemma TuesdayOnly(week: int, today: int)
    ensures EvaluationDay(today) == 7 * week + 8 <==> today == 7 * week + 8
  {
    var b, q := today / 7, today % 7;
    assert today == 7 * b + q;
    DayOfWeek(b, q);
    DayOfWeek(week + 1, 1);
    assert 7 * (week + 1) + 1 == 7 * week + 8;
  }

  /** Monday is a full business day between a weekend and Tuesday, but an issue of the weekend waits
      until Wednesday. */
  lemma WeekendWaitsLonger(created: int)
    requires !IsBusinessDay(created)
    ensures var tuesday := Monday(created) + 8;
            && IsBusinessDay(tuesday - 1) && created < tuesday - 1 < EvaluationDay(tuesday)
            && !Eligible(created, tuesday) && Eligible(created, tuesday + 1)
  {
    var a, r := created / 7, created % 7;
    assert created == 7 * a + r;
    DayOfWeek(a, r);
    DayOfWeek(a + 1, 0);
    DayOfWeek(a + 1, 1);
    WindowOf(a + 1, 1);
    WindowOf(a + 1, 2);
    hide EligibilityWindow, Monday;
    assert 7 * (a + 1) + 1 == Monday(created) + 8 && 7 * (a + 1) + 2 == Monday(created) + 9;
  }

  // ---------- The board ----------

  datatype Content = Issue(node: string, number: nat) | Other

  datatype Item = Item(id: nat, content: Content)

  datatype Found = Found(node: string, number: nat)

  predicate DistinctIds(items: seq<Item>)
  {
    forall i, j :: 0 <= i < j < |items| ==> items[i].id != items[j].id
  }

  function Nodes(eligible: seq<Found>): set<string>
  {
    set f | f in eligible :: f.node
  }

  /** The issues on the board */
  function OnBoard(items: seq<Item>): set<string>
  {
    set x | x in items && x.content.Issue? :: x.content.node
  }

  predicate IsDropped(x: Item, eligible: seq<Found>)
  {
    x.content.Issue? && x.content.node !in Nodes(eligible)
  }

  /** Everything but the issues that are not eligible */
  function Kept(items: seq<Item>, eligible: seq<Found>): seq<Item>
  {
    if |items| == 0 then []
    else
      var n := |items| - 1;
      Kept(items[..n], eligible) + if IsDropped(items[n], eligible) then [] else [items[n]]
  }

  /** The items for the eligible issues that are missing, with the next ids */
  function Added(eligible: seq<Found>, onBoard: set<string>, nextId: nat): seq<Item>
  {
    if |eligible| == 0 then []
    else
      var n := |eligible| - 1;
      var before := Added(eligible[..n], onBoard, nextId);
      if eligible[n].node in onBoard then before
      else before + [Item(nextId + |before|, Issue(eligible[n].node, eligible[n].number))]
  }

  function Synced(items: seq<Item>, eligible: seq<Found>, nextId: nat): seq<Item>
  {
    Kept(items, eligible) + Added(eligible, OnBoard(items), nextId)
  }

  function Without(items: seq<Item>, ids: set<nat>): seq<Item>
  {
    if |items| == 0 then []
    else
      var n := |items| - 1;
      Without(items[..n], ids) + if items[n].id in ids then [] else [items[n]]
  }

  /** The ids that are removed */
  function DroppedIds(items: seq<Item>, eligible: seq<Found>): set<nat>
  {
    set x | x in items && IsDropped(x, eligible) :: x.id
  }

  // ---------- Steps of the loops ----------

  lemma {:induction false} WithoutKeeps(items: seq<Item>, ids: set<nat>)
    requires DistinctIds(items)
    ensures forall x :: x in Without(items, ids) <==> x in items && x.id !in ids
    ensures DistinctIds(Without(items, ids))
  {
    if |items| != 0 {
      var n := |items| - 1;
      WithoutKeeps(items[..n], ids);
      assert items == items[..n] + [items[n]];
      var rest := Without(items[..n], ids);
      forall i | 0 <= i < |rest|
        ensures rest[i].id != items[n].id
      {
        assert rest[i] in rest;
      }
    }
  }

  lemma {:induction false} WithoutNone(items: seq<Item>)
    ensures Without(items, {}) == items
  {
    if |items| != 0 {
      WithoutNone(items[..|items| - 1]);
    }
  }

  lemma {:induction false} WithoutConcat(a: seq<Item>, b: seq<Item>, ids: set<nat>)
    ensures Without(a + b, ids) == Without(a, ids) + Without(b, ids)
  {
    if |b| == 0 {
      assert a + b == a;
    } else {
      assert (a + b)[..|a + b| - 1] == a + b[..|b| - 1];
      WithoutConcat(a, b[..|b| - 1], ids);
    }
  }

  lemma WithoutOne(x: Item, ids: set<nat>)
    ensures Without([x], ids) == if x.id in ids then [] else [x]
  {
    assert [x][..0] == [];
  }

  lemma {:induction false} WithoutTwice(items: seq<Item>, a: set<nat>, b: set<nat>)
    ensures Without(Without(items, a), b) == Without(items, a + b)
  {
    if |items| != 0 {
      var n := |items| - 1;
      WithoutTwice(items[..n], a, b);
      WithoutOne(items[n], b);
      assert Without(items[..n], a) + [] == Without(items[..n], a);
      WithoutConcat(Without(items[..n], a), [items[n]], b);
    }
  }

  lemma AddedStep(eligible: seq<Found>, i: nat, onBoard: set<string>, nextId: nat)
    requires i < |eligible|
    ensures var before := Added(eligible[..i], onBoard, nextId);
            Added(eligible[..i + 1], onBoard, nextId) == before +
              if eligible[i].node in onBoard then []
              else [Item(nextId + |before|, Issue(eligible[i].node, eligible[i].number))]
  {
    assert eligible[..i + 1][..i] == eligible[..i];
  }

  lemma DroppedStep(all: seq<Item>, current: seq<Item>, i: nat, eligible: seq<Found>)
    requires i < |current|
    ensures Without(all, DroppedIds(current[..i + 1], eligible)) ==
            var rest := Without(all, DroppedIds(current[..i], eligible));
            if IsDropped(current[i], eligible) then Without(rest, {current[i].id}) else rest
  {
    var ids := DroppedIds(current[..i], eligible);
    assert current[..i + 1] == current[..i] + [current[i]];
    assert DroppedIds(current[..i + 1], eligible) == if IsDropped(current[i], eligible) then ids + {current[i].id}
        else ids;
    WithoutTwice(all, ids, {current[i].id});
  }

  lemma {:induction false} AddedSpec(eligible: seq<Found>, onBoard: set<string>, nextId: nat)
    ensures forall x :: x in Added(eligible, onBoard, nextId) ==> x.id >= nextId && x.content.Issue?
    ensures OnBoard(Added(eligible, onBoard, nextId)) == Nodes(eligible) - onBoard
  {
    if |eligible| != 0 {
      var n := |eligible| - 1;
      AddedSpec(eligible[..n], onBoard, nextId);
      assert eligible == eligible[..n] + [eligible[n]];
      assert Nodes(eligible) == Nodes(eligible[..n]) + {eligible[n].node};
      var before := Added(eligible[..n], onBoard, nextId);
      OnBoardOfConcat(before, if eligible[n].node in onBoard then []
                              else [Item(nextId + |before|, Issue(eligible[n].node, eligible[n].number))]);
    }
  }

  lemma OnBoardOfConcat(a: seq<Item>, b: seq<Item>)
    ensures OnBoard(a + b) == OnBoard(a) + OnBoard(b)
  {
  }

  lemma {:induction false} WithoutUntouched(items: seq<Item>, ids: set<nat>)
    requires forall x :: x in items ==> x.id !in ids
    ensures Without(items, ids) == items
  {
    if |items| != 0 {
      var n := |items| - 1;
      assert items[n] in items;
      WithoutUntouched(items[..n], ids);
    }
  }

  lemma {:induction false} WithoutDropped(items: seq<Item>, ids: set<nat>, eligible: seq<Found>)
    requires forall x :: x in items ==> (x.id in ids <==> IsDropped(x, eligible))
    ensures Without(items, ids) == Kept(items, eligible)
  {
    hide IsDropped;
    if |items| != 0 {
      var n := |items| - 1;
      assert items[n] in items;
      WithoutDropped(items[..n], ids, eligible);
    }
  }

  lemma AllRemoved(current: seq<Item>, eligible: seq<Found>, nextId: nat)
    requires DistinctIds(current) && forall x :: x in current ==> x.id < nextId
    ensures Without(current + Added(eligible, OnBoard(current), nextId), DroppedIds(current, eligible))
            == Synced(current, eligible, nextId)
  {
    hide Without, Kept, Added, OnBoard, IsDropped;
    var ids, added := DroppedIds(current, eligible), Added(eligible, OnBoard(current), nextId);
    AddedSpec(eligible, OnBoard(current), nextId);
    WithoutConcat(current, added, ids);
    WithoutUntouched(added, ids);
    forall x | x in current
      ensures x.id in ids <==> IsDropped(x, eligible)
    {
      if x.id in ids {
        var y :| y in current && IsDropped(y, eligible) && y.id == x.id;
        var i, j :| 0 <= i < |current| && 0 <= j < |current| && current[i] == x && current[j] == y;
      }
    }
    WithoutDropped(current, ids, eligible);
  }

  class Board {
    var items: seq<Item>
    var nextId: nat

    ghost predicate Valid()
      reads this
    {
      DistinctIds(items) && forall x :: x in items ==> x.id < nextId
    }

    method Add(found: Found)
      requires Valid()
      modifies this
      ensures Valid() && nextId == old(nextId) + 1
      ensures items == old(items) + [Item(old(nextId), Issue(found.node, found.number))]
    {
      items := items + [Item(nextId, Issue(found.node, found.number))];
      nextId := nextId + 1;
    }

    method Remove(id: nat)
      requires Valid()
      modifies this
      ensures Valid() && nextId == old(nextId) && items == Without(old(items), {id})
    {
      WithoutKeeps(items, {id});
      items := Without(items, {id});
    }

    method AddMissing(eligible: seq<Found>, onBoard: set<string>, dryRun: bool)
      requires Valid()
      modifies this
      ensures Valid()
      ensures items == if dryRun then old(items) else old(items) + Added(eligible, onBoard, old(nextId))
    {
      hide Valid, Added;
      NothingAdded(eligible[..0], onBoard, nextId);
      for i := 0 to |eligible|
        invariant Valid()
        invariant items == if dryRun then old(items) else old(items) + Added(eligible[..i], onBoard, old(nextId))
        invariant !dryRun ==> nextId == old(nextId) + |Added(eligible[..i], onBoard, old(nextId))|
      {
        AddedStep(eligible, i, onBoard, old(nextId));
        if eligible[i].node !in onBoard && !dryRun {
          Add(eligible[i]);
        }
      }
      assert eligible[..|eligible|] == eligible;
    }

    method RemoveOthers(current: seq<Item>, eligible: seq<Found>, dryRun: bool)
      requires Valid()
      modifies this
      ensures Valid()
      ensures items == if dryRun then old(items) else Without(old(items), DroppedIds(current, eligible))
    {
      hide Valid, Without, IsDropped;
      WithoutNone(items);
      assert DroppedIds(current[..0], eligible) == {};
      for i := 0 to |current|
        invariant Valid()
        invariant items == if dryRun then old(items) else Without(old(items), DroppedIds(current[..i], eligible))
      {
        DroppedStep(old(items), current, i, eligible);
        if IsDropped(current[i], eligible) && !dryRun {
          Remove(current[i].id);
        }
      }
      assert current[..|current|] == current;
    }

    method Sync(eligible: seq<Found>, dryRun: bool)
      requires Valid()
      modifies this
      ensures Valid()
      ensures items == if dryRun then old(items) else Synced(old(items), eligible, old(nextId))
    {
      var current := items;
      assert DistinctIds(current) && forall x :: x in current ==> x.id < nextId;
      hide Valid, DistinctIds, Without, Added, Synced, DroppedIds;
      AllRemoved(current, eligible, nextId);
      AddMissing(eligible, OnBoard(current), dryRun);
      RemoveOthers(current, eligible, dryRun);
    }
  }

  // ---------- The board after a run ----------

  /** Drafts and pull requests */
  function Others(items: seq<Item>): seq<Item>
  {
    if |items| == 0 then []
    else
      var n := |items| - 1;
      Others(items[..n]) + if items[n].content.Issue? then [] else [items[n]]
  }

  lemma {:induction false} OthersOfConcat(a: seq<Item>, b: seq<Item>)
    ensures Others(a + b) == Others(a) + Others(b)
  {
    if |b| == 0 {
      assert a + b == a;
    } else {
      assert (a + b)[..|a + b| - 1] == a + b[..|b| - 1];
      OthersOfConcat(a, b[..|b| - 1]);
    }
  }

  lemma OthersOfOne(x: Item)
    ensures Others([x]) == if x.content.Issue? then [] else [x]
  {
    assert [x][..0] == [];
  }

  lemma {:induction false} KeptOthers(items: seq<Item>, eligible: seq<Found>)
    ensures Others(Kept(items, eligible)) == Others(items)
  {
    if |items| != 0 {
      var n := |items| - 1;
      KeptOthers(items[..n], eligible);
      OthersOfConcat(Kept(items[..n], eligible), [items[n]]);
      OthersOfOne(items[n]);
      assert Kept(items[..n], eligible) + [] == Kept(items[..n], eligible);
    }
  }

  lemma {:induction false} KeptSpec(items: seq<Item>, eligible: seq<Found>)
    ensures forall x :: x in Kept(items, eligible) <==> x in items && !IsDropped(x, eligible)
  {
    hide IsDropped;
    if |items| != 0 {
      var n := |items| - 1;
      KeptSpec(items[..n], eligible);
      assert items == items[..n] + [items[n]];
    }
  }

  lemma {:induction false} NoOthers(items: seq<Item>)
    requires forall x :: x in items ==> x.content.Issue?
    ensures Others(items) == []
  {
    if |items| != 0 {
      assert items[|items| - 1] in items;
      NoOthers(items[..|items| - 1]);
    }
  }

  /** After a run the issues on the board are the eligible ones, and everything else is untouched. */
  lemma BoardShowsEligible(items: seq<Item>, eligible: seq<Found>, nextId: nat)
    ensures OnBoard(Synced(items, eligible, nextId)) == Nodes(eligible)
    ensures Others(Synced(items, eligible, nextId)) == Others(items)
  {
    hide Kept, Added, Others;
    var kept, added := Kept(items, eligible), Added(eligible, OnBoard(items), nextId);
    KeptSpec(items, eligible);
    KeptOthers(items, eligible);
    AddedSpec(eligible, OnBoard(items), nextId);
    OnBoardOfConcat(kept, added);
    assert OnBoard(kept) == OnBoard(items) * Nodes(eligible);
    OthersOfConcat(kept, added);
    NoOthers(added);
  }

  lemma {:induction false} NothingDropped(items: seq<Item>, eligible: seq<Found>)
    requires OnBoard(items) <= Nodes(eligible)
    ensures Kept(items, eligible) == items
  {
    if |items| != 0 {
      var n := |items| - 1;
      assert items == items[..n] + [items[n]];
      assert items[n] in items;
      assert OnBoard(items[..n]) <= OnBoard(items);
      assert items[n].content.Issue? ==> items[n].content.node in OnBoard(items);
      NothingDropped(items[..n], eligible);
    }
  }

  lemma {:induction false} NothingAdded(eligible: seq<Found>, onBoard: set<string>, nextId: nat)
    requires Nodes(eligible) <= onBoard
    ensures Added(eligible, onBoard, nextId) == []
  {
    if |eligible| != 0 {
      var n := |eligible| - 1;
      assert eligible == eligible[..n] + [eligible[n]];
      assert eligible[n].node in Nodes(eligible) && Nodes(eligible[..n]) <= Nodes(eligible);
      NothingAdded(eligible[..n], onBoard, nextId);
    }
  }

  /** A second run with the same eligible issues changes nothing. */
  lemma RerunDoesNothing(items: seq<Item>, eligible: seq<Found>, nextId: nat, later: nat)
    ensures var board := Synced(items, eligible, nextId); Synced(board, eligible, later) == board
  {
    hide Kept, Added, OnBoard, Others;
    var board := Synced(items, eligible, nextId);
    BoardShowsEligible(items, eligible, nextId);
    NothingDropped(board, eligible);
    NothingAdded(eligible, OnBoard(board), later);
  }
}

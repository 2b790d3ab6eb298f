/** The weekly planner screen: week banding, the week view, adding a robot
    (with the planner's conflict rule), toggling and removing a group of
    records, and editing a description. */
module Planner {
  import opened Time
  import opened Schedule
  import opened Conflict
  import opened Grouping

  /** Longest description the planner's text boxes accept. */
  const DescriptionLimit: nat := 120

  /** Longest description the planner cards show before cutting it. */
  const PreviewLength: nat := 60

  // ---------------------------------------------------------------------
  // Weeks

  /** `calculateWeek`: days 1-7, 8-14, 15-21 and 22-28 are weeks 1 to 4;
      every other day falls back to week 1. */
  function CalculateWeek(dayOfMonth: int): (w: int)
    ensures 1 <= w <= 4
    ensures w == if 1 <= dayOfMonth <= 28 then (dayOfMonth - 1) / 7 + 1 else 1
  {
    if 1 <= dayOfMonth <= 7 then 1
    else if 8 <= dayOfMonth <= 14 then 2
    else if 15 <= dayOfMonth <= 21 then 3
    else if 22 <= dayOfMonth <= 28 then 4
    else 1
  }

  /** Each of days 1..28 lies in exactly one band of seven days, and days
      29 and 30 are shown with week 1. */
  lemma WeekBands(dayOfMonth: int, week: int)
    requires 1 <= week <= 4
    ensures 1 <= dayOfMonth <= 28 ==>
              (CalculateWeek(dayOfMonth) == week <==> 7 * (week - 1) + 1 <= dayOfMonth <= 7 * week)
    ensures dayOfMonth == 29 || dayOfMonth == 30 ==> CalculateWeek(dayOfMonth) == 1
  {
  }

  /** The records the view of a week shows: those whose day falls in the
      week, and every record flagged daily. */
  function WeekRecords(robots: seq<Robot>, week: int): (r: seq<Robot>)
    ensures forall x :: x in r <==> x in robots && (CalculateWeek(x.day) == week || x.isDaily)
  {
    Filter(robots, (x: Robot) => CalculateWeek(x.day) == week || x.isDaily)
  }

  /** `getWeekRobots(week)`. */
  method GetWeekRobots(robots: seq<Robot>, week: int) returns (groups: seq<Group>)
    ensures groups == Grouped(WeekRecords(robots, week))
  {
    groups := GroupRobots(WeekRecords(robots, week));
  }

  /** A record of the week (or flagged daily) shows up in the week view: its
      day is listed in the group of its key. */
  lemma WeekShowsItsRecords(robots: seq<Robot>, week: int, x: Robot)
    requires x in robots && (CalculateWeek(x.day) == week || x.isDaily)
    ensures exists i :: 0 <= i < |Grouped(WeekRecords(robots, week))|
              && GroupKeyOf(Grouped(WeekRecords(robots, week))[i]) == GroupKey(x)
              && x.day in Grouped(WeekRecords(robots, week))[i].days
  {
    var wr := WeekRecords(robots, week);
    assert x in wr;
    GroupedCoversKeys(wr);
  }

  /** Every id the week view lists belongs to a record of that week or to a
      record flagged daily. */
  lemma WeekShowsOnlyItsRecords(robots: seq<Robot>, week: int, i: int, m: int)
    requires 0 <= i < |Grouped(WeekRecords(robots, week))|
    requires 0 <= m < |Grouped(WeekRecords(robots, week))[i].ids|
    ensures exists x :: x in robots && x.id == Grouped(WeekRecords(robots, week))[i].ids[m]
                        && (CalculateWeek(x.day) == week || x.isDaily)
  {
    var wr := WeekRecords(robots, week);
    var g := Grouped(wr)[i];
    GroupedIdFrom(wr, i, m);
    var j :| 0 <= j < |wr| && GroupKey(wr[j]) == GroupKeyOf(g) && wr[j].id == g.ids[m];
    assert wr[j] in wr;
    assert wr[j] in robots && (CalculateWeek(wr[j].day) == week || wr[j].isDaily);
  }

  // ---------------------------------------------------------------------
  // Adding a robot

  /** What pressing "Adicionar" does: nothing, a conflict alert, or the
      create requests (after which the list is reloaded from the server). */
  datatype AddOutcome = Skipped | ConflictAlert | Posted(payloads: seq<Payload>)

  /** The planner's `addRobot` for the form and its selected day. */
  function AddRobot(robots: seq<Robot>, form: Draft, day: int): (o: AddOutcome)
    ensures o.Skipped? <==> !FilledIn(form)
    ensures o.ConflictAlert? <==>
              FilledIn(form) && HasTimeConflict(DayOrDaily, robots, day, form.startTime, form.endTime, None, form.isDaily)
    ensures o.Posted? ==> o.payloads == ExpandPayloads(form, day)
  {
    if !FilledIn(form) then Skipped
    else if HasTimeConflict(DayOrDaily, robots, day, form.startTime, form.endTime, None, form.isDaily) then ConflictAlert
    else Posted(ExpandPayloads(form, day))
  }

  /** A posted robot overlaps no record on any day it is posted for, nor any
      record flagged daily: the planner only books free slots. */
  lemma AddRobotBooksFreeSlots(robots: seq<Robot>, form: Draft, day: int)
    requires AddRobot(robots, form, day).Posted?
    ensures forall p, x :: p in AddRobot(robots, form, day).payloads && x in robots && (x.day == p.day || x.isDaily)
              ==> !Overlaps(ParseTime(p.startTime), ParseTime(p.endTime), x)
  {
    var ps := AddRobot(robots, form, day).payloads;
    var ns, ne := ParseTime(form.startTime), ParseTime(form.endTime);
    forall p, x | p in ps && x in robots && (x.day == p.day || x.isDaily)
      ensures !Overlaps(ParseTime(p.startTime), ParseTime(p.endTime), x)
    {
      var i :| 0 <= i < |ps| && ps[i] == p;
      assert CopiesForm(form, p);
      assert Candidate(DayOrDaily, x, p.day, None);
      if form.isDaily {
        assert 1 <= p.day <= 30;
        assert !DayConflict(DayOrDaily, robots, p.day, ns, ne, None);
      }
    }
  }

  // ---------------------------------------------------------------------
  // Toggling and removing a group

  /** `robots.find(r => ids.includes(r.id))` as an index; |robots| when
      there is none. */
  function FirstIn(robots: seq<Robot>, ids: seq<int>): (i: nat)
    ensures i <= |robots|
    ensures i < |robots| ==> robots[i].id in ids
    ensures forall j :: 0 <= j < i ==> robots[j].id !in ids
  {
    if robots == [] then 0
    else if robots[0].id in ids then 0
    else 1 + FirstIn(robots[1..], ids)
  }

  /** `toggleManual(ids)`. When a record of the group is found, a successful
      request sets every record of the group to the negation of the FIRST
      record's flag; a failed one negates each record's own flag. */
  function ToggleManual(robots: seq<Robot>, ids: seq<int>, serverOk: bool): (r: seq<Robot>)
    ensures |r| == |robots|
    ensures forall i :: 0 <= i < |r| && robots[i].id !in ids ==> r[i] == robots[i]
    ensures FirstIn(robots, ids) == |robots| ==> r == robots
    ensures FirstIn(robots, ids) < |robots| ==>
              forall i :: 0 <= i < |r| && robots[i].id in ids ==>
                r[i] == robots[i].(manual := if serverOk then !robots[FirstIn(robots, ids)].manual else !robots[i].manual)
  {
    var f := FirstIn(robots, ids);
    if f == |robots| then robots
    else if serverOk then
      seq(|robots|, i requires 0 <= i < |robots| =>
        if robots[i].id in ids then robots[i].(manual := !robots[f].manual) else robots[i])
    else
      seq(|robots|, i requires 0 <= i < |robots| =>
        if robots[i].id in ids then robots[i].(manual := !robots[i].manual) else robots[i])
  }

  /** Whether every record of the group carries the same manual flag. */
  predicate UniformManual(robots: seq<Robot>, ids: seq<int>)
  {
    forall i, j :: 0 <= i < |robots| && 0 <= j < |robots| && robots[i].id in ids && robots[j].id in ids
      ==> robots[i].manual == robots[j].manual
  }

  /** After a successful toggle the group is uniform, and the group's
      records carry the opposite of the first record's former flag. */
  lemma ToggleMakesGroupUniform(robots: seq<Robot>, ids: seq<int>)
    ensures UniformManual(ToggleManual(robots, ids, true), ids) || FirstIn(robots, ids) == |robots|
    ensures FirstIn(robots, ids) < |robots| ==>
              forall i :: 0 <= i < |robots| && robots[i].id in ids ==>
                ToggleManual(robots, ids, true)[i].manual != robots[FirstIn(robots, ids)].manual
  {
    var r := ToggleManual(robots, ids, true);
    if FirstIn(robots, ids) < |robots| {
      forall i, j | 0 <= i < |r| && 0 <= j < |r| && r[i].id in ids && r[j].id in ids
        ensures r[i].manual == r[j].manual
      {
        assert robots[i].id == r[i].id && robots[j].id == r[j].id;
      }
    }
  }

  /** On a uniform group both paths agree, and toggling twice restores the
      list. */
  lemma ToggleUniformGroup(robots: seq<Robot>, ids: seq<int>, ok1: bool, ok2: bool)
    requires UniformManual(robots, ids)
    ensures ToggleManual(robots, ids, true) == ToggleManual(robots, ids, false)
    ensures ToggleManual(ToggleManual(robots, ids, ok1), ids, ok2) == robots
  {
    var once := ToggleManual(robots, ids, ok1);
    var f := FirstIn(robots, ids);
    if f < |robots| {
      assert ToggleManual(robots, ids, true) == ToggleManual(robots, ids, false);
      assert FirstIn(once, ids) == f by {
        FirstInSameIds(robots, once, ids);
      }
      var twice := ToggleManual(once, ids, ok2);
      assert forall i :: 0 <= i < |robots| ==> twice[i] == robots[i];
    } else {
      assert once == robots;
    }
  }

  /** `find` depends only on the ids. */
  lemma {:induction false} FirstInSameIds(a: seq<Robot>, b: seq<Robot>, ids: seq<int>)
    requires |a| == |b|
    requires forall i :: 0 <= i < |a| ==> a[i].id == b[i].id
    ensures FirstIn(a, ids) == FirstIn(b, ids)
  {
    if a != [] {
      FirstInSameIds(a[1..], b[1..], ids);
    }
  }

  /** On a group whose flags differ the two paths disagree: a successful
      toggle makes the group uniform, a failed one keeps it mixed. */
  lemma ToggleMixedGroup()
    ensures var a := Robot(1, "Bot", "09:00", "10:00", "#3B82F6", false, 1, false, None);
            var b := a.(id := 2, day := 2, manual := true);
            ToggleManual([a, b], [1, 2], true) == [a.(manual := true), b]
            && ToggleManual([a, b], [1, 2], false) == [a.(manual := true), b.(manual := false)]
  {
    var a := Robot(1, "Bot", "09:00", "10:00", "#3B82F6", false, 1, false, None);
    var b := a.(id := 2, day := 2, manual := true);
    assert FirstIn([a, b], [1, 2]) == 0;
  }

  /** `removeRobot(ids)` keeps exactly the records whose id is not in ids. */
  lemma RemoveGroup(robots: seq<Robot>, ids: seq<int>)
    ensures forall x :: x in RemoveRobots(robots, ids, true) <==> x in robots && x.id !in ids
    ensures forall i :: 0 <= i < |RemoveRobots(robots, ids, true)| ==> RemoveRobots(robots, ids, true)[i].id !in ids
    ensures |RemoveRobots(robots, ids, true)| + |Filter(robots, (x: Robot) => x.id in ids)| == |robots|
  {
    RemoveSplitsList(robots, ids);
  }

  lemma {:induction false} RemoveSplitsList(robots: seq<Robot>, ids: seq<int>)
    ensures |Filter(robots, (x: Robot) => x.id !in ids)| + |Filter(robots, (x: Robot) => x.id in ids)| == |robots|
  {
    if robots != [] {
      RemoveSplitsList(robots[1..], ids);
    }
  }

  // ---------------------------------------------------------------------
  // Descriptions

  /** The description dialog: the record it edits and the text box. */
  datatype Editing = Editing(robot: Robot, text: string)

  /** `openDescriptionModal(group)`: edits the record whose id is the
      group's first id, starting from its description (or ""). */
  function OpenDescription(robots: seq<Robot>, g: Group): (e: Option<Editing>)
    ensures e.None? <==> g.ids == [] || forall x :: x in robots ==> x.id != g.ids[0]
    ensures e.Some? ==> e.value.robot in robots && e.value.robot.id == g.ids[0]
                        && e.value.text == DescriptionText(e.value.robot.description)
  {
    if g.ids == [] then None
    else
      var i := FirstIn(robots, [g.ids[0]]);
      if i == |robots| then None
      else Some(Editing(robots[i], DescriptionText(robots[i].description)))
  }

  /** `saveDescription`: without an open dialog nothing happens. */
  function SaveDescription(robots: seq<Robot>, e: Option<Editing>, serverOk: bool): (r: seq<Robot>)
    ensures |r| == |robots|
    ensures e.None? || !serverOk ==> r == robots
    ensures e.Some? && serverOk ==> forall i :: 0 <= i < |r| && robots[i].id == e.value.robot.id ==>
              r[i].description == Some(e.value.text)
    ensures forall i :: 0 <= i < |r| ==> r[i].(description := robots[i].description) == robots[i]
    ensures forall i :: 0 <= i < |r| && (e.None? || robots[i].id != e.value.robot.id) ==> r[i] == robots[i]
  {
    match e
    case None => robots
    case Some(ed) => SetDescription(robots, ed.robot.id, ed.text, serverOk)
  }

  /** Opening the dialog and saving without typing leaves every record's
      shown description as it was (a missing description becomes ""). */
  lemma OpenThenSaveKeepsText(robots: seq<Robot>, g: Group)
    requires forall i, j :: 0 <= i < |robots| && 0 <= j < |robots| && robots[i].id == robots[j].id ==> i == j
    ensures var r := SaveDescription(robots, OpenDescription(robots, g), true);
            forall i :: 0 <= i < |robots| ==> DescriptionText(r[i].description) == DescriptionText(robots[i].description)
  {
    var e := OpenDescription(robots, g);
    if e.Some? {
      var r := SaveDescription(robots, e, true);
      var j :| 0 <= j < |robots| && robots[j] == e.value.robot;
      forall i | 0 <= i < |robots| ensures DescriptionText(r[i].description) == DescriptionText(robots[i].description) {
        if robots[i].id == e.value.robot.id {
          assert i == j;
        }
      }
    }
  }

  /** The planner's text boxes never hold more than 120 characters when
      they open on a text within that limit: the empty add form, or a stored
      description of at most 120 characters. */
  lemma DescriptionWithinLimit(start: string, inputs: seq<string>)
    requires |start| <= DescriptionLimit
    ensures |EditSession(start, inputs, DescriptionLimit)| <= 120
  {
  }

  /** The card's preview of a description: nothing when it is missing or
      empty, the text itself up to 60 characters, otherwise its first 60
      characters and "...". */
  function Preview(description: Option<string>): (p: Option<string>)
    ensures p.None? <==> description.None? || description.value == ""
    ensures p.Some? ==> |p.value| <= PreviewLength + 3
    ensures p.Some? && |description.value| <= PreviewLength ==> p.value == description.value
    ensures p.Some? && |description.value| > PreviewLength ==>
              |p.value| == PreviewLength + 3 && p.value[..PreviewLength] == description.value[..PreviewLength]
              && p.value[PreviewLength..] == "..."
  {
    match description
    case None => None
    case Some(d) =>
      if d == "" then None
      else if |d| > PreviewLength then Some(d[..PreviewLength] + "...")
      else Some(d)
  }

  /** The preview ends in "..." even when nothing was cut, if the text is 60
      characters followed by "...": the preview alone does not tell whether
      the description was shortened. */
  lemma PreviewCanLookUncut()
    ensures var d := seq(60, i => 'a') + "...";
            Preview(Some(d)) == Some(d) && |d| > PreviewLength
  {
    var d := seq(60, i => 'a') + "...";
    assert d[..60] == seq(60, i => 'a');
  }
}

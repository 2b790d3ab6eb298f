/** The day timeline screen (and its dark-mode twin): the records of the
    selected day, their blocks on the 24-hour timeline, the list sorted by
    start time, the monthly time per robot name, adding, toggling and
    removing a single record. */
module Timeline {
  import opened Time
  import opened Schedule
  import opened Conflict

  /** Longest description the timeline's text boxes accept. */
  const DescriptionLimit: nat := 80

  /** Smallest height, in pixels, of a block on the timeline. */
  const MinBlockHeight: int := 30

  // ---------------------------------------------------------------------
  // The selected day

  /** `getDayRobots(day)`. */
  function DayRobots(robots: seq<Robot>, day: int): (r: seq<Robot>)
    ensures forall x :: x in r <==> x in robots && x.day == day
    ensures forall x :: multiset(r)[x] == if x.day == day then multiset(robots)[x] else 0
  {
    Filter(robots, (x: Robot) => x.day == day)
  }

  /** a comes no later than b by start time, as `localeCompare` on the
      start-time strings orders them. */
  predicate StartsNoLater(a: Robot, b: Robot)
  {
    TextLe(a.startTime, b.startTime)
  }

  predicate SortedByStart(s: seq<Robot>)
  {
    forall i, j :: 0 <= i < j < |s| ==> StartsNoLater(s[i], s[j])
  }

  function InsertByStart(x: Robot, s: seq<Robot>): (r: seq<Robot>)
    ensures multiset(r) == multiset(s) + multiset{x}
    ensures |r| == |s| + 1
    ensures r[0] == if s == [] || StartsNoLater(x, s[0]) then x else s[0]
  {
    if s == [] || StartsNoLater(x, s[0]) then [x] + s
    else
      assert s == [s[0]] + s[1..];
      [s[0]] + InsertByStart(x, s[1..])
  }

  /** `.sort((a, b) => a.startTime.localeCompare(b.startTime))` */
  function SortByStart(s: seq<Robot>): (r: seq<Robot>)
    ensures multiset(r) == multiset(s)
    ensures |r| == |s|
  {
    if s == [] then []
    else
      assert s == [s[0]] + s[1..];
      InsertByStart(s[0], SortByStart(s[1..]))
  }

  lemma {:induction false} InsertByStartSorted(x: Robot, s: seq<Robot>)
    requires SortedByStart(s)
    ensures SortedByStart(InsertByStart(x, s))
  {
    if s != [] && !StartsNoLater(x, s[0]) {
      var rest := InsertByStart(x, s[1..]);
      InsertByStartSorted(x, s[1..]);
      TextLeTotal(x.startTime, s[0].startTime);
      assert StartsNoLater(s[0], rest[0]);
      forall j | 0 <= j < |rest| ensures StartsNoLater(s[0], rest[j]) {
        if j > 0 {
          TextLeTransitive(s[0].startTime, rest[0].startTime, rest[j].startTime);
        }
      }
    } else if s != [] {
      forall j | 0 <= j < |s| ensures StartsNoLater(x, s[j]) {
        if j > 0 {
          TextLeTransitive(x.startTime, s[0].startTime, s[j].startTime);
        }
      }
    }
  }

  lemma {:induction false} SortByStartSorted(s: seq<Robot>)
    ensures SortedByStart(SortByStart(s))
  {
    if s != [] {
      SortByStartSorted(s[1..]);
      InsertByStartSorted(s[0], SortByStart(s[1..]));
    }
  }

  /** The "Robôs Agendados" list of a day. */
  function DayList(robots: seq<Robot>, day: int): seq<Robot>
  {
    SortByStart(DayRobots(robots, day))
  }

  /** The day list holds exactly the records of the day, each as often as
      in the list of robots, in start-time order; when every start time is
      readable that is the order of the start minutes. */
  lemma DayListSorted(robots: seq<Robot>, day: int)
    ensures multiset(DayList(robots, day)) == multiset(DayRobots(robots, day))
    ensures forall x :: x in DayList(robots, day) <==> x in robots && x.day == day
    ensures SortedByStart(DayList(robots, day))
    ensures (forall x :: x in robots ==> ParseTime(x.startTime).Some?) ==>
              forall i, j :: 0 <= i < j < |DayList(robots, day)| ==>
                ParseTime(DayList(robots, day)[i].startTime).value <= ParseTime(DayList(robots, day)[j].startTime).value
  {
    var l := DayList(robots, day);
    SortByStartSorted(DayRobots(robots, day));
    forall x ensures x in l <==> x in robots && x.day == day {
      assert x in l <==> x in multiset(l);
    }
    if forall x :: x in robots ==> ParseTime(x.startTime).Some? {
      forall i | 0 <= i < |l| ensures ParseTime(l[i].startTime).Some? {
        assert l[i] in l;
      }
      SortedByStartIsTimeOrder(l);
    }
  }

  /** A list ordered by start text whose start times are all readable is
      ordered by start minute. */
  lemma SortedByStartIsTimeOrder(l: seq<Robot>)
    requires SortedByStart(l) && forall i :: 0 <= i < |l| ==> ParseTime(l[i].startTime).Some?
    ensures forall i, j :: 0 <= i < j < |l| ==>
              ParseTime(l[i].startTime).value <= ParseTime(l[j].startTime).value
  {
    forall i, j | 0 <= i < j < |l|
      ensures ParseTime(l[i].startTime).value <= ParseTime(l[j].startTime).value
    {
      TextOrderIsTimeOrder(l[i].startTime, l[j].startTime);
    }
  }

  // ---------------------------------------------------------------------
  // Durations and the monthly time

  /** end - start in minutes; NaN (None) when either time is unreadable. */
  function Duration(r: Robot): (d: Option<int>)
    ensures d.Some? <==> ParseTime(r.startTime).Some? && ParseTime(r.endTime).Some?
    ensures d.Some? ==> -1440 <= d.value <= 1440
  {
    var s := ParseTime(r.startTime);
    var e := ParseTime(r.endTime);
    if s.Some? && e.Some? then Some(e.value - s.value) else None
  }

  /** `+` on numbers that may be NaN. */
  function AddMinutes(a: Option<int>, b: Option<int>): Option<int>
  {
    if a.Some? && b.Some? then Some(a.value + b.value) else None
  }

  lemma AddMinutesAssociative(x: Option<int>, y: Option<int>, z: Option<int>)
    ensures AddMinutes(AddMinutes(x, y), z) == AddMinutes(x, AddMinutes(y, z))
  {
  }

  /** The total the `forEach` accumulates over the schedules. */
  function SumDurations(s: seq<Robot>): Option<int>
  {
    if s == [] then Some(0)
    else AddMinutes(SumDurations(s[..|s| - 1]), Duration(s[|s| - 1]))
  }

  /** The total is NaN exactly when some schedule has an unreadable time. */
  lemma {:induction false} SumDurationsNaN(s: seq<Robot>)
    ensures SumDurations(s).None? <==> exists x :: x in s && Duration(x).None?
  {
    if s != [] {
      var n := |s| - 1;
      SumDurationsNaN(s[..n]);
      assert s == s[..n] + [s[n]];
      assert forall x :: x in s <==> x in s[..n] || x == s[n];
    }
  }

  /** The total of a non-empty list is that of all but the last schedule
      plus the last one's duration. */
  lemma SumDurationsLast(s: seq<Robot>)
    requires s != []
    ensures SumDurations(s) == AddMinutes(SumDurations(s[..|s| - 1]), Duration(s[|s| - 1]))
  {
  }

  /** Summing two lists of schedules one after the other is summing their
      concatenation. */
  lemma {:induction false} SumDurationsAppend(a: seq<Robot>, b: seq<Robot>)
    ensures SumDurations(a + b) == AddMinutes(SumDurations(a), SumDurations(b))
  {
    if b == [] {
      assert a + b == a;
    } else {
      var n := |b| - 1;
      var ab := a + b;
      SumDurationsAppend(a, b[..n]);
      assert ab[..|ab| - 1] == a + b[..n];
      assert ab[|ab| - 1] == b[n];
      SumDurationsLast(ab);
      SumDurationsLast(b);
      AddMinutesAssociative(SumDurations(a), SumDurations(b[..n]), Duration(b[n]));
    }
  }

  /** When every schedule ends no earlier than it starts, the total is a
      non-negative number. */
  lemma {:induction false} SumDurationsNonNegative(s: seq<Robot>)
    requires forall x :: x in s ==> Duration(x).Some? && Duration(x).value >= 0
    ensures SumDurations(s).Some? && SumDurations(s).value >= 0
  {
    if s != [] {
      var n := |s| - 1;
      assert forall x :: x in s[..n] ==> x in s;
      SumDurationsNonNegative(s[..n]);
      assert s[n] in s;
    }
  }

  /** One more schedule adds its duration to the total. */
  lemma SumDurationsStep(s: seq<Robot>, i: int)
    requires 0 <= i < |s|
    ensures SumDurations(s[..i + 1]) == AddMinutes(SumDurations(s[..i]), Duration(s[i]))
  {
    assert s[..i + 1][..i] == s[..i];
  }

  /** The minutes `calculateMonthlyTime(robotName)` accumulates, in its
      `forEach` over the records with that name. */
  method MonthlyMinutes(robots: seq<Robot>, robotName: string) returns (totalMinutes: Option<int>)
    ensures totalMinutes == SumDurations(Filter(robots, (r: Robot) => r.name == robotName))
  {
    var schedules := Filter(robots, (r: Robot) => r.name == robotName);
    totalMinutes := Some(0);
    var i := 0;
    while i < |schedules|
      invariant 0 <= i <= |schedules|
      invariant totalMinutes == SumDurations(schedules[..i])
    {
      SumDurationsStep(schedules, i);
      totalMinutes := AddMinutes(totalMinutes, Duration(schedules[i]));
      i := i + 1;
    }
    assert schedules[..i] == schedules;
  }

  /** Decimal digits of a natural number, as JavaScript prints it. */
  function NatText(n: nat): (s: string)
    ensures |s| >= 1 && AllDigits(s)
    ensures DigitsValue(s) == n
    ensures |s| > 1 ==> s[0] != '0'
  {
    if n < 10 then
      assert [DigitChar(n)][..0] == [];
      [DigitChar(n)]
    else
      var s := NatText(n / 10) + [DigitChar(n % 10)];
      assert s[..|s| - 1] == NatText(n / 10);
      s
  }

  /** An integer as JavaScript prints it. */
  function IntText(n: int): string
  {
    if n < 0 then "-" + NatText(-n) else NatText(n)
  }

  /** JavaScript's `%`: the remainder takes the sign of the dividend. */
  function JsRemainder(a: int, b: int): (r: int)
    requires b > 0
    ensures a >= 0 ==> r == a % b
    ensures a <= 0 ==> -b < r <= 0
  {
    if a >= 0 then a % b else -((-a) % b)
  }

  /** `${Math.floor(t / 60)}h ${t % 60}m`, and "NaNh NaNm" for NaN. */
  function MonthlyTimeText(totalMinutes: Option<int>): string
  {
    match totalMinutes
    case None => "NaNh NaNm"
    case Some(t) => IntText(t / 60) + "h " + IntText(JsRemainder(t, 60)) + "m"
  }

  /** For a non-negative total T the text reads H "h " M "m" with H and M
      decimal numerals, H*60 + M == T and 0 <= M < 60. */
  lemma MonthlyTimeDecomposes(t: int)
    requires t >= 0
    ensures exists h: nat, m: nat ::
              MonthlyTimeText(Some(t)) == NatText(h) + "h " + NatText(m) + "m"
              && h * 60 + m == t && m < 60
  {
    var h, m := t / 60, t % 60;
    assert MonthlyTimeText(Some(t)) == NatText(h) + "h " + NatText(m) + "m";
  }

  /** For a negative total the two parts do not add up: thirty minutes
      short of zero prints as minus one hour and minus thirty minutes. */
  lemma MonthlyTimeNegative()
    ensures MonthlyTimeText(Some(-30)) == "-1h -30m"
  {
    assert -30 / 60 == -1;
    assert JsRemainder(-30, 60) == -30;
    assert NatText(1) == "1";
    assert NatText(3) == "3";
    assert NatText(30) == NatText(3) + "0";
    assert IntText(-1) == "-1" && IntText(-30) == "-30";
  }

  // ---------------------------------------------------------------------
  // Blocks on the timeline

  /** `calculateRobotHeight`: the duration in minutes, but at least 30
      pixels; NaN when a time is unreadable. */
  function RobotHeight(r: Robot): (h: Option<int>)
    ensures h.Some? <==> Duration(r).Some?
    ensures h.Some? ==> h.value >= MinBlockHeight
    ensures h.Some? ==> (h.value == Duration(r).value <==> Duration(r).value >= MinBlockHeight)
    ensures h.Some? && Duration(r).value < MinBlockHeight ==> h.value == MinBlockHeight
  {
    match Duration(r)
    case None => None
    case Some(d) => Some(if d > MinBlockHeight then d else MinBlockHeight)
  }

  /** The hours of the timeline. */
  const Hours: seq<int> := seq(24, i => i)

  /** `hour.toString().padStart(2, '0')` + ":00" */
  function HourLabel(hour: int): (s: string)
    requires 0 <= hour < 24
    ensures |s| == 5
  {
    Pad2(hour) + ":00"
  }

  /** Each hour label reads back as the first minute of its row. */
  lemma HourLabelNamesRow(hour: int)
    requires 0 <= hour < 24
    ensures ParseTime(HourLabel(hour)) == Some(RowTop(hour))
  {
    var s := HourLabel(hour);
    assert s[0] == Pad2(hour)[0] && s[1] == Pad2(hour)[1];
    assert s[2] == ':' && s[3] == '0' && s[4] == '0';
  }

  /** Pixel offset of an hour row: one pixel per minute. */
  function RowTop(hour: int): int
  {
    hour * 60
  }

  /** The block of r is drawn in row `hour`:
      `parseInt(robot.startTime.split(':')[0]) === hour`. */
  predicate DrawnInRow(r: Robot, hour: int)
  {
    HourField(r.startTime) == Some(hour)
  }

  /** The block's offset inside its row: `parseInt(startTime.split(':')[1])`. */
  function BlockOffset(r: Robot): Option<nat>
  {
    MinuteField(r.startTime)
  }

  /** The blocks drawn in one row of the selected day. */
  function RowRobots(robots: seq<Robot>, day: int, hour: int): (r: seq<Robot>)
    ensures forall x :: x in r <==> x in robots && x.day == day && DrawnInRow(x, hour)
  {
    Filter(DayRobots(robots, day), (x: Robot) => DrawnInRow(x, hour))
  }

  /** A record of the day whose start time is readable and before 24:00 is
      drawn in exactly one row, the row of its start hour, and its block's
      top lies at its start minute: row offset plus block offset. */
  lemma PlacementFollowsStart(robots: seq<Robot>, day: int, x: Robot)
    requires x in robots && x.day == day
    requires ParseTime(x.startTime).Some? && ParseTime(x.startTime).value < 1440
    ensures forall hour :: 0 <= hour < 24 ==> (x in RowRobots(robots, day, hour) <==> hour == ParseTime(x.startTime).value / 60)
    ensures BlockOffset(x).Some?
    ensures RowTop(ParseTime(x.startTime).value / 60) + BlockOffset(x).value == ParseTime(x.startTime).value
  {
    FieldsAgreeWithParse(x.startTime);
  }

  /** A record starting at 24:00 is in no row of the timeline. */
  lemma MidnightEndIsNotDrawn(robots: seq<Robot>, day: int, x: Robot)
    requires ParseTime(x.startTime) == Some(1440)
    ensures forall hour :: 0 <= hour < 24 ==> x !in RowRobots(robots, day, hour)
  {
    FieldsAgreeWithParse(x.startTime);
  }

  // ---------------------------------------------------------------------
  // Adding, toggling and removing

  /** The timeline's `addRobot`: the create requests for the form and the
      selected day, or None when a required field is empty. The conflict
      check plays no part. */
  function AddRobot(form: Draft, selectedDay: int): (o: Option<seq<Payload>>)
    ensures o.None? <==> !FilledIn(form)
    ensures o.Some? ==> o.value == ExpandPayloads(form, selectedDay)
  {
    if FilledIn(form) then Some(ExpandPayloads(form, selectedDay)) else None
  }

  /** The warning under the form (only shown, never acted on). */
  function ConflictWarning(robots: seq<Robot>, selectedDay: int, form: Draft): bool
  {
    HasTimeConflict(DayOnly, robots, selectedDay, form.startTime, form.endTime, None, form.isDaily)
  }

  /** The timeline posts a robot even while the conflict warning is shown. */
  lemma AddDespiteWarning()
    ensures var existing := Robot(1, "a", "09:00", "10:00", "#3B82F6", false, 1, false, None);
            var form := Draft("b", "09:30", "10:30", "#EF4444", false, false, Some(""));
            ConflictWarning([existing], 1, form) && AddRobot(form, 1).Some?
  {
    var existing := Robot(1, "a", "09:00", "10:00", "#3B82F6", false, 1, false, None);
    assert ParseTime("09:00") == Some(540);
    assert ParseTime("10:00") == Some(600);
    assert ParseTime("09:30") == Some(570);
    assert ParseTime("10:30") == Some(630);
    assert Candidate(DayOnly, existing, 1, None) && Overlaps(Some(570), Some(630), existing);
  }

  /** `toggleManual(id)`: the record with that id has its flag negated,
      whether or not the request succeeds; nothing else changes. */
  function ToggleManual(robots: seq<Robot>, id: int): (r: seq<Robot>)
    ensures |r| == |robots|
    ensures forall i :: 0 <= i < |r| ==> r[i].(manual := robots[i].manual) == robots[i]
    ensures forall i :: 0 <= i < |r| ==> (r[i].manual != robots[i].manual <==> robots[i].id == id)
  {
    seq(|robots|, i requires 0 <= i < |robots| =>
      if robots[i].id == id then robots[i].(manual := !robots[i].manual) else robots[i])
  }

  /** Toggling twice restores the list. */
  lemma ToggleTwice(robots: seq<Robot>, id: int)
    ensures ToggleManual(ToggleManual(robots, id), id) == robots
  {
    var twice := ToggleManual(ToggleManual(robots, id), id);
    assert forall i :: 0 <= i < |robots| ==> twice[i] == robots[i];
  }

  /** `removeRobot(id)`: after a successful delete only the records with
      that id are gone, every other record stays as often as before. */
  lemma RemoveOnlyThatId(robots: seq<Robot>, id: int)
    ensures forall x: Robot :: x.id != id ==> multiset(RemoveRobots(robots, [id], true))[x] == multiset(robots)[x]
    ensures forall x :: x in RemoveRobots(robots, [id], true) ==> x.id != id
    ensures RemoveRobots(robots, [id], false) == robots
  {
  }

  // ---------------------------------------------------------------------
  // Descriptions

  /** `openDescriptionModal(robot)`: the text box starts with the record's
      description, or empty when it has none. */
  function OpenDescription(r: Robot): (text: string)
    ensures r.description.Some? ==> text == r.description.value
    ensures r.description.None? ==> text == ""
  {
    match r.description
    case Some(d) => d
    case None => ""
  }

  /** Saving the dialog: the record edited gets the text, every other record
      is kept; a failed request changes nothing. */
  function SaveDescription(robots: seq<Robot>, edited: Robot, text: string, serverOk: bool): (r: seq<Robot>)
    ensures |r| == |robots|
    ensures forall i :: 0 <= i < |r| ==>
              (r[i] != robots[i] ==> serverOk && robots[i].id == edited.id && r[i] == robots[i].(description := Some(text)))
    ensures serverOk ==> forall i :: 0 <= i < |r| && robots[i].id == edited.id ==> r[i].description == Some(text)
  {
    SetDescription(robots, edited.id, text, serverOk)
  }

  /** Starting from a text within 80 characters (the empty add form, or a
      record written here), the text boxes never exceed 80 characters. */
  lemma DescriptionWithinLimit(start: string, inputs: seq<string>)
    requires |start| <= DescriptionLimit
    ensures |EditSession(start, inputs, DescriptionLimit)| <= 80
  {
  }

  /** A description longer than 80 characters, as the planner's 120-character
      box can store, opens here unchanged and cannot be shortened one
      character at a time: deleting a character still leaves it too long,
      so the keystroke is refused. */
  lemma LongTextCannotBeTrimmed()
    ensures var d := seq(100, i => 'a');
            var r := Robot(1, "a", "09:00", "10:00", "#3B82F6", false, 1, false, Some(d));
            && OpenDescription(r) == d
            && EditSession(OpenDescription(r), [d[..99]], DescriptionLimit) == d
  {
    var d := seq(100, i => 'a');
    assert EditSession(d, [], DescriptionLimit) == d;
    assert [d[..99]][..0] == [];
  }
}

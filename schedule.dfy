/** The robot record and the list logic every screen shares: filtering,
    interval overlap, create payloads and the local list updates made after
    a request to /api/robots. */
module Schedule {
  import opened Time

  /** One scheduled robot, as the screens hold it. The optional `isDaily` of
      the record is false when absent (every use of it tests truthiness). */
  datatype Robot = Robot(
    id: int,
    name: string,
    startTime: string,
    endTime: string,
    color: string,
    manual: bool,
    day: int,
    isDaily: bool,
    description: Option<string>)

  /** The elements of s that satisfy p, in order. */
  function Kept(s: seq<Robot>, p: Robot -> bool): seq<Robot>
  {
    if s == [] then []
    else (if p(s[0]) then [s[0]] else []) + Kept(s[1..], p)
  }

  lemma {:induction false} KeptCounts(s: seq<Robot>, p: Robot -> bool)
    ensures forall x :: multiset(Kept(s, p))[x] == if p(x) then multiset(s)[x] else 0
    ensures |Kept(s, p)| <= |s|
  {
    if s != [] {
      KeptCounts(s[1..], p);
      assert s == [s[0]] + s[1..];
    }
  }

  lemma {:induction false} KeptAppend(a: seq<Robot>, b: seq<Robot>, p: Robot -> bool)
    ensures Kept(a + b, p) == Kept(a, p) + Kept(b, p)
  {
    if a != [] {
      KeptAppend(a[1..], b, p);
      var h := if p(a[0]) then [a[0]] else [];
      assert (a + b)[0] == a[0] && (a + b)[1..] == a[1..] + b;
      assert Kept(a + b, p) == h + Kept(a[1..] + b, p);
      assert h + (Kept(a[1..], p) + Kept(b, p)) == (h + Kept(a[1..], p)) + Kept(b, p);
    } else {
      assert a + b == b;
    }
  }

  /** Array.prototype.filter: keeps the elements that satisfy p. */
  function Filter(s: seq<Robot>, p: Robot -> bool): (r: seq<Robot>)
    ensures forall x :: multiset(r)[x] == if p(x) then multiset(s)[x] else 0
    ensures forall x :: x in r <==> x in s && p(x)
    ensures forall i :: 0 <= i < |r| ==> p(r[i])
    ensures |r| <= |s|
  {
    KeptCounts(s, p);
    Kept(s, p)
  }

  /** Filtering keeps the order of the list: the kept elements of a + b
      are those of a followed by those of b. */
  lemma FilterAppend(a: seq<Robot>, b: seq<Robot>, p: Robot -> bool)
    ensures Filter(a + b, p) == Filter(a, p) + Filter(b, p)
  {
    KeptAppend(a, b, p);
  }

  // ---------------------------------------------------------------------
  // Interval overlap

  /** The test inside `checkConflict`: newStart < existingEnd && newEnd >
      existingStart. Any unreadable time makes every comparison false. */
  predicate Overlaps(newStart: Option<int>, newEnd: Option<int>, r: Robot)
  {
    var s := ParseTime(r.startTime);
    var e := ParseTime(r.endTime);
    newStart.Some? && newEnd.Some? && s.Some? && e.Some?
    && newStart.value < e.value && newEnd.value > s.value
  }

  /** `robotsToCheck.some(...)` over the overlap test. */
  function AnyOverlap(candidates: seq<Robot>, newStart: Option<int>, newEnd: Option<int>): (b: bool)
    ensures b <==> exists r :: r in candidates && Overlaps(newStart, newEnd, r)
  {
    if candidates == [] then false
    else
      assert candidates == [candidates[0]] + candidates[1..];
      Overlaps(newStart, newEnd, candidates[0]) || AnyOverlap(candidates[1..], newStart, newEnd)
  }

  /** The days of the month the screens offer: 1 to 30. */
  const MonthDays: seq<int> := seq(30, i => i + 1)

  /** `r.id !== excludeId`; a null excludeId never equals a number. */
  predicate NotExcluded(r: Robot, excludeId: Option<int>)
  {
    excludeId.None? || r.id != excludeId.value
  }

  // ---------------------------------------------------------------------
  // Create payloads

  /** The add-robot form, without its day. */
  datatype Draft = Draft(
    name: string,
    startTime: string,
    endTime: string,
    color: string,
    manual: bool,
    isDaily: bool,
    description: Option<string>)

  /** A POST body sent to /api/robots: `{ ...newRobot, day, isDaily: false }`. */
  datatype Payload = Payload(
    name: string,
    startTime: string,
    endTime: string,
    color: string,
    manual: bool,
    day: int,
    isDaily: bool,
    description: Option<string>)

  /** The form is submitted only when name, start and end are non-empty. */
  predicate FilledIn(f: Draft)
  {
    f.name != "" && f.startTime != "" && f.endTime != ""
  }

  predicate CopiesForm(f: Draft, p: Payload)
  {
    p.name == f.name && p.startTime == f.startTime && p.endTime == f.endTime
    && p.color == f.color && p.manual == f.manual && p.description == f.description
  }

  function PayloadFor(f: Draft, day: int): Payload
  {
    Payload(f.name, f.startTime, f.endTime, f.color, f.manual, day, false, f.description)
  }

  /** The requests an add makes: one per day 1..30 when the form is daily,
      otherwise one for `day`. */
  function ExpandPayloads(f: Draft, day: int): (ps: seq<Payload>)
    ensures |ps| == if f.isDaily then 30 else 1
    ensures forall i :: 0 <= i < |ps| ==> CopiesForm(f, ps[i]) && !ps[i].isDaily
    ensures f.isDaily ==> forall i :: 0 <= i < |ps| ==> ps[i].day == i + 1
    ensures !f.isDaily ==> ps[0].day == day
  {
    if f.isDaily then seq(30, i => PayloadFor(f, i + 1)) else [PayloadFor(f, day)]
  }

  /** A daily add covers each day of the month exactly once. */
  lemma DailyPayloadsCoverMonth(f: Draft, day: int)
    requires f.isDaily
    ensures (set p | p in ExpandPayloads(f, day) :: p.day) == (set d | d in MonthDays)
    ensures forall i, j :: 0 <= i < j < |ExpandPayloads(f, day)| ==>
              ExpandPayloads(f, day)[i].day != ExpandPayloads(f, day)[j].day
  {
    var ps := ExpandPayloads(f, day);
    var covered := set p | p in ps :: p.day;
    forall d | d in MonthDays ensures d in covered {
      var i :| 0 <= i < 30 && MonthDays[i] == d;
      assert ps[i] in ps;
    }
    forall d | d in covered ensures d in MonthDays {
      var i :| 0 <= i < |ps| && ps[i].day == d;
      assert MonthDays[i] == d;
    }
  }

  // ---------------------------------------------------------------------
  // Local list updates

  /** After deleting `ids` on the server: `prev.filter(r => !ids.includes(r.id))`.
      A failed request leaves the list as it was. */
  function RemoveRobots(robots: seq<Robot>, ids: seq<int>, serverOk: bool): (r: seq<Robot>)
    ensures serverOk ==> forall x :: multiset(r)[x] == if x.id in ids then 0 else multiset(robots)[x]
    ensures serverOk ==> forall x :: x in r <==> x in robots && x.id !in ids
    ensures !serverOk ==> r == robots
  {
    if serverOk then Filter(robots, (x: Robot) => x.id !in ids) else robots
  }

  /** After saving a description: the record with that id gets the new text,
      every other record is unchanged. A failed request changes nothing. */
  function SetDescription(robots: seq<Robot>, id: int, text: string, serverOk: bool): (r: seq<Robot>)
    ensures |r| == |robots|
    ensures forall i :: 0 <= i < |r| ==>
              r[i] == if serverOk && robots[i].id == id then robots[i].(description := Some(text)) else robots[i]
  {
    if serverOk then
      seq(|robots|, i requires 0 <= i < |robots| =>
        if robots[i].id == id then robots[i].(description := Some(text)) else robots[i])
    else robots
  }

  /** A description text box accepts a keystroke only while the new text
      fits the limit; otherwise it keeps the previous text. */
  function AcceptEdit(previous: string, input: string, limit: nat): (r: string)
    ensures r == input <==> |input| <= limit || input == previous
    ensures r == previous || r == input
    ensures |previous| <= limit ==> |r| <= limit
  {
    if |input| <= limit then input else previous
  }

  /** The text after a run of keystrokes, each offering a new value of the
      text box. */
  function EditSession(start: string, inputs: seq<string>, limit: nat): (r: string)
    ensures |start| <= limit ==> |r| <= limit
    ensures r == start || r in inputs
    ensures r != start ==> |r| <= limit
  {
    if inputs == [] then start
    else
      var n := |inputs| - 1;
      assert inputs == inputs[..n] + [inputs[n]];
      assert forall x :: x in inputs[..n] ==> x in inputs;
      AcceptEdit(EditSession(start, inputs[..n], limit), inputs[n], limit)
  }
}

/** Time-conflict detection, `hasTimeConflict`, in its two variants.

    The planner compares against the records on the day and every record
    flagged daily; the timeline and dark-mode screens compare only against
    the records on the day. Both drop the record whose id is `excludeId`,
    use strict overlap, and for a daily candidate repeat the check on every
    day 1..30 and report a conflict if any day has one. */
module Conflict {
  import opened Time
  import opened Schedule

  /** Which records a screen compares against on day d. */
  datatype CandidateRule =
    | DayOrDaily  // planner: `(r.day === d || r.isDaily) && r.id !== excludeId`
    | DayOnly     // timeline and dark mode: `r.day === d && r.id !== excludeId`

  predicate Candidate(rule: CandidateRule, r: Robot, d: int, excludeId: Option<int>)
  {
    (r.day == d || (rule == DayOrDaily && r.isDaily)) && NotExcluded(r, excludeId)
  }

  /** `checkConflict(robots.filter(candidate on d))`. */
  function DayConflict(rule: CandidateRule, robots: seq<Robot>, d: int,
                       newStart: Option<int>, newEnd: Option<int>, excludeId: Option<int>): (c: bool)
    ensures c <==> exists r :: r in robots && Candidate(rule, r, d, excludeId) && Overlaps(newStart, newEnd, r)
  {
    AnyOverlap(Filter(robots, (r: Robot) => Candidate(rule, r, d, excludeId)), newStart, newEnd)
  }

  /** `days.some(d => ...)` over the days from `from` to 30. */
  function SomeDayFrom(rule: CandidateRule, robots: seq<Robot>, from: int,
                       newStart: Option<int>, newEnd: Option<int>, excludeId: Option<int>): (c: bool)
    requires from >= 1
    ensures c <==> exists d :: from <= d <= 30 && DayConflict(rule, robots, d, newStart, newEnd, excludeId)
    decreases 31 - from
  {
    if from > 30 then false
    else DayConflict(rule, robots, from, newStart, newEnd, excludeId)
         || SomeDayFrom(rule, robots, from + 1, newStart, newEnd, excludeId)
  }

  /** `hasTimeConflict(day, startTime, endTime, excludeId, isDaily)` under a
      screen's candidate rule. */
  function HasTimeConflict(rule: CandidateRule, robots: seq<Robot>, day: int, startTime: string,
                           endTime: string, excludeId: Option<int>, isDaily: bool): (c: bool)
    ensures !isDaily ==> (c <==> exists r :: r in robots && Candidate(rule, r, day, excludeId)
                                   && Overlaps(ParseTime(startTime), ParseTime(endTime), r))
    ensures isDaily ==> (c <==> exists d :: 1 <= d <= 30
                                  && DayConflict(rule, robots, d, ParseTime(startTime), ParseTime(endTime), excludeId))
  {
    var newStart := ParseTime(startTime);
    var newEnd := ParseTime(endTime);
    if isDaily then SomeDayFrom(rule, robots, 1, newStart, newEnd, excludeId)
    else DayConflict(rule, robots, day, newStart, newEnd, excludeId)
  }

  // ---------------------------------------------------------------------
  // Properties

  /** The planner's check: a conflict exists exactly when some record that
      is on the day, or flagged daily, and is not excluded overlaps; for a
      daily candidate, on some day 1..30. */
  lemma PlannerConflictCharacterized(robots: seq<Robot>, day: int, startTime: string, endTime: string,
                                     excludeId: Option<int>, isDaily: bool)
    ensures HasTimeConflict(DayOrDaily, robots, day, startTime, endTime, excludeId, isDaily) <==>
      exists r :: r in robots && NotExcluded(r, excludeId) && Overlaps(ParseTime(startTime), ParseTime(endTime), r)
        && (r.isDaily || (if isDaily then 1 <= r.day <= 30 else r.day == day))
  {
    var ns, ne := ParseTime(startTime), ParseTime(endTime);
    if isDaily {
      if r :| r in robots && NotExcluded(r, excludeId) && Overlaps(ns, ne, r) && (r.isDaily || 1 <= r.day <= 30) {
        var d := if r.isDaily then 1 else r.day;
        assert Candidate(DayOrDaily, r, d, excludeId);
        assert DayConflict(DayOrDaily, robots, d, ns, ne, excludeId);
      }
    }
  }

  /** The timeline's and dark mode's check: a conflict exists exactly when
      some record on the day (on some day 1..30 for a daily candidate) that
      is not excluded overlaps; daily flags play no part. */
  lemma TimelineConflictCharacterized(robots: seq<Robot>, day: int, startTime: string, endTime: string,
                                      excludeId: Option<int>, isDaily: bool)
    ensures HasTimeConflict(DayOnly, robots, day, startTime, endTime, excludeId, isDaily) <==>
      exists r :: r in robots && NotExcluded(r, excludeId) && Overlaps(ParseTime(startTime), ParseTime(endTime), r)
        && (if isDaily then 1 <= r.day <= 30 else r.day == day)
  {
    var ns, ne := ParseTime(startTime), ParseTime(endTime);
    if isDaily {
      if r :| r in robots && NotExcluded(r, excludeId) && Overlaps(ns, ne, r) && 1 <= r.day <= 30 {
        assert Candidate(DayOnly, r, r.day, excludeId);
        assert DayConflict(DayOnly, robots, r.day, ns, ne, excludeId);
      }
    }
  }

  /** Overlap is strict: an interval that ends where another starts, or
      starts where another ends, does not overlap it. */
  lemma TouchingIsNoOverlap(startTime: string, endTime: string, r: Robot)
    requires ParseTime(endTime) == ParseTime(r.startTime) || ParseTime(startTime) == ParseTime(r.endTime)
    ensures !Overlaps(ParseTime(startTime), ParseTime(endTime), r)
  {
  }

  /** An interval whose start lies strictly inside an existing one overlaps it. */
  lemma StartInsideOverlaps(startTime: string, endTime: string, r: Robot)
    requires ParseTime(startTime).Some? && ParseTime(endTime).Some?
    requires ParseTime(r.startTime).Some? && ParseTime(r.endTime).Some?
    requires ParseTime(r.startTime).value <= ParseTime(startTime).value < ParseTime(r.endTime).value
    requires ParseTime(startTime).value < ParseTime(endTime).value
    ensures Overlaps(ParseTime(startTime), ParseTime(endTime), r)
  {
  }

  /** An empty or unreadable start or end never conflicts: every comparison
      with an invalid Date is false. */
  lemma UnreadableTimeNeverConflicts(rule: CandidateRule, robots: seq<Robot>, day: int, startTime: string,
                                     endTime: string, excludeId: Option<int>, isDaily: bool)
    requires ParseTime(startTime).None? || ParseTime(endTime).None?
    ensures !HasTimeConflict(rule, robots, day, startTime, endTime, excludeId, isDaily)
  {
  }

  /** With `isDaily`, the `day` argument is not used. */
  lemma DailyIgnoresDay(rule: CandidateRule, robots: seq<Robot>, day1: int, day2: int, startTime: string,
                        endTime: string, excludeId: Option<int>)
    ensures HasTimeConflict(rule, robots, day1, startTime, endTime, excludeId, true)
            == HasTimeConflict(rule, robots, day2, startTime, endTime, excludeId, true)
  {
  }

  /** The record with id `excludeId` is never compared: the result is the
      same as on the list without that record and with nothing excluded. */
  lemma ExcludedRecordIgnored(rule: CandidateRule, robots: seq<Robot>, day: int, startTime: string,
                              endTime: string, x: int, isDaily: bool)
    ensures HasTimeConflict(rule, robots, day, startTime, endTime, Some(x), isDaily)
            == HasTimeConflict(rule, RemoveRobots(robots, [x], true), day, startTime, endTime, None, isDaily)
  {
    var rest := RemoveRobots(robots, [x], true);
    var ns, ne := ParseTime(startTime), ParseTime(endTime);
    forall d ensures DayConflict(rule, robots, d, ns, ne, Some(x)) == DayConflict(rule, rest, d, ns, ne, None) {
      ExcludedRecordIgnoredOnDay(rule, robots, d, ns, ne, x);
    }
  }

  /** The same, for one day. */
  lemma ExcludedRecordIgnoredOnDay(rule: CandidateRule, robots: seq<Robot>, d: int,
                                   ns: Option<int>, ne: Option<int>, x: int)
    ensures DayConflict(rule, robots, d, ns, ne, Some(x)) == DayConflict(rule, RemoveRobots(robots, [x], true), d, ns, ne, None)
  {
    var rest := RemoveRobots(robots, [x], true);
    if DayConflict(rule, robots, d, ns, ne, Some(x)) {
      var r :| r in robots && Candidate(rule, r, d, Some(x)) && Overlaps(ns, ne, r);
      assert r in rest && Candidate(rule, r, d, None);
    }
    if DayConflict(rule, rest, d, ns, ne, None) {
      var r :| r in rest && Candidate(rule, r, d, None) && Overlaps(ns, ne, r);
      assert r in robots && Candidate(rule, r, d, Some(x));
    }
  }

  /** The timeline's candidates are a subset of the planner's, so a timeline
      conflict is always a planner conflict. */
  lemma TimelineConflictIsPlannerConflict(robots: seq<Robot>, day: int, startTime: string, endTime: string,
                                          excludeId: Option<int>, isDaily: bool)
    requires HasTimeConflict(DayOnly, robots, day, startTime, endTime, excludeId, isDaily)
    ensures HasTimeConflict(DayOrDaily, robots, day, startTime, endTime, excludeId, isDaily)
  {
    var ns, ne := ParseTime(startTime), ParseTime(endTime);
    if isDaily {
      var d :| 1 <= d <= 30 && DayConflict(DayOnly, robots, d, ns, ne, excludeId);
      var r :| r in robots && Candidate(DayOnly, r, d, excludeId) && Overlaps(ns, ne, r);
      assert Candidate(DayOrDaily, r, d, excludeId);
      assert DayConflict(DayOrDaily, robots, d, ns, ne, excludeId);
    } else {
      var r :| r in robots && Candidate(DayOnly, r, day, excludeId) && Overlaps(ns, ne, r);
      assert Candidate(DayOrDaily, r, day, excludeId);
    }
  }

  /** The converse fails: only the planner counts a record flagged daily
      that sits on another day. */
  lemma DailyRecordOnlyCountsInPlanner()
    ensures var r := Robot(1, "a", "09:00", "10:00", "#3B82F6", false, 2, true, None);
            HasTimeConflict(DayOrDaily, [r], 5, "09:30", "10:30", None, false)
            && !HasTimeConflict(DayOnly, [r], 5, "09:30", "10:30", None, false)
  {
    var r := Robot(1, "a", "09:00", "10:00", "#3B82F6", false, 2, true, None);
    assert ParseTime("09:00") == Some(540);
    assert ParseTime("10:00") == Some(600);
    assert ParseTime("09:30") == Some(570);
    assert ParseTime("10:30") == Some(630);
    assert Candidate(DayOrDaily, r, 5, None) && Overlaps(Some(570), Some(630), r);
  }
}

/** The planner's `groupRobots`: records that agree on name, times, colour,
    manual flag, description and daily flag are shown as one group that
    lists their days.

    The source fills a JavaScript Map (which keeps its keys in insertion
    order) in a `forEach` loop and then sorts each group's days. The key is
    the fields joined with '-', so two different records can share a key.
    A record whose day is already in its group adds neither its day nor its
    id, and only the days are sorted, not the ids. */
module Grouping {
  import opened Time
  import opened Schedule

  /** One planner card. `days` and `ids` are the JavaScript arrays. */
  datatype Group = Group(
    name: string,
    startTime: string,
    endTime: string,
    color: string,
    manual: bool,
    days: seq<int>,
    ids: seq<int>,
    description: Option<string>,
    isDaily: bool)

  function BoolText(b: bool): string { if b then "true" else "false" }

  /** `description || ''` */
  function DescriptionText(d: Option<string>): string
  {
    match d
    case None => ""
    case Some(s) => s
  }

  /** The fields a key is made of, in template order. */
  function KeyParts(name: string, startTime: string, endTime: string, color: string, manual: bool,
                    description: Option<string>, isDaily: bool): seq<string>
  {
    [name, startTime, endTime, color, BoolText(manual), DescriptionText(description), BoolText(isDaily)]
  }

  /** The parts joined with '-', as the template literal writes them. */
  function Join(parts: seq<string>): string
  {
    if parts == [] then ""
    else if |parts| == 1 then parts[0]
    else Join(parts[..|parts| - 1]) + "-" + parts[|parts| - 1]
  }

  /** The Map key of a record. */
  function GroupKey(r: Robot): string
  {
    Join(KeyParts(r.name, r.startTime, r.endTime, r.color, r.manual, r.description, r.isDaily))
  }

  /** The key a group's shared fields spell. */
  function GroupKeyOf(g: Group): string
  {
    Join(KeyParts(g.name, g.startTime, g.endTime, g.color, g.manual, g.description, g.isDaily))
  }

  /** The group's shared fields are the record's. */
  predicate SharesFields(g: Group, r: Robot)
  {
    g.name == r.name && g.startTime == r.startTime && g.endTime == r.endTime && g.color == r.color
    && g.manual == r.manual && g.description == r.description && g.isDaily == r.isDaily
  }

  function NewGroup(r: Robot): Group
  {
    Group(r.name, r.startTime, r.endTime, r.color, r.manual, [r.day], [r.id], r.description, r.isDaily)
  }

  /** The Map being filled: its keys in insertion order and the group under each. */
  datatype Table = Table(keys: seq<string>, groups: map<string, Group>)

  /** One turn of the `forEach`. */
  function AddRecord(t: Table, r: Robot): Table
  {
    var k := GroupKey(r);
    if k in t.groups then
      var g := t.groups[k];
      if r.day in g.days then t
      else Table(t.keys, t.groups[k := g.(days := g.days + [r.day], ids := g.ids + [r.id])])
    else Table(t.keys + [k], t.groups[k := NewGroup(r)])
  }

  predicate HasKey(robots: seq<Robot>, k: string)
  {
    exists j :: 0 <= j < |robots| && GroupKey(robots[j]) == k
  }

  predicate Distinct(s: seq<string>)
  {
    forall i, j :: 0 <= i < j < |s| ==> s[i] != s[j]
  }

  /** The keys present in `robots` are those of its first n-1 records and
      that of the last. */
  lemma HasKeySnoc(robots: seq<Robot>)
    requires robots != []
    ensures forall k :: HasKey(robots, k) <==> HasKey(robots[..|robots| - 1], k) || k == GroupKey(robots[|robots| - 1])
  {
    var n := |robots| - 1;
    forall k ensures HasKey(robots, k) ==> HasKey(robots[..n], k) || k == GroupKey(robots[n]) {
      if HasKey(robots, k) && k != GroupKey(robots[n]) {
        var j :| 0 <= j < |robots| && GroupKey(robots[j]) == k;
        assert robots[..n][j] == robots[j];
      }
    }
    forall k ensures HasKey(robots[..n], k) ==> HasKey(robots, k) {
      if HasKey(robots[..n], k) {
        var j :| 0 <= j < n && GroupKey(robots[..n][j]) == k;
        assert robots[j] == robots[..n][j];
      }
    }
  }

  /** The Map after the `forEach` over `robots`. */
  function Collect(robots: seq<Robot>): (t: Table)
    ensures forall k :: k in t.keys <==> k in t.groups
    ensures Distinct(t.keys)
  {
    if robots == [] then Table([], map[])
    else AddRecord(Collect(robots[..|robots| - 1]), robots[|robots| - 1])
  }

  /** Index of the first record whose key is k. */
  function FirstWith(robots: seq<Robot>, k: string): (i: nat)
    requires HasKey(robots, k)
    ensures i < |robots| && GroupKey(robots[i]) == k
    ensures forall j :: 0 <= j < i ==> GroupKey(robots[j]) != k
  {
    var n := |robots| - 1;
    if HasKey(robots[..n], k) then
      var i := FirstWith(robots[..n], k);
      assert forall j :: 0 <= j <= i ==> robots[j] == robots[..n][j];
      i
    else
      assert forall j :: 0 <= j < n ==> robots[j] == robots[..n][j];
      n
  }

  // ---------------------------------------------------------------------
  // Sorting the days: `days.sort((a, b) => a - b)`

  predicate Ascending(s: seq<int>)
  {
    forall i, j :: 0 <= i < j < |s| ==> s[i] <= s[j]
  }

  predicate StrictlyAscending(s: seq<int>)
  {
    forall i, j :: 0 <= i < j < |s| ==> s[i] < s[j]
  }

  predicate DistinctInts(s: seq<int>)
  {
    forall i, j :: 0 <= i < j < |s| ==> s[i] != s[j]
  }

  /** Putting an element no larger than the head in front keeps a list ascending. */
  lemma AscendingCons(h: int, s: seq<int>)
    requires Ascending(s) && (s == [] || h <= s[0])
    ensures Ascending([h] + s)
  {
    var r := [h] + s;
    forall i, j | 0 <= i < j < |r| ensures r[i] <= r[j] {
      if i == 0 {
        assert s[0] <= s[j - 1];
      } else {
        assert r[i] == s[i - 1] && r[j] == s[j - 1];
      }
    }
  }

  function InsertInt(x: int, s: seq<int>): (r: seq<int>)
    requires Ascending(s)
    ensures multiset(r) == multiset(s) + multiset{x}
    ensures Ascending(r)
    ensures r[0] == if s == [] || x <= s[0] then x else s[0]
  {
    if s == [] || x <= s[0] then
      AscendingCons(x, s);
      [x] + s
    else
      assert s == [s[0]] + s[1..];
      var rest := InsertInt(x, s[1..]);
      AscendingCons(s[0], rest);
      [s[0]] + rest
  }

  /** Putting an element smaller than the head in front keeps a list strictly ascending. */
  lemma StrictCons(h: int, s: seq<int>)
    requires StrictlyAscending(s) && (s == [] || h < s[0])
    ensures StrictlyAscending([h] + s)
  {
    var r := [h] + s;
    forall i, j | 0 <= i < j < |r| ensures r[i] < r[j] {
      if i == 0 {
        assert s[0] <= s[j - 1];
      } else {
        assert r[i] == s[i - 1] && r[j] == s[j - 1];
      }
    }
  }

  lemma {:induction false} InsertIntStrict(x: int, s: seq<int>)
    requires StrictlyAscending(s) && x !in s
    ensures StrictlyAscending(InsertInt(x, s))
  {
    if s == [] || x <= s[0] {
      StrictCons(x, s);
    } else {
      assert s == [s[0]] + s[1..];
      InsertIntStrict(x, s[1..]);
      var rest := InsertInt(x, s[1..]);
      assert rest[0] == x || rest[0] == s[1];
      StrictCons(s[0], rest);
    }
  }

  /** Numeric sort of a list of days. */
  function SortInts(s: seq<int>): (r: seq<int>)
    ensures multiset(r) == multiset(s)
    ensures Ascending(r)
  {
    if s == [] then []
    else
      var n := |s| - 1;
      assert s == s[..n] + [s[n]];
      InsertInt(s[n], SortInts(s[..n]))
  }

  /** Sorting distinct days gives a strictly ascending list. */
  lemma {:induction false} SortIntsStrict(s: seq<int>)
    requires DistinctInts(s)
    ensures StrictlyAscending(SortInts(s))
  {
    if s != [] {
      var n := |s| - 1;
      assert s == s[..n] + [s[n]];
      SortIntsStrict(s[..n]);
      var sorted := SortInts(s[..n]);
      assert s[n] !in s[..n];
      assert s[n] !in multiset(sorted);
      InsertIntStrict(s[n], sorted);
    }
  }

  function SortDays(g: Group): Group
  {
    g.(days := SortInts(g.days))
  }

  /** `Array.from(grouped.values()).map(group => ({...group, days: sorted}))` */
  function Finish(t: Table): (gs: seq<Group>)
    requires forall k :: k in t.keys ==> k in t.groups
    ensures |gs| == |t.keys|
  {
    seq(|t.keys|, i requires 0 <= i < |t.keys| => SortDays(t.groups[t.keys[i]]))
  }

  /** What `groupRobots(robots)` returns. */
  function Grouped(robots: seq<Robot>): seq<Group>
  {
    Finish(Collect(robots))
  }

  /** The `forEach` callback: file one record under its key. */
  method FileRecord(keys: seq<string>, grouped: map<string, Group>, robot: Robot)
    returns (keys': seq<string>, grouped': map<string, Group>)
    ensures Table(keys', grouped') == AddRecord(Table(keys, grouped), robot)
  {
    var key := GroupKey(robot);
    keys', grouped' := keys, grouped;
    if key in grouped {
      var existing := grouped[key];
      if robot.day !in existing.days {
        grouped' := grouped[key := existing.(days := existing.days + [robot.day], ids := existing.ids + [robot.id])];
      }
    } else {
      keys' := keys + [key];
      grouped' := grouped[key := NewGroup(robot)];
    }
  }

  /** The final `map` over the Map's values: sort each group's days. */
  method SortGroups(keys: seq<string>, grouped: map<string, Group>) returns (result: seq<Group>)
    requires forall k :: k in keys ==> k in grouped
    ensures result == Finish(Table(keys, grouped))
  {
    result := [];
    var j := 0;
    while j < |keys|
      invariant 0 <= j <= |keys|
      invariant result == Finish(Table(keys, grouped))[..j]
    {
      result := result + [SortDays(grouped[keys[j]])];
      j := j + 1;
    }
  }

  /** `groupRobots`: file every record, then sort each group's days. */
  method GroupRobots(robots: seq<Robot>) returns (result: seq<Group>)
    ensures result == Grouped(robots)
  {
    var keys: seq<string> := [];
    var grouped: map<string, Group> := map[];
    var i := 0;
    while i < |robots|
      invariant 0 <= i <= |robots|
      invariant Table(keys, grouped) == Collect(robots[..i])
    {
      CollectStep(robots, i);
      keys, grouped := FileRecord(keys, grouped, robots[i]);
      i := i + 1;
    }
    assert robots[..i] == robots;
    result := SortGroups(keys, grouped);
  }

  lemma CollectStep(robots: seq<Robot>, i: int)
    requires 0 <= i < |robots|
    ensures Collect(robots[..i + 1]) == AddRecord(Collect(robots[..i]), robots[i])
  {
    assert robots[..i + 1][..i] == robots[..i];
  }

  // ---------------------------------------------------------------------
  // The Map, one key at a time

  /** The group the loop builds under key k: it depends only on the records
      with that key, in order. */
  function KeyGroup(robots: seq<Robot>, k: string): Option<Group>
  {
    if robots == [] then None
    else
      var n := |robots| - 1;
      var g := KeyGroup(robots[..n], k);
      var r := robots[n];
      if GroupKey(r) != k then g
      else if g.None? then Some(NewGroup(r))
      else if r.day in g.value.days then g
      else Some(g.value.(days := g.value.days + [r.day], ids := g.value.ids + [r.id]))
  }

  lemma {:induction false} CollectByKey(robots: seq<Robot>, k: string)
    ensures KeyGroup(robots, k) == if k in Collect(robots).groups then Some(Collect(robots).groups[k]) else None
  {
    if robots != [] {
      CollectByKey(robots[..|robots| - 1], k);
    }
  }

  /** There is a group under k exactly when some record has key k. */
  lemma {:induction false} KeyGroupPresent(robots: seq<Robot>, k: string)
    ensures KeyGroup(robots, k).Some? <==> HasKey(robots, k)
  {
    if robots != [] {
      KeyGroupPresent(robots[..|robots| - 1], k);
      HasKeySnoc(robots);
    }
  }

  /** A group has one id per day and no day twice. */
  lemma {:induction false} KeyGroupShape(robots: seq<Robot>, k: string)
    requires KeyGroup(robots, k).Some?
    ensures |KeyGroup(robots, k).value.days| == |KeyGroup(robots, k).value.ids|
    ensures DistinctInts(KeyGroup(robots, k).value.days)
  {
    var pre := robots[..|robots| - 1];
    if KeyGroup(pre, k).Some? {
      KeyGroupShape(pre, k);
    }
  }

  /** A group's shared fields are those of the first record with its key. */
  lemma {:induction false} KeyGroupFirst(robots: seq<Robot>, k: string)
    requires KeyGroup(robots, k).Some?
    ensures HasKey(robots, k)
    ensures SharesFields(KeyGroup(robots, k).value, robots[FirstWith(robots, k)])
  {
    KeyGroupPresent(robots, k);
    var n := |robots| - 1;
    var pre := robots[..n];
    KeyGroupPresent(pre, k);
    if KeyGroup(pre, k).Some? {
      KeyGroupFirst(pre, k);
      var f := FirstWith(pre, k);
      assert FirstWith(robots, k) == f;
      assert robots[f] == pre[f];
      var g0 := KeyGroup(pre, k).value;
      assert KeyGroup(robots, k) == Some(g0) || KeyGroup(robots, k) == Some(g0.(days := g0.days + [robots[n].day], ids := g0.ids + [robots[n].id]));
    } else {
      assert FirstWith(robots, k) == n;
      assert KeyGroup(robots, k) == Some(NewGroup(robots[n]));
    }
  }

  /** Every record with key k has its day in group k. */
  lemma {:induction false} KeyGroupCovers(robots: seq<Robot>, k: string)
    ensures forall x :: x in robots && GroupKey(x) == k ==>
              KeyGroup(robots, k).Some? && x.day in KeyGroup(robots, k).value.days
  {
    if robots != [] {
      var n := |robots| - 1;
      var pre := robots[..n];
      KeyGroupCovers(pre, k);
      assert robots == pre + [robots[n]];
    }
  }

  /** The (day, id) pair at position m of group k is that of a record with
      key k. */
  lemma {:induction false} KeyGroupFrom(robots: seq<Robot>, k: string, m: int)
    requires KeyGroup(robots, k).Some?
    requires 0 <= m < |KeyGroup(robots, k).value.days|
    ensures m < |KeyGroup(robots, k).value.ids|
    ensures exists j :: 0 <= j < |robots| && GroupKey(robots[j]) == k
                        && robots[j].day == KeyGroup(robots, k).value.days[m] && robots[j].id == KeyGroup(robots, k).value.ids[m]
  {
    var n := |robots| - 1;
    var pre := robots[..n];
    KeyGroupShape(robots, k);
    var g := KeyGroup(robots, k).value;
    if KeyGroup(pre, k).Some? && m < |KeyGroup(pre, k).value.days| {
      var g0 := KeyGroup(pre, k).value;
      KeyGroupShape(pre, k);
      KeyGroupFrom(pre, k, m);
      assert g.days[m] == g0.days[m] && g.ids[m] == g0.ids[m];
      var j :| 0 <= j < |pre| && GroupKey(pre[j]) == k && pre[j].day == g0.days[m] && pre[j].id == g0.ids[m];
      assert robots[j] == pre[j];
    } else {
      assert GroupKey(robots[n]) == k && robots[n].day == g.days[m] && robots[n].id == g.ids[m];
    }
  }

  /** Adding a record at the end does not move the first record of a key
      already present. */
  lemma FirstWithSnoc(robots: seq<Robot>, k: string)
    requires robots != [] && HasKey(robots[..|robots| - 1], k)
    ensures HasKey(robots, k)
    ensures FirstWith(robots, k) == FirstWith(robots[..|robots| - 1], k)
  {
    var j :| 0 <= j < |robots| - 1 && GroupKey(robots[..|robots| - 1][j]) == k;
    assert robots[j] == robots[..|robots| - 1][j];
  }

  /** Every key of the Map is the key of some record. */
  lemma {:induction false} CollectKeysPresent(robots: seq<Robot>)
    ensures forall i :: 0 <= i < |Collect(robots).keys| ==> HasKey(robots, Collect(robots).keys[i])
  {
    if robots != [] {
      var n := |robots| - 1;
      var pre := robots[..n];
      CollectKeysPresent(pre);
      HasKeySnoc(robots);
      var t0, t := Collect(pre), Collect(robots);
      assert t == AddRecord(t0, robots[n]);
      assert t.keys == t0.keys || t.keys == t0.keys + [GroupKey(robots[n])];
      forall i | 0 <= i < |t.keys| ensures HasKey(robots, t.keys[i]) {
        if i < |t0.keys| {
          assert t.keys[i] == t0.keys[i];
        }
      }
    }
  }

  /** Appending a record does not move the first record of any key the
      shorter list already had. */
  lemma OrderKeptOnSnoc(robots: seq<Robot>, keys: seq<string>)
    requires robots != []
    requires forall i :: 0 <= i < |keys| ==> HasKey(robots[..|robots| - 1], keys[i])
    requires forall i, j :: 0 <= i < j < |keys| ==>
               FirstWith(robots[..|robots| - 1], keys[i]) < FirstWith(robots[..|robots| - 1], keys[j])
    ensures forall i :: 0 <= i < |keys| ==> HasKey(robots, keys[i])
    ensures forall i :: 0 <= i < |keys| ==> FirstWith(robots, keys[i]) == FirstWith(robots[..|robots| - 1], keys[i])
    ensures forall i, j :: 0 <= i < j < |keys| ==> FirstWith(robots, keys[i]) < FirstWith(robots, keys[j])
  {
    forall i | 0 <= i < |keys|
      ensures HasKey(robots, keys[i]) && FirstWith(robots, keys[i]) == FirstWith(robots[..|robots| - 1], keys[i])
    {
      FirstWithSnoc(robots, keys[i]);
    }
  }

  /** A key whose first record is the appended one comes after every key
      the shorter list already had. */
  lemma OrderExtendedOnSnoc(robots: seq<Robot>, keys: seq<string>)
    requires robots != [] && !HasKey(robots[..|robots| - 1], GroupKey(robots[|robots| - 1]))
    requires forall i :: 0 <= i < |keys| ==> HasKey(robots[..|robots| - 1], keys[i])
    requires forall i, j :: 0 <= i < j < |keys| ==>
               FirstWith(robots[..|robots| - 1], keys[i]) < FirstWith(robots[..|robots| - 1], keys[j])
    ensures var keys' := keys + [GroupKey(robots[|robots| - 1])];
            && (forall i :: 0 <= i < |keys'| ==> HasKey(robots, keys'[i]))
            && forall i, j :: 0 <= i < j < |keys'| ==> FirstWith(robots, keys'[i]) < FirstWith(robots, keys'[j])
  {
    var n := |robots| - 1;
    var keys' := keys + [GroupKey(robots[n])];
    OrderKeptOnSnoc(robots, keys);
    HasKeySnoc(robots);
    assert FirstWith(robots, GroupKey(robots[n])) == n;
    forall i | 0 <= i < |keys'| ensures HasKey(robots, keys'[i]) {
      if i < |keys| {
        assert keys'[i] == keys[i];
      }
    }
    forall i, j | 0 <= i < j < |keys'| ensures FirstWith(robots, keys'[i]) < FirstWith(robots, keys'[j]) {
      assert keys'[i] == keys[i];
      if j < |keys| {
        assert keys'[j] == keys[j];
      }
    }
  }

  /** Keys enter the Map in the order of their first record. */
  lemma {:induction false} CollectKeyOrder(robots: seq<Robot>)
    ensures forall i :: 0 <= i < |Collect(robots).keys| ==> HasKey(robots, Collect(robots).keys[i])
    ensures forall i, j :: 0 <= i < j < |Collect(robots).keys| ==>
              FirstWith(robots, Collect(robots).keys[i]) < FirstWith(robots, Collect(robots).keys[j])
  {
    CollectKeysPresent(robots);
    if robots != [] {
      var n := |robots| - 1;
      var pre, r := robots[..n], robots[n];
      CollectKeyOrder(pre);
      var t0 := Collect(pre);
      assert Collect(robots) == AddRecord(t0, r);
      if GroupKey(r) in t0.groups {
        OrderKeptOnSnoc(robots, t0.keys);
      } else {
        CollectByKey(pre, GroupKey(r));
        KeyGroupPresent(pre, GroupKey(r));
        OrderExtendedOnSnoc(robots, t0.keys);
      }
    }
  }

  lemma KeyOfShared(g: Group, r: Robot)
    requires SharesFields(g, r)
    ensures GroupKeyOf(g) == GroupKey(r)
  {
  }

  /** The i-th output group is group keys[i] of the Map, its days sorted,
      and its key is keys[i]. */
  lemma GroupedAt(robots: seq<Robot>, i: int)
    requires 0 <= i < |Grouped(robots)|
    ensures var t := Collect(robots);
            && KeyGroup(robots, t.keys[i]) == Some(t.groups[t.keys[i]])
            && Grouped(robots)[i] == SortDays(t.groups[t.keys[i]])
            && GroupKeyOf(Grouped(robots)[i]) == t.keys[i]
            && HasKey(robots, t.keys[i])
            && SharesFields(Grouped(robots)[i], robots[FirstWith(robots, t.keys[i])])
  {
    var t := Collect(robots);
    var k := t.keys[i];
    CollectByKey(robots, k);
    KeyGroupFirst(robots, k);
    KeyOfShared(Grouped(robots)[i], robots[FirstWith(robots, k)]);
  }

  // ---------------------------------------------------------------------
  // Properties of `groupRobots`

  /** In every group the days are strictly ascending (sorted, no duplicate)
      and there are as many ids as days. */
  lemma GroupedDaysSorted(robots: seq<Robot>)
    ensures forall i :: 0 <= i < |Grouped(robots)| ==>
              StrictlyAscending(Grouped(robots)[i].days) && |Grouped(robots)[i].ids| == |Grouped(robots)[i].days|
  {
    forall i | 0 <= i < |Grouped(robots)|
      ensures StrictlyAscending(Grouped(robots)[i].days) && |Grouped(robots)[i].ids| == |Grouped(robots)[i].days|
    {
      GroupedAt(robots, i);
      var t := Collect(robots);
      var g := t.groups[t.keys[i]];
      KeyGroupShape(robots, t.keys[i]);
      SortIntsStrict(g.days);
      assert |SortInts(g.days)| == |multiset(g.days)| == |g.days|;
    }
  }

  /** Every record's key has a group. */
  lemma GroupedCoversKeys(robots: seq<Robot>)
    ensures forall x :: x in robots ==>
              exists i :: 0 <= i < |Grouped(robots)| && GroupKeyOf(Grouped(robots)[i]) == GroupKey(x)
                          && x.day in Grouped(robots)[i].days
  {
    var t, gs := Collect(robots), Grouped(robots);
    forall x | x in robots ensures exists i :: 0 <= i < |gs| && GroupKeyOf(gs[i]) == GroupKey(x) && x.day in gs[i].days {
      var j :| 0 <= j < |robots| && robots[j] == x;
      assert HasKey(robots, GroupKey(x));
      KeyGroupPresent(robots, GroupKey(x));
      CollectByKey(robots, GroupKey(x));
      var i :| 0 <= i < |t.keys| && t.keys[i] == GroupKey(x);
      GroupedAt(robots, i);
      GroupedListsDay(robots, x, i);
    }
  }

  /** Each group's shared fields are those of the first record with its key. */
  lemma GroupedSharedFields(robots: seq<Robot>)
    ensures forall i :: 0 <= i < |Grouped(robots)| ==>
              HasKey(robots, GroupKeyOf(Grouped(robots)[i]))
              && SharesFields(Grouped(robots)[i], robots[FirstWith(robots, GroupKeyOf(Grouped(robots)[i]))])
  {
    forall i | 0 <= i < |Grouped(robots)|
      ensures HasKey(robots, GroupKeyOf(Grouped(robots)[i]))
              && SharesFields(Grouped(robots)[i], robots[FirstWith(robots, GroupKeyOf(Grouped(robots)[i]))])
    {
      GroupedAt(robots, i);
    }
  }

  /** No two groups share a key, and the groups come in the order in which
      their keys first occur. */
  lemma GroupedInFirstOccurrenceOrder(robots: seq<Robot>)
    ensures forall i :: 0 <= i < |Grouped(robots)| ==> HasKey(robots, GroupKeyOf(Grouped(robots)[i]))
    ensures forall i, j :: 0 <= i < j < |Grouped(robots)| ==>
              FirstWith(robots, GroupKeyOf(Grouped(robots)[i])) < FirstWith(robots, GroupKeyOf(Grouped(robots)[j]))
  {
    CollectKeyOrder(robots);
    var t, gs := Collect(robots), Grouped(robots);
    forall i | 0 <= i < |gs| ensures GroupKeyOf(gs[i]) == t.keys[i] {
      GroupedAt(robots, i);
    }
  }

  /** A record's day is listed in the group with its key. */
  lemma GroupedListsDay(robots: seq<Robot>, x: Robot, i: int)
    requires x in robots && 0 <= i < |Grouped(robots)| && GroupKeyOf(Grouped(robots)[i]) == GroupKey(x)
    ensures x.day in Grouped(robots)[i].days
  {
    var t := Collect(robots);
    GroupedAt(robots, i);
    var k := t.keys[i];
    KeyGroupCovers(robots, k);
    assert x.day in multiset(t.groups[k].days);
  }

  /** Every id listed in a group is the id of a record with the group's key. */
  lemma GroupedIdFrom(robots: seq<Robot>, i: int, m: int)
    requires 0 <= i < |Grouped(robots)| && 0 <= m < |Grouped(robots)[i].ids|
    ensures exists j :: 0 <= j < |robots| && GroupKey(robots[j]) == GroupKeyOf(Grouped(robots)[i])
                        && robots[j].id == Grouped(robots)[i].ids[m]
  {
    var t := Collect(robots);
    GroupedAt(robots, i);
    var k := t.keys[i];
    KeyGroupShape(robots, k);
    assert m < |t.groups[k].days|;
    KeyGroupFrom(robots, k, m);
  }

  /** A second record with the same key and an already listed day adds
      neither its day nor its id: the group's ids do not cover every input id. */
  lemma RepeatedDayDropsId()
    ensures var a := Robot(1, "Bot", "09:00", "10:00", "#3B82F6", false, 5, false, None);
            var b := a.(id := 2);
            Grouped([a, b]) == [Group("Bot", "09:00", "10:00", "#3B82F6", false, [5], [1], None, false)]
  {
    var a := Robot(1, "Bot", "09:00", "10:00", "#3B82F6", false, 5, false, None);
    var b := a.(id := 2);
    assert [a, b][..1] == [a];
    assert [a][..0] == [];
    assert Collect([]) == Table([], map[]);
    var t1 := Collect([a]);
    assert t1 == Table([GroupKey(a)], map[GroupKey(a) := NewGroup(a)]);
    assert GroupKey(b) == GroupKey(a);
    assert Collect([a, b]) == t1;
    assert SortInts([5]) == [5] by {
      assert [5][..0] == [];
    }
  }

  /** The Map after a record on day 9 and one with the same key on day 3. */
  lemma CollectDaysNineThree(a: Robot, b: Robot)
    requires a == Robot(1, "Bot", "09:00", "10:00", "#3B82F6", false, 9, false, None)
    requires b == a.(id := 2, day := 3)
    ensures Collect([a, b]) == Table([GroupKey(a)], map[GroupKey(a) := NewGroup(a).(days := [9, 3], ids := [1, 2])])
  {
    assert [a, b][..1] == [a];
    assert [a][..0] == [];
    assert Collect([]) == Table([], map[]);
    var t1 := Collect([a]);
    assert t1 == Table([GroupKey(a)], map[GroupKey(a) := NewGroup(a)]);
    assert GroupKey(b) == GroupKey(a);
    assert Collect([a, b]) == AddRecord(t1, b);
    assert 3 !in NewGroup(a).days;
    assert NewGroup(a).days + [3] == [9, 3] && NewGroup(a).ids + [2] == [1, 2];
  }

  /** Only the days are sorted: after sorting, ids[m] is in general not the
      record on days[m]. */
  lemma IdsStayInInsertionOrder()
    ensures var a := Robot(1, "Bot", "09:00", "10:00", "#3B82F6", false, 9, false, None);
            var b := a.(id := 2, day := 3);
            Grouped([a, b]) == [Group("Bot", "09:00", "10:00", "#3B82F6", false, [3, 9], [1, 2], None, false)]
  {
    var a := Robot(1, "Bot", "09:00", "10:00", "#3B82F6", false, 9, false, None);
    var b := a.(id := 2, day := 3);
    CollectDaysNineThree(a, b);
    SortNineThree();
    var g := NewGroup(a).(days := [9, 3], ids := [1, 2]);
    GroupedSingleKey([a, b], GroupKey(a), g);
  }

  /** A Map with a single key yields that one group, days sorted. */
  lemma GroupedSingleKey(robots: seq<Robot>, k: string, g: Group)
    requires Collect(robots) == Table([k], map[k := g])
    ensures Grouped(robots) == [g.(days := SortInts(g.days))]
  {
  }

  lemma SortNineThree()
    ensures SortInts([9, 3]) == [3, 9]
  {
    assert [9, 3][..1] == [9];
    assert [9][..0] == [];
    assert SortInts([9]) == [9];
  }
}

/**
 * The activity timeline (components/progress/ProgressTimeline.jsx).
 *
 * groupActivitiesByDate files every activity under the day of its timestamp
 * (today for one without), in an object whose keys keep their insertion
 * order, and then lists the object's entries newest day first. Parsing and
 * formatting a timestamp in the local time zone is a parameter `dayOf` that
 * gives the calendar day, or None when the timestamp does not parse (date-fns
 * `format` then throws); the day's `yyyy-MM-dd` key text is `FormatDate` of
 * that day, so a day stands for its key.
 */
module ProgressTimeline {
  import opened Wrappers
  import opened Time
  import opened Sorting
  import opened Reports

  /** An activity; `score` is `details.score`, None when there are no details or no score. */
  datatype Activity = Activity(kind: string, title: string, timestamp: Option<string>, score: Option<int>)

  /** One entry of the timeline: a day and its activities. */
  datatype Group = Group(day: Date, activities: seq<Activity>)

  /** The day an activity is filed under: that of its timestamp when it has one, else today. */
  function DayKey(a: Activity, dayOf: string -> Option<Date>, today: Date): Option<Date> {
    if a.timestamp.Some? && a.timestamp.value != "" then dayOf(a.timestamp.value) else Some(today)
  }

  /** No timestamp makes the formatting throw. */
  predicate AllDated(acts: seq<Activity>, dayOf: string -> Option<Date>, today: Date) {
    forall j :: 0 <= j < |acts| ==> DayKey(acts[j], dayOf, today).Some?
  }

  /** The activities filed under `d`, in input order. */
  function OnDay(acts: seq<Activity>, dayOf: string -> Option<Date>, today: Date, d: Date): seq<Activity> {
    if acts == [] then []
    else
      var a := acts[|acts| - 1];
      OnDay(acts[..|acts| - 1], dayOf, today, d) + (if DayKey(a, dayOf, today) == Some(d) then [a] else [])
  }

  /** The `grouped` object after the activities so far: each key's array grows by `push`. */
  function GroupsOf(acts: seq<Activity>, dayOf: string -> Option<Date>, today: Date): map<Date, seq<Activity>>
    requires AllDated(acts, dayOf, today)
  {
    if acts == [] then map[]
    else
      var m := GroupsOf(acts[..|acts| - 1], dayOf, today);
      var a := acts[|acts| - 1];
      var d := DayKey(a, dayOf, today).value;
      m[d := (if d in m then m[d] else []) + [a]]
  }

  /** The object's key order: each day where it first appears. */
  function KeysOf(acts: seq<Activity>, dayOf: string -> Option<Date>, today: Date): seq<Date>
    requires AllDated(acts, dayOf, today)
  {
    if acts == [] then []
    else
      var ks := KeysOf(acts[..|acts| - 1], dayOf, today);
      var d := DayKey(acts[|acts| - 1], dayOf, today).value;
      if d in ks then ks else ks + [d]
  }

  /** `Object.entries(grouped)`, in key order. */
  function Entries(m: map<Date, seq<Activity>>, keys: seq<Date>): seq<Group>
    requires forall k :: k in keys ==> k in m
  {
    if keys == [] then [] else [Group(keys[0], m[keys[0]])] + Entries(m, keys[1..])
  }

  /** `(a, b) => new Date(b[0]) - new Date(a[0])`: a later or the same day may come first. */
  predicate Newer(g: Group, h: Group) {
    !Before(g.day, h.day)
  }

  /** The timeline groupActivitiesByDate returns when every timestamp parses. */
  function Timeline(acts: seq<Activity>, dayOf: string -> Option<Date>, today: Date): seq<Group>
    requires AllDated(acts, dayOf, today)
  {
    KeysCoverGroups(acts, dayOf, today);
    SortBy(Entries(GroupsOf(acts, dayOf, today), KeysOf(acts, dayOf, today)), Newer)
  }

  /** groupActivitiesByDate: the `forEach` filling the object, then the sorted entries. */
  method GroupActivitiesByDate(activities: seq<Activity>, dayOf: string -> Option<Date>, today: Date)
    returns (r: Result<seq<Group>>)
    ensures AllDated(activities, dayOf, today) ==> r == Success(Timeline(activities, dayOf, today))
    ensures !AllDated(activities, dayOf, today) ==> r.Failure?
  {
    var grouped: map<Date, seq<Activity>> := map[];
    var keys: seq<Date> := [];
    var i := 0;
    while i < |activities|
      invariant 0 <= i <= |activities|
      invariant AllDated(activities[..i], dayOf, today)
      invariant grouped == GroupsOf(activities[..i], dayOf, today)
      invariant keys == KeysOf(activities[..i], dayOf, today)
      invariant forall k :: k in keys <==> k in grouped
    {
      var activity := activities[i];
      var date := DayKey(activity, dayOf, today);
      if date.None? {
        return Failure("Invalid time value");
      }
      assert activities[..i + 1][..i] == activities[..i];
      if date.value !in grouped {
        grouped := grouped[date.value := []];
        keys := keys + [date.value];
      }
      grouped := grouped[date.value := grouped[date.value] + [activity]];
      i := i + 1;
    }
    assert activities[..i] == activities;
    r := Success(SortBy(Entries(grouped, keys), Newer));
  }

  // ---------------------------------------------------------------------
  // What the grouping means

  predicate Distinct(ks: seq<Date>) {
    forall i, j :: 0 <= i < j < |ks| ==> ks[i] != ks[j]
  }

  /** The object's keys are its key order's days, none twice. */
  lemma {:induction false} KeysCoverGroups(acts: seq<Activity>, dayOf: string -> Option<Date>, today: Date)
    requires AllDated(acts, dayOf, today)
    ensures forall k :: k in KeysOf(acts, dayOf, today) <==> k in GroupsOf(acts, dayOf, today)
    ensures Distinct(KeysOf(acts, dayOf, today))
  {
    if acts != [] {
      var init := acts[..|acts| - 1];
      KeysCoverGroups(init, dayOf, today);
      var ks := KeysOf(init, dayOf, today);
 var d := DayKey(acts[|acts| - 1], dayOf, today).value;
      if d !in ks {
        var ks' := ks + [d];
        forall i, j | 0 <= i < j < |ks'| ensures ks'[i] != ks'[j] {
          assert ks'[i] == ks[i];
          if j < |ks| {
            assert ks'[j] == ks[j];
          } else {
            assert ks'[j] == d && ks[i] in ks;
          }
        }
        assert KeysOf(acts, dayOf, today) == ks';
      }
    }
  }

  /**
   * Each group holds exactly the activities of its day, in input order, and
   * there is a group for a day exactly when some activity falls on it.
   */
  lemma {:induction false} GroupsMeaning(acts: seq<Activity>, dayOf: string -> Option<Date>, today: Date)
    requires AllDated(acts, dayOf, today)
    ensures forall d :: d in GroupsOf(acts, dayOf, today) <==> OnDay(acts, dayOf, today, d) != []
    ensures forall d :: d in GroupsOf(acts, dayOf, today) ==> GroupsOf(acts, dayOf, today)[d] == OnDay(acts, dayOf, today, d)
  {
    if acts != [] {
      GroupsMeaning(acts[..|acts| - 1], dayOf, today);
    }
  }

  /** An activity is filed under `d` exactly when it is one of the activities and its day is `d`. */
  lemma {:induction false} OnDayMembers(acts: seq<Activity>, dayOf: string -> Option<Date>, today: Date, d: Date, a: Activity)
    ensures a in OnDay(acts, dayOf, today, d) <==> a in acts && DayKey(a, dayOf, today) == Some(d)
  {
    if acts != [] {
      var init := acts[..|acts| - 1];
      OnDayMembers(init, dayOf, today, d, a);
      assert acts == init + [acts[|acts| - 1]];
    }
  }

  lemma {:induction false} EntriesAppend(m: map<Date, seq<Activity>>, keys: seq<Date>, d: Date)
    requires forall k :: k in keys ==> k in m
    requires d in m
    ensures Entries(m, keys + [d]) == Entries(m, keys) + [Group(d, m[d])]
  {
    if keys != [] {
      assert (keys + [d])[1..] == keys[1..] + [d];
      EntriesAppend(m, keys[1..], d);
    }
  }

  lemma {:induction false} EntriesOutside(m: map<Date, seq<Activity>>, keys: seq<Date>, d: Date, v: seq<Activity>)
    requires forall k :: k in keys ==> k in m
    requires d !in keys
    ensures Entries(m[d := v], keys) == Entries(m, keys)
  {
    if keys != [] {
      EntriesOutside(m, keys[1..], d, v);
    }
  }

  function Size(g: Group): int {
    |g.activities|
  }

  /** Pushing onto one group of a key list without repeats adds one to the total size. */
  lemma {:induction false} SizeBump(m: map<Date, seq<Activity>>, keys: seq<Date>, d: Date, a: Activity)
    requires forall k :: k in keys ==> k in m
    requires Distinct(keys)
    requires d in keys
    ensures SumBy(Entries(m[d := m[d] + [a]], keys), Size) == SumBy(Entries(m, keys), Size) + 1
  {
    var m' := m[d := m[d] + [a]];
    if keys[0] == d {
      assert d !in keys[1..];
      EntriesOutside(m, keys[1..], d, m[d] + [a]);
    } else {
      SizeBump(m, keys[1..], d, a);
    }
    assert Entries(m', keys)[1..] == Entries(m', keys[1..]);
    assert Entries(m, keys)[1..] == Entries(m, keys[1..]);
  }

  /** The groups, taken in key order, account for every activity once. */
  lemma {:induction false} EntriesCount(acts: seq<Activity>, dayOf: string -> Option<Date>, today: Date)
    requires AllDated(acts, dayOf, today)
    ensures forall k :: k in KeysOf(acts, dayOf, today) ==> k in GroupsOf(acts, dayOf, today)
    ensures SumBy(Entries(GroupsOf(acts, dayOf, today), KeysOf(acts, dayOf, today)), Size) == |acts|
  {
    KeysCoverGroups(acts, dayOf, today);
    if acts != [] {
      var init := acts[..|acts| - 1];
      var a := acts[|acts| - 1];
      EntriesCount(init, dayOf, today);
      KeysCoverGroups(init, dayOf, today);
      var m, ks := GroupsOf(init, dayOf, today), KeysOf(init, dayOf, today);
      var d := DayKey(a, dayOf, today).value;
      if d in ks {
        SizeBump(m, ks, d, a);
      } else {
        var m' := m[d := [a]];
        assert d !in m && [] + [a] == [a];
        assert GroupsOf(acts, dayOf, today) == m';
        EntriesAppend(m', ks, d);
        EntriesOutside(m, ks, d, [a]);
        SumByConcat(Entries(m', ks), [Group(d, [a])], Size);
        assert SumBy([Group(d, [a])], Size) == 1;
      }
    }
  }

  lemma {:induction false} EntriesDays(m: map<Date, seq<Activity>>, keys: seq<Date>)
    requires forall k :: k in keys ==> k in m
    ensures |Entries(m, keys)| == |keys|
    ensures forall i :: 0 <= i < |keys| ==> Entries(m, keys)[i] == Group(keys[i], m[keys[i]])
  {
    if keys != [] {
      EntriesDays(m, keys[1..]);
    }
  }

  /** The days on which some activity falls. */
  function Days(acts: seq<Activity>, dayOf: string -> Option<Date>, today: Date): set<Date>
    requires AllDated(acts, dayOf, today)
  {
    set j | 0 <= j < |acts| :: DayKey(acts[j], dayOf, today).value
  }

  lemma {:induction false} KeysAreDays(acts: seq<Activity>, dayOf: string -> Option<Date>, today: Date)
    requires AllDated(acts, dayOf, today)
    ensures forall d :: d in KeysOf(acts, dayOf, today) <==> d in Days(acts, dayOf, today)
  {
    if acts != [] {
      var init := acts[..|acts| - 1];
      KeysAreDays(init, dayOf, today);
      forall d ensures d in Days(acts, dayOf, today) <==>
                       d in Days(init, dayOf, today) || d == DayKey(acts[|acts| - 1], dayOf, today).value {
        if d in Days(acts, dayOf, today) {
          var j :| 0 <= j < |acts| && DayKey(acts[j], dayOf, today).value == d;
          if j < |acts| - 1 {
            assert init[j] == acts[j];
          }
        }
        if d in Days(init, dayOf, today) {
          var j :| 0 <= j < |init| && DayKey(init[j], dayOf, today).value == d;
          assert acts[j] == init[j];
        }
      }
    }
  }

  lemma {:induction false} DistinctCount(ks: seq<Date>)
    requires Distinct(ks)
    ensures |set k | k in ks| == |ks|
  {
    if ks != [] {
      var init := ks[..|ks| - 1];
      DistinctCount(init);
      assert (set k | k in ks) == (set k | k in init) + {ks[|ks| - 1]};
    }
  }

  /** Each group's day falls strictly before that of the group ahead of it. */
  predicate NewestFirst(t: seq<Group>) {
    forall i, j :: 0 <= i < j < |t| ==> Before(t[j].day, t[i].day)
  }

  /** Each group holds exactly its day's activities, in input order. */
  predicate HoldsItsDay(t: seq<Group>, acts: seq<Activity>, dayOf: string -> Option<Date>, today: Date) {
    forall i :: 0 <= i < |t| ==> t[i].activities == OnDay(acts, dayOf, today, t[i].day)
  }

  /** There is a group for a day exactly when some activity falls on it. */
  ghost predicate CoversDays(t: seq<Group>, acts: seq<Activity>, dayOf: string -> Option<Date>, today: Date)
    requires AllDated(acts, dayOf, today)
  {
    forall d :: d in Days(acts, dayOf, today) <==> exists i :: 0 <= i < |t| && t[i].day == d
  }

  /** The entries before sorting: one per day, holding that day's activities, every activity once. */
  lemma EntriesMeaning(acts: seq<Activity>, dayOf: string -> Option<Date>, today: Date, e: seq<Group>)
    requires AllDated(acts, dayOf, today)
    requires forall k :: k in KeysOf(acts, dayOf, today) ==> k in GroupsOf(acts, dayOf, today)
    requires e == Entries(GroupsOf(acts, dayOf, today), KeysOf(acts, dayOf, today))
    ensures DistinctBy(e, (g: Group) => g.day)
    ensures HoldsItsDay(e, acts, dayOf, today)
    ensures CoversDays(e, acts, dayOf, today)
    ensures |e| == |Days(acts, dayOf, today)|
    ensures SumBy(e, Size) == |acts|
  {
    var m, ks := GroupsOf(acts, dayOf, today), KeysOf(acts, dayOf, today);
    EntriesHoldDays(acts, dayOf, today, m, ks, e);
    EntriesCoverDays(acts, dayOf, today, m, ks, e);
    EntriesCount(acts, dayOf, today);
  }

  lemma EntriesHoldDays(acts: seq<Activity>, dayOf: string -> Option<Date>, today: Date,
                        m: map<Date, seq<Activity>>, ks: seq<Date>, e: seq<Group>)
    requires AllDated(acts, dayOf, today)
    requires m == GroupsOf(acts, dayOf, today) && ks == KeysOf(acts, dayOf, today)
    requires forall k :: k in ks ==> k in m
    requires e == Entries(m, ks)
    ensures DistinctBy(e, (g: Group) => g.day)
    ensures HoldsItsDay(e, acts, dayOf, today)
  {
    KeysCoverGroups(acts, dayOf, today);
    GroupsMeaning(acts, dayOf, today);
    EntriesDays(m, ks);
  }

  lemma EntriesCoverDays(acts: seq<Activity>, dayOf: string -> Option<Date>, today: Date,
                         m: map<Date, seq<Activity>>, ks: seq<Date>, e: seq<Group>)
    requires AllDated(acts, dayOf, today)
    requires m == GroupsOf(acts, dayOf, today) && ks == KeysOf(acts, dayOf, today)
    requires forall k :: k in ks ==> k in m
    requires e == Entries(m, ks)
    ensures CoversDays(e, acts, dayOf, today)
    ensures |e| == |Days(acts, dayOf, today)|
  {
    KeysCoverGroups(acts, dayOf, today);
    KeysAreDays(acts, dayOf, today);
    EntriesDays(m, ks);
    forall d | d in Days(acts, dayOf, today) ensures exists i :: 0 <= i < |e| && e[i].day == d {
      var k :| 0 <= k < |ks| && ks[k] == d;
      assert e[k].day == d;
    }
    assert (set k | k in ks) == Days(acts, dayOf, today);
    DistinctCount(ks);
  }

  /** Sorting keeps the entries and their count and puts the days strictly newest first. */
  lemma SortedEntries(e: seq<Group>, t: seq<Group>)
    requires DistinctBy(e, (g: Group) => g.day)
    requires t == SortBy(e, Newer)
    ensures NewestFirst(t)
    ensures multiset(t) == multiset(e) && |t| == |e|
  {
    SortDistinct(e, Newer, (g: Group) => g.day);
    SortSorted(e, Newer);
    SortPermutes(e, Newer);
    SortLength(e, Newer);
    forall i, j | 0 <= i < j < |t| ensures Before(t[j].day, t[i].day) {
      assert Newer(t[i], t[j]) && t[i].day != t[j].day;
    }
  }

  /** Two lists holding the same groups hold the same days with the same activities. */
  lemma SameGroups(t: seq<Group>, e: seq<Group>, acts: seq<Activity>, dayOf: string -> Option<Date>, today: Date)
    requires AllDated(acts, dayOf, today)
    requires multiset(t) == multiset(e)
    requires HoldsItsDay(e, acts, dayOf, today) && CoversDays(e, acts, dayOf, today)
    ensures HoldsItsDay(t, acts, dayOf, today) && CoversDays(t, acts, dayOf, today)
  {
    forall i | 0 <= i < |t| ensures t[i] in e {
      assert t[i] in multiset(e);
    }
    forall d | d in Days(acts, dayOf, today) ensures exists i :: 0 <= i < |t| && t[i].day == d {
      var k :| 0 <= k < |e| && e[k].day == d;
      assert e[k] in multiset(t);
      var i :| 0 <= i < |t| && t[i] == e[k];
    }
  }

  /**
   * The timeline, newest day first: one group per day on which some
   * activity falls, each holding exactly that day's activities in input
   * order, with every activity counted once; it is empty just when there
   * are no activities.
   */
  lemma TimelineMeaning(acts: seq<Activity>, dayOf: string -> Option<Date>, today: Date)
    requires AllDated(acts, dayOf, today)
    ensures NewestFirst(Timeline(acts, dayOf, today))
    ensures HoldsItsDay(Timeline(acts, dayOf, today), acts, dayOf, today)
    ensures CoversDays(Timeline(acts, dayOf, today), acts, dayOf, today)
    ensures |Timeline(acts, dayOf, today)| == |Days(acts, dayOf, today)|
    ensures SumBy(Timeline(acts, dayOf, today), Size) == |acts|
    ensures Timeline(acts, dayOf, today) == [] <==> acts == []
  {
    KeysCoverGroups(acts, dayOf, today);
    var e := Entries(GroupsOf(acts, dayOf, today), KeysOf(acts, dayOf, today));
    var t := SortBy(e, Newer);
    assert t == Timeline(acts, dayOf, today);
    EntriesMeaning(acts, dayOf, today, e);
    SortedEntries(e, t);
    SumByPermutation(t, e, Size);
    SameGroups(t, e, acts, dayOf, today);
    if acts != [] {
      assert DayKey(acts[0], dayOf, today).value in Days(acts, dayOf, today);
    }
  }

  // ---------------------------------------------------------------------
  // Rendering an activity

  /** A badge: its label and its colour classes. */
  datatype Config = Config(caption: string, color: string)

  const BadgeConfigs: map<string, Config> := map[
    "enrollment" := Config("Enrolled", "bg-blue-100 text-blue-800"),
    "module_completed" := Config("Module Complete", "bg-green-100 text-green-800"),
    "assessment_passed" := Config("Assessment Passed", "bg-purple-100 text-purple-800"),
    "assessment_failed" := Config("Assessment Failed", "bg-red-100 text-red-800"),
    "course_completed" := Config("Course Complete", "bg-emerald-100 text-emerald-800"),
    "certificate_issued" := Config("Certificate Issued", "bg-yellow-100 text-yellow-800")]

  /** getActivityBadge: `config[type] || { label: type, color: grey }`. */
  function Badge(kind: string): (c: Config)
    ensures kind in BadgeConfigs ==> c == BadgeConfigs[kind]
    ensures kind !in BadgeConfigs ==> c.caption == kind && c.color == "bg-gray-100 text-gray-800"
  {
    if kind in BadgeConfigs then BadgeConfigs[kind] else Config(kind, "bg-gray-100 text-gray-800")
  }

  /** An unknown type is shown under its own name, a known one never is. */
  lemma BadgeFallback(kind: string)
    ensures Badge(kind).caption == kind <==> kind !in BadgeConfigs
    ensures Badge("assessment_failed").caption == "Assessment Failed" && Badge("quiz_started").caption == "quiz_started"
  {
    if kind in BadgeConfigs {
      assert kind in BadgeConfigs.Keys;
    }
  }

  datatype Icon = BookOpen | CheckCircle | Award | TrendingUp | Clock

  /** getActivityIcon: four types have their own icon, every other one a clock. */
  function ActivityIcon(kind: string): (i: Icon)
    ensures i == Clock <==> kind !in {"enrollment", "module_completed", "assessment_passed", "course_completed"}
  {
    match kind
    case "enrollment" => BookOpen
    case "module_completed" => CheckCircle
    case "assessment_passed" => Award
    case "course_completed" => TrendingUp
    case _ => Clock
  }

  const Green := "text-green-600"
  const Red := "text-red-600"

  /** The score line's colour: shown only for a score, green from 70. */
  function ScoreColor(a: Activity): (c: Option<string>)
    ensures c.Some? <==> a.score.Some?
    ensures c == Some(Green) <==> a.score.Some? && a.score.value >= 70
    ensures c == Some(Red) <==> a.score.Some? && a.score.value < 70
  {
    if a.score.None? then None else if a.score.value >= 70 then Some(Green) else Some(Red)
  }
}

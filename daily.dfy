/** The summary arithmetic of the daily activity view: durations rendered as
    hours and minutes, the total duration, the number of activities per
    category, the colour of a category and the heading's date text. */
module Daily {
  import opened Wrappers
  import opened Text

  /** An activity as the view receives it; durations are whole minutes. */
  datatype Activity = Activity(
    id: string,
    date: string,
    category: string,
    title: string,
    description: Option<string>,
    duration: nat,
    timestamp: string)

  // ---------------------------------------------------------------------------
  // formatDuration

  /** `Math.floor(minutes / 60)` and `minutes % 60` on a nonnegative count. */
  function SplitDuration(minutes: nat): (hm: (nat, nat))
    ensures hm.0 * 60 + hm.1 == minutes
    ensures hm.1 < 60
  {
    (minutes / 60, minutes % 60)
  }

  /** The hours and minutes of a duration are the only such pair. */
  lemma SplitDurationUnique(minutes: nat, hours: nat, mins: nat)
    requires hours * 60 + mins == minutes && mins < 60
    ensures SplitDuration(minutes) == (hours, mins)
  {
  }

  /** `hours > 0 ? "${hours}h ${mins}m" : "${mins}m"` */
  function FormatDuration(minutes: nat): (s: string)
    ensures minutes < 60 ==> s == NatToDecimal(minutes) + "m"
    ensures minutes >= 60 ==>
      s == NatToDecimal(minutes / 60) + "h " + NatToDecimal(minutes % 60) + "m"
  {
    var (hours, mins) := SplitDuration(minutes);
    if hours > 0 then NatToDecimal(hours) + "h " + NatToDecimal(mins) + "m"
    else NatToDecimal(mins) + "m"
  }

  /** Distinct durations render as distinct texts. */
  lemma {:induction false} FormatDurationInjective(a: nat, b: nat)
    requires FormatDuration(a) == FormatDuration(b)
    ensures a == b
  {
    var s := FormatDuration(a);
    if a < 60 && b < 60 {
      assert NatToDecimal(a) == s[..|s| - 1] == NatToDecimal(b);
      NatToDecimalInjective(a, b);
    } else if a >= 60 && b >= 60 {
      var ha, ma := NatToDecimal(a / 60), NatToDecimal(a % 60);
      var hb, mb := NatToDecimal(b / 60), NatToDecimal(b % 60);
      assert s == ha + ['h'] + ([' '] + ma + "m");
      assert s == hb + ['h'] + ([' '] + mb + "m");
      NoLetterInDigits(ha, 'h');
      NoLetterInDigits(hb, 'h');
      SplitAtSeparator(ha, [' '] + ma + "m", hb, [' '] + mb + "m", 'h');
      var rest := [' '] + ma + "m";
      assert ma == rest[1..|rest| - 1] == mb;
      NatToDecimalInjective(a / 60, b / 60);
      NatToDecimalInjective(a % 60, b % 60);
    } else if a < 60 {
      HoursTextHasH(b);
    } else {
      HoursTextHasH(a);
    }
  }

  lemma NoLetterInDigits(s: string, c: char)
    requires IsDigits(s) && !IsDigit(c)
    ensures c !in s
  {
  }

  /** A duration renders with an 'h' exactly when it is an hour or more. */
  lemma HoursTextHasH(minutes: nat)
    ensures 'h' in FormatDuration(minutes) <==> minutes >= 60
  {
    var s := FormatDuration(minutes);
    if minutes >= 60 {
      var hs := NatToDecimal(minutes / 60);
      assert s[|hs|] == 'h';
    } else {
      var ms := NatToDecimal(minutes);
      assert forall i :: 0 <= i < |s| ==> s[i] == 'm' || IsDigit(s[i]);
    }
  }

  // ---------------------------------------------------------------------------
  // totalDuration

  /** `activities.reduce((sum, activity) => sum + activity.duration, sum0)`:
      a left fold. */
  function SumDurations(sum: nat, activities: seq<Activity>): (r: nat)
    ensures r >= sum
    ensures r == sum <==> forall i :: 0 <= i < |activities| ==> activities[i].duration == 0
    decreases activities
  {
    if activities == [] then sum
    else SumDurations(sum + activities[0].duration, activities[1..])
  }

  /** The "Total Duration" figure: 0 exactly when every activity lasts no
      time, in particular for an empty day. */
  function TotalDuration(activities: seq<Activity>): (t: nat)
    ensures t == 0 <==> forall i :: 0 <= i < |activities| ==> activities[i].duration == 0
  {
    SumDurations(0, activities)
  }

  /** The accumulator of the fold is only an offset. */
  lemma {:induction false} SumDurationsOffset(sum: nat, activities: seq<Activity>)
    ensures SumDurations(sum, activities) == sum + TotalDuration(activities)
    decreases activities
  {
    if activities != [] {
      SumDurationsOffset(sum + activities[0].duration, activities[1..]);
      SumDurationsOffset(activities[0].duration, activities[1..]);
    }
  }

  lemma TotalDurationEmpty()
    ensures TotalDuration([]) == 0
  {
  }

  /** Appending an activity adds exactly its duration. */
  lemma {:induction false} TotalDurationAppend(activities: seq<Activity>, a: Activity)
    ensures TotalDuration(activities + [a]) == TotalDuration(activities) + a.duration
  {
    TotalDurationConcat(activities, [a]);
    assert [a][1..] == [];
    assert TotalDuration([a]) == SumDurations(a.duration, []) == a.duration;
  }

  /** The total of a concatenation is the sum of the totals. */
  lemma {:induction false} TotalDurationConcat(a: seq<Activity>, b: seq<Activity>)
    ensures TotalDuration(a + b) == TotalDuration(a) + TotalDuration(b)
    decreases |a|
  {
    if a == [] {
      assert a + b == b;
    } else {
      assert (a + b)[1..] == a[1..] + b;
      SumDurationsOffset(a[0].duration, a[1..] + b);
      SumDurationsOffset(a[0].duration, a[1..]);
      TotalDurationConcat(a[1..], b);
    }
  }

  // ---------------------------------------------------------------------------
  // categoryCounts

  /** The categories that occur among the activities. */
  function Categories(activities: seq<Activity>): set<string> {
    set a | a in activities :: a.category
  }

  /** The number of activities whose category is c. */
  function Count(activities: seq<Activity>, c: string): nat
  {
    if activities == [] then 0
    else Count(activities[..|activities| - 1], c) +
         (if activities[|activities| - 1].category == c then 1 else 0)
  }

  /** The dictionary the reduce is meant to build: one key per occurring
      category, mapped to its number of activities. */
  function CountMap(activities: seq<Activity>): map<string, nat> {
    map c | c in Categories(activities) :: Count(activities, c)
  }

  lemma CountMapAppend(activities: seq<Activity>, a: Activity)
    ensures var m := CountMap(activities);
      CountMap(activities + [a]) ==
        m[a.category := (if a.category in m then m[a.category] else 0) + 1]
  {
    var s := activities + [a];
    assert s[..|s| - 1] == activities;
    assert Categories(s) == Categories(activities) + {a.category};
    var m := CountMap(activities);
    forall c | c in Categories(activities) && c != a.category
      ensures Count(s, c) == m[c]
    {
    }
    if a.category !in m {
      assert Count(activities, a.category) == 0 by {
        CountAbsent(activities, a.category);
      }
    }
  }

  lemma {:induction false} CountAbsent(activities: seq<Activity>, c: string)
    requires c !in Categories(activities)
    ensures Count(activities, c) == 0
  {
    if activities != [] {
      var init := activities[..|activities| - 1];
      assert Categories(init) <= Categories(activities) by {
        forall a | a in init ensures a in activities { }
      }
      CountAbsent(init, c);
    }
  }

  /** `activities.reduce((acc, activity) => { acc[activity.category] =
      (acc[activity.category] || 0) + 1; return acc; }, {})`, as a loop that
      updates the dictionary in place. */
  method CategoryCounts(activities: seq<Activity>) returns (counts: map<string, nat>)
    ensures counts.Keys == Categories(activities)
    ensures forall c :: c in counts ==> counts[c] == Count(activities, c) && counts[c] >= 1
    ensures counts == CountMap(activities)
  {
    counts := map[];
    var i := 0;
    while i < |activities|
      invariant 0 <= i <= |activities|
      invariant counts == CountMap(activities[..i])
    {
      var c := activities[i].category;
      CountMapAppend(activities[..i], activities[i]);
      assert activities[..i + 1] == activities[..i] + [activities[i]];
      counts := counts[c := (if c in counts then counts[c] else 0) + 1];
      i := i + 1;
    }
    assert activities[..i] == activities;
    forall c | c in counts ensures counts[c] >= 1 {
      CountPresent(activities, c);
    }
  }

  lemma {:induction false} CountPresent(activities: seq<Activity>, c: string)
    requires c in Categories(activities)
    ensures Count(activities, c) >= 1
  {
    var last := activities[|activities| - 1];
    var init := activities[..|activities| - 1];
    if last.category != c {
      var a :| a in activities && a.category == c;
      assert activities == init + [last];
      assert a in init;
      CountPresent(init, c);
    }
  }

  /** `Object.keys(categoryCounts).length`, the "Categories" figure. */
  method CategoryCount(activities: seq<Activity>) returns (n: nat)
    ensures n == |Categories(activities)|
    ensures n <= |activities|
    ensures n == 0 <==> activities == []
  {
    var counts := CategoryCounts(activities);
    n := |counts|;
    CategoriesBound(activities);
    if activities != [] {
      assert activities[0].category in Categories(activities);
    }
  }

  /** There are never more categories than activities. */
  lemma {:induction false} CategoriesBound(activities: seq<Activity>)
    ensures |Categories(activities)| <= |activities|
  {
    if activities != [] {
      var init := activities[..|activities| - 1];
      var last := activities[|activities| - 1];
      assert activities == init + [last];
      assert Categories(activities) == Categories(init) + {last.category};
      CategoriesBound(init);
    }
  }

  /** The sum of the values of a dictionary of counts. */
  ghost function SumValues(m: map<string, nat>): nat
    decreases |m|
  {
    if m == map[] then 0
    else
      var k :| k in m;
      assert |m - {k}| < |m| by { assert (m - {k}).Keys == m.Keys - {k}; }
      m[k] + SumValues(m - {k})
  }

  /** The sum may peel off any key, not only the one its definition picks. */
  lemma SumValuesRemove(m: map<string, nat>, k: string)
    requires k in m
    ensures SumValues(m) == m[k] + SumValues(m - {k})
    decreases |m|
  {
    var j :| j in m && SumValues(m) == m[j] + SumValues(m - {j});
    if j != k {
      assert (m - {j}).Keys == m.Keys - {j};
      assert (m - {k}).Keys == m.Keys - {k};
      SumValuesRemove(m - {j}, k);
      SumValuesRemove(m - {k}, j);
      assert m - {j} - {k} == m - {k} - {j};
    }
  }

  /** The counts add up to the number of activities. */
  lemma {:induction false} CountsSumToLength(activities: seq<Activity>)
    ensures SumValues(CountMap(activities)) == |activities|
  {
    if activities == [] {
      assert CountMap(activities) == map[];
    } else {
      var init := activities[..|activities| - 1];
      var a := activities[|activities| - 1];
      assert activities == init + [a];
      CountsSumToLength(init);
      CountMapAppend(init, a);
      var m := CountMap(init);
      SumValuesIncrement(m, a.category);
    }
  }

  /** Counting one more occurrence of a key adds one to the sum. */
  lemma SumValuesIncrement(m: map<string, nat>, k: string)
    ensures SumValues(m[k := (if k in m then m[k] else 0) + 1]) == SumValues(m) + 1
  {
    var m' := m[k := (if k in m then m[k] else 0) + 1];
    SumValuesRemove(m', k);
    if k in m {
      SumValuesRemove(m, k);
      assert m' - {k} == m - {k};
    } else {
      assert m' - {k} == m;
    }
  }

  // ---------------------------------------------------------------------------
  // categoryColors

  const CategoryColors: map<string, string> := map[
    "physical" := "bg-blue-100 text-blue-800 border-blue-300",
    "spiritual" := "bg-purple-100 text-purple-800 border-purple-300",
    "academic" := "bg-yellow-100 text-yellow-800 border-yellow-300",
    "project" := "bg-green-100 text-green-800 border-green-300",
    "entertainment" := "bg-pink-100 text-pink-800 border-pink-300"
  ]

  const FallbackColor: string := "bg-gray-100 border-gray-300"

  /** `categoryColors[activity.category] || 'bg-gray-100 border-gray-300'`:
      a missing key and an empty (falsy) entry both fall back. */
  function ColorFor(category: string): (color: string)
    ensures color == FallbackColor <==> category !in CategoryColors
    ensures category in CategoryColors ==> color == CategoryColors[category]
  {
    var found := if category in CategoryColors then Some(CategoryColors[category]) else None;
    if found.Some? && found.value != "" then found.value else FallbackColor
  }

  /** The five known categories have their own colours; every other string
      gets the gray fallback. */
  lemma ColorTable(category: string)
    ensures category == "physical" ==> ColorFor(category) == "bg-blue-100 text-blue-800 border-blue-300"
    ensures category == "spiritual" ==> ColorFor(category) == "bg-purple-100 text-purple-800 border-purple-300"
    ensures category == "academic" ==> ColorFor(category) == "bg-yellow-100 text-yellow-800 border-yellow-300"
    ensures category == "project" ==> ColorFor(category) == "bg-green-100 text-green-800 border-green-300"
    ensures category == "entertainment" ==> ColorFor(category) == "bg-pink-100 text-pink-800 border-pink-300"
    ensures category !in {"physical", "spiritual", "academic", "project", "entertainment"} ==>
      ColorFor(category) == FallbackColor
  {
  }

  // ---------------------------------------------------------------------------
  // formatDate

  const DayNames: seq<string> :=
    ["Sunday", "Monday", "Tuesday", "Wednesday", "Thursday", "Friday", "Saturday"]

  const MonthNames: seq<string> :=
    ["January", "February", "March", "April", "May", "June",
     "July", "August", "September", "October", "November", "December"]

  /** `${days[getDay()]}, ${months[getMonth()]} ${getDate()}, ${getFullYear()}`
      with the `Date` accessors taken as inputs; getDay() is in 0..6 and
      getMonth() in 0..11. */
  function FormatDate(day: nat, month: nat, date: nat, year: nat): (s: string)
    requires day < |DayNames| && month < |MonthNames|
    ensures |s| > |DayNames[day]| + 1
    ensures s[..|DayNames[day]| + 2] == DayNames[day] + ", "
    ensures var y := NatToDecimal(year); |s| >= |y| && s[|s| - |y|..] == y
  {
    DayNames[day] + ", " + MonthNames[month] + " " + NatToDecimal(date) + ", " + NatToDecimal(year)
  }

  /** The tables have seven and twelve names, so every getDay() and getMonth()
      value indexes a name; no two days and no two months share a name, and no
      name holds the separators of the heading. */
  lemma NameTables()
    ensures |DayNames| == 7 && |MonthNames| == 12
    ensures forall i, j :: 0 <= i < j < |DayNames| ==> DayNames[i] != DayNames[j]
    ensures forall i, j :: 0 <= i < j < |MonthNames| ==> MonthNames[i] != MonthNames[j]
    ensures forall i :: 0 <= i < |DayNames| ==> ',' !in DayNames[i]
    ensures forall i :: 0 <= i < |MonthNames| ==> ' ' !in MonthNames[i]
  {
  }

  /** The heading names its date unambiguously: different inputs give
      different texts. */
  lemma FormatDateInjective(d1: nat, m1: nat, n1: nat, y1: nat, d2: nat, m2: nat, n2: nat, y2: nat)
    requires d1 < 7 && m1 < 12 && d2 < 7 && m2 < 12
    requires FormatDate(d1, m1, n1, y1) == FormatDate(d2, m2, n2, y2)
    ensures d1 == d2 && m1 == m2 && n1 == n2 && y1 == y2
  {
    var tailA := NatToDecimal(n1) + ", " + NatToDecimal(y1);
    var tailB := NatToDecimal(n2) + ", " + NatToDecimal(y2);
    HeadingSplit(d1, m1, tailA, n1, y1);
    HeadingSplit(d2, m2, tailB, n2, y2);
    DayPartInjective(d1, d2, [' '] + MonthNames[m1] + [' '] + tailA, [' '] + MonthNames[m2] + [' '] + tailB);
    MonthPartInjective(m1, m2, tailA, tailB);
    DateTailInjective(n1, y1, n2, y2);
  }

  lemma DayPartInjective(d1: nat, d2: nat, restA: string, restB: string)
    requires d1 < 7 && d2 < 7
    requires DayNames[d1] + [','] + restA == DayNames[d2] + [','] + restB
    ensures d1 == d2 && restA == restB
  {
    NameTables();
    SplitAtSeparator(DayNames[d1], restA, DayNames[d2], restB, ',');
  }

  lemma MonthPartInjective(m1: nat, m2: nat, tailA: string, tailB: string)
    requires m1 < 12 && m2 < 12
    requires [' '] + MonthNames[m1] + [' '] + tailA == [' '] + MonthNames[m2] + [' '] + tailB
    ensures m1 == m2 && tailA == tailB
  {
    NameTables();
    var restA := [' '] + MonthNames[m1] + [' '] + tailA;
    var restB := [' '] + MonthNames[m2] + [' '] + tailB;
    assert restA[1..] == MonthNames[m1] + [' '] + tailA;
    assert restB[1..] == MonthNames[m2] + [' '] + tailB;
    SplitAtSeparator(MonthNames[m1], tailA, MonthNames[m2], tailB, ' ');
  }

  lemma HeadingSplit(day: nat, month: nat, tail: string, date: nat, year: nat)
    requires day < 7 && month < 12
    requires tail == NatToDecimal(date) + ", " + NatToDecimal(year)
    ensures FormatDate(day, month, date, year) ==
      DayNames[day] + [','] + ([' '] + MonthNames[month] + [' '] + tail)
  {
  }

  /** The day of the month and the year are recovered from "<date>, <year>". */
  lemma DateTailInjective(n1: nat, y1: nat, n2: nat, y2: nat)
    requires NatToDecimal(n1) + ", " + NatToDecimal(y1) == NatToDecimal(n2) + ", " + NatToDecimal(y2)
    ensures n1 == n2 && y1 == y2
  {
    DigitsCommaSplit(NatToDecimal(n1), NatToDecimal(y1), NatToDecimal(n2), NatToDecimal(y2));
    NatToDecimalInjective(n1, n2);
    NatToDecimalInjective(y1, y2);
  }

  lemma DigitsCommaSplit(na: string, ya: string, nb: string, yb: string)
    requires IsDigits(na) && IsDigits(nb)
    requires na + ", " + ya == nb + ", " + yb
    ensures na == nb && ya == yb
  {
    NoLetterInDigits(na, ',');
    NoLetterInDigits(nb, ',');
    assert na + ", " + ya == na + [','] + ([' '] + ya);
    assert nb + ", " + yb == nb + [','] + ([' '] + yb);
    SplitAtSeparator(na, [' '] + ya, nb, [' '] + yb, ',');
    assert ya == ([' '] + ya)[1..];
    assert yb == ([' '] + yb)[1..];
  }
}

/**
 * The forecast digest of handlers/forecast.py: `format_forecast_message` reduces an
 * OpenWeatherMap 5-day/3-hour reply to the next 8 intervals and a per-day summary of at
 * most 5 UTC days (lowest and highest temperature, most frequent condition), and
 * `get_forecast` chooses the request parameters. Temperatures are only compared, so they
 * are integers here; the text rendering (`strftime`, `.1f`) is not modelled, the digest is
 * returned as a structure.
 */
module Forecast {
  import opened Wrappers
  import opened Sorting

  /** One element of the reply's `list`: its `dt` timestamp, and `main.temp` and
      `weather[0].main` when they are present. */
  datatype Entry = Entry(dt: int, temp: Option<int>, condition: Option<string>)

  /** The reply: `city.name`, `city.country` and `list`, each possibly absent. */
  datatype ForecastData = ForecastData(cityName: Option<string>, country: Option<string>, list: Option<seq<Entry>>)

  /** One line of the 24-hour section: the UTC clock time of the interval, temperature and condition. */
  datatype Interval = Interval(hour: nat, minute: nat, temp: int, condition: string)

  /** One line of the 5-day section; `day` numbers UTC days since the epoch. */
  datatype DaySummary = DaySummary(day: int, minTemp: int, maxTemp: int, condition: string)

  /** The digest, or the fixed apology when formatting raises. */
  datatype Digest = Digest(city: string, country: string, hourly: seq<Interval>, daily: seq<DaySummary>)
                  | Fallback

  const SecondsPerDay := 86400
  /** 8 intervals of 3 hours: the next 24 hours. */
  const HourlyIntervals: nat := 8
  const MaxDays: nat := 5

  /** An entry that can be read without a KeyError. */
  predicate Readable(e: Entry) {
    e.temp.Some? && e.condition.Some?
  }

  predicate AllReadable(list: seq<Entry>) {
    forall i :: 0 <= i < |list| ==> Readable(list[i])
  }

  /** The UTC date of a timestamp, as a day number; `/` is floor division for a positive
      divisor, as the calendar date of a negative timestamp requires. */
  function DayOf(dt: int): int {
    dt / SecondsPerDay
  }

  function IntervalOf(e: Entry): (r: Interval)
    requires Readable(e)
    ensures r.hour < 24 && r.minute < 60
  {
    var secondOfDay := SecondOfDay(e.dt);
    Interval(secondOfDay / 3600, (secondOfDay % 3600) / 60, e.temp.value, e.condition.value)
  }

  /** Seconds since UTC midnight. With the day number it gives the timestamp back, so the
      clock time shown and the day the entry is grouped under describe the same instant. */
  function SecondOfDay(dt: int): (s: nat)
    ensures s < SecondsPerDay
    ensures DayOf(dt) * SecondsPerDay + s == dt
  {
    dt % SecondsPerDay
  }

  /** What one day's group holds: its temperatures and conditions, in list order. */
  datatype DayGroup = DayGroup(temps: seq<int>, conditions: seq<string>)

  /** The group of day `d` built from `list`. */
  function Group(list: seq<Entry>, d: int): (g: DayGroup)
    requires AllReadable(list)
    ensures |g.temps| == |g.conditions| <= |list|
  {
    if list == [] then DayGroup([], [])
    else
      var init := list[..|list| - 1];
      var e := list[|list| - 1];
      var g := Group(init, d);
      if DayOf(e.dt) == d then DayGroup(g.temps + [e.temp.value], g.conditions + [e.condition.value]) else g
  }

  /** The days that occur in `list`. */
  function Days(list: seq<Entry>): set<int> {
    set i | 0 <= i < |list| :: DayOf(list[i].dt)
  }

  /** A day's group is empty exactly when no entry falls on it. */
  lemma {:induction false} GroupNonEmpty(list: seq<Entry>, d: int)
    requires AllReadable(list)
    ensures Group(list, d).temps != [] <==> d in Days(list)
  {
    if list != [] {
      var init := list[..|list| - 1];
      GroupNonEmpty(init, d);
      DaysSnoc(list);
    }
  }

  /** The days of a list are those of all but its last entry, plus the last entry's day. */
  lemma DaysSnoc(list: seq<Entry>)
    requires list != []
    ensures Days(list) == Days(list[..|list| - 1]) + {DayOf(list[|list| - 1].dt)}
  {
    var init := list[..|list| - 1];
    forall x | x in Days(list) ensures x in Days(init) + {DayOf(list[|list| - 1].dt)} {
      var i :| 0 <= i < |list| && DayOf(list[i].dt) == x;
      if i < |list| - 1 {
        assert init[i] == list[i];
      }
    }
    forall x | x in Days(init) ensures x in Days(list) {
      var i :| 0 <= i < |init| && DayOf(init[i].dt) == x;
      assert list[i] == init[i];
    }
  }

  /** The sum of the group sizes over the days in `ds`. */
  function GroupSizes(list: seq<Entry>, ds: seq<int>): nat
    requires AllReadable(list)
  {
    if ds == [] then 0 else |Group(list, ds[0]).temps| + GroupSizes(list, ds[1..])
  }

  lemma {:induction false} GroupSizesStep(list: seq<Entry>, e: Entry, ds: seq<int>)
    requires AllReadable(list) && Readable(e) && Distinct(ds)
    ensures AllReadable(list + [e])
    ensures GroupSizes(list + [e], ds) == GroupSizes(list, ds) + (if DayOf(e.dt) in ds then 1 else 0)
  {
    var l := list + [e];
    assert AllReadable(l) by {
      forall i | 0 <= i < |l| ensures Readable(l[i]) {
        if i < |list| {
          assert l[i] == list[i];
        }
      }
    }
    assert l[..|l| - 1] == list;
    if ds != [] {
      assert Distinct(ds[1..]) by {
        forall i, j | 0 <= i < j < |ds[1..]| ensures ds[1..][i] != ds[1..][j] {
          assert ds[1..][i] == ds[i + 1] && ds[1..][j] == ds[j + 1];
        }
      }
      GroupSizesStep(list, e, ds[1..]);
      if DayOf(e.dt) == ds[0] {
        assert DayOf(e.dt) !in ds[1..] by {
          forall j | 0 <= j < |ds[1..]| ensures ds[1..][j] != ds[0] {
            assert ds[1..][j] == ds[j + 1];
          }
        }
      }
    }
  }

  /** Every entry lands in exactly one day's group: over any duplicate-free list of days
      that covers all the entries' days, the group sizes add up to the number of entries. */
  lemma {:induction false} EachEntryInOneGroup(list: seq<Entry>, ds: seq<int>)
    requires AllReadable(list) && Distinct(ds)
    requires forall i :: 0 <= i < |list| ==> DayOf(list[i].dt) in ds
    ensures GroupSizes(list, ds) == |list|
  {
    if list == [] {
      EmptyGroupSizes(ds);
    } else {
      var init := list[..|list| - 1];
      var e := list[|list| - 1];
      assert AllReadable(init) by {
        forall i | 0 <= i < |init| ensures Readable(init[i]) {
          assert init[i] == list[i];
        }
      }
      assert forall i :: 0 <= i < |init| ==> DayOf(init[i].dt) == DayOf(list[i].dt);
      EachEntryInOneGroup(init, ds);
      assert list == init + [e];
      GroupSizesStep(init, e, ds);
    }
  }

  lemma {:induction false} EmptyGroupSizes(ds: seq<int>)
    ensures GroupSizes([], ds) == 0
  {
    if ds != [] {
      EmptyGroupSizes(ds[1..]);
    }
  }

  /** `min(temps)`. */
  function MinOf(s: seq<int>): (m: int)
    requires s != []
    ensures m in s && forall i :: 0 <= i < |s| ==> m <= s[i]
  {
    if |s| == 1 then s[0]
    else
      var rest := MinOf(s[1..]);
      assert forall i :: 1 <= i < |s| ==> s[i] == s[1..][i - 1];
      if s[0] <= rest then s[0] else rest
  }

  /** `max(temps)`. */
  function MaxOf(s: seq<int>): (m: int)
    requires s != []
    ensures m in s && forall i :: 0 <= i < |s| ==> s[i] <= m
  {
    if |s| == 1 then s[0]
    else
      var rest := MaxOf(s[1..]);
      assert forall i :: 1 <= i < |s| ==> s[i] == s[1..][i - 1];
      if s[0] >= rest then s[0] else rest
  }

  /** How often a condition was seen on a day: the `defaultdict(int)` count. */
  function Count(conditions: seq<string>, c: string): nat {
    multiset(conditions)[c]
  }

  /** The position, among the first `n`, that `max(counts, key=counts.get)` settles on:
      scanning left to right it moves on only to a strictly higher count. */
  function BestUpTo(conditions: seq<string>, n: nat): (k: nat)
    requires 0 < n <= |conditions|
    ensures k < n
    ensures forall i :: 0 <= i < n ==> Count(conditions, conditions[i]) <= Count(conditions, conditions[k])
    ensures forall i :: 0 <= i < k ==> Count(conditions, conditions[i]) < Count(conditions, conditions[k])
  {
    if n == 1 then 0
    else
      var b := BestUpTo(conditions, n - 1);
      if Count(conditions, conditions[n - 1]) > Count(conditions, conditions[b]) then n - 1 else b
  }

  /** The day's main condition: one with the highest count, and among those the one seen
      first. The counter's keys are the conditions in order of first appearance, so the first
      key with the highest count is the value at the earliest position with that count. */
  function MainCondition(conditions: seq<string>): (c: string)
    requires conditions != []
    ensures c in conditions
    ensures forall i :: 0 <= i < |conditions| ==> Count(conditions, conditions[i]) <= Count(conditions, c)
  {
    conditions[BestUpTo(conditions, |conditions|)]
  }

  /** Ties go to the condition seen first. */
  lemma MainConditionTieBreak(conditions: seq<string>, i: nat)
    requires conditions != [] && i < |conditions|
    requires Count(conditions, conditions[i]) == Count(conditions, MainCondition(conditions))
    ensures exists k :: 0 <= k <= i && conditions[k] == MainCondition(conditions)
  {
    var k := BestUpTo(conditions, |conditions|);
    assert conditions[k] == MainCondition(conditions);
  }

  function Summarize(list: seq<Entry>, d: int): (s: DaySummary)
    requires AllReadable(list) && d in Days(list)
    ensures s.day == d && s.minTemp <= s.maxTemp
    ensures s.minTemp in Group(list, d).temps && s.maxTemp in Group(list, d).temps
  {
    GroupNonEmpty(list, d);
    var g := Group(list, d);
    DaySummary(d, MinOf(g.temps), MaxOf(g.temps), MainCondition(g.conditions))
  }

  /** `a <= b` on day numbers. The source sorts the "%Y-%m-%d" keys as strings; the two
      orders agree while years have four digits (years 1000 to 9999). */
  predicate DayLe(a: int, b: int) {
    a <= b
  }

  lemma DayLeIsTotalOrder()
    ensures Total(DayLe) && Transitive(DayLe)
  {
  }

  /** The first up to 5 days in ascending order. */
  predicate ShownDays(list: seq<Entry>, shown: seq<int>) {
    |shown| == (if |Days(list)| < MaxDays then |Days(list)| else MaxDays)
    && (forall j :: 0 < j < |shown| ==> shown[j - 1] < shown[j])
    && (forall j :: 0 <= j < |shown| ==> shown[j] in Days(list))
    && (forall d, j :: d in Days(list) && 0 <= j < |shown| && d !in shown ==> shown[j] < d)
  }

  /** The 24-hour section: the first 8 entries, in list order. */
  method Hourly(list: seq<Entry>) returns (hourly: Option<seq<Interval>>)
    ensures AllReadable(list) ==>
      hourly.Some? && |hourly.value| == (if |list| < HourlyIntervals then |list| else HourlyIntervals)
      && forall i :: 0 <= i < |hourly.value| ==> hourly.value[i] == IntervalOf(list[i])
    ensures hourly.None? ==> !AllReadable(list)
  {
    var parts: seq<Interval> := [];
    var n := if |list| < HourlyIntervals then |list| else HourlyIntervals;
    for i := 0 to n
      invariant |parts| == i
      invariant forall k :: 0 <= k < i ==> Readable(list[k]) && parts[k] == IntervalOf(list[k])
    {
      if !Readable(list[i]) {
        return None;
      }
      parts := parts + [IntervalOf(list[i])];
    }
    return Some(parts);
  }

  /** The `daily_summary` loop: fills the groups entry by entry, remembering the days in
      the order they were first seen. */
  method GroupByDay(list: seq<Entry>) returns (summary: Option<(map<int, DayGroup>, seq<int>)>)
    ensures summary.None? <==> !AllReadable(list)
    ensures summary.Some? ==>
      var (groups, seen) := summary.value;
      Distinct(seen) && (forall d :: d in groups <==> d in Days(list))
      && (forall j :: 0 <= j < |seen| ==> seen[j] in groups)
      && (forall d :: d in groups ==> d in seen)
      && forall d :: d in groups ==> groups[d] == Group(list, d)
  {
    var groups: map<int, DayGroup> := map[];
    var seen: seq<int> := [];
    for i := 0 to |list|
      invariant AllReadable(list[..i])
      invariant Distinct(seen)
      invariant forall d :: d in groups <==> d in Days(list[..i])
      invariant forall j :: 0 <= j < |seen| ==> seen[j] in groups
      invariant forall d :: d in groups ==> d in seen
      invariant forall d :: d in groups ==> groups[d] == Group(list[..i], d)
    {
      var e := list[i];
      if !Readable(e) {
        return None;
      }
      var prefix := list[..i + 1];
      assert prefix[..i] == list[..i] && prefix[i] == e;
      assert AllReadable(prefix);
      var d := DayOf(e.dt);
      DaysSnoc(prefix);
      var acc := if d in groups then groups[d] else DayGroup([], []);
      if d !in groups {
        GroupNonEmpty(list[..i], d);
        seen := seen + [d];
      }
      groups := groups[d := DayGroup(acc.temps + [e.temp.value], acc.conditions + [e.condition.value])];
      forall x | x in groups ensures groups[x] == Group(prefix, x) {
        if x != d {
          GroupNonEmpty(list[..i], x);
        }
      }
    }
    assert list[..|list|] == list;
    return Some((groups, seen));
  }

  /** `format_forecast_message`. A reply without a `list`, or with an entry that lacks its
      temperature or condition, makes the formatting raise and gives the fallback. */
  method FormatForecast(data: ForecastData) returns (digest: Digest)
    ensures (data.list.None? || !AllReadable(data.list.value)) <==> digest.Fallback?
    ensures digest.Digest? ==>
      var list := data.list.value;
      digest.city == data.cityName.GetOr("Unknown") && digest.country == data.country.GetOr("Unknown")
      && |digest.hourly| == (if |list| < HourlyIntervals then |list| else HourlyIntervals)
      && (forall i :: 0 <= i < |digest.hourly| ==> digest.hourly[i] == IntervalOf(list[i]))
      && ShownDays(list, seq(|digest.daily|, j requires 0 <= j < |digest.daily| => digest.daily[j].day))
      && forall j :: 0 <= j < |digest.daily| ==>
           digest.daily[j].day in Days(list) && digest.daily[j] == Summarize(list, digest.daily[j].day)
  {
    if data.list.None? {
      return Fallback;
    }
    var list := data.list.value;
    var hourly := Hourly(list);
    if hourly.None? {
      return Fallback;
    }
    var summary := GroupByDay(list);
    if summary.None? {
      return Fallback;
    }
    var (groups, seen) := summary.value;
    var shown := FirstDays(list, seen);
    var daily := DailySummaries(list, groups, shown);
    assert seq(|daily|, j requires 0 <= j < |daily| => daily[j].day) == shown;
    digest := Digest(data.cityName.GetOr("Unknown"), data.country.GetOr("Unknown"), hourly.value, daily);
  }

  /** The loop over the shown days: each day's lowest and highest temperature and its most
      frequent condition, read from the groups. */
  method DailySummaries(list: seq<Entry>, groups: map<int, DayGroup>, shown: seq<int>)
    returns (daily: seq<DaySummary>)
    requires AllReadable(list)
    requires forall j :: 0 <= j < |shown| ==> shown[j] in Days(list)
    requires forall d :: d in Days(list) ==> d in groups && groups[d] == Group(list, d)
    ensures |daily| == |shown|
    ensures forall k :: 0 <= k < |shown| ==> daily[k] == Summarize(list, shown[k])
  {
    daily := [];
    for j := 0 to |shown|
      invariant |daily| == j
      invariant forall k :: 0 <= k < j ==> daily[k] == Summarize(list, shown[k])
    {
      var g := groups[shown[j]];
      GroupNonEmpty(list, shown[j]);
      daily := daily + [DaySummary(shown[j], MinOf(g.temps), MaxOf(g.temps), MainCondition(g.conditions))];
    }
  }

  /** `sorted(daily_summary.items())[:5]`, by day. */
  method FirstDays(list: seq<Entry>, seen: seq<int>) returns (shown: seq<int>)
    requires Distinct(seen)
    requires forall d :: d in seen <==> d in Days(list)
    ensures ShownDays(list, shown)
  {
    var sorted := Sort(seen, DayLe);
    SortedDays(seen);
    DistinctCardinality(sorted, Days(list));
    shown := if |sorted| <= MaxDays then sorted else sorted[..MaxDays];
    forall d, j | d in Days(list) && 0 <= j < |shown| && d !in shown ensures shown[j] < d {
      var k :| 0 <= k < |sorted| && sorted[k] == d;
      assert k >= |shown|;
      AscendingPairwise(sorted, j, k);
    }
  }

  /** `sorted` on distinct days: the same days, strictly ascending. */
  lemma SortedDays(seen: seq<int>)
    requires Distinct(seen)
    ensures var sorted := Sort(seen, DayLe);
      Distinct(sorted)
      && (forall d :: d in sorted <==> d in seen)
      && forall j :: 0 < j < |sorted| ==> sorted[j - 1] < sorted[j]
  {
    DayLeIsTotalOrder();
    var sorted := Sort(seen, DayLe);
    SortSorted(seen, DayLe);
    SortDistinct(seen, DayLe);
    forall d ensures d in sorted <==> d in seen {
      assert d in multiset(sorted) <==> d in multiset(seen);
    }
    forall j | 0 < j < |sorted| ensures sorted[j - 1] < sorted[j] {
      assert DayLe(sorted[j - 1], sorted[j]);
    }
  }

  lemma {:induction false} AscendingPairwise(s: seq<int>, i: nat, j: nat)
    requires forall k :: 0 < k < |s| ==> s[k - 1] < s[k]
    requires i < j < |s|
    ensures s[i] < s[j]
    decreases j - i
  {
    if i + 1 < j {
      AscendingPairwise(s, i + 1, j);
    }
  }

  /** A duplicate-free sequence holding exactly the elements of a set is as long as the set is large. */
  lemma {:induction false} DistinctCardinality(s: seq<int>, t: set<int>)
    requires Distinct(s) && forall d :: d in s <==> d in t
    ensures |s| == |t|
  {
    if s != [] {
      var x := s[|s| - 1];
      var init := s[..|s| - 1];
      assert Distinct(init) by {
        forall i, j | 0 <= i < j < |init| ensures init[i] != init[j] {
          assert init[i] == s[i] && init[j] == s[j];
        }
      }
      assert x !in init by {
        forall i | 0 <= i < |init| ensures init[i] != x {
          assert init[i] == s[i];
        }
      }
      forall d ensures d in init <==> d in t - {x} {
        if d in init {
          var i :| 0 <= i < |init| && init[i] == d;
          assert s[i] == d;
        }
        if d in t - {x} {
          var i :| 0 <= i < |s| && s[i] == d;
          assert i < |s| - 1;
          assert init[i] == d;
        }
      }
      DistinctCardinality(init, t - {x});
    } else {
      assert forall d :: d !in t;
    }
  }

  /** The request parameters of `get_forecast`. */
  datatype Request = Request(appid: string, units: string, q: Option<string>, lat: Option<real>, lon: Option<real>)

  /** `get_forecast`'s parameter choice: no request without an API key; the city name if it
      is given and not empty, otherwise both coordinates, otherwise no request. */
  function ForecastRequest(apiKey: Option<string>, cityName: Option<string>, lat: Option<real>, lon: Option<real>): (r: Option<Request>)
    ensures (apiKey.None? || apiKey.value == "") ==> r.None?
    ensures r.Some? ==> r.value.appid == apiKey.value && r.value.units == "metric"
    ensures r.Some? ==> (r.value.q.Some? <==> r.value.lat.None?) && (r.value.lat.Some? <==> r.value.lon.Some?)
    ensures r.Some? && r.value.q.Some? ==> cityName == r.value.q && r.value.q.value != ""
    ensures r.Some? && r.value.lat.Some? ==> (cityName.None? || cityName.value == "") && lat == r.value.lat && lon == r.value.lon
    ensures apiKey.Some? && apiKey.value != "" ==>
      (r.Some? <==> (cityName.Some? && cityName.value != "") || (lat.Some? && lon.Some?))
  {
    if apiKey.None? || apiKey.value == "" then None
    else if cityName.Some? && cityName.value != "" then Some(Request(apiKey.value, "metric", cityName, None, None))
    else if lat.Some? && lon.Some? then Some(Request(apiKey.value, "metric", None, lat, lon))
    else None
  }
}

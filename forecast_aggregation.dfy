/** The daily forecast that the forecast panel of the weather screen shows: the 3-hour
    samples are grouped by the date part of their text timestamp, each day keeps its
    sample with the highest maximum temperature (the first one on a tie), and the
    chosen samples are stably sorted by timestamp.

    The pipeline is modelled stage by stage as Kotlin runs it:
      groupBy (GroupByDay) -> mapValues/maxByOrNull and values (DayMaxima)
      -> filterNotNull (FilterNotNull) -> sortedBy (SortByDt). */
module ForecastAggregation {
  import opened WeatherData

  // ---------------------------------------------------------------------------
  // The day key
  // ---------------------------------------------------------------------------

  /** Kotlin's `substringBefore`: the text before the first `delimiter`, or the
      whole text when there is none. */
  function SubstringBefore(s: string, delimiter: char): (r: string)
    ensures r <= s
    ensures delimiter !in r
    ensures |r| == |s| || s[|r|] == delimiter
  {
    if s == [] || s[0] == delimiter then []
    else [s[0]] + SubstringBefore(s[1..], delimiter)
  }

  /** The calendar day a sample belongs to: its `dtTxt` before the first space. */
  function Day(item: ForecastItem): string {
    SubstringBefore(item.dtTxt, ' ')
  }

  /** The set of days that occur among `items`. */
  function DaysOf(items: seq<ForecastItem>): set<string> {
    set x | x in items :: Day(x)
  }

  /** No two entries of `s` fall on the same day. */
  ghost predicate DistinctDays(s: seq<ForecastItem>) {
    forall i, j :: 0 <= i < j < |s| ==> Day(s[i]) != Day(s[j])
  }

  /** The samples of `items` that fall on `day`, in input order. */
  function OfDay(items: seq<ForecastItem>, day: string): (r: seq<ForecastItem>)
    ensures forall x :: x in r <==> x in items && Day(x) == day
  {
    if items == [] then []
    else
      var last := items[|items| - 1];
      assert items == items[..|items| - 1] + [last];
      OfDay(items[..|items| - 1], day) + (if Day(last) == day then [last] else [])
  }

  /** Where `day` first occurs in `items`, or `|items|` when it does not occur. */
  function FirstIndexOfDay(items: seq<ForecastItem>, day: string): (i: nat)
    ensures i <= |items|
    ensures i < |items| ==> Day(items[i]) == day
    ensures forall j :: 0 <= j < i ==> Day(items[j]) != day
  {
    if items == [] then 0
    else if Day(items[0]) == day then 0
    else 1 + FirstIndexOfDay(items[1..], day)
  }

  /** The days of `s` appear in the order in which they first occur in `items`. */
  ghost predicate InFirstOccurrenceOrder(items: seq<ForecastItem>, s: seq<ForecastItem>) {
    forall i, j :: 0 <= i < j < |s| ==>
      FirstIndexOfDay(items, Day(s[i])) < FirstIndexOfDay(items, Day(s[j]))
  }

  // ---------------------------------------------------------------------------
  // groupBy: an insertion-ordered map from day to the day's samples
  // ---------------------------------------------------------------------------

  /** One entry of the map `groupBy` builds. */
  datatype DayGroup = DayGroup(day: string, members: seq<ForecastItem>)

  /** The position of `day`'s entry, or `|groups|` when it has none. */
  function IndexOfDay(groups: seq<DayGroup>, day: string): (i: nat)
    ensures i <= |groups|
    ensures i < |groups| ==> groups[i].day == day
    ensures forall j :: 0 <= j < i ==> groups[j].day != day
  {
    if groups == [] then 0
    else if groups[0].day == day then 0
    else 1 + IndexOfDay(groups[1..], day)
  }

  /** One step of `groupBy`: `getOrPut(key) { ArrayList() }.add(item)`. A new day
      is appended at the end of the map; a known day keeps its place. */
  function AddToGroups(groups: seq<DayGroup>, item: ForecastItem): seq<DayGroup> {
    var i := IndexOfDay(groups, Day(item));
    if i < |groups| then groups[i := groups[i].(members := groups[i].members + [item])]
    else groups + [DayGroup(Day(item), [item])]
  }

  /** Kotlin's `groupBy { it.dtTxt.substringBefore(" ") }`, item by item in input order. */
  function GroupByDay(items: seq<ForecastItem>): seq<DayGroup> {
    if items == [] then []
    else AddToGroups(GroupByDay(items[..|items| - 1]), items[|items| - 1])
  }

  /** No two entries of the map share a day. */
  ghost predicate GroupDaysDistinct(groups: seq<DayGroup>) {
    forall i, j :: 0 <= i < j < |groups| ==> groups[i].day != groups[j].day
  }

  /** Each entry holds exactly its day's samples of `items`, in input order, and at least one. */
  ghost predicate GroupMembersExact(items: seq<ForecastItem>, groups: seq<DayGroup>) {
    forall i :: 0 <= i < |groups| ==>
      groups[i].members == OfDay(items, groups[i].day) && groups[i].members != []
  }

  /** Every sample's day has an entry. */
  ghost predicate GroupsCoverItems(items: seq<ForecastItem>, groups: seq<DayGroup>) {
    forall x :: x in items ==> IndexOfDay(groups, Day(x)) < |groups|
  }

  /** The entries follow the order in which their days first occur in `items`. */
  ghost predicate GroupsInFirstOccurrenceOrder(items: seq<ForecastItem>, groups: seq<DayGroup>) {
    forall i, j :: 0 <= i < j < |groups| ==>
      FirstIndexOfDay(items, groups[i].day) < FirstIndexOfDay(items, groups[j].day)
  }

  /** What a grouping of `items` by day must be: one entry per day that occurs, no
      other entries, each holding exactly that day's samples in input order, the
      entries in first-occurrence order of their days. */
  ghost predicate GroupedByDay(items: seq<ForecastItem>, groups: seq<DayGroup>) {
    GroupDaysDistinct(groups)
    && GroupMembersExact(items, groups)
    && GroupsCoverItems(items, groups)
    && GroupsInFirstOccurrenceOrder(items, groups)
  }

  lemma FirstIndexOfDayAppend(items: seq<ForecastItem>, x: ForecastItem, day: string)
    ensures FirstIndexOfDay(items, day) < |items| ==>
              FirstIndexOfDay(items + [x], day) == FirstIndexOfDay(items, day)
    ensures FirstIndexOfDay(items, day) == |items| && Day(x) == day ==>
              FirstIndexOfDay(items + [x], day) == |items|
  {
    var i, k := FirstIndexOfDay(items, day), FirstIndexOfDay(items + [x], day);
    if i < |items| {
      assert (items + [x])[i] == items[i];
      assert !(k < i) && !(i < k);
    } else if Day(x) == day {
      assert (items + [x])[|items|] == x;
      assert !(k < |items|);
    }
  }

  /** A sample of `items` puts its day before `|items|`. */
  lemma FirstIndexOfDayOccurs(items: seq<ForecastItem>, x: ForecastItem)
    requires x in items
    ensures FirstIndexOfDay(items, Day(x)) < |items|
  {
    var k :| 0 <= k < |items| && items[k] == x;
  }

  /** A map whose entries start with those of `groups` finds a known day no later. */
  lemma IndexOfDayExtended(groups: seq<DayGroup>, groups': seq<DayGroup>, day: string)
    requires |groups| <= |groups'|
    requires forall j :: 0 <= j < |groups| ==> groups'[j].day == groups[j].day
    requires IndexOfDay(groups, day) < |groups|
    ensures IndexOfDay(groups', day) <= IndexOfDay(groups, day)
  {
  }

  lemma AddToGroupsDistinct(groups: seq<DayGroup>, x: ForecastItem)
    requires GroupDaysDistinct(groups)
    ensures GroupDaysDistinct(AddToGroups(groups, x))
  {
  }

  /** Filtering a longer input: the new sample joins its own day only. */
  lemma OfDayAppend(items: seq<ForecastItem>, x: ForecastItem, day: string)
    ensures OfDay(items + [x], day) == OfDay(items, day) + (if Day(x) == day then [x] else [])
  {
    assert (items + [x])[..|items|] == items;
  }

  /** A day no sample falls on has no samples. */
  lemma {:induction false} OfDayAbsent(items: seq<ForecastItem>, day: string)
    requires forall y :: y in items ==> Day(y) != day
    ensures OfDay(items, day) == []
  {
    if items != [] {
      OfDayAbsent(items[..|items| - 1], day);
    }
  }

  lemma AddToGroupsMembers(items: seq<ForecastItem>, groups: seq<DayGroup>, x: ForecastItem)
    requires GroupDaysDistinct(groups) && GroupMembersExact(items, groups) && GroupsCoverItems(items, groups)
    ensures GroupMembersExact(items + [x], AddToGroups(groups, x))
  {
    var items', groups' := items + [x], AddToGroups(groups, x);
    var i := IndexOfDay(groups, Day(x));
    AddToGroupsKeepsDays(groups, x);
    forall g | 0 <= g < |groups'|
      ensures groups'[g].members == OfDay(items', groups'[g].day) && groups'[g].members != []
    {
      var day := groups'[g].day;
      OfDayAppend(items, x, day);
      if g == i && i < |groups| {
        assert groups'[g].members == groups[g].members + [x];
      } else if g < |groups| {
        assert groups'[g] == groups[g];
        assert Day(x) != day;
      } else {
        assert day == Day(x) && groups'[g].members == [x];
        assert forall y :: y in items ==> Day(y) != day;
        OfDayAbsent(items, day);
      }
    }
  }

  /** A step of `groupBy` keeps the days of the existing entries where they were. */
  lemma AddToGroupsKeepsDays(groups: seq<DayGroup>, x: ForecastItem)
    ensures var groups' := AddToGroups(groups, x);
      var i := IndexOfDay(groups, Day(x));
      && (i < |groups| ==> |groups'| == |groups|)
      && (i == |groups| ==> |groups'| == |groups| + 1 && groups'[|groups|].day == Day(x))
      && forall g :: 0 <= g < |groups| ==> groups'[g].day == groups[g].day
  {
  }

  lemma AddToGroupsCover(items: seq<ForecastItem>, groups: seq<DayGroup>, x: ForecastItem)
    requires GroupsCoverItems(items, groups)
    ensures GroupsCoverItems(items + [x], AddToGroups(groups, x))
  {
    var items', groups' := items + [x], AddToGroups(groups, x);
    AddToGroupsKeepsDays(groups, x);
    forall y | y in items'
      ensures IndexOfDay(groups', Day(y)) < |groups'|
    {
      if y in items || IndexOfDay(groups, Day(x)) < |groups| {
        IndexOfDayExtended(groups, groups', Day(y));
      } else {
        assert groups'[|groups|].day == Day(y);
      }
    }
  }

  /** Every entry's day occurs among the samples. */
  ghost predicate GroupDaysOccur(items: seq<ForecastItem>, groups: seq<DayGroup>) {
    forall g :: 0 <= g < |groups| ==> FirstIndexOfDay(items, groups[g].day) < |items|
  }

  lemma GroupDaysOccurFromMembers(items: seq<ForecastItem>, groups: seq<DayGroup>)
    requires GroupMembersExact(items, groups)
    ensures GroupDaysOccur(items, groups)
  {
    forall g | 0 <= g < |groups| ensures FirstIndexOfDay(items, groups[g].day) < |items| {
      FirstIndexOfDayOccurs(items, groups[g].members[0]);
    }
  }

  /** The samples after the last one keep the first index of every day the entries hold. */
  lemma GroupFirstIndexesKept(items: seq<ForecastItem>, groups: seq<DayGroup>, x: ForecastItem)
    requires GroupDaysOccur(items, groups)
    ensures forall g :: 0 <= g < |groups| ==>
      FirstIndexOfDay(items + [x], groups[g].day) == FirstIndexOfDay(items, groups[g].day)
  {
    forall g | 0 <= g < |groups|
      ensures FirstIndexOfDay(items + [x], groups[g].day) == FirstIndexOfDay(items, groups[g].day)
    {
      FirstIndexOfDayAppend(items, x, groups[g].day);
    }
  }

  /** A sample on a day none of `items` has first occurs at the end. */
  lemma FirstIndexOfNewDay(items: seq<ForecastItem>, groups: seq<DayGroup>, x: ForecastItem)
    requires GroupsCoverItems(items, groups) && IndexOfDay(groups, Day(x)) == |groups|
    ensures FirstIndexOfDay(items + [x], Day(x)) == |items|
  {
    assert forall k :: 0 <= k < |items| ==> items[k] in items;
    FirstIndexOfDayAppend(items, x, Day(x));
  }

  lemma AddToGroupsOrder(items: seq<ForecastItem>, groups: seq<DayGroup>, x: ForecastItem)
    requires GroupDaysOccur(items, groups) && GroupsCoverItems(items, groups)
    requires GroupsInFirstOccurrenceOrder(items, groups)
    ensures GroupsInFirstOccurrenceOrder(items + [x], AddToGroups(groups, x))
  {
    var items', groups' := items + [x], AddToGroups(groups, x);
    AddToGroupsKeepsDays(groups, x);
    GroupFirstIndexesKept(items, groups, x);
    if |groups'| > |groups| {
      FirstIndexOfNewDay(items, groups, x);
    }
    forall g, h | 0 <= g < h < |groups'|
      ensures FirstIndexOfDay(items', groups'[g].day) < FirstIndexOfDay(items', groups'[h].day)
    {
      assert groups'[g].day == groups[g].day;
      if h < |groups| {
        assert groups'[h].day == groups[h].day;
      }
    }
  }

  /** One step of `groupBy` keeps the grouping correct. */
  lemma AddToGroupsGrouped(items: seq<ForecastItem>, groups: seq<DayGroup>)
    requires items != [] && GroupedByDay(items[..|items| - 1], groups)
    ensures GroupedByDay(items, AddToGroups(groups, items[|items| - 1]))
  {
    var init, x := items[..|items| - 1], items[|items| - 1];
    assert init + [x] == items;
    AddToGroupsDistinct(groups, x);
    AddToGroupsMembers(init, groups, x);
    AddToGroupsCover(init, groups, x);
    GroupDaysOccurFromMembers(init, groups);
    AddToGroupsOrder(init, groups, x);
  }

  /** Kotlin's `groupBy` yields a correct grouping by day. */
  lemma {:induction false} GroupByDayGrouped(items: seq<ForecastItem>)
    ensures GroupedByDay(items, GroupByDay(items))
  {
    if items != [] {
      var init := items[..|items| - 1];
      GroupByDayGrouped(init);
      AddToGroupsGrouped(items, GroupByDay(init));
    }
  }

  lemma GroupByDayDistinct(items: seq<ForecastItem>)
    ensures GroupDaysDistinct(GroupByDay(items))
  {
    GroupByDayGrouped(items);
  }

  lemma GroupByDayMembers(items: seq<ForecastItem>)
    ensures GroupMembersExact(items, GroupByDay(items))
  {
    GroupByDayGrouped(items);
  }

  lemma GroupByDayCovers(items: seq<ForecastItem>)
    ensures GroupsCoverItems(items, GroupByDay(items))
  {
    GroupByDayGrouped(items);
  }

  lemma GroupByDayOrdered(items: seq<ForecastItem>)
    ensures GroupsInFirstOccurrenceOrder(items, GroupByDay(items))
  {
    GroupByDayGrouped(items);
  }

  // ---------------------------------------------------------------------------
  // mapValues { maxByOrNull { tempMax } }, values, filterNotNull
  // ---------------------------------------------------------------------------

  /** `xs[i]` is the first sample of `xs` with the highest `tempMax`. */
  ghost predicate FirstMaxAt(xs: seq<ForecastItem>, i: int) {
    && 0 <= i < |xs|
    && (forall j :: 0 <= j < |xs| ==> xs[j].tempMax <= xs[i].tempMax)
    && (forall j :: 0 <= j < i ==> xs[j].tempMax < xs[i].tempMax)
  }

  /** `m` is the first sample of `xs` with the highest `tempMax`. */
  ghost predicate IsFirstMax(xs: seq<ForecastItem>, m: ForecastItem) {
    exists i :: FirstMaxAt(xs, i) && xs[i] == m
  }

  /** Kotlin's `maxByOrNull { it.main.tempMax }`: null on an empty list; otherwise
      the first element seeds the running maximum and a later element replaces it
      only when its `tempMax` is strictly larger. */
  function MaxByTempMax(xs: seq<ForecastItem>): (r: Option<ForecastItem>)
    ensures r.None? <==> xs == []
    ensures r.Some? ==> r.value in xs && forall y :: y in xs ==> y.tempMax <= r.value.tempMax
  {
    if xs == [] then None
    else if |xs| == 1 then Some(xs[0])
    else
      var init, last := xs[..|xs| - 1], xs[|xs| - 1];
      assert xs == init + [last];
      var best := MaxByTempMax(init).value;
      if best.tempMax < last.tempMax then Some(last) else Some(best)
  }

  /** On a tie the first maximum wins: the chosen sample is the first one, in input
      order, whose `tempMax` no other sample exceeds. */
  lemma {:induction false} MaxByTempMaxFirstWins(xs: seq<ForecastItem>)
    requires xs != []
    ensures IsFirstMax(xs, MaxByTempMax(xs).value)
  {
    if |xs| == 1 {
      assert FirstMaxAt(xs, 0);
    } else {
      var init, last := xs[..|xs| - 1], xs[|xs| - 1];
      MaxByTempMaxFirstWins(init);
      var best := MaxByTempMax(init).value;
      var i :| FirstMaxAt(init, i) && init[i] == best;
      assert forall j :: 0 <= j < |init| ==> xs[j] == init[j];
      if best.tempMax < last.tempMax {
        assert MaxByTempMax(xs).value == last;
        assert FirstMaxAt(xs, |xs| - 1);
      } else {
        assert MaxByTempMax(xs).value == best;
        assert FirstMaxAt(xs, i);
      }
    }
  }

  /** `mapValues { maxByOrNull }` followed by `values`: the chosen sample of each
      entry, in the map's order. */
  function DayMaxima(groups: seq<DayGroup>): seq<Option<ForecastItem>> {
    seq(|groups|, i requires 0 <= i < |groups| => MaxByTempMax(groups[i].members))
  }

  /** Kotlin's `filterNotNull`: the present values, in order. */
  function FilterNotNull<T(!new)>(xs: seq<Option<T>>): (r: seq<T>)
    ensures |r| <= |xs|
    ensures forall v :: v in r <==> Some(v) in xs
  {
    if xs == [] then []
    else
      assert xs == [xs[0]] + xs[1..];
      (match xs[0] case Some(v) => [v] case None => []) + FilterNotNull(xs[1..])
  }

  /** When no value is missing, `filterNotNull` drops nothing and keeps the order. */
  lemma {:induction false} FilterNotNullAllPresent<T(!new)>(xs: seq<Option<T>>)
    requires forall i :: 0 <= i < |xs| ==> xs[i].Some?
    ensures |FilterNotNull(xs)| == |xs|
    ensures forall i :: 0 <= i < |xs| ==> FilterNotNull(xs)[i] == xs[i].value
  {
    if xs != [] {
      FilterNotNullAllPresent(xs[1..]);
    }
  }

  // ---------------------------------------------------------------------------
  // sortedBy { it.dt }: a stable sort
  // ---------------------------------------------------------------------------

  ghost predicate SortedByDt(s: seq<ForecastItem>) {
    forall i, j :: 0 <= i < j < |s| ==> s[i].dt <= s[j].dt
  }

  /** The entries of `s` whose timestamp is `dt`, in order. */
  function WithDt(s: seq<ForecastItem>, dt: int): seq<ForecastItem> {
    if s == [] then []
    else (if s[0].dt == dt then [s[0]] else []) + WithDt(s[1..], dt)
  }

  /** `WithDt` keeps exactly the entries at `dt`. */
  lemma {:induction false} WithDtMember(s: seq<ForecastItem>, dt: int, x: ForecastItem)
    ensures x in WithDt(s, dt) <==> x in s && x.dt == dt
  {
    if s != [] {
      WithDtMember(s[1..], dt, x);
      assert s == [s[0]] + s[1..];
    }
  }

  /** Inserts `x` after every entry whose timestamp is not larger. */
  function InsertByDt(sorted: seq<ForecastItem>, x: ForecastItem): (r: seq<ForecastItem>)
    ensures multiset(r) == multiset(sorted) + multiset{x}
  {
    if sorted == [] then [x]
    else if x.dt < sorted[0].dt then [x] + sorted
    else
      assert sorted == [sorted[0]] + sorted[1..];
      [sorted[0]] + InsertByDt(sorted[1..], x)
  }

  /** A stable sort by `dt`; every stable sort gives this same sequence. */
  function SortByDt(xs: seq<ForecastItem>): (r: seq<ForecastItem>)
    ensures multiset(r) == multiset(xs)
  {
    if xs == [] then []
    else
      assert xs == xs[..|xs| - 1] + [xs[|xs| - 1]];
      InsertByDt(SortByDt(xs[..|xs| - 1]), xs[|xs| - 1])
  }

  /** Inserting into a sorted sequence keeps it sorted. */
  lemma {:induction false} InsertByDtSorted(sorted: seq<ForecastItem>, x: ForecastItem)
    requires SortedByDt(sorted)
    ensures SortedByDt(InsertByDt(sorted, x))
  {
    if sorted != [] && sorted[0].dt <= x.dt {
      var rest := InsertByDt(sorted[1..], x);
      InsertByDtSorted(sorted[1..], x);
      forall y | y in rest ensures sorted[0].dt <= y.dt {
        assert y in multiset(rest);
      }
    }
  }

  /** The result of `sortedBy { it.dt }` is ascending by `dt`. */
  lemma {:induction false} SortByDtSorted(xs: seq<ForecastItem>)
    ensures SortedByDt(SortByDt(xs))
  {
    if xs != [] {
      SortByDtSorted(xs[..|xs| - 1]);
      InsertByDtSorted(SortByDt(xs[..|xs| - 1]), xs[|xs| - 1]);
    }
  }

  lemma {:induction false} WithDtAppend(a: seq<ForecastItem>, b: seq<ForecastItem>, dt: int)
    ensures WithDt(a + b, dt) == WithDt(a, dt) + WithDt(b, dt)
  {
    if a == [] {
      assert a + b == b;
    } else {
      assert (a + b)[0] == a[0] && (a + b)[1..] == a[1..] + b;
      WithDtAppend(a[1..], b, dt);
    }
  }

  /** A sorted sequence whose first entry is later than `dt` has no entry at `dt`. */
  lemma {:induction false} WithDtLater(sorted: seq<ForecastItem>, dt: int)
    requires SortedByDt(sorted) && sorted != [] && dt < sorted[0].dt
    ensures WithDt(sorted, dt) == []
  {
    if |sorted| > 1 {
      WithDtLater(sorted[1..], dt);
    }
  }

  lemma WithDtSingle(x: ForecastItem, dt: int)
    ensures WithDt([x], dt) == if x.dt == dt then [x] else []
  {
    assert [x][1..] == [];
  }

  /** Inserting `x` puts it after every entry with the same timestamp. */
  lemma {:induction false} InsertByDtStable(sorted: seq<ForecastItem>, x: ForecastItem, dt: int)
    requires SortedByDt(sorted)
    ensures WithDt(InsertByDt(sorted, x), dt) == WithDt(sorted, dt) + WithDt([x], dt)
  {
    WithDtSingle(x, dt);
    if sorted == [] {
    } else if x.dt < sorted[0].dt {
      assert InsertByDt(sorted, x) == [x] + sorted;
      WithDtAppend([x], sorted, dt);
      if x.dt == dt {
        WithDtLater(sorted, dt);
      }
    } else {
      var s0, rest := sorted[0], sorted[1..];
      assert SortedByDt(rest);
      assert InsertByDt(sorted, x) == [s0] + InsertByDt(rest, x);
      InsertByDtStable(rest, x, dt);
      WithDtAppend([s0], InsertByDt(rest, x), dt);
      WithDtAppend([s0], rest, dt);
      assert [s0] + rest == sorted;
    }
  }

  /** `sortedBy` is stable: the entries that share a timestamp keep their input order. */
  lemma {:induction false} SortByDtStable(xs: seq<ForecastItem>, dt: int)
    ensures WithDt(SortByDt(xs), dt) == WithDt(xs, dt)
  {
    if xs != [] {
      var init, last := xs[..|xs| - 1], xs[|xs| - 1];
      SortByDtStable(init, dt);
      SortByDtSorted(init);
      InsertByDtStable(SortByDt(init), last, dt);
      WithDtAppend(init, [last], dt);
      assert init + [last] == xs;
    }
  }

  lemma WithDtCons(s: seq<ForecastItem>, dt: int)
    requires s != []
    ensures WithDt(s, dt) == (if s[0].dt == dt then [s[0]] else []) + WithDt(s[1..], dt)
  {
  }

  /** An entry at `dt` of a sorted sequence is no earlier than its first entry. */
  lemma WithDtNotEarlier(s: seq<ForecastItem>, x: ForecastItem, dt: int)
    requires SortedByDt(s) && x in WithDt(s, dt)
    ensures s != [] && s[0].dt <= dt
  {
    WithDtMember(s, dt, x);
    var k :| 0 <= k < |s| && s[k] == x;
  }

  lemma StableSortHeads(a: seq<ForecastItem>, b: seq<ForecastItem>)
    requires SortedByDt(a) && SortedByDt(b) && a != [] && b != []
    requires WithDt(a, a[0].dt) == WithDt(b, a[0].dt)
    requires WithDt(a, b[0].dt) == WithDt(b, b[0].dt)
    ensures a[0] == b[0]
  {
    var da, db := a[0].dt, b[0].dt;
    WithDtCons(a, da);
    assert WithDt(a, da)[0] == a[0];
    WithDtNotEarlier(b, a[0], da);
    WithDtCons(b, db);
    assert WithDt(b, db)[0] == b[0];
    WithDtNotEarlier(a, b[0], db);
  }

  /** Equal heads and equal entries at `dt` leave equal tails at `dt`. */
  lemma WithDtTail(a: seq<ForecastItem>, b: seq<ForecastItem>, dt: int)
    requires a != [] && b != [] && a[0] == b[0] && WithDt(a, dt) == WithDt(b, dt)
    ensures WithDt(a[1..], dt) == WithDt(b[1..], dt)
  {
    WithDtCons(a, dt);
    WithDtCons(b, dt);
    var ta, tb := WithDt(a[1..], dt), WithDt(b[1..], dt);
    if a[0].dt == dt {
      assert ([a[0]] + ta)[1..] == ta && ([a[0]] + tb)[1..] == tb;
    } else {
      assert [] + ta == ta && [] + tb == tb;
    }
  }

  /** Sortedness and stability pin the result down: two sequences that are both
      ascending by `dt` and hold the same entries per timestamp in the same order are
      equal. So `SortByDt` is the one result any stable sort by `dt` can give. */
  lemma {:induction false} StableSortUnique(a: seq<ForecastItem>, b: seq<ForecastItem>)
    requires SortedByDt(a) && SortedByDt(b)
    requires forall dt :: WithDt(a, dt) == WithDt(b, dt)
    ensures a == b
  {
    if a == [] || b == [] {
      var s := if a == [] then b else a;
      if s != [] {
        WithDtMember(s, s[0].dt, s[0]);
      }
    } else {
      StableSortHeads(a, b);
      forall dt ensures WithDt(a[1..], dt) == WithDt(b[1..], dt) {
        WithDtTail(a, b, dt);
      }
      StableSortUnique(a[1..], b[1..]);
      assert a == [a[0]] + a[1..] && b == [b[0]] + b[1..];
    }
  }

  // ---------------------------------------------------------------------------
  // Counting days
  // ---------------------------------------------------------------------------

  lemma DaysOfAppend(s: seq<ForecastItem>, x: ForecastItem)
    ensures DaysOf(s + [x]) == DaysOf(s) + {Day(x)}
  {
    assert forall y :: y in s + [x] <==> y in s || y == x;
  }

  /** A new entry on a known day leaves a repeated day. */
  lemma RepeatedDay(init: seq<ForecastItem>, x: ForecastItem)
    requires Day(x) in DaysOf(init)
    ensures !DistinctDays(init + [x])
  {
    var y :| y in init && Day(y) == Day(x);
    var k :| 0 <= k < |init| && init[k] == y;
    assert (init + [x])[k] == y && (init + [x])[|init|] == x;
  }

  /** A new entry on a new day keeps the days distinct exactly when they were. */
  lemma FreshDay(init: seq<ForecastItem>, x: ForecastItem)
    requires Day(x) !in DaysOf(init)
    ensures DistinctDays(init + [x]) <==> DistinctDays(init)
  {
    var s := init + [x];
    assert forall k :: 0 <= k < |init| ==> s[k] == init[k] && s[k] in init;
  }

  /** A sequence has at most as many days as entries, and exactly as many precisely
      when no two entries share a day. */
  lemma {:induction false} DaysOfCount(s: seq<ForecastItem>)
    ensures |DaysOf(s)| <= |s|
    ensures |DaysOf(s)| == |s| <==> DistinctDays(s)
  {
    if s == [] {
      assert DaysOf(s) == {};
    } else {
      var init, x := s[..|s| - 1], s[|s| - 1];
      assert s == init + [x];
      DaysOfCount(init);
      DaysOfAppend(init, x);
      if Day(x) in DaysOf(init) {
        RepeatedDay(init, x);
      } else {
        FreshDay(init, x);
      }
    }
  }

  // ---------------------------------------------------------------------------
  // Ties in the timestamp keep the first-occurrence order of their days
  // ---------------------------------------------------------------------------

  /** Picking out the entries at one timestamp keeps the order of days. */
  lemma {:induction false} WithDtKeepsDayOrder(items: seq<ForecastItem>, s: seq<ForecastItem>, dt: int)
    requires InFirstOccurrenceOrder(items, s)
    ensures InFirstOccurrenceOrder(items, WithDt(s, dt))
  {
    if s != [] {
      WithDtCons(s, dt);
      assert InFirstOccurrenceOrder(items, s[1..]);
      WithDtKeepsDayOrder(items, s[1..], dt);
      var rest := WithDt(s[1..], dt);
      if s[0].dt == dt {
        forall j | 0 <= j < |rest|
          ensures FirstIndexOfDay(items, Day(s[0])) < FirstIndexOfDay(items, Day(rest[j]))
        {
          WithDtMember(s[1..], dt, rest[j]);
          var k :| 0 <= k < |s[1..]| && s[1..][k] == rest[j];
          assert s[k + 1] == rest[j];
        }
      }
    }
  }

  /** Two entries of `s` that share a timestamp appear, in the same order, among the
      entries at that timestamp. */
  lemma {:induction false} WithDtPositions(s: seq<ForecastItem>, i: int, j: int) returns (p: int, q: int)
    requires 0 <= i < j < |s| && s[i].dt == s[j].dt
    ensures 0 <= p < q < |WithDt(s, s[i].dt)|
    ensures WithDt(s, s[i].dt)[p] == s[i] && WithDt(s, s[i].dt)[q] == s[j]
  {
    var dt := s[i].dt;
    WithDtCons(s, dt);
    var rest := WithDt(s[1..], dt);
    if i == 0 {
      assert s[j] == s[1..][j - 1];
      WithDtMember(s[1..], dt, s[j]);
      var k :| 0 <= k < |rest| && rest[k] == s[j];
      p, q := 0, k + 1;
    } else {
      assert s[1..][i - 1] == s[i] && s[1..][j - 1] == s[j];
      var p', q' := WithDtPositions(s[1..], i - 1, j - 1);
      if s[0].dt == dt {
        p, q := p' + 1, q' + 1;
      } else {
        p, q := p', q';
      }
    }
  }

  /** When the entries at each timestamp are in day order, so are any two entries of
      `s` that share a timestamp. */
  lemma TiedPairInDayOrder(items: seq<ForecastItem>, s: seq<ForecastItem>, i: int, j: int)
    requires 0 <= i < j < |s| && s[i].dt == s[j].dt
    requires InFirstOccurrenceOrder(items, WithDt(s, s[i].dt))
    ensures FirstIndexOfDay(items, Day(s[i])) < FirstIndexOfDay(items, Day(s[j]))
  {
    var p, q := WithDtPositions(s, i, j);
  }

  // ---------------------------------------------------------------------------
  // The whole pipeline
  // ---------------------------------------------------------------------------

  /** The samples kept per day, before the sort: `values` of the map after
      `mapValues { maxByOrNull }`, then `filterNotNull`. */
  function DayPicks(items: seq<ForecastItem>): seq<ForecastItem> {
    FilterNotNull(DayMaxima(GroupByDay(items)))
  }

  /** The list `ForecastDisplay` renders for a forecast whose samples are `items`:
      `groupBy` day, `maxByOrNull` of `tempMax` per day, `values`, `filterNotNull`,
      `sortedBy` `dt`. */
  function DailyForecasts(items: seq<ForecastItem>): seq<ForecastItem> {
    SortByDt(DayPicks(items))
  }

  /** `filterNotNull` removes nothing, because every group of `groupBy` is non-empty:
      the i-th pick is the first maximum of the i-th group. */
  lemma DayPicksAreGroupMaxima(items: seq<ForecastItem>)
    ensures var groups, picks := GroupByDay(items), DayPicks(items);
      && |picks| == |groups|
      && forall i :: 0 <= i < |picks| ==>
           && picks[i] in groups[i].members
           && IsFirstMax(groups[i].members, picks[i])
  {
    var groups := GroupByDay(items);
    GroupByDayMembers(items);
    var maxima := DayMaxima(groups);
    FilterNotNullAllPresent(maxima);
    forall i | 0 <= i < |groups|
      ensures IsFirstMax(groups[i].members, MaxByTempMax(groups[i].members).value)
    {
      MaxByTempMaxFirstWins(groups[i].members);
    }
  }

  /** The i-th pick is an input sample on the i-th group's day, and the first maximum
      of that day's samples. */
  lemma DayPicksOnGroupDays(items: seq<ForecastItem>)
    ensures var groups, picks := GroupByDay(items), DayPicks(items);
      && |picks| == |groups|
      && forall i :: 0 <= i < |picks| ==>
           && Day(picks[i]) == groups[i].day
           && picks[i] in items
           && IsFirstMax(OfDay(items, Day(picks[i])), picks[i])
  {
    DayPicksAreGroupMaxima(items);
    GroupByDayMembers(items);
  }

  /** The picks: one per day that occurs, each the first maximum of its day among the
      input samples, days in first-occurrence order. */
  lemma DayPicksCharacterised(items: seq<ForecastItem>)
    ensures var picks := DayPicks(items);
      && (forall i :: 0 <= i < |picks| ==>
            picks[i] in items && IsFirstMax(OfDay(items, Day(picks[i])), picks[i]))
      && DistinctDays(picks)
      && DaysOf(picks) == DaysOf(items)
      && InFirstOccurrenceOrder(items, picks)
  {
    var groups, picks := GroupByDay(items), DayPicks(items);
    DayPicksOnGroupDays(items);
    GroupByDayDistinct(items);
    GroupByDayOrdered(items);
    GroupByDayCovers(items);
    forall x | x in items ensures Day(x) in DaysOf(picks) {
      var k := IndexOfDay(groups, Day(x));
      assert picks[k] in picks;
    }
  }

  /** Every entry of the daily forecast is one of the input samples. */
  lemma DailyForecastsFromInput(items: seq<ForecastItem>)
    ensures forall x :: x in DailyForecasts(items) ==> x in items
  {
    DayPicksCharacterised(items);
    var picks := DayPicks(items);
    forall x | x in DailyForecasts(items) ensures x in items {
      assert x in multiset(DailyForecasts(items));
      var i :| 0 <= i < |picks| && picks[i] == x;
    }
  }

  /** Each entry of the daily forecast is the first sample of its day with the highest
      `tempMax`: no sample of that day is warmer, and every earlier one is cooler. */
  lemma DailyForecastsDayMaximum(items: seq<ForecastItem>)
    ensures forall x :: x in DailyForecasts(items) ==>
      && IsFirstMax(OfDay(items, Day(x)), x)
      && (forall y :: y in items && Day(y) == Day(x) ==> y.tempMax <= x.tempMax)
  {
    DayPicksCharacterised(items);
    var picks := DayPicks(items);
    forall x | x in DailyForecasts(items)
      ensures IsFirstMax(OfDay(items, Day(x)), x)
      ensures forall y :: y in items && Day(y) == Day(x) ==> y.tempMax <= x.tempMax
    {
      assert x in multiset(DailyForecasts(items));
      var i :| 0 <= i < |picks| && picks[i] == x;
      var day := OfDay(items, Day(x));
      var k :| FirstMaxAt(day, k) && day[k] == x;
      forall y | y in items && Day(y) == Day(x) ensures y.tempMax <= x.tempMax {
        assert y in day;
      }
    }
  }

  /** The daily forecast has exactly one entry per day that occurs in the input:
      no two entries share a day, and the entries' days are the input's days. So
      its length is the number of distinct days, at most the number of samples. */
  lemma DailyForecastsOnePerDay(items: seq<ForecastItem>)
    ensures DistinctDays(DailyForecasts(items))
    ensures DaysOf(DailyForecasts(items)) == DaysOf(items)
    ensures |DailyForecasts(items)| == |DaysOf(items)| <= |items|
  {
    DayPicksCharacterised(items);
    var picks := DayPicks(items);
    var daily := DailyForecasts(items);
    assert |daily| == |picks| by {
      assert |multiset(daily)| == |multiset(picks)|;
    }
    assert forall x :: x in daily <==> x in picks by {
      forall x ensures x in daily <==> x in picks {
        assert x in daily <==> x in multiset(daily);
        assert x in picks <==> x in multiset(picks);
      }
    }
    assert DaysOf(daily) == DaysOf(picks);
    DaysOfCount(picks);
    DaysOfCount(daily);
    DaysOfCount(items);
  }

  /** Entries of `s` that share a timestamp are in the order in which their days
      first occur in `items`. */
  ghost predicate TiesInDayOrder(items: seq<ForecastItem>, s: seq<ForecastItem>) {
    forall i, j :: 0 <= i < j < |s| && s[i].dt == s[j].dt ==>
      FirstIndexOfDay(items, Day(s[i])) < FirstIndexOfDay(items, Day(s[j]))
  }

  /** The daily forecast is ascending by `dt`; entries with the same `dt` keep the
      order in which their days first occur in the input. */
  lemma DailyForecastsSorted(items: seq<ForecastItem>)
    ensures SortedByDt(DailyForecasts(items))
    ensures TiesInDayOrder(items, DailyForecasts(items))
  {
    DayPicksCharacterised(items);
    var picks := DayPicks(items);
    var daily := DailyForecasts(items);
    SortByDtSorted(picks);
    forall i, j | 0 <= i < j < |daily| && daily[i].dt == daily[j].dt
      ensures FirstIndexOfDay(items, Day(daily[i])) < FirstIndexOfDay(items, Day(daily[j]))
    {
      SortByDtStable(picks, daily[i].dt);
      WithDtKeepsDayOrder(items, picks, daily[i].dt);
      TiedPairInDayOrder(items, daily, i, j);
    }
  }

  // ---------------------------------------------------------------------------
  // The daily forecast is the only sequence with its properties
  // ---------------------------------------------------------------------------

  /** Every entry of `s` is the first sample of its day with the highest `tempMax`. */
  ghost predicate PicksDayMaxima(items: seq<ForecastItem>, s: seq<ForecastItem>) {
    forall i :: 0 <= i < |s| ==> s[i] in items && IsFirstMax(OfDay(items, Day(s[i])), s[i])
  }

  /** What the screen's list is, stated without the steps that build it: one first
      maximum per day of the input, every day present, ascending by `dt`, ties in the
      order in which their days first occur. */
  ghost predicate IsDailyForecast(items: seq<ForecastItem>, s: seq<ForecastItem>) {
    && PicksDayMaxima(items, s)
    && DaysOf(s) == DaysOf(items)
    && SortedByDt(s)
    && TiesInDayOrder(items, s)
  }

  /** A sequence has one first maximum. */
  lemma FirstMaxUnique(xs: seq<ForecastItem>, m1: ForecastItem, m2: ForecastItem)
    requires IsFirstMax(xs, m1) && IsFirstMax(xs, m2)
    ensures m1 == m2
  {
    var i1 :| FirstMaxAt(xs, i1) && xs[i1] == m1;
    var i2 :| FirstMaxAt(xs, i2) && xs[i2] == m2;
    assert !(i1 < i2) && !(i2 < i1);
  }

  /** An entry of one sequence of day maxima that covers every day is in any other. */
  lemma DayMaximumShared(items: seq<ForecastItem>, r: seq<ForecastItem>, s: seq<ForecastItem>, x: ForecastItem)
    requires PicksDayMaxima(items, r) && PicksDayMaxima(items, s)
    requires DaysOf(s) == DaysOf(items) && x in r
    ensures x in s
  {
    var i :| 0 <= i < |r| && r[i] == x;
    assert Day(x) in DaysOf(s);
    var y :| y in s && Day(y) == Day(x);
    var k :| 0 <= k < |s| && s[k] == y;
    FirstMaxUnique(OfDay(items, Day(x)), x, y);
  }

  /** Entries at one timestamp of a sequence whose ties are in day order are in day
      order. */
  lemma {:induction false} WithDtTiesOrdered(items: seq<ForecastItem>, s: seq<ForecastItem>, dt: int)
    requires TiesInDayOrder(items, s)
    ensures InFirstOccurrenceOrder(items, WithDt(s, dt))
  {
    if s != [] {
      WithDtCons(s, dt);
      assert TiesInDayOrder(items, s[1..]) by {
        assert forall i :: 0 <= i < |s| - 1 ==> s[1..][i] == s[i + 1];
      }
      WithDtTiesOrdered(items, s[1..], dt);
      var rest := WithDt(s[1..], dt);
      if s[0].dt == dt {
        forall j | 0 <= j < |rest|
          ensures FirstIndexOfDay(items, Day(s[0])) < FirstIndexOfDay(items, Day(rest[j]))
        {
          WithDtMember(s[1..], dt, rest[j]);
          var k :| 0 <= k < |s[1..]| && s[1..][k] == rest[j];
          assert s[k + 1] == rest[j];
        }
      }
    }
  }

  /** In a sequence in day order, the tail holds every entry but the head. */
  lemma TailMember(items: seq<ForecastItem>, s: seq<ForecastItem>, x: ForecastItem)
    requires s != [] && InFirstOccurrenceOrder(items, s)
    ensures x in s[1..] <==> x in s && x != s[0]
  {
    if x in s[1..] {
      var i :| 0 <= i < |s| - 1 && s[1..][i] == x;
      assert s[i + 1] == x;
    }
    if x in s && x != s[0] {
      var i :| 0 <= i < |s| && s[i] == x;
      assert s[1..][i - 1] == x;
    }
  }

  /** Two sequences in day order with the same entries start with the same entry. */
  lemma DayOrderHeads(items: seq<ForecastItem>, s: seq<ForecastItem>, t: seq<ForecastItem>)
    requires s != [] && t != []
    requires InFirstOccurrenceOrder(items, s) && InFirstOccurrenceOrder(items, t)
    requires forall x :: x in s <==> x in t
    ensures s[0] == t[0]
  {
    assert s[0] in s && t[0] in t;
    var k :| 0 <= k < |t| && t[k] == s[0];
    var m :| 0 <= m < |s| && s[m] == t[0];
    assert FirstIndexOfDay(items, Day(t[0])) <= FirstIndexOfDay(items, Day(t[k]));
    assert FirstIndexOfDay(items, Day(s[0])) <= FirstIndexOfDay(items, Day(s[m]));
  }

  /** Dropping the common head of two sequences in day order with the same entries
      leaves two such sequences. */
  lemma DayOrderTails(items: seq<ForecastItem>, s: seq<ForecastItem>, t: seq<ForecastItem>)
    requires s != [] && t != [] && s[0] == t[0]
    requires InFirstOccurrenceOrder(items, s) && InFirstOccurrenceOrder(items, t)
    requires forall x :: x in s <==> x in t
    ensures InFirstOccurrenceOrder(items, s[1..]) && InFirstOccurrenceOrder(items, t[1..])
    ensures forall x :: x in s[1..] <==> x in t[1..]
  {
    forall x ensures x in s[1..] <==> x in t[1..] {
      TailMember(items, s, x);
      TailMember(items, t, x);
    }
  }

  /** Two sequences in day order with the same entries are equal. */
  lemma {:induction false} DayOrderUnique(items: seq<ForecastItem>, s: seq<ForecastItem>, t: seq<ForecastItem>)
    requires InFirstOccurrenceOrder(items, s) && InFirstOccurrenceOrder(items, t)
    requires forall x :: x in s <==> x in t
    ensures s == t
  {
    assert (s != [] ==> s[0] in s) && (t != [] ==> t[0] in t);
    if s != [] && t != [] {
      DayOrderHeads(items, s, t);
      DayOrderTails(items, s, t);
      DayOrderUnique(items, s[1..], t[1..]);
      assert s == [s[0]] + s[1..] && t == [t[0]] + t[1..];
    }
  }

  /** Two sequences with the daily forecast's properties agree at every timestamp. */
  lemma DailyForecastWithDt(items: seq<ForecastItem>, r: seq<ForecastItem>, s: seq<ForecastItem>, dt: int)
    requires IsDailyForecast(items, r) && IsDailyForecast(items, s)
    ensures WithDt(r, dt) == WithDt(s, dt)
  {
    WithDtTiesOrdered(items, r, dt);
    WithDtTiesOrdered(items, s, dt);
    forall x ensures x in WithDt(r, dt) <==> x in WithDt(s, dt) {
      WithDtMember(r, dt, x);
      WithDtMember(s, dt, x);
      if x in r {
        DayMaximumShared(items, r, s, x);
      }
      if x in s {
        DayMaximumShared(items, s, r, x);
      }
    }
    DayOrderUnique(items, WithDt(r, dt), WithDt(s, dt));
  }

  /** The daily forecast has the properties its description lists. */
  lemma DailyForecastsIsDailyForecast(items: seq<ForecastItem>)
    ensures IsDailyForecast(items, DailyForecasts(items))
  {
    var daily := DailyForecasts(items);
    DailyForecastsFromInput(items);
    DailyForecastsDayMaximum(items);
    DailyForecastsOnePerDay(items);
    DailyForecastsSorted(items);
    assert forall i :: 0 <= i < |daily| ==> daily[i] in daily;
  }

  /** The description pins the daily forecast down: any sequence with one first
      maximum per day of the input, every day present, ascending by `dt` and with
      ties in the order their days first occur, is the daily forecast. */
  lemma DailyForecastsUnique(items: seq<ForecastItem>, s: seq<ForecastItem>)
    requires IsDailyForecast(items, s)
    ensures s == DailyForecasts(items)
  {
    var daily := DailyForecasts(items);
    DailyForecastsIsDailyForecast(items);
    forall dt ensures WithDt(s, dt) == WithDt(daily, dt) {
      DailyForecastWithDt(items, s, daily, dt);
    }
    StableSortUnique(s, daily);
  }

  /** An empty forecast gives an empty daily forecast, not an error. */
  lemma DailyForecastsEmpty()
    ensures DailyForecasts([]) == []
  {
  }

  /** The provider's "date time" text keys on its date part, whatever the time part. */
  lemma DayOfDateTime(date: string, time: string)
    requires ' ' !in date
    ensures SubstringBefore(date + " " + time, ' ') == date
  {
    var s, r := date + " " + time, SubstringBefore(date + " " + time, ' ');
    assert s[|date|] == ' ';
    assert r == s[..|r|] == date;
  }

  lemma GroupByDayTwoDays(a: ForecastItem, b: ForecastItem, c: ForecastItem)
    requires Day(a) == Day(b) != Day(c)
    ensures GroupByDay([a, b, c]) == [DayGroup(Day(a), [a, b]), DayGroup(Day(c), [c])]
  {
    assert [a, b, c][..2] == [a, b] && [a, b][..1] == [a];
    assert GroupByDay([a]) == [DayGroup(Day(a), [a])];
    assert IndexOfDay([DayGroup(Day(a), [a])], Day(b)) == 0;
    assert [a] + [b] == [a, b];
    assert GroupByDay([a, b]) == [DayGroup(Day(a), [a, b])];
  }

  lemma DayPicksTwoDays(a: ForecastItem, b: ForecastItem, c: ForecastItem)
    requires Day(a) == Day(b) != Day(c) && a.tempMax < b.tempMax
    ensures DayPicks([a, b, c]) == [b, c]
  {
    GroupByDayTwoDays(a, b, c);
    assert [a, b][..1] == [a];
    assert MaxByTempMax([a, b]) == Some(b);
    var maxima := DayMaxima(GroupByDay([a, b, c]));
    assert maxima == [Some(b), Some(c)];
    assert maxima[1..] == [Some(c)];
  }

  lemma SortByDtTwo(b: ForecastItem, c: ForecastItem)
    requires b.dt <= c.dt
    ensures SortByDt([b, c]) == [b, c]
  {
    assert [b, c][..1] == [b];
    assert SortByDt([b]) == [b];
  }

  /** Two samples on 2024-01-01 with highs 10 and 15 and one on 2024-01-02 with high
      8 give the 15-degree sample of the first day, then the sample of the second. */
  lemma DailyForecastsExample()
    ensures var a := ForecastItem(1704067200, "2024-01-01" + " " + "00:00:00", 4, 10, []);
      var b := ForecastItem(1704078000, "2024-01-01" + " " + "03:00:00", 6, 15, []);
      var c := ForecastItem(1704153600, "2024-01-02" + " " + "00:00:00", 1, 8, []);
      DailyForecasts([a, b, c]) == [b, c]
  {
    var a := ForecastItem(1704067200, "2024-01-01" + " " + "00:00:00", 4, 10, []);
    var b := ForecastItem(1704078000, "2024-01-01" + " " + "03:00:00", 6, 15, []);
    var c := ForecastItem(1704153600, "2024-01-02" + " " + "00:00:00", 1, 8, []);
    DayOfDateTime("2024-01-01", "00:00:00");
    DayOfDateTime("2024-01-01", "03:00:00");
    DayOfDateTime("2024-01-02", "00:00:00");
    DayPicksTwoDays(a, b, c);
    SortByDtTwo(b, c);
  }
}

/**
 * The read side of the store (tgarchive/db.py:162-274, 352-443): pure projections of the
 * tables. Rows tied on `messages.id` (the same id in two chats) are ordered by chat id.
 */
module Queries {
  import opened Wrappers
  import opened Records
  import opened Store
  import opened Listing
  import Text

  /** `ORDER BY messages.id`, ties broken by chat id. */
  predicate KeyBefore(a: MsgKey, b: MsgKey) {
    a.id < b.id || (a.id == b.id && a.chatId < b.chatId)
  }

  lemma KeyOrder()
    ensures StrictTotalOrder(KeyBefore)
  {
  }

  lemma MonthOrder()
    ensures StrictTotalOrder(MonthBefore)
  {
  }

  /** `strftime('%Y%m', date) = "{year}{month:02d}"`. */
  predicate InMonth(d: DateTime, year: int, month: int) {
    d.year == year && d.month == month
  }

  function MonthKeys(t: Tables, year: int, month: int): set<MsgKey> {
    set k | k in t.messages && InMonth(t.messages[k].date, year, month)
  }

  /** `get_message_count(year, month)`: how many messages are dated in that month. */
  function MessageCount(t: Tables, year: int, month: int): nat {
    |MonthKeys(t, year, month)|
  }

  /** The keys of a month's messages in id order: the listing that pages cut up. */
  function MonthListing(t: Tables, year: int, month: int): (r: seq<MsgKey>)
    ensures |r| == MessageCount(t, year, month)
    ensures forall k :: k in r <==> k in MonthKeys(t, year, month)
    ensures StrictlySorted(r, KeyBefore)
  {
    KeyOrder();
    SortSet(MonthKeys(t, year, month), KeyBefore)
  }

  /** `get_last_message_id`: the greatest message id over all chats and the day it was sent. */
  function LastMessageId(t: Tables): (r: (int, Option<DateTime>))
    ensures t.messages == map[] ==> r == (0, None)
    ensures t.messages != map[] ==> forall k :: k in t.messages ==> k.id <= r.0
    ensures t.messages != map[] ==>
      exists k :: k in t.messages && k.id == r.0 && r.1 == Some(StartOfDay(t.messages[k].date))
  {
    if t.messages == map[] then (0, None)
    else
      KeyOrder();
      var all := SortSet(t.messages.Keys, KeyBefore);
      SortedLast(all, t.messages.Keys);
      var last := all[|all| - 1];
      (last.id, Some(StartOfDay(t.messages[last].date)))
  }

  /** The last key of a sorted listing of a non-empty set is its greatest. */
  lemma SortedLast(all: seq<MsgKey>, s: set<MsgKey>)
    requires StrictlySorted(all, KeyBefore) && s != {}
    requires forall k :: k in all <==> k in s
    ensures all != [] && all[|all| - 1] in s
    ensures forall k :: k in s ==> k == all[|all| - 1] || KeyBefore(k, all[|all| - 1])
  {
    var k0 :| k0 in s;
    assert k0 in all;
    forall k | k in s
      ensures k == all[|all| - 1] || KeyBefore(k, all[|all| - 1])
    {
      var i :| 0 <= i < |all| && all[i] == k;
    }
  }

  function MonthsPresent(t: Tables): set<MonthKey> {
    set k | k in t.messages :: MonthOf(t.messages[k].date)
  }

  /** The bucket `get_timeline` reports for one month. */
  function MonthEntry(t: Tables, mk: MonthKey): Month {
    Month(mk.year, mk.month, MessageCount(t, mk.year, mk.month))
  }

  /** `get_timeline`: one bucket per month that has messages, in chronological order. */
  function Timeline(t: Tables): (r: seq<Month>)
    ensures |r| == |MonthsPresent(t)|
  {
    MonthOrder();
    var ms := SortSet(MonthsPresent(t), MonthBefore);
    seq(|ms|, i requires 0 <= i < |ms| => MonthEntry(t, ms[i]))
  }

  /** Row i of the timeline is the bucket of the i-th month present, which has messages. */
  lemma TimelineAt(t: Tables, i: nat)
    requires i < |Timeline(t)|
    ensures var x := Timeline(t)[i];
      && MonthKey(x.year, x.month) in MonthsPresent(t)
      && x == MonthEntry(t, MonthKey(x.year, x.month))
  {
    MonthOrder();
    var ms := SortSet(MonthsPresent(t), MonthBefore);
    assert Timeline(t)[i] == MonthEntry(t, ms[i]);
    assert ms[i] in MonthsPresent(t);
  }

  /**
   * The timeline lists, in chronological order, exactly the months that have messages,
   * each once and with that month's message count.
   */
  lemma TimelineSpec(t: Tables)
    ensures var r := Timeline(t);
      && (forall i, j :: 0 <= i < j < |r| ==>
            MonthBefore(MonthKey(r[i].year, r[i].month), MonthKey(r[j].year, r[j].month)))
      && (forall i :: 0 <= i < |r| ==> r[i].count == MessageCount(t, r[i].year, r[i].month) >= 1)
      && (forall y, m :: MessageCount(t, y, m) > 0 <==>
            exists i :: 0 <= i < |r| && r[i].year == y && r[i].month == m)
  {
    var r := Timeline(t);
    TimelineSorted(t);
    MonthsPresentCounts(t);
    forall i | 0 <= i < |r|
      ensures r[i].count == MessageCount(t, r[i].year, r[i].month) >= 1
    {
      TimelineAt(t, i);
    }
    TimelineCovers(t);
  }

  lemma TimelineSorted(t: Tables)
    ensures var r := Timeline(t);
      forall i, j :: 0 <= i < j < |r| ==>
        MonthBefore(MonthKey(r[i].year, r[i].month), MonthKey(r[j].year, r[j].month))
  {
    MonthOrder();
    var ms := SortSet(MonthsPresent(t), MonthBefore);
    var r := Timeline(t);
    assert forall i :: 0 <= i < |r| ==> MonthKey(r[i].year, r[i].month) == ms[i];
  }

  lemma TimelineCovers(t: Tables)
    ensures var r := Timeline(t);
      forall y, m :: MonthKey(y, m) in MonthsPresent(t) ==>
        exists i :: 0 <= i < |r| && r[i].year == y && r[i].month == m
  {
    MonthOrder();
    var ms := SortSet(MonthsPresent(t), MonthBefore);
    var r := Timeline(t);
    forall y, m | MonthKey(y, m) in MonthsPresent(t)
      ensures exists i :: 0 <= i < |r| && r[i].year == y && r[i].month == m
    {
      var i :| 0 <= i < |ms| && ms[i] == MonthKey(y, m);
      assert r[i].year == y && r[i].month == m;
    }
  }

  lemma MonthsPresentCounts(t: Tables)
    ensures forall y, m :: MessageCount(t, y, m) > 0 <==> MonthKey(y, m) in MonthsPresent(t)
  {
    forall y, m
      ensures MessageCount(t, y, m) > 0 <==> MonthKey(y, m) in MonthsPresent(t)
    {
      if MonthKey(y, m) in MonthsPresent(t) {
        var k :| k in t.messages && MonthOf(t.messages[k].date) == MonthKey(y, m);
        assert k in MonthKeys(t, y, m);
      }
      if MessageCount(t, y, m) > 0 {
        var k :| k in MonthKeys(t, y, m);
        assert MonthOf(t.messages[k].date) in MonthsPresent(t);
      }
    }
  }

  function CountSum(r: seq<Month>): nat {
    if r == [] then 0 else CountSum(r[..|r| - 1]) + r[|r| - 1].count
  }

  /** The keys whose month is one of `ms`. */
  ghost function KeysInMonths(t: Tables, ms: seq<Month>): set<MsgKey> {
    set k | k in t.messages && exists i :: 0 <= i < |ms| && InMonth(t.messages[k].date, ms[i].year, ms[i].month)
  }

  lemma {:induction false} CountSumIsKeysInMonths(t: Tables, r: seq<Month>)
    requires forall i :: 0 <= i < |r| ==> r[i].count == MessageCount(t, r[i].year, r[i].month)
    requires forall i, j :: 0 <= i < j < |r| ==> (r[i].year, r[i].month) != (r[j].year, r[j].month)
    ensures CountSum(r) == |KeysInMonths(t, r)|
  {
    if r == [] {
      assert KeysInMonths(t, r) == {};
    } else {
      CountSumIsKeysInMonths(t, r[..|r| - 1]);
      KeysInMonthsSnoc(t, r);
      KeysInMonthsApart(t, r);
    }
  }

  /** The keys in months r are those in the months before the last plus those of the last. */
  lemma KeysInMonthsSnoc(t: Tables, r: seq<Month>)
    requires r != []
    ensures KeysInMonths(t, r) ==
      KeysInMonths(t, r[..|r| - 1]) + MonthKeys(t, r[|r| - 1].year, r[|r| - 1].month)
  {
    var front := r[..|r| - 1];
    var a, b := KeysInMonths(t, front), MonthKeys(t, r[|r| - 1].year, r[|r| - 1].month);
    forall k | k in KeysInMonths(t, r)
      ensures k in a + b
    {
      var i :| 0 <= i < |r| && InMonth(t.messages[k].date, r[i].year, r[i].month);
      if i < |r| - 1 {
        assert front[i] == r[i];
      }
    }
    forall k | k in a
      ensures k in KeysInMonths(t, r)
    {
      var i :| 0 <= i < |front| && InMonth(t.messages[k].date, front[i].year, front[i].month);
      assert r[i] == front[i];
    }
    forall k | k in b
      ensures k in KeysInMonths(t, r)
    {
      assert InMonth(t.messages[k].date, r[|r| - 1].year, r[|r| - 1].month);
    }
  }

  /** When no month repeats, the last month's keys are not among the earlier months' keys. */
  lemma KeysInMonthsApart(t: Tables, r: seq<Month>)
    requires r != []
    requires forall i, j :: 0 <= i < j < |r| ==> (r[i].year, r[i].month) != (r[j].year, r[j].month)
    ensures KeysInMonths(t, r[..|r| - 1]) * MonthKeys(t, r[|r| - 1].year, r[|r| - 1].month) == {}
  {
    var front := r[..|r| - 1];
    forall k | k in KeysInMonths(t, front)
      ensures k !in MonthKeys(t, r[|r| - 1].year, r[|r| - 1].month)
    {
      var i :| 0 <= i < |front| && InMonth(t.messages[k].date, front[i].year, front[i].month);
      assert r[i] == front[i];
    }
  }

  /** The timeline's counts add up to the number of stored messages. */
  lemma TimelineTotal(t: Tables)
    ensures CountSum(Timeline(t)) == |t.messages|
  {
    var r := Timeline(t);
    TimelineSpec(t);
    forall i, j | 0 <= i < j < |r|
      ensures (r[i].year, r[i].month) != (r[j].year, r[j].month)
    {
      assert MonthBefore(MonthKey(r[i].year, r[i].month), MonthKey(r[j].year, r[j].month));
    }
    CountSumIsKeysInMonths(t, r);
    assert KeysInMonths(t, r) == t.messages.Keys by {
      forall k | k in t.messages
        ensures k in KeysInMonths(t, r)
      {
        var d := t.messages[k].date;
        assert k in MonthKeys(t, d.year, d.month);
        assert MessageCount(t, d.year, d.month) > 0;
      }
    }
  }

  /** The day of the month of each key of a listing. */
  function DayNumbers(t: Tables, keys: seq<MsgKey>): (ds: seq<int>)
    requires forall k :: k in keys ==> k in t.messages
    ensures |ds| == |keys|
    ensures forall i :: 0 <= i < |keys| ==> ds[i] == t.messages[keys[i]].date.day
  {
    seq(|keys|, i requires 0 <= i < |keys| => t.messages[keys[i]].date.day)
  }

  /** The keys of a listing dated on a given day. */
  ghost function KeysOfDay(t: Tables, keys: seq<MsgKey>, day: int): set<MsgKey>
    requires forall k :: k in keys ==> k in t.messages
  {
    set k | k in keys && t.messages[k].date.day == day
  }

  /** `COUNT(*)` of one day's messages. */
  function DayCount(t: Tables, year: int, month: int, day: int): nat {
    |set k | k in MonthKeys(t, year, month) && t.messages[k].date.day == day|
  }

  /** The keys of a day in a listing: those of its tail, plus its head when the head has that day. */
  lemma KeysOfDayCons(t: Tables, keys: seq<MsgKey>, day: int)
    requires keys != [] && forall k :: k in keys ==> k in t.messages
    ensures KeysOfDay(t, keys, day)
         == KeysOfDay(t, keys[1..], day) + (if t.messages[keys[0]].date.day == day then {keys[0]} else {})
  {
    assert forall k :: k in keys <==> k == keys[0] || k in keys[1..] by {
      assert keys == [keys[0]] + keys[1..];
    }
  }

  lemma {:induction false} CountDayNumbers(t: Tables, keys: seq<MsgKey>, day: int)
    requires forall k :: k in keys ==> k in t.messages
    requires Distinct(keys)
    ensures Count(DayNumbers(t, keys), day) == |KeysOfDay(t, keys, day)|
  {
    if keys == [] {
      assert KeysOfDay(t, keys, day) == {};
    } else {
      var rest := keys[1..];
      DistinctTail(keys);
      CountDayNumbers(t, rest, day);
      KeysOfDayCons(t, keys, day);
      assert DayNumbers(t, keys)[1..] == DayNumbers(t, rest);
      assert keys[0] !in KeysOfDay(t, rest, day);
    }
  }

  /** The day numbers of a month's id-ordered listing. */
  function MonthDays(t: Tables, year: int, month: int): seq<int> {
    DayNumbers(t, MonthListing(t, year, month))
  }

  /** The distinct values of `ds`, ascending (`GROUP BY day ORDER BY day`). */
  function DistinctDays(ds: seq<int>): (days: seq<int>)
    ensures StrictlySorted(days, IntBefore)
    ensures forall d :: d in days <==> d in ds
  {
    IntOrder();
    SortSet((set d | d in ds), IntBefore)
  }

  /** A day of a listing: how many entries it has and the 1-based rank of its first entry. */
  datatype DayRank = DayRank(day: int, count: nat, rank: nat)

  /** One entry per distinct day of `ds`, ascending by day. */
  function DayRanks(ds: seq<int>): (r: seq<DayRank>)
    ensures |r| == |DistinctDays(ds)|
    ensures forall i :: 0 <= i < |r| ==> r[i].day == DistinctDays(ds)[i]
  {
    var days := DistinctDays(ds);
    seq(|days|, i requires 0 <= i < |days| =>
      DayRank(days[i], Count(ds, days[i]), FirstIndex(ds, days[i]) + 1))
  }

  /**
   * `get_dayline(year, month, limit)`: per day of the month, its message count and the
   * page that the day's first message falls on when the month's messages, in id order,
   * are cut into pages of `limit`.
   *
   * The query in the source numbers rows with `ROW_NUMBER() OVER()` (no window order)
   * and reads `PAGE(rank, ?)` as a bare column of a GROUP BY, which leaves both the rank
   * order and the row the page is taken from to the query engine; this model follows
   * the documented intent: rank is the 1-based position in id order and the page is
   * that of the day's first (lowest-ranked) message.
   */
  function Dayline(t: Tables, year: int, month: int, limit: int): (r: seq<Day>)
    requires limit != 0
    ensures |r| == |DayRanks(MonthDays(t, year, month))|
    ensures forall i :: 0 <= i < |r| ==> r[i].year == year && r[i].month == month
  {
    DaysFromRanks(DayRanks(MonthDays(t, year, month)), year, month, limit)
  }

  /** The dayline rows of ranked days: the rank becomes the page it falls on. */
  function DaysFromRanks(rs: seq<DayRank>, year: int, month: int, limit: int): (r: seq<Day>)
    requires limit != 0
    ensures |r| == |rs|
    ensures forall i :: 0 <= i < |rs| ==>
      r[i] == Day(year, month, rs[i].day, rs[i].count, Page(rs[i].rank, limit))
  {
    seq(|rs|, i requires 0 <= i < |rs| => Day(year, month, rs[i].day, rs[i].count, Page(rs[i].rank, limit)))
  }

  /** One row of the dayline, read off the ranked days. */
  lemma DaylineAt(t: Tables, year: int, month: int, limit: int, i: nat)
    requires limit != 0 && i < |Dayline(t, year, month, limit)|
    ensures var x := DayRanks(MonthDays(t, year, month))[i];
      Dayline(t, year, month, limit)[i] == Day(year, month, x.day, x.count, Page(x.rank, limit))
  {
  }

  /** Row i of DayRanks: its day occurs in `ds`, with its count and first rank. */
  lemma DayRankAt(ds: seq<int>, i: nat)
    requires i < |DayRanks(ds)|
    ensures var x := DayRanks(ds)[i];
      && x.day in ds
      && x.count == Count(ds, x.day) >= 1
      && x.rank == FirstIndex(ds, x.day) + 1
      && FirstAt(ds, x.day, x.rank - 1)
  {
    assert DistinctDays(ds)[i] in ds;
  }

  /** The ranked days are ascending and list exactly the days occurring in `ds`. */
  lemma DayRanksDays(ds: seq<int>)
    ensures var r := DayRanks(ds);
      && (forall i, j :: 0 <= i < j < |r| ==> r[i].day < r[j].day)
      && (forall d :: d in ds <==> exists i :: 0 <= i < |r| && r[i].day == d)
  {
    var r := DayRanks(ds);
    var days := DistinctDays(ds);
    forall i, j | 0 <= i < j < |r|
      ensures r[i].day < r[j].day
    {
      assert IntBefore(days[i], days[j]);
    }
    forall d | d in ds
      ensures exists i :: 0 <= i < |r| && r[i].day == d
    {
      var i :| 0 <= i < |days| && days[i] == d;
      assert r[i].day == d;
    }
  }

  /**
   * Each ranked day carries the number of its entries in `ds` and the 1-based position of
   * its first entry.
   */
  lemma DayRanksCounts(ds: seq<int>)
    ensures var r := DayRanks(ds);
      && (forall i :: 0 <= i < |r| ==> r[i].count == Count(ds, r[i].day) >= 1)
      && (forall i :: 0 <= i < |r| ==> FirstAt(ds, r[i].day, r[i].rank - 1))
  {
    var r := DayRanks(ds);
    forall i | 0 <= i < |r|
      ensures r[i].count == Count(ds, r[i].day) >= 1
      ensures FirstAt(ds, r[i].day, r[i].rank - 1)
    {
      DayRankAt(ds, i);
    }
  }

  /** `j` is the position of the first occurrence of `d` in `ds`. */
  predicate FirstAt(ds: seq<int>, d: int, j: int) {
    0 <= j < |ds| && ds[j] == d && forall j' :: 0 <= j' < j ==> ds[j'] != d
  }

  lemma MonthListingDistinct(t: Tables, year: int, month: int)
    ensures Distinct(MonthListing(t, year, month))
  {
    var listing := MonthListing(t, year, month);
    forall i, j | 0 <= i < j < |listing|
      ensures listing[i] != listing[j]
    {
      assert KeyBefore(listing[i], listing[j]);
    }
  }

  /** Counting a day's entries in the listing is counting that day's messages. */
  lemma MonthDaysCount(t: Tables, year: int, month: int, d: int)
    ensures Count(MonthDays(t, year, month), d) == DayCount(t, year, month, d)
  {
    var listing := MonthListing(t, year, month);
    MonthListingDistinct(t, year, month);
    CountDayNumbers(t, listing, d);
    assert KeysOfDay(t, listing, d)
        == (set k | k in MonthKeys(t, year, month) && t.messages[k].date.day == d);
  }

  /** The dayline lists, in ascending order, each day with messages once, with its count. */
  lemma DaylineCounts(t: Tables, year: int, month: int, limit: int)
    requires limit != 0
    ensures var r := Dayline(t, year, month, limit);
      && (forall i, j :: 0 <= i < j < |r| ==> r[i].day < r[j].day)
      && (forall i :: 0 <= i < |r| ==> r[i].count == DayCount(t, year, month, r[i].day) >= 1)
      && (forall d :: DayCount(t, year, month, d) > 0 <==> exists i :: 0 <= i < |r| && r[i].day == d)
  {
    var ds := MonthDays(t, year, month);
    var rs := DayRanks(ds);
    var r := Dayline(t, year, month, limit);
    DayRanksDays(ds);
    DayRanksCounts(ds);
    forall i | 0 <= i < |r|
      ensures r[i].day == rs[i].day && r[i].count == rs[i].count
    {
      DaylineAt(t, year, month, limit, i);
    }
    forall d
      ensures Count(ds, d) == DayCount(t, year, month, d)
    {
      MonthDaysCount(t, year, month, d);
    }
  }

  /**
   * Each day's page is that of the rank of its first message in the month's id-ordered
   * listing: position j of MonthDays (see MonthDaysAt) holds the day's first message,
   * and the page is Page(j + 1, limit).
   */
  lemma DaylinePageAt(t: Tables, year: int, month: int, limit: int, i: nat)
    requires limit != 0 && i < |Dayline(t, year, month, limit)|
    ensures var r := Dayline(t, year, month, limit);
      exists j :: FirstAt(MonthDays(t, year, month), r[i].day, j) && r[i].page == Page(j + 1, limit)
  {
    RankedPageAt(MonthDays(t, year, month), year, month, limit, i);
  }

  /** Row i of the days built from the ranks of `ds` is on the page of its day's first position. */
  lemma RankedPageAt(ds: seq<int>, year: int, month: int, limit: int, i: nat)
    requires limit != 0 && i < |DayRanks(ds)|
    ensures var r := DaysFromRanks(DayRanks(ds), year, month, limit);
      exists j :: FirstAt(ds, r[i].day, j) && r[i].page == Page(j + 1, limit)
  {
    var x := DayRanks(ds)[i];
    var r := DaysFromRanks(DayRanks(ds), year, month, limit);
    DayRankAt(ds, i);
    var j := x.rank - 1;
    assert FirstAt(ds, x.day, j);
    assert r[i].day == x.day && r[i].page == Page(j + 1, limit);
  }

  /** The day numbers listed by MonthDays are those of the month's messages in id order. */
  lemma MonthDaysAt(t: Tables, year: int, month: int, j: int)
    requires 0 <= j < |MonthListing(t, year, month)|
    ensures var listing := MonthListing(t, year, month);
      && listing[j] in t.messages
      && InMonth(t.messages[listing[j]].date, year, month)
      && |MonthDays(t, year, month)| == |listing|
      && MonthDays(t, year, month)[j] == t.messages[listing[j]].date.day
  {
    var listing := MonthListing(t, year, month);
    assert listing[j] in MonthKeys(t, year, month);
  }

  function DaySum(r: seq<Day>): nat {
    if r == [] then 0 else DaySum(r[..|r| - 1]) + r[|r| - 1].count
  }

  function RankSum(r: seq<DayRank>): nat {
    if r == [] then 0 else RankSum(r[..|r| - 1]) + r[|r| - 1].count
  }

  /** Summing per-day counts over ranked days is summing the occurrences of those days. */
  lemma {:induction false} RankSumOfCounts(ds: seq<int>, rs: seq<DayRank>, days: seq<int>, k: nat)
    requires |rs| == |days| && k <= |rs|
    requires forall i :: 0 <= i < |rs| ==> rs[i].count == Count(ds, days[i])
    ensures RankSum(rs[..k]) == SumOfCounts(ds, days[..k])
  {
    if k > 0 {
      RankSumOfCounts(ds, rs, days, k - 1);
      assert rs[..k][..k - 1] == rs[..k - 1];
      assert days[..k][..k - 1] == days[..k - 1];
    }
  }

  lemma RankSumIsSumOfCounts(ds: seq<int>, k: nat)
    requires k <= |DayRanks(ds)|
    ensures RankSum(DayRanks(ds)[..k]) == SumOfCounts(ds, DistinctDays(ds)[..k])
  {
    var r, days := DayRanks(ds), DistinctDays(ds);
    forall i | 0 <= i < |r|
      ensures r[i].count == Count(ds, days[i])
    {
      DayRankAt(ds, i);
    }
    RankSumOfCounts(ds, r, days, k);
  }

  /** The per-day counts add up to the length of the listing. */
  lemma DayRanksTotal(ds: seq<int>)
    ensures RankSum(DayRanks(ds)) == |ds|
  {
    var r, days := DayRanks(ds), DistinctDays(ds);
    assert Distinct(days) by {
      forall i, j | 0 <= i < j < |days|
        ensures days[i] != days[j]
      {
        assert IntBefore(days[i], days[j]);
      }
    }
    SumOfCountsCoversAll(ds, days);
    RankSumIsSumOfCounts(ds, |r|);
    assert r[..|r|] == r && days[..|days|] == days;
  }

  /** Over a non-decreasing listing, a day's first rank is one past the earlier days' counts. */
  lemma DayRanksFromCounts(ds: seq<int>, k: nat)
    requires NonDecreasing(ds)
    requires k < |DayRanks(ds)|
    ensures DayRanks(ds)[k].rank == RankSum(DayRanks(ds)[..k]) + 1
  {
    var days := DistinctDays(ds);
    DayRankAt(ds, k);
    FirstIndexIsCountBelow(ds, days[k]);
    CountBelowIsSumOfCounts(ds, days, k);
    RankSumIsSumOfCounts(ds, k);
  }

  lemma {:induction false} DaySumIsRankSum(rs: seq<DayRank>, year: int, month: int, limit: int, k: nat)
    requires limit != 0 && k <= |rs|
    ensures DaySum(DaysFromRanks(rs, year, month, limit)[..k]) == RankSum(rs[..k])
  {
    if k > 0 {
      var r := DaysFromRanks(rs, year, month, limit);
      DaySumIsRankSum(rs, year, month, limit, k - 1);
      assert r[..k][..k - 1] == r[..k - 1];
      assert rs[..k][..k - 1] == rs[..k - 1];
    }
  }

  /** The dayline's counts add up to `get_message_count` for the month. */
  lemma DaylineTotal(t: Tables, year: int, month: int, limit: int)
    requires limit != 0
    ensures DaySum(Dayline(t, year, month, limit)) == MessageCount(t, year, month)
  {
    var r, rs := Dayline(t, year, month, limit), DayRanks(MonthDays(t, year, month));
    DayRanksTotal(MonthDays(t, year, month));
    DaySumIsRankSum(rs, year, month, limit, |r|);
    assert r[..|r|] == r && rs[..|rs|] == rs;
  }

  /**
   * When, within the month, the days of the messages taken in id order never decrease
   * (ids ascend with the date, the order in which messages are fetched; MonthDaysAscend
   * derives this from the messages themselves), the page of the k-th day is that of
   * rank `first` = c_1 + ... + c_(k-1) + 1: the deep link points at the page on which
   * that day begins.
   */
  lemma DaylinePagesFromCounts(t: Tables, year: int, month: int, limit: int, k: nat, first: int)
    requires limit != 0
    requires NonDecreasing(MonthDays(t, year, month))
    requires k < |Dayline(t, year, month, limit)|
    requires first == DaySum(Dayline(t, year, month, limit)[..k]) + 1
    ensures Dayline(t, year, month, limit)[k].page == Page(first, limit)
  {
    DaysPagesFromCounts(MonthDays(t, year, month), year, month, limit, k, Dayline(t, year, month, limit), first);
  }

  /** DaylinePagesFromCounts over the day numbers of a listing. */
  lemma DaysPagesFromCounts(ds: seq<int>, year: int, month: int, limit: int, k: nat, r: seq<Day>, first: int)
    requires limit != 0 && NonDecreasing(ds)
    requires r == DaysFromRanks(DayRanks(ds), year, month, limit) && k < |r|
    requires first == DaySum(r[..k]) + 1
    ensures r[k].page == Page(first, limit)
  {
    var rs := DayRanks(ds);
    assert rs[k].rank == RankSum(rs[..k]) + 1 by {
      DayRanksFromCounts(ds, k);
    }
    RankedPagesFromCounts(rs, year, month, limit, k, r, first);
  }

  /** A ranked day whose rank follows the earlier days' counts lands on the page of that rank. */
  lemma RankedPagesFromCounts(rs: seq<DayRank>, year: int, month: int, limit: int, k: nat, r: seq<Day>, first: int)
    requires limit != 0 && k < |rs| && rs[k].rank == RankSum(rs[..k]) + 1
    requires r == DaysFromRanks(rs, year, month, limit)
    requires first == DaySum(r[..k]) + 1
    ensures r[k].page == Page(first, limit)
  {
    DaySumIsRankSum(rs, year, month, limit, k);
    PageOfEqual(rs[k].rank, first, limit);
  }

  /** Days that do not decrease along the id order make the month's day numbers ascend. */
  lemma MonthDaysAscend(t: Tables, year: int, month: int)
    requires forall a, b :: a in MonthKeys(t, year, month) && b in MonthKeys(t, year, month) && KeyBefore(a, b) ==>
      t.messages[a].date.day <= t.messages[b].date.day
    ensures NonDecreasing(MonthDays(t, year, month))
  {
    var listing := MonthListing(t, year, month);
    var ds := MonthDays(t, year, month);
    forall i, j | 0 <= i < j < |ds|
      ensures ds[i] <= ds[j]
    {
      assert KeyBefore(listing[i], listing[j]);
    }
  }

  /** `json.loads(x) if x else None` on an opaque JSON text. */
  function Decoded(s: string): Option<string> {
    if s == "" then None else Some(s)
  }

  /** `a` followed by `n` decimal zeros: a * 10^n. */
  function Shifted(a: nat, n: nat): (r: nat)
    ensures a > 0 ==> r > 0
  {
    if n == 0 then a else 10 * Shifted(a, n - 1)
  }

  /**
   * The chat id that `printf('-100%d', from_chat_id)` denotes when compared with the
   * integer `chats.id`: "-100" followed by the digits. A negative id gives text that is
   * not a number and matches no chat.
   */
  function MarkedChannelId(c: int): Option<int> {
    if c >= 0 then Some(-(Shifted(100, |Text.NatToString(c)|) + c)) else None
  }

  /** Appending a digit to a positive number's numeral gives the numeral of ten times it plus the digit. */
  lemma NatToStringStep(q: nat, d: nat)
    requires q > 0 && d < 10
    ensures Text.NatToString(10 * q + d) == Text.NatToString(q) + [Text.DigitChar(d)]
  {
    assert (10 * q + d) / 10 == q && (10 * q + d) % 10 == d;
  }

  /** Writing `a` and then the digits of `b` is the numeral of `a` shifted by as many places, plus `b`. */
  lemma {:induction false} NatToStringConcat(a: nat, b: nat)
    requires a > 0
    ensures Text.NatToString(Shifted(a, |Text.NatToString(b)|) + b) == Text.NatToString(a) + Text.NatToString(b)
    decreases b
  {
    if b < 10 {
      assert Shifted(a, |Text.NatToString(b)|) == 10 * a;
      NatToStringStep(a, b);
    } else {
      var m := |Text.NatToString(b / 10)|;
      var q := Shifted(a, m) + b / 10;
      assert Text.NatToString(b) == Text.NatToString(b / 10) + [Text.DigitChar(b % 10)];
      assert Shifted(a, |Text.NatToString(b)|) + b == 10 * q + b % 10;
      NatToStringConcat(a, b / 10);
      NatToStringStep(q, b % 10);
    }
  }

  /** The marked id is the one whose decimal text is "-100" followed by the channel id. */
  lemma MarkedChannelIdText(c: int)
    requires c >= 0
    ensures MarkedChannelId(c).Some?
    ensures Text.IntToString(MarkedChannelId(c).value) == "-100" + Text.IntToString(c)
  {
    var n := Shifted(100, |Text.NatToString(c)|) + c;
    NatToStringConcat(100, c);
    HundredText();
    NegativeText(n);
    assert "-" + ("100" + Text.NatToString(c)) == "-100" + Text.NatToString(c);
  }

  lemma HundredText()
    ensures Text.NatToString(100) == "100"
  {
    assert Text.NatToString(10) == "10";
  }

  /** A negative number prints as a minus sign before the digits of its magnitude. */
  lemma NegativeText(n: int)
    requires n > 0
    ensures Text.IntToString(-n) == "-" + Text.NatToString(n)
  {
  }

  /**
   * A message with no origin: `printf('-100%d', NULL)` prints the NULL as 0, so the
   * join compares `chats.id` with "-1000".
   */
  const NullOriginChat: int := -1000

  lemma NullOriginChatText()
    ensures MarkedChannelId(0) == Some(NullOriginChat)
    ensures Text.IntToString(NullOriginChat) == "-100" + Text.IntToString(0)
  {
    MarkedChannelIdText(0);
    assert Text.NatToString(0) == "0";
  }

  /** The chat the marked form of `c` joins, if it is stored. */
  function MarkedChat(t: Tables, c: int): Option<string> {
    match MarkedChannelId(c)
    case Some(mc) => if mc in t.chats then Decoded(t.chats[mc].fullEntity) else None
    case None => None
  }

  /**
   * The joined origin chat of a message (the `LEFT JOIN chats` of get_messages): the
   * chat stored under the origin id, else under its marked form; with no origin, the
   * chat stored under -1000, if any.
   */
  function FromChat(t: Tables, fromChatId: Option<int>): (r: Option<string>)
    ensures fromChatId.None? && NullOriginChat !in t.chats ==> r.None?
    ensures fromChatId.None? && NullOriginChat in t.chats ==> r == Decoded(t.chats[NullOriginChat].fullEntity)
    ensures fromChatId.Some? && fromChatId.value in t.chats ==> r == Decoded(t.chats[fromChatId.value].fullEntity)
    ensures fromChatId.Some? && fromChatId.value !in t.chats && MarkedChannelId(fromChatId.value).Some?
            && MarkedChannelId(fromChatId.value).value in t.chats ==>
              r == Decoded(t.chats[MarkedChannelId(fromChatId.value).value].fullEntity)
    ensures fromChatId.Some? && fromChatId.value !in t.chats
            && (MarkedChannelId(fromChatId.value).None? || MarkedChannelId(fromChatId.value).value !in t.chats) ==>
              r.None?
  {
    NullOriginChatText();
    match fromChatId
    case None => MarkedChat(t, 0)
    case Some(c) => if c in t.chats then Decoded(t.chats[c].fullEntity) else MarkedChat(t, c)
  }

  /** The user part of a joined message row: nulls where the user row is missing. */
  datatype UserView = UserView(
    id: Option<int>,
    username: Option<string>,
    firstName: Option<string>,
    lastName: Option<string>,
    tags: Option<string>,
    avatar: Option<string>,
    full: Option<string>)

  /** A `Message` as `_make_message` rebuilds it from a joined row. */
  datatype MessageView = MessageView(
    id: int,
    kind: MessageType,
    date: DateTime,
    editDate: Option<DateTime>,
    content: string,
    replyTo: Option<int>,
    user: UserView,
    media: Option<Media>,
    full: Option<string>,
    chatId: int,
    fromChatId: Option<int>,
    fromChat: Option<string>)

  function JoinedUser(t: Tables, userId: Option<int>): (u: UserView)
    ensures u.id == userId
    ensures userId.Some? && userId.value in t.users ==>
      var row := t.users[userId.value];
      u == UserView(userId, Some(row.username), row.firstName, row.lastName, Some(row.tags), row.avatar, Decoded(row.full))
    ensures (userId.None? || userId.value !in t.users) ==>
      u == UserView(userId, None, None, None, None, None, None)
  {
    if userId.Some? && userId.value in t.users then
      var row := t.users[userId.value];
      UserView(userId, Some(row.username), row.firstName, row.lastName, Some(row.tags), row.avatar, Decoded(row.full))
    else UserView(userId, None, None, None, None, None, None)
  }

  /** The media part: present only when the joined media row has a truthy id. */
  function JoinedMedia(t: Tables, mediaId: Option<int>): (m: Option<Media>)
    ensures m.Some? <==> mediaId.Some? && mediaId.value in t.media && t.media[mediaId.value].id != 0
    ensures m.Some? ==> m.value == t.media[mediaId.value]
  {
    if mediaId.Some? && mediaId.value in t.media && t.media[mediaId.value].id != 0
    then Some(t.media[mediaId.value])
    else None
  }

  /** `_make_message`: the message row joined with its user, media and origin chat. */
  function MakeMessage(t: Tables, k: MsgKey): (v: MessageView)
    requires k in t.messages
    ensures v.id == k.id && v.chatId == k.chatId
    ensures var row := t.messages[k];
      && v.kind == row.kind && v.date == row.date && v.editDate == row.editDate
      && v.content == row.content && v.replyTo == row.replyTo && v.fromChatId == row.fromChatId
      && v.user == JoinedUser(t, row.userId) && v.media == JoinedMedia(t, row.mediaId)
      && v.full == Decoded(row.full) && v.fromChat == FromChat(t, row.fromChatId)
  {
    var row := t.messages[k];
    MessageView(
      k.id, row.kind, row.date, row.editDate, row.content, row.replyTo,
      JoinedUser(t, row.userId), JoinedMedia(t, row.mediaId), Decoded(row.full),
      k.chatId, row.fromChatId, FromChat(t, row.fromChatId))
  }

  /**
   * A message stored before its user (a weak reference) shows that user's columns as soon
   * as the user row is inserted, with no change to the message row.
   */
  lemma WeakUserReference(t: Tables, k: MsgKey, u: User)
    requires k in t.messages && t.messages[k].userId == Some(u.id)
    ensures var t' := UpsertUser(t, u);
      && k in t'.messages
      && MakeMessage(t', k).user == UserView(Some(u.id), Some(u.username), u.firstName, u.lastName,
                                             Some(JoinTags(u.tags)), u.avatar, Decoded(u.full))
  {
  }

  function AfterKeys(t: Tables, year: int, month: int, lastId: int): set<MsgKey> {
    set k | k in MonthKeys(t, year, month) && k.id > lastId
  }

  /** Every message of the month after the cursor, in id order. */
  function AfterListing(t: Tables, year: int, month: int, lastId: int): (r: seq<MsgKey>)
    ensures StrictlySorted(r, KeyBefore)
    ensures forall k :: k in r <==> k in AfterKeys(t, year, month, lastId)
  {
    KeyOrder();
    SortSet(AfterKeys(t, year, month, lastId), KeyBefore)
  }

  /** A key of the listing after the cursor is a stored message of the month past the cursor. */
  lemma AfterListingAt(t: Tables, year: int, month: int, lastId: int, i: int)
    requires 0 <= i < |AfterListing(t, year, month, lastId)|
    ensures var k := AfterListing(t, year, month, lastId)[i];
      k in t.messages && InMonth(t.messages[k].date, year, month) && k.id > lastId
  {
    assert AfterListing(t, year, month, lastId)[i] in AfterKeys(t, year, month, lastId);
  }

  /** The keys a `get_messages` call returns: `WHERE month AND id > last_id ORDER BY id LIMIT`. */
  function PageKeys(t: Tables, year: int, month: int, lastId: int, limit: int): (r: seq<MsgKey>)
    ensures forall i :: 0 <= i < |r| ==> r[i] in t.messages
  {
    var all := AfterListing(t, year, month, lastId);
    var r := if 0 <= limit < |all| then all[..limit] else all;
    assert forall i :: 0 <= i < |r| ==> r[i] in t.messages by {
      forall i | 0 <= i < |r|
        ensures r[i] in t.messages
      {
        AfterListingAt(t, year, month, lastId, i);
      }
    }
    r
  }

  /** `get_messages(year, month, last_id, limit)`; a negative limit means no limit, as in SQLite. */
  function GetMessages(t: Tables, year: int, month: int, lastId: int, limit: int): (r: seq<MessageView>)
    ensures |r| == |PageKeys(t, year, month, lastId, limit)|
    ensures forall i :: 0 <= i < |r| ==>
      var k := PageKeys(t, year, month, lastId, limit)[i];
      r[i].id == k.id && r[i].chatId == k.chatId && r[i].date == t.messages[k].date && r[i] == MakeMessage(t, k)
  {
    var keys := PageKeys(t, year, month, lastId, limit);
    seq(|keys|, i requires 0 <= i < |keys| => MakeMessage(t, keys[i]))
  }

  /** A page is a prefix of the listing after the cursor: all of it without a limit, else `limit` keys at most. */
  lemma PageKeysPrefix(t: Tables, year: int, month: int, lastId: int, limit: int)
    ensures var all := AfterListing(t, year, month, lastId);
      var r := PageKeys(t, year, month, lastId, limit);
      && |r| <= |all| && r == all[..|r|]
      && (limit < 0 ==> r == all)
      && (limit >= 0 ==> |r| == if limit < |all| then limit else |all|)
  {
  }

  /** The keys of a page: of the month, after the cursor, ascending, at most `limit`, and a prefix. */
  lemma PageKeysSpec(t: Tables, year: int, month: int, lastId: int, limit: int)
    ensures var keys := PageKeys(t, year, month, lastId, limit);
      && (forall i :: 0 <= i < |keys| ==>
            keys[i] in t.messages && InMonth(t.messages[keys[i]].date, year, month) && keys[i].id > lastId)
      && (forall i, j :: 0 <= i < j < |keys| ==> KeyBefore(keys[i], keys[j]))
      && (limit >= 0 ==> |keys| <= limit)
      && (forall k :: k in AfterKeys(t, year, month, lastId) ==>
            k in keys || (0 <= limit == |keys| && forall i :: 0 <= i < |keys| ==> KeyBefore(keys[i], k)))
  {
    var all := AfterListing(t, year, month, lastId);
    var keys := PageKeys(t, year, month, lastId, limit);
    PageKeysPrefix(t, year, month, lastId, limit);
    forall i | 0 <= i < |keys|
      ensures keys[i] in t.messages && InMonth(t.messages[keys[i]].date, year, month) && keys[i].id > lastId
    {
      AfterListingAt(t, year, month, lastId, i);
    }
    forall k | k in AfterKeys(t, year, month, lastId) && k !in keys
      ensures 0 <= limit == |keys| && forall i :: 0 <= i < |keys| ==> KeyBefore(keys[i], k)
    {
      PrefixLeavesLater(all, keys, limit, k);
    }
  }

  /** A key of a sorted listing that a limited prefix leaves out follows the whole, full, prefix. */
  lemma PrefixLeavesLater(all: seq<MsgKey>, keys: seq<MsgKey>, limit: int, k: MsgKey)
    requires StrictlySorted(all, KeyBefore)
    requires |keys| <= |all| && keys == all[..|keys|]
    requires limit < 0 ==> keys == all
    requires limit >= 0 ==> |keys| == if limit < |all| then limit else |all|
    requires k in all && k !in keys
    ensures 0 <= limit == |keys| && forall i :: 0 <= i < |keys| ==> KeyBefore(keys[i], k)
  {
    var j :| 0 <= j < |all| && all[j] == k;
    assert j >= |keys| by {
      assert forall i :: 0 <= i < |keys| ==> keys[i] == all[i] && keys[i] in keys;
    }
    assert forall i :: 0 <= i < |keys| ==> keys[i] == all[i];
  }

  /** Views that carry the keys of a page and their dates inherit the page's properties. */
  lemma PageViews(t: Tables, year: int, month: int, lastId: int, limit: int, keys: seq<MsgKey>, r: seq<MessageView>)
    requires |r| == |keys|
    requires forall i :: 0 <= i < |keys| ==>
      keys[i] in t.messages && InMonth(t.messages[keys[i]].date, year, month) && keys[i].id > lastId
    requires forall i :: 0 <= i < |r| ==>
      r[i].id == keys[i].id && r[i].chatId == keys[i].chatId && r[i].date == t.messages[keys[i]].date
    requires forall i, j :: 0 <= i < j < |keys| ==> KeyBefore(keys[i], keys[j])
    requires forall k :: k in AfterKeys(t, year, month, lastId) ==>
      k in keys || (0 <= limit == |keys| && forall i :: 0 <= i < |keys| ==> KeyBefore(keys[i], k))
    ensures forall i :: 0 <= i < |r| ==> InMonth(r[i].date, year, month) && r[i].id > lastId
    ensures forall i, j :: 0 <= i < j < |r| ==> r[i].id <= r[j].id
    ensures forall k :: k in AfterKeys(t, year, month, lastId) ==>
      (exists i :: 0 <= i < |r| && r[i].id == k.id && r[i].chatId == k.chatId)
      || (0 <= limit == |r| && forall i :: 0 <= i < |r| ==> KeyBefore(MsgKey(r[i].id, r[i].chatId), k))
  {
    forall k | k in AfterKeys(t, year, month, lastId) && k in keys
      ensures exists i :: 0 <= i < |r| && r[i].id == k.id && r[i].chatId == k.chatId
    {
      var i :| 0 <= i < |keys| && keys[i] == k;
      assert r[i].id == k.id && r[i].chatId == k.chatId;
    }
    forall k | k in AfterKeys(t, year, month, lastId) && k !in keys
      ensures 0 <= limit == |r| && forall i :: 0 <= i < |r| ==> KeyBefore(MsgKey(r[i].id, r[i].chatId), k)
    {
      assert forall i :: 0 <= i < |r| ==> MsgKey(r[i].id, r[i].chatId) == keys[i];
    }
  }

  /**
   * A page holds only messages of the month after the cursor, in ascending id order, at
   * most `limit` of them, and it is a prefix: every qualifying message it leaves out comes
   * after all of those it returns, and none is left out unless the page is full.
   */
  lemma GetMessagesSpec(t: Tables, year: int, month: int, lastId: int, limit: int)
    ensures var r := GetMessages(t, year, month, lastId, limit);
      && (forall i :: 0 <= i < |r| ==> InMonth(r[i].date, year, month) && r[i].id > lastId)
      && (forall i, j :: 0 <= i < j < |r| ==> r[i].id <= r[j].id)
      && (limit >= 0 ==> |r| <= limit)
      && (forall k :: k in AfterKeys(t, year, month, lastId) ==>
            (exists i :: 0 <= i < |r| && r[i].id == k.id && r[i].chatId == k.chatId)
            || (0 <= limit == |r| && forall i :: 0 <= i < |r| ==> KeyBefore(MsgKey(r[i].id, r[i].chatId), k)))
  {
    PageKeysSpec(t, year, month, lastId, limit);
    PageViews(t, year, month, lastId, limit, PageKeys(t, year, month, lastId, limit), GetMessages(t, year, month, lastId, limit));
  }

  /** Within one chat's month, ids identify messages. */
  ghost predicate UniqueIds(t: Tables, year: int, month: int) {
    forall a, b :: a in MonthKeys(t, year, month) && b in MonthKeys(t, year, month) && a.id == b.id ==> a == b
  }

  /** The listing after the last id of a page is the rest of the listing the page came from. */
  lemma AfterPageIsRest(t: Tables, year: int, month: int, lastId: int, n: nat)
    requires UniqueIds(t, year, month)
    requires 0 < n <= |AfterListing(t, year, month, lastId)|
    ensures var all := AfterListing(t, year, month, lastId);
      AfterListing(t, year, month, all[n - 1].id) == all[n..]
  {
    var all := AfterListing(t, year, month, lastId);
    var cut := all[n - 1].id;
    var rest := AfterListing(t, year, month, cut);
    assert cut > lastId by {
      AfterListingAt(t, year, month, lastId, n - 1);
    }
    forall i, j | 0 <= i < |all| && 0 <= j < |all| && all[i].id == all[j].id
      ensures i == j
    {
      assert all[i] in AfterKeys(t, year, month, lastId) && all[j] in AfterKeys(t, year, month, lastId);
      assert all[i] == all[j];
      assert KeyBefore(all[i], all[j]) || KeyBefore(all[j], all[i]) || i == j;
    }
    forall x
      ensures x in rest <==> x in all && x.id > cut
    {
      assert x in AfterKeys(t, year, month, cut) <==> x in AfterKeys(t, year, month, lastId) && x.id > cut;
    }
    SortedSuffix(all, rest, n);
  }

  /**
   * In a key listing with distinct ids, the keys whose id exceeds that of the n-th key
   * are exactly those after it.
   */
  lemma SortedSuffix(all: seq<MsgKey>, rest: seq<MsgKey>, n: nat)
    requires 0 < n <= |all|
    requires StrictlySorted(all, KeyBefore) && StrictlySorted(rest, KeyBefore)
    requires forall i, j :: 0 <= i < |all| && 0 <= j < |all| && all[i].id == all[j].id ==> i == j
    requires forall x :: x in rest <==> x in all && x.id > all[n - 1].id
    ensures rest == all[n..]
  {
    var cut := all[n - 1].id;
    forall i | 0 <= i < n
      ensures all[i].id <= cut
    {
      if i < n - 1 {
        assert KeyBefore(all[i], all[n - 1]);
      }
    }
    forall j | n <= j < |all|
      ensures all[j].id > cut
    {
      assert KeyBefore(all[n - 1], all[j]);
    }
    forall x
      ensures x in rest <==> x in all[n..]
    {
      if x in all {
        var j :| 0 <= j < |all| && all[j] == x;
        assert x in all[n..] <==> j >= n;
      }
    }
    assert StrictlySorted(all[n..], KeyBefore);
    KeyOrder();
    SortedUnique(rest, all[n..], KeyBefore);
  }

  /**
   * Cursor paging loses nothing: when message ids are unique within the month (one chat),
   * a page followed by everything after its last id is everything after the first cursor.
   */
  lemma CursorPagingCoversMonth(t: Tables, year: int, month: int, lastId: int, limit: nat)
    requires UniqueIds(t, year, month)
    requires 0 < |PageKeys(t, year, month, lastId, limit)|
    ensures var page := PageKeys(t, year, month, lastId, limit);
      page + PageKeys(t, year, month, page[|page| - 1].id, -1) == PageKeys(t, year, month, lastId, -1)
  {
    var page := PageKeys(t, year, month, lastId, limit);
    var all := AfterListing(t, year, month, lastId);
    var n := |page|;
    PageKeysPrefix(t, year, month, lastId, limit);
    PageKeysPrefix(t, year, month, lastId, -1);
    PageKeysPrefix(t, year, month, page[n - 1].id, -1);
    assert page[n - 1] == all[n - 1];
    AfterPageIsRest(t, year, month, lastId, n);
    PrefixAndRest(all, page, all[n..]);
  }

  /** The stored chats among `ids`, ascending. */
  function ChatIds(t: Tables, ids: seq<int>): (r: seq<int>)
    ensures StrictlySorted(r, IntBefore)
    ensures forall id :: id in r <==> id in t.chats && id in ids
  {
    IntOrder();
    SortSet((set id | id in t.chats && id in ids), IntBefore)
  }

  /** `get_groups(ids)`: the stored chats among `ids`, ascending by id, with a blank date. */
  function GetGroups(t: Tables, ids: seq<int>): (r: seq<Chat>)
    ensures |r| == |ChatIds(t, ids)|
  {
    var found := ChatIds(t, ids);
    assert forall i :: 0 <= i < |found| ==> found[i] in t.chats by {
      forall i | 0 <= i < |found|
        ensures found[i] in t.chats
      {
        assert found[i] in found;
      }
    }
    seq(|found|, i requires 0 <= i < |found| => t.chats[found[i]].(date := None))
  }

  /**
   * get_groups lists each stored chat among `ids` exactly once, in ascending id order,
   * as stored but with its date left blank.
   */
  lemma GetGroupsSpec(t: Tables, ids: seq<int>)
    requires WellKeyed(t)
    ensures var r := GetGroups(t, ids);
      && (forall i, j :: 0 <= i < j < |r| ==> r[i].id < r[j].id)
      && (forall id :: (exists i :: 0 <= i < |r| && r[i].id == id) <==> id in t.chats && id in ids)
      && (forall i :: 0 <= i < |r| ==> r[i] == t.chats[r[i].id].(date := None))
  {
    var r := GetGroups(t, ids);
    var found := ChatIds(t, ids);
    forall i | 0 <= i < |r|
      ensures r[i].id == found[i] && r[i] == t.chats[r[i].id].(date := None)
    {
      assert found[i] in found;
    }
    forall i, j | 0 <= i < j < |r|
      ensures r[i].id < r[j].id
    {
      assert IntBefore(found[i], found[j]);
    }
    forall id | id in t.chats && id in ids
      ensures exists i :: 0 <= i < |r| && r[i].id == id
    {
      var i :| 0 <= i < |found| && found[i] == id;
      assert r[i].id == id;
    }
  }
}

/** The daily volume and velocity estimator of Volume/Volume_Sentiment_Analyzer.py:
    rows without a usable timestamp are dropped, a symbol's messages are grouped
    by UTC calendar date, and each day is reduced to a count, a time window, a
    message rate with a small-sample noise floor and a mean gap. Timestamps are
    whole seconds since the Unix epoch; a UTC date is the day number
    `ts / 86400` (Dafny's `/` floors for a positive divisor, as the calendar does). */
module Volume {
  import opened Wrappers

  const SECONDS_PER_DAY := 86400
  /** Days with fewer messages than this get the flat daily rate `n / 24`. */
  const NOISE_FLOOR := 5

  /** A scraped row as the estimator reads it: the symbol cell (None when the
      cell is empty) and the `timestamp_iso` cell ("" when empty). */
  datatype RawRow = RawRow(symbol: Option<string>, timestampIso: string)

  /** A row whose timestamp parsed. */
  datatype TimedRow = TimedRow(symbol: Option<string>, ts: int)

  /** One row of the daily volume table, before rounding. */
  datatype VolumeRow = VolumeRow(
    symbol: string,
    dateUtc: int,
    messages: nat,
    tminUtc: int,
    tmaxUtc: int,
    windowMinutes: real,
    msgsPerHour: real,
    avgSecondsBetween: real)

  /** The timestamp of a row: an empty cell is missing whatever the parser
      would say; otherwise `parse` (standing for `pd.to_datetime(...,
      errors='coerce', utc=True)`) decides. */
  function Timestamp(row: RawRow, parse: string -> Option<int>): (t: Option<int>)
    ensures row.timestampIso == "" ==> t == None
    ensures row.timestampIso != "" ==> t == parse(row.timestampIso)
  {
    if row.timestampIso == "" then None else parse(row.timestampIso)
  }

  /** The rows that keep a timestamp, in their original order. */
  function DropUntimed(rows: seq<RawRow>, parse: string -> Option<int>): (r: seq<TimedRow>)
    ensures |r| <= |rows|
  {
    if rows == [] then []
    else
      var rest := DropUntimed(rows[1..], parse);
      match Timestamp(rows[0], parse)
      case None => rest
      case Some(t) => [TimedRow(rows[0].symbol, t)] + rest
  }

  /** A timed row survives exactly when some input row with that symbol has a
      non-empty cell that parses to that instant. */
  lemma {:induction false} DropUntimedKeeps(rows: seq<RawRow>, parse: string -> Option<int>, s: Option<string>, t: int)
    ensures TimedRow(s, t) in DropUntimed(rows, parse) <==>
            exists i :: 0 <= i < |rows| && rows[i].symbol == s && Timestamp(rows[i], parse) == Some(t)
  {
    if rows != [] {
      DropUntimedKeeps(rows[1..], parse, s, t);
      if exists i :: 0 <= i < |rows[1..]| && rows[1..][i].symbol == s && Timestamp(rows[1..][i], parse) == Some(t) {
        var i :| 0 <= i < |rows[1..]| && rows[1..][i].symbol == s && Timestamp(rows[1..][i], parse) == Some(t);
        assert rows[i + 1] == rows[1..][i];
      }
      if exists i :: 0 <= i < |rows| && rows[i].symbol == s && Timestamp(rows[i], parse) == Some(t) {
        var i :| 0 <= i < |rows| && rows[i].symbol == s && Timestamp(rows[i], parse) == Some(t);
        if i > 0 {
          assert rows[1..][i - 1] == rows[i];
        }
      }
    }
  }

  /** How many input rows yield the timed row `x`: a reference count. */
  function Yields(rows: seq<RawRow>, parse: string -> Option<int>, x: TimedRow): nat {
    if rows == [] then 0
    else (if rows[0].symbol == x.symbol && Timestamp(rows[0], parse) == Some(x.ts) then 1 else 0)
         + Yields(rows[1..], parse, x)
  }

  /** Nothing is merged or duplicated: each timed row occurs as often as
      input rows yield it, so two messages in the same second stay two. */
  lemma {:induction false} DropUntimedCounts(rows: seq<RawRow>, parse: string -> Option<int>, x: TimedRow)
    ensures multiset(DropUntimed(rows, parse))[x] == Yields(rows, parse, x)
  {
    if rows != [] {
      DropUntimedCounts(rows[1..], parse, x);
      var rest := DropUntimed(rows[1..], parse);
      match Timestamp(rows[0], parse)
      case None =>
      case Some(t) =>
        assert multiset([TimedRow(rows[0].symbol, t)] + rest) == multiset([TimedRow(rows[0].symbol, t)]) + multiset(rest);
    }
  }

  /** `.dt.date` of a UTC instant, as days counted from 1970-01-01. */
  function Day(ts: int): int {
    ts / SECONDS_PER_DAY
  }

  /** The date of an instant is the day that contains it, also for instants
      before 1970. */
  lemma DayContains(ts: int)
    ensures Day(ts) * SECONDS_PER_DAY <= ts < Day(ts) * SECONDS_PER_DAY + SECONDS_PER_DAY
  {
  }

  /** The timestamps of one symbol's rows (`df[df['symbol'] == symbol]`); a
      missing symbol never compares equal. */
  function SymbolTimes(rows: seq<TimedRow>, symbol: string): (r: seq<int>)
    ensures |r| <= |rows|
    ensures forall t :: t in r <==> TimedRow(Some(symbol), t) in rows
  {
    if rows == [] then []
    else
      var rest := SymbolTimes(rows[1..], symbol);
      assert forall x :: x in rows <==> x == rows[0] || x in rows[1..];
      if rows[0].symbol == Some(symbol) then [rows[0].ts] + rest else rest
  }

  /** Each instant occurs as often as the symbol's rows carry it. */
  lemma {:induction false} SymbolTimesCounts(rows: seq<TimedRow>, symbol: string, t: int)
    ensures multiset(SymbolTimes(rows, symbol))[t] == multiset(rows)[TimedRow(Some(symbol), t)]
  {
    if rows != [] {
      SymbolTimesCounts(rows[1..], symbol, t);
      assert rows == [rows[0]] + rows[1..];
      assert multiset(rows) == multiset([rows[0]]) + multiset(rows[1..]);
      var rest := SymbolTimes(rows[1..], symbol);
      assert multiset([rows[0].ts] + rest) == multiset([rows[0].ts]) + multiset(rest);
    }
  }

  /** The symbol's timestamped messages are the input rows with that symbol
      and a timestamp. */
  function TimedFor(rows: seq<RawRow>, parse: string -> Option<int>, symbol: string): nat {
    if rows == [] then 0
    else (if rows[0].symbol == Some(symbol) && Timestamp(rows[0], parse).Some? then 1 else 0)
         + TimedFor(rows[1..], parse, symbol)
  }

  lemma {:induction false} SymbolTimesCountsRows(rows: seq<RawRow>, parse: string -> Option<int>, symbol: string)
    ensures |SymbolTimes(DropUntimed(rows, parse), symbol)| == TimedFor(rows, parse, symbol)
  {
    if rows != [] {
      SymbolTimesCountsRows(rows[1..], parse, symbol);
      var rest := DropUntimed(rows[1..], parse);
      match Timestamp(rows[0], parse)
      case None =>
      case Some(t) =>
        assert ([TimedRow(rows[0].symbol, t)] + rest)[1..] == rest;
    }
  }

  predicate Ascending(ds: seq<int>) {
    forall i, j :: 0 <= i < j < |ds| ==> ds[i] < ds[j]
  }

  function InsertDay(d: int, ds: seq<int>): (r: seq<int>)
    requires Ascending(ds)
    ensures Ascending(r)
    ensures forall x :: x in r <==> x == d || x in ds
  {
    if ds == [] then [d]
    else if d < ds[0] then [d] + ds
    else if d == ds[0] then ds
    else
      var tail := InsertDay(d, ds[1..]);
      forall j | 0 <= j < |tail| ensures ds[0] < tail[j] {
        assert tail[j] in tail;
      }
      [ds[0]] + tail
  }

  /** The distinct UTC dates of `ts`, ascending: the keys `groupby('date_utc')`
      produces. */
  function Days(ts: seq<int>): (ds: seq<int>)
    ensures Ascending(ds)
    ensures forall d :: d in ds <==> exists t :: t in ts && Day(t) == d
  {
    if ts == [] then []
    else
      var rest := Days(ts[1..]);
      assert forall t :: t in ts <==> t == ts[0] || t in ts[1..];
      InsertDay(Day(ts[0]), rest)
  }

  /** The timestamps of `ts` that fall on day `d`, in order. */
  function Group(ts: seq<int>, d: int): (g: seq<int>)
    ensures |g| <= |ts|
    ensures forall t :: t in g <==> t in ts && Day(t) == d
  {
    if ts == [] then []
    else
      var rest := Group(ts[1..], d);
      assert forall t :: t in ts <==> t == ts[0] || t in ts[1..];
      if Day(ts[0]) == d then [ts[0]] + rest else rest
  }

  /** A day's group keeps every instant of that day as often as it occurs,
      so `len(g)` counts messages, not distinct instants. */
  lemma {:induction false} GroupCounts(ts: seq<int>, d: int, t: int)
    ensures multiset(Group(ts, d))[t] == if Day(t) == d then multiset(ts)[t] else 0
  {
    if ts != [] {
      GroupCounts(ts[1..], d, t);
      assert ts == [ts[0]] + ts[1..];
      assert multiset(ts) == multiset([ts[0]]) + multiset(ts[1..]);
      var rest := Group(ts[1..], d);
      assert multiset([ts[0]] + rest) == multiset([ts[0]]) + multiset(rest);
    }
  }

  /** The earliest timestamp of a non-empty group. */
  function Min(g: seq<int>): (m: int)
    requires |g| > 0
    ensures m in g && forall t :: t in g ==> m <= t
  {
    if |g| == 1 then g[0]
    else
      var m := Min(g[1..]);
      assert forall t :: t in g ==> t == g[0] || t in g[1..];
      if g[0] <= m then g[0] else m
  }

  /** The latest timestamp of a non-empty group. */
  function Max(g: seq<int>): (m: int)
    requires |g| > 0
    ensures m in g && forall t :: t in g ==> t <= m
  {
    if |g| == 1 then g[0]
    else
      var m := Max(g[1..]);
      assert forall t :: t in g ==> t == g[0] || t in g[1..];
      if g[0] >= m then g[0] else m
  }

  function MaxReal(a: real, b: real): real {
    if a >= b then a else b
  }

  /** `rate` is the message rate in messages per hour of `n` messages spread
      over `windowMinutes`: below the noise floor the flat daily average
      `n / 24`, otherwise `n` per window of at least one minute, scaled to an
      hour. It is positive and never more than `60 * n`, whatever the window. */
  predicate RateFits(n: nat, windowMinutes: real, rate: real) {
    && (n < NOISE_FLOOR ==> rate == n as real / 24.0)
    && (n >= NOISE_FLOOR ==> rate * MaxReal(windowMinutes, 1.0) == n as real * 60.0)
    && 0.0 < rate <= 60.0 * n as real
  }

  function Velocity(n: nat, windowMinutes: real): (rate: real)
    requires n > 0 && windowMinutes >= 0.0
    ensures RateFits(n, windowMinutes, rate)
  {
    var mathDurationMin := MaxReal(windowMinutes, 1.0);
    if n < NOISE_FLOOR then n as real / 24.0
    else
      var q := n as real / mathDurationMin;
      assert q * mathDurationMin == n as real;
      assert q > 0.0;
      assert q <= q * mathDurationMin by {
        assert q * mathDurationMin - q == q * (mathDurationMin - 1.0);
      }
      q * 60.0
  }

  /** `w` is the span of `span` seconds in minutes. */
  predicate WindowFits(span: int, w: real) {
    w >= 0.0 && w * 60.0 == span as real
  }

  function WindowMinutes(span: nat): (w: real)
    ensures WindowFits(span, w)
  {
    span as real / 60.0
  }

  /** `gap` is the mean gap in seconds between `n` messages spanning `span`
      seconds: `span / max(n - 1, 1)`, so the whole span (0 for a real group)
      for a single message. */
  predicate GapFits(span: int, n: nat, gap: real) {
    && (n == 1 ==> gap == span as real)
    && gap >= 0.0
    && gap * (if n > 1 then n - 1 else 1) as real == span as real
  }

  function MeanGap(span: nat, n: nat): (gap: real)
    requires n > 0
    ensures GapFits(span, n, gap)
  {
    var gaps := if n - 1 >= 1 then n - 1 else 1;
    span as real / gaps as real
  }

  /** `_summ`: the volume statistics of one day's non-empty group of
      timestamps, before rounding. The window shown is the real one; the rate
      uses a window of at least one minute, and below the noise floor it is
      the flat daily average whatever the window. */
  function Summarize(symbol: string, day: int, g: seq<int>): (r: VolumeRow)
    requires |g| > 0
    ensures r.symbol == symbol && r.dateUtc == day && r.messages == |g|
    ensures r.tminUtc in g && r.tmaxUtc in g
    ensures forall t :: t in g ==> r.tminUtc <= t <= r.tmaxUtc
    ensures WindowFits(r.tmaxUtc - r.tminUtc, r.windowMinutes)
    ensures RateFits(|g|, r.windowMinutes, r.msgsPerHour)
    ensures GapFits(r.tmaxUtc - r.tminUtc, |g|, r.avgSecondsBetween)
    ensures |g| == 1 ==> r.tminUtc == r.tmaxUtc && r.avgSecondsBetween == 0.0
  {
    var n := |g|;
    var tmin := Min(g);
    var tmax := Max(g);
    var realDurationMin := WindowMinutes(tmax - tmin);
    var rate := Velocity(n, realDurationMin);
    var gap := MeanGap(tmax - tmin, n);
    assert n == 1 ==> tmin == tmax by {
      if n == 1 {
        assert g[0] in g;
      }
    }
    VolumeRow(symbol, day, n, tmin, tmax, realDurationMin, rate, gap)
  }

  /** One summary per date of `ds`, in the order of `ds`. */
  function SummarizeDays(symbol: string, ts: seq<int>, ds: seq<int>): (r: seq<VolumeRow>)
    requires forall d :: d in ds ==> Group(ts, d) != []
    ensures |r| == |ds|
    ensures forall i :: 0 <= i < |ds| ==> r[i].symbol == symbol && r[i].dateUtc == ds[i]
  {
    if ds == [] then []
    else
      assert forall d :: d in ds[1..] ==> d in ds;
      var rest := SummarizeDays(symbol, ts, ds[1..]);
      var r := [Summarize(symbol, ds[0], Group(ts, ds[0]))] + rest;
      assert forall i :: 0 < i < |ds| ==> r[i] == rest[i - 1] && ds[i] == ds[1..][i - 1];
      r
  }

  lemma {:induction false} SummarizeDaysAt(symbol: string, ts: seq<int>, ds: seq<int>, i: int)
    requires forall d :: d in ds ==> Group(ts, d) != []
    requires 0 <= i < |ds|
    ensures SummarizeDays(symbol, ts, ds)[i] == Summarize(symbol, ds[i], Group(ts, ds[i]))
  {
    if i > 0 {
      assert forall d :: d in ds[1..] ==> d in ds;
      SummarizeDaysAt(symbol, ts, ds[1..], i - 1);
      assert ds[1..][i - 1] == ds[i];
    }
  }

  function TotalMessages(rows: seq<VolumeRow>): nat {
    if rows == [] then 0 else rows[0].messages + TotalMessages(rows[1..])
  }

  /** `daily_volume_table(df, symbol)` on rows that already have a timestamp:
      one row per distinct UTC date of the symbol's messages, all of the
      requested symbol, ascending by date (the lemmas below say which dates
      and what each row holds). */
  function DailyVolumeTable(rows: seq<TimedRow>, symbol: string): (r: seq<VolumeRow>)
    ensures forall i :: 0 <= i < |r| ==> r[i].symbol == symbol
    ensures forall i, j :: 0 <= i < j < |r| ==> r[i].dateUtc < r[j].dateUtc
  {
    var ts := SymbolTimes(rows, symbol);
    DaysAreOccupied(ts);
    SummarizeDays(symbol, ts, Days(ts))
  }

  /** The table's dates are exactly the UTC dates of the symbol's messages. */
  lemma {:induction false} DailyDatesAreMessageDates(rows: seq<TimedRow>, symbol: string)
    ensures var r := DailyVolumeTable(rows, symbol);
      && (forall i :: 0 <= i < |r| ==> exists t :: TimedRow(Some(symbol), t) in rows && Day(t) == r[i].dateUtc)
      && (forall t :: TimedRow(Some(symbol), t) in rows ==> exists i :: 0 <= i < |r| && r[i].dateUtc == Day(t))
  {
    TableDates(rows, symbol);
    SymbolDays(rows, symbol);
    DatesCovered(rows, symbol, DailyVolumeTable(rows, symbol), Days(SymbolTimes(rows, symbol)));
  }

  /** The table's dates, in order, are the `Days` of the symbol's timestamps. */
  lemma TableDates(rows: seq<TimedRow>, symbol: string)
    ensures var r := DailyVolumeTable(rows, symbol);
      var ds := Days(SymbolTimes(rows, symbol));
      |r| == |ds| && forall i :: 0 <= i < |r| ==> r[i].dateUtc == ds[i]
  {
  }

  lemma DatesCovered(rows: seq<TimedRow>, symbol: string, r: seq<VolumeRow>, ds: seq<int>)
    requires |r| == |ds| && forall i :: 0 <= i < |r| ==> r[i].dateUtc == ds[i]
    requires forall d :: d in ds <==> exists t :: TimedRow(Some(symbol), t) in rows && Day(t) == d
    ensures forall i :: 0 <= i < |r| ==> exists t :: TimedRow(Some(symbol), t) in rows && Day(t) == r[i].dateUtc
    ensures forall t :: TimedRow(Some(symbol), t) in rows ==> exists i :: 0 <= i < |r| && r[i].dateUtc == Day(t)
  {
    forall i | 0 <= i < |r| ensures exists t :: TimedRow(Some(symbol), t) in rows && Day(t) == r[i].dateUtc {
      assert ds[i] in ds;
    }
    forall t | TimedRow(Some(symbol), t) in rows ensures exists i :: 0 <= i < |r| && r[i].dateUtc == Day(t) {
      assert Day(t) in ds;
    }
  }

  /** The dates of the symbol's timestamps are the dates of its rows. */
  lemma SymbolDays(rows: seq<TimedRow>, symbol: string)
    ensures forall d :: d in Days(SymbolTimes(rows, symbol)) <==> exists t :: TimedRow(Some(symbol), t) in rows && Day(t) == d
  {
    var ts := SymbolTimes(rows, symbol);
    forall d | d in Days(ts) ensures exists t :: TimedRow(Some(symbol), t) in rows && Day(t) == d {
      var t :| t in ts && Day(t) == d;
      assert TimedRow(Some(symbol), t) in rows;
    }
    forall d | exists t :: TimedRow(Some(symbol), t) in rows && Day(t) == d ensures d in Days(ts) {
      var t :| TimedRow(Some(symbol), t) in rows && Day(t) == d;
      assert t in ts;
    }
  }

  /** Each row of the daily table is `_summ` of exactly the symbol's messages
      of that date. */
  lemma DailyRowSummarizesItsDay(rows: seq<TimedRow>, symbol: string, i: int)
    requires 0 <= i < |DailyVolumeTable(rows, symbol)|
    ensures Group(SymbolTimes(rows, symbol), DailyVolumeTable(rows, symbol)[i].dateUtc) != []
    ensures var row := DailyVolumeTable(rows, symbol)[i];
            row == Summarize(symbol, row.dateUtc, Group(SymbolTimes(rows, symbol), row.dateUtc))
  {
    var ts := SymbolTimes(rows, symbol);
    DaysAreOccupied(ts);
    SummarizeDaysAt(symbol, ts, Days(ts), i);
    assert Days(ts)[i] in Days(ts);
  }

  /** Read from the input file: the `messages` column sums to the number of
      rows with the symbol and a usable timestamp, duplicates included. */
  lemma DailyMessagesCountRows(rows: seq<RawRow>, parse: string -> Option<int>, symbol: string)
    ensures TotalMessages(DailyVolumeTable(DropUntimed(rows, parse), symbol)) == TimedFor(rows, parse, symbol)
  {
    DailyMessagesTotal(DropUntimed(rows, parse), symbol);
    SymbolTimesCountsRows(rows, parse, symbol);
  }

  /** The `messages` column sums to the number of the symbol's timestamped rows. */
  lemma DailyMessagesTotal(rows: seq<TimedRow>, symbol: string)
    ensures TotalMessages(DailyVolumeTable(rows, symbol)) == |SymbolTimes(rows, symbol)|
  {
    var ts := SymbolTimes(rows, symbol);
    DaysAreOccupied(ts);
    TotalIsGroupSizes(symbol, ts, Days(ts));
    GroupSizesCover(ts, Days(ts));
  }

  lemma DaysAreOccupied(ts: seq<int>)
    ensures forall d :: d in Days(ts) ==> Group(ts, d) != []
  {
    forall d | d in Days(ts) ensures Group(ts, d) != [] {
      var t :| t in ts && Day(t) == d;
      assert t in Group(ts, d);
    }
  }

  /** The total size of the groups of the dates `ds`. */
  function GroupSizes(ts: seq<int>, ds: seq<int>): nat {
    if ds == [] then 0 else |Group(ts, ds[0])| + GroupSizes(ts, ds[1..])
  }

  lemma {:induction false} TotalIsGroupSizes(symbol: string, ts: seq<int>, ds: seq<int>)
    requires forall d :: d in ds ==> Group(ts, d) != []
    ensures TotalMessages(SummarizeDays(symbol, ts, ds)) == GroupSizes(ts, ds)
  {
    if ds != [] {
      var r := SummarizeDays(symbol, ts, ds);
      assert r[1..] == SummarizeDays(symbol, ts, ds[1..]);
      TotalIsGroupSizes(symbol, ts, ds[1..]);
    }
  }

  /** How many of the dates `ds` are the date of `t`. */
  function Hits(t: int, ds: seq<int>): nat {
    if ds == [] then 0 else (if Day(t) == ds[0] then 1 else 0) + Hits(t, ds[1..])
  }

  lemma {:induction false} HitsOnce(t: int, ds: seq<int>)
    requires Ascending(ds)
    ensures Hits(t, ds) == if Day(t) in ds then 1 else 0
  {
    if ds != [] {
      HitsOnce(t, ds[1..]);
      if Day(t) == ds[0] {
        assert Day(t) !in ds[1..];
      }
    }
  }

  lemma {:induction false} GroupSizesStep(ts: seq<int>, ds: seq<int>)
    requires ts != []
    ensures GroupSizes(ts, ds) == Hits(ts[0], ds) + GroupSizes(ts[1..], ds)
  {
    if ds != [] {
      GroupSizesStep(ts, ds[1..]);
    }
  }

  /** Grouping by every date that occurs loses and duplicates nothing. */
  lemma {:induction false} GroupSizesCover(ts: seq<int>, ds: seq<int>)
    requires Ascending(ds)
    requires forall t :: t in ts ==> Day(t) in ds
    ensures GroupSizes(ts, ds) == |ts|
  {
    if ts == [] {
      EmptyGroupSizes(ds);
    } else {
      GroupSizesStep(ts, ds);
      HitsOnce(ts[0], ds);
      GroupSizesCover(ts[1..], ds);
    }
  }

  lemma {:induction false} EmptyGroupSizes(ds: seq<int>)
    ensures GroupSizes([], ds) == 0
  {
    if ds != [] {
      EmptyGroupSizes(ds[1..]);
    }
  }
}

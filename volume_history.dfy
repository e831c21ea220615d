/** The per-symbol volume history of Volume/Volume_Sentiment_Analyzer.py:
    `save_or_append_daily` merges a new daily table into the symbol's history
    file (concatenate, keep the last row of each `date_utc`, sort by date),
    and the module-level loop writes one history per symbol. The directory of
    history files is a map from symbol to file state. */
module VolumeHistory {
  import opened Wrappers
  import opened Volume
  import Text

  predicate DatesAscending(h: seq<VolumeRow>) {
    forall i, j :: 0 <= i < j < |h| ==> h[i].dateUtc < h[j].dateUtc
  }

  predicate DistinctDates(h: seq<VolumeRow>) {
    forall i, j :: 0 <= i < j < |h| ==> h[i].dateUtc != h[j].dateUtc
  }

  /** The last row of `rows` dated `d`, if any. */
  function LatestFor(rows: seq<VolumeRow>, d: int): (r: Option<VolumeRow>)
    ensures r.Some? ==> r.value in rows && r.value.dateUtc == d
    ensures r.None? <==> forall i :: 0 <= i < |rows| ==> rows[i].dateUtc != d
  {
    if rows == [] then None
    else if rows[|rows| - 1].dateUtc == d then Some(rows[|rows| - 1])
    else
      var r := LatestFor(rows[..|rows| - 1], d);
      assert forall i :: 0 <= i < |rows| - 1 ==> rows[..|rows| - 1][i] == rows[i];
      r
  }

  function Prefer(a: Option<VolumeRow>, b: Option<VolumeRow>): Option<VolumeRow> {
    if a.Some? then a else b
  }

  /** In a concatenation the later part wins. */
  lemma {:induction false} LatestForAppend(a: seq<VolumeRow>, b: seq<VolumeRow>, d: int)
    ensures LatestFor(a + b, d) == Prefer(LatestFor(b, d), LatestFor(a, d))
  {
    if b != [] {
      assert (a + b)[..|a + b| - 1] == a + b[..|b| - 1];
      LatestForAppend(a, b[..|b| - 1], d);
    } else {
      assert a + b == a;
    }
  }

  /** With distinct dates the latest row of a date is the only one. */
  lemma LatestForDistinct(rows: seq<VolumeRow>, x: VolumeRow)
    requires DistinctDates(rows)
    ensures LatestFor(rows, x.dateUtc) == Some(x) <==> x in rows
  {
    if x in rows {
      var r := LatestFor(rows, x.dateUtc);
      var i :| 0 <= i < |rows| && rows[i] == x;
      var j :| 0 <= j < |rows| && rows[j] == r.value;
      assert i == j;
    }
  }

  /** `drop_duplicates(subset=['date_utc'], keep='last')`: a row stays when no
      later row has its date; the order of the survivors is kept. */
  function DropStale(rows: seq<VolumeRow>): (r: seq<VolumeRow>)
    ensures forall x :: x in r ==> x in rows
  {
    if rows == [] then []
    else if LatestFor(rows[1..], rows[0].dateUtc).Some? then DropStale(rows[1..])
    else [rows[0]] + DropStale(rows[1..])
  }

  lemma {:induction false} DropStaleSpec(rows: seq<VolumeRow>)
    ensures DistinctDates(DropStale(rows))
    ensures forall d :: LatestFor(DropStale(rows), d) == LatestFor(rows, d)
  {
    if rows != [] {
      var rest := DropStale(rows[1..]);
      DropStaleSpec(rows[1..]);
      assert rows == [rows[0]] + rows[1..];
      forall d ensures LatestFor(rows, d) == Prefer(LatestFor(rows[1..], d), LatestFor([rows[0]], d)) {
        LatestForAppend([rows[0]], rows[1..], d);
      }
      if LatestFor(rows[1..], rows[0].dateUtc).None? {
        var r := [rows[0]] + rest;
        forall j | 0 < j < |r| ensures r[j].dateUtc != rows[0].dateUtc {
          assert r[j] in rest;
          assert LatestFor(rest, rows[0].dateUtc).None?;
        }
        forall d ensures LatestFor(r, d) == LatestFor(rows, d) {
          LatestForAppend([rows[0]], rest, d);
        }
      }
    }
  }

  /** Inserts a row whose date is not yet present into an ascending history. */
  function InsertByDate(x: VolumeRow, rows: seq<VolumeRow>): (r: seq<VolumeRow>)
    requires DatesAscending(rows)
    requires forall i :: 0 <= i < |rows| ==> rows[i].dateUtc != x.dateUtc
    ensures DatesAscending(r)
    ensures |r| == |rows| + 1
    ensures forall y :: y in r <==> y == x || y in rows
  {
    if rows == [] then [x]
    else if x.dateUtc < rows[0].dateUtc then [x] + rows
    else
      var tail := InsertByDate(x, rows[1..]);
      assert forall y :: y in rows <==> y == rows[0] || y in rows[1..];
      forall i | 0 <= i < |tail| ensures rows[0].dateUtc < tail[i].dateUtc {
        assert tail[i] in tail;
      }
      [rows[0]] + tail
  }

  /** `sort_values('date_utc')` of rows with distinct dates: the same rows,
      ascending. */
  function SortByDate(rows: seq<VolumeRow>): (r: seq<VolumeRow>)
    requires DistinctDates(rows)
    ensures DatesAscending(r)
    ensures |r| == |rows|
    ensures forall y :: y in r <==> y in rows
  {
    if rows == [] then []
    else
      var tail := SortByDate(rows[1..]);
      assert forall y :: y in rows <==> y == rows[0] || y in rows[1..];
      forall i | 0 <= i < |tail| ensures tail[i].dateUtc != rows[0].dateUtc {
        assert tail[i] in rows[1..];
      }
      InsertByDate(rows[0], tail)
  }

  /** The merged history `save_or_append_daily` writes when a history file
      exists: `existing` followed by `incoming`, the last row of each date kept,
      sorted by date. */
  function Merge(existing: seq<VolumeRow>, incoming: seq<VolumeRow>): seq<VolumeRow> {
    DropStaleSpec(existing + incoming);
    SortByDate(DropStale(existing + incoming))
  }

  /** What the merge promises: ascending dates (so at most one row per date),
      and for each date the newest incoming row, or else the newest existing row,
      or no row when neither has that date. */
  lemma MergeSpec(existing: seq<VolumeRow>, incoming: seq<VolumeRow>)
    ensures DatesAscending(Merge(existing, incoming))
    ensures forall d :: LatestFor(Merge(existing, incoming), d) == Prefer(LatestFor(incoming, d), LatestFor(existing, d))
  {
    var joined := existing + incoming;
    DropStaleSpec(joined);
    var kept := DropStale(joined);
    var m := Merge(existing, incoming);
    forall d ensures LatestFor(m, d) == Prefer(LatestFor(incoming, d), LatestFor(existing, d)) {
      LatestForAppend(existing, incoming, d);
      var want := LatestFor(kept, d);
      if want.Some? {
        LatestForDistinct(kept, want.value);
        LatestForDistinct(m, want.value);
      } else {
        forall i | 0 <= i < |m| ensures m[i].dateUtc != d {
          assert m[i] in kept;
        }
      }
    }
  }

  lemma HasLatest(rows: seq<VolumeRow>, x: VolumeRow)
    requires x in rows
    ensures LatestFor(rows, x.dateUtc).Some?
  {
  }

  /** Dropping the first row of an ascending history drops its date and
      nothing else. */
  lemma TailLatest(a: seq<VolumeRow>, d: int)
    requires DatesAscending(a) && a != []
    ensures LatestFor(a[1..], d) == if d == a[0].dateUtc then None else LatestFor(a, d)
  {
    assert a == [a[0]] + a[1..];
    LatestForAppend([a[0]], a[1..], d);
    if d == a[0].dateUtc {
      forall i | 0 <= i < |a[1..]| ensures a[1..][i].dateUtc != d {
        assert a[1..][i] == a[i + 1];
      }
    }
  }

  /** Two ascending, non-empty histories that agree on every date start with
      the same row. */
  lemma HeadsAgree(a: seq<VolumeRow>, b: seq<VolumeRow>)
    requires DatesAscending(a) && DatesAscending(b) && a != [] && b != []
    requires forall d :: LatestFor(a, d) == LatestFor(b, d)
    ensures a[0] == b[0]
  {
    LatestForDistinct(a, a[0]);
    LatestForDistinct(b, b[0]);
    assert a[0] in b && b[0] in a;
    assert a[0].dateUtc == b[0].dateUtc;
    LatestForDistinct(b, a[0]);
  }

  /** Their tails are again ascending and agree on every date. */
  lemma TailsAgree(a: seq<VolumeRow>, b: seq<VolumeRow>)
    requires DatesAscending(a) && DatesAscending(b) && a != [] && b != [] && a[0] == b[0]
    requires forall d :: LatestFor(a, d) == LatestFor(b, d)
    ensures DatesAscending(a[1..]) && DatesAscending(b[1..])
    ensures forall d :: LatestFor(a[1..], d) == LatestFor(b[1..], d)
  {
    forall d ensures LatestFor(a[1..], d) == LatestFor(b[1..], d) {
      TailLatest(a, d);
      TailLatest(b, d);
    }
  }

  /** Two ascending histories that agree on every date are the same history. */
  lemma {:induction false} AscendingDetermined(a: seq<VolumeRow>, b: seq<VolumeRow>)
    requires DatesAscending(a) && DatesAscending(b)
    requires forall d :: LatestFor(a, d) == LatestFor(b, d)
    ensures a == b
  {
    if a == [] || b == [] {
      if a != [] {
        HasLatest(a, a[0]);
        assert false;
      }
      if b != [] {
        HasLatest(b, b[0]);
        assert false;
      }
    } else {
      HeadsAgree(a, b);
      TailsAgree(a, b);
      AscendingDetermined(a[1..], b[1..]);
      assert a == [a[0]] + a[1..] && b == [b[0]] + b[1..];
    }
  }

  /** Merging the same incoming rows a second time changes nothing. */
  lemma MergeIdempotent(existing: seq<VolumeRow>, incoming: seq<VolumeRow>)
    ensures Merge(Merge(existing, incoming), incoming) == Merge(existing, incoming)
  {
    var once := Merge(existing, incoming);
    MergeSpec(existing, incoming);
    MergeSpec(once, incoming);
    AscendingDetermined(Merge(once, incoming), once);
  }

  /** Merging an ascending table into an empty history gives that table. */
  lemma MergeIntoEmpty(incoming: seq<VolumeRow>)
    requires DatesAscending(incoming)
    ensures Merge([], incoming) == incoming
  {
    MergeSpec([], incoming);
    AscendingDetermined(Merge([], incoming), incoming);
  }

  /** Row by row: a incoming row that is the last of its date is in the merged
      history; an existing row whose date no incoming row has, and which is the
      last of its date in the history, is kept unchanged; nothing else is. */
  lemma MergeRows(existing: seq<VolumeRow>, incoming: seq<VolumeRow>, x: VolumeRow)
    ensures x in Merge(existing, incoming) <==>
            LatestFor(incoming, x.dateUtc) == Some(x) ||
            (LatestFor(incoming, x.dateUtc) == None && LatestFor(existing, x.dateUtc) == Some(x))
  {
    MergeSpec(existing, incoming);
    LatestForDistinct(Merge(existing, incoming), x);
  }

  /** The state of a symbol's history file. */
  datatype HistoryFile = Missing | Stored(rows: seq<VolumeRow>) | Unreadable

  function FileAt(files: map<string, HistoryFile>, symbol: string): HistoryFile {
    if symbol in files then files[symbol] else Missing
  }

  /** The rows `save_or_append_daily` leaves in a file that was in state `f`:
      a missing file receives the daily table as it is, a readable one the
      merge, and an unreadable one the merge into an empty history. */
  function SavedRows(f: HistoryFile, daily: seq<VolumeRow>): (r: seq<VolumeRow>)
    ensures f != Missing ==> DatesAscending(r)
    ensures f != Missing ==>
              forall d :: LatestFor(r, d) == Prefer(LatestFor(daily, d), if f.Stored? then LatestFor(f.rows, d) else None)
    ensures DatesAscending(daily) ==> r == Merge(if f.Stored? then f.rows else [], daily)
  {
    MergeSpec(if f.Stored? then f.rows else [], daily);
    assert DatesAscending(daily) ==> Merge([], daily) == daily by {
      if DatesAscending(daily) { MergeIntoEmpty(daily); }
    }
    match f
    case Missing => daily
    case Stored(h) => Merge(h, daily)
    case Unreadable => Merge([], daily)
  }

  /** Saving the same ascending daily table twice leaves what saving it once
      left, whatever state the file was in. */
  lemma SaveIdempotent(f: HistoryFile, daily: seq<VolumeRow>)
    requires DatesAscending(daily)
    ensures SavedRows(Stored(SavedRows(f, daily)), daily) == SavedRows(f, daily)
  {
    MergeIdempotent(if f.Stored? then f.rows else [], daily);
  }

  /** The output directory: one history file per symbol (`{symbol}.csv`). */
  class HistoryDirectory {
    var files: map<string, HistoryFile>

    constructor (files: map<string, HistoryFile>)
      ensures this.files == files
    {
      this.files := files;
    }

    /** `save_or_append_daily`: nothing to do for an empty table; otherwise
        the history file of the table's first symbol is rewritten and its
        name returned. */
    method SaveOrAppendDaily(daily: seq<VolumeRow>) returns (outPath: Option<string>)
      modifies this
      ensures daily == [] ==> outPath == None && files == old(files)
      ensures daily != [] ==>
                && outPath == Some(daily[0].symbol)
                && files == old(files)[daily[0].symbol := Stored(SavedRows(FileAt(old(files), daily[0].symbol), daily))]
    {
      if daily == [] {
        return None;
      }
      var symbol := daily[0].symbol;
      var existing := FileAt(files, symbol);
      if existing != Missing {
        var history := if existing.Stored? then existing.rows else [];
        files := files[symbol := Stored(Merge(history, daily))];
      } else {
        files := files[symbol := Stored(daily)];
      }
      outPath := Some(symbol);
    }
  }

  /** The symbols present in the rows (`df['symbol'].dropna()`). */
  function PresentSymbols(rows: seq<TimedRow>): (r: seq<string>)
    ensures forall s :: s in r <==> exists t :: TimedRow(Some(s), t) in rows
  {
    if rows == [] then []
    else
      var rest := PresentSymbols(rows[1..]);
      assert forall x :: x in rows <==> x == rows[0] || x in rows[1..];
      if rows[0].symbol.Some? then [rows[0].symbol.value] + rest else rest
  }

  /** A symbol with a timestamped row has a non-empty daily table. */
  lemma PresentSymbolHasTable(rows: seq<TimedRow>, s: string)
    requires s in PresentSymbols(rows)
    ensures DailyVolumeTable(rows, s) != []
  {
    var t :| TimedRow(Some(s), t) in rows;
    DailyDatesAreMessageDates(rows, s);
  }

  /** Every symbol of `done` has the file saving its daily table into its
      `before` state leaves; every other file is as in `before`. */
  ghost predicate Written(files: map<string, HistoryFile>, before: map<string, HistoryFile>,
                          rows: seq<TimedRow>, done: seq<string>)
  {
    forall s :: FileAt(files, s) ==
      if s in done then Stored(SavedRows(FileAt(before, s), DailyVolumeTable(rows, s)))
      else FileAt(before, s)
  }

  lemma WrittenStep(files: map<string, HistoryFile>, before: map<string, HistoryFile>,
                    rows: seq<TimedRow>, done: seq<string>, sym: string)
    requires Written(files, before, rows, done) && sym !in done
    ensures Written(files[sym := Stored(SavedRows(FileAt(files, sym), DailyVolumeTable(rows, sym)))],
                    before, rows, done + [sym])
  {
  }

  /** `Written` depends only on which symbols are done, not on their order. */
  lemma WrittenSameSymbols(files: map<string, HistoryFile>, before: map<string, HistoryFile>,
                           rows: seq<TimedRow>, a: seq<string>, b: seq<string>)
    requires Written(files, before, rows, a)
    requires forall s :: s in a <==> s in b
    ensures Written(files, before, rows, b)
  {
  }

  /** In a strictly sorted list no symbol occurs before its own position. */
  lemma NotDoneYet(symbols: seq<string>, i: int)
    requires Text.StrictlySorted(symbols) && 0 <= i < |symbols|
    ensures symbols[i] !in symbols[..i]
    ensures symbols[..i + 1] == symbols[..i] + [symbols[i]]
  {
    forall k | 0 <= k < i ensures symbols[k] != symbols[i] {
      Text.StrictlySortedDistinct(symbols, k, i);
    }
  }

  /** The next symbol of the run has a non-empty table of its own and has not
      been written yet. */
  lemma NextSymbol(rows: seq<TimedRow>, symbols: seq<string>, i: int)
    requires symbols == Text.SortedDistinct(PresentSymbols(rows)) && 0 <= i < |symbols|
    ensures DailyVolumeTable(rows, symbols[i]) != []
    ensures DailyVolumeTable(rows, symbols[i])[0].symbol == symbols[i]
    ensures symbols[i] !in symbols[..i]
    ensures symbols[..i + 1] == symbols[..i] + [symbols[i]]
  {
    NotDoneYet(symbols, i);
    assert symbols[i] in PresentSymbols(rows);
    PresentSymbolHasTable(rows, symbols[i]);
    var t := DailyVolumeTable(rows, symbols[i]);
    assert t[0].symbol == symbols[i];
  }

  /** The module-level run: drop the rows without a timestamp, then for each
      symbol in sorted order build its daily table and save it. Every present
      symbol's file ends as saving its table left it; no other file changes. */
  method WriteDailyVolumes(dir: HistoryDirectory, raw: seq<RawRow>, parse: string -> Option<int>)
    modifies dir
    ensures Written(dir.files, old(dir.files), DropUntimed(raw, parse), PresentSymbols(DropUntimed(raw, parse)))
  {
    var rows := DropUntimed(raw, parse);
    var symbols := Text.SortedDistinct(PresentSymbols(rows));
    ghost var before := dir.files;
    for i := 0 to |symbols|
      invariant Written(dir.files, before, rows, symbols[..i])
    {
      var sym := symbols[i];
      var daily := DailyVolumeTable(rows, sym);
      NextSymbol(rows, symbols, i);
      if daily == [] {
        continue;
      }
      WrittenStep(dir.files, before, rows, symbols[..i], sym);
      var _ := dir.SaveOrAppendDaily(daily);
    }
    assert symbols[..|symbols|] == symbols;
    WrittenSameSymbols(dir.files, before, rows, symbols, PresentSymbols(rows));
  }
}

/** The pure part of Scraping/scraping_stockwits.py: `normalize_time`, which
    turns a message's time attribute into an ISO timestamp (an absolute ISO
    string, or a relative age such as "9m" counted back from `now`), and the
    loop that numbers the scraped messages and fills their timestamp cells.
    The browser, the page parsing and the ISO parser/formatter are function
    parameters; times are whole seconds since the Unix epoch (UTC). */
module StocktwitsScraper {
  import opened Wrappers
  import Text

  /** 0001-01-01T00:00:00Z, the earliest instant Python's `datetime` holds. */
  const MIN_TIMESTAMP: int := -62135596800

  /** `timedelta.max.days`: a `timedelta` of more days raises OverflowError. */
  const MAX_DELTA_DAYS: int := 999999999

  predicate IsUnit(c: char) {
    c in "smhdSMHD"
  }

  /** A relative age: a count and a lower-case unit letter. */
  datatype Age = Age(count: nat, unit: char)

  /** The age in seconds: units of 1, 60, 3600 and 86400 seconds. */
  function AgeSeconds(a: Age): (secs: nat)
    ensures a.unit == 's' ==> secs == a.count
    ensures a.unit == 'm' ==> secs == a.count * 60
    ensures a.unit == 'h' ==> secs == a.count * 3600
    ensures a.unit == 'd' ==> secs == a.count * 86400
  {
    match a.unit
    case 's' => a.count
    case 'm' => a.count * 60
    case 'h' => a.count * 3600
    case _ => a.count * 86400
  }

  predicate DigitsIn(s: string, lo: nat, hi: nat)
    requires lo <= hi <= |s|
  {
    forall t :: lo <= t < hi ==> Text.IsDigit(s[t])
  }

  /** The value of the digits `s[lo..hi]` (`int(...)` on a `\d+` group). */
  function ValueIn(s: string, lo: nat, hi: nat): nat
    requires lo <= hi <= |s| && DigitsIn(s, lo, hi)
    decreases hi - lo
  {
    if hi == lo then 0 else 10 * ValueIn(s, lo, hi - 1) + (s[hi - 1] as int - '0' as int)
  }

  /** A digit run keeps its value when more text follows it. */
  lemma {:induction false} ValueInExtend(d: string, x: string, lo: nat, hi: nat)
    requires lo <= hi <= |d| && DigitsIn(d, lo, hi)
    ensures DigitsIn(d + x, lo, hi) && ValueIn(d + x, lo, hi) == ValueIn(d, lo, hi)
    decreases hi - lo
  {
    assert forall t :: lo <= t < hi ==> (d + x)[t] == d[t];
    if hi > lo {
      ValueInExtend(d, x, lo, hi - 1);
    }
  }

  /** The decimal digits of `n`, without leading zeros. */
  function ShowNat(n: nat): (d: string)
    ensures |d| > 0 && DigitsIn(d, 0, |d|)
    ensures ValueIn(d, 0, |d|) == n
  {
    var last := ((n % 10) + '0' as int) as char;
    if n < 10 then [last]
    else
      var prefix := ShowNat(n / 10);
      ValueInExtend(prefix, [last], 0, |prefix|);
      prefix + [last]
  }

  /** `re.match(r'^\s*(\d+)\s*([smhd])\s*$', raw, re.I)`: optional
      whitespace, a run of digits, optional whitespace, one unit letter in
      either case, optional whitespace. The unit is the last non-whitespace
      character; the digits run from the first non-whitespace character to
      the last one before the unit. */
  function ParseRelative(s: string): Option<Age> {
    var e := Text.SpacesBefore(s, 0, |s|);
    if e == 0 || !IsUnit(s[e - 1]) then None
    else
      var i := Text.SpacesAfter(s, 0, e - 1);
      var j := Text.SpacesBefore(s, i, e - 1);
      if i < j && DigitsIn(s, i, j) then Some(Age(ValueIn(s, i, j), Text.LowerChar(s[e - 1])))
      else None
  }

  /** `s` splits at `i`, `j`, `k` as the pattern demands: whitespace before
      `i`, digits from `i` to `j`, whitespace from `j` to `k`, the unit at `k`,
      whitespace after it. */
  predicate RelativeShape(s: string, i: nat, j: nat, k: nat) {
    && i < j <= k < |s|
    && Text.SpacesIn(s, 0, i) && DigitsIn(s, i, j) && Text.SpacesIn(s, j, k)
    && IsUnit(s[k]) && Text.SpacesIn(s, k + 1, |s|)
  }

  /** Every string of the pattern's shape is read as its digits and unit. */
  lemma {:induction false} ParseRelativeComplete(s: string, i: nat, j: nat, k: nat)
    requires RelativeShape(s, i, j, k)
    ensures ParseRelative(s) == Some(Age(ValueIn(s, i, j), Text.LowerChar(s[k])))
  {
    Text.SpacesBeforeAt(s, 0, |s|, k + 1);
    Text.SpacesAfterAt(s, 0, k, i);
    Text.SpacesBeforeAt(s, i, k, j);
  }

  /** Everything the parser accepts has the pattern's shape. */
  lemma {:induction false} ParseRelativeSound(s: string)
    requires ParseRelative(s).Some?
    ensures exists i: nat, j: nat, k: nat :: RelativeShape(s, i, j, k)
              && ParseRelative(s) == Some(Age(ValueIn(s, i, j), Text.LowerChar(s[k])))
  {
    var e := Text.SpacesBefore(s, 0, |s|);
    var i := Text.SpacesAfter(s, 0, e - 1);
    var j := Text.SpacesBefore(s, i, e - 1);
    assert RelativeShape(s, i, j, e - 1);
  }

  /** Replaces every 'Z' by "+00:00" (`raw.replace('Z', '+00:00')`). */
  function ReplaceZ(s: string): (r: string)
    ensures 'Z' !in r
    ensures 'Z' !in s ==> r == s
    ensures |s| == 1 ==> r == if s[0] == 'Z' then "+00:00" else s
  {
    if s == [] then []
    else (if s[0] == 'Z' then "+00:00" else [s[0]]) + ReplaceZ(s[1..])
  }

  /** The replacement works character by character: it distributes over
      concatenation, so together with the single-character cases of its
      contract it determines the whole result. */
  lemma {:induction false} ReplaceZAppend(a: string, b: string)
    ensures ReplaceZ(a + b) == ReplaceZ(a) + ReplaceZ(b)
  {
    if a != [] {
      assert (a + b)[1..] == a[1..] + b;
      ReplaceZAppend(a[1..], b);
    } else {
      assert a + b == b;
    }
  }

  /** What `normalize_time` produces for a non-empty input. */
  datatype Normalized =
    | IsoTime(iso: string)     // accepted by the ISO parser, re-rendered by it
    | Relative(at: int)        // a relative age, counted back from `now`
    | Unchanged(raw: string)   // neither form: the input as given
    | OutOfRange               // OverflowError raised out of `normalize_time`

  /** A relative age cannot be represented: the day `timedelta` (built
      whatever the unit) exceeds `timedelta.max`, or `now - d` falls before
      year 1. Either raises OverflowError. */
  predicate AgeOverflows(age: Age, now: int) {
    age.count > MAX_DELTA_DAYS || now - AgeSeconds(age) < MIN_TIMESTAMP
  }

  /** `normalize_time` raised. */
  predicate Raises(n: Option<Normalized>) {
    n == Some(OutOfRange)
  }

  /** `normalize_time(raw, now)`, with the ISO parser-and-formatter
      `datetime.fromisoformat(...).isoformat()` as `isoParse`. No input gives
      no time; an ISO string wins over the relative form; a relative age is
      never later than `now` nor before year 1; an age too large to
      represent raises; anything else comes back unchanged. */
  function NormalizeTime(raw: Option<string>, now: int, isoParse: string -> Option<string>): (r: Option<Normalized>)
    ensures r.None? <==> raw.None? || raw.value == ""
    ensures r.Some? && isoParse(ReplaceZ(raw.value)).Some? ==> r == Some(IsoTime(isoParse(ReplaceZ(raw.value)).value))
    ensures r.Some? && r.value.Relative? ==> MIN_TIMESTAMP <= r.value.at <= now
    ensures r.Some? && r.value.IsoTime? ==> isoParse(ReplaceZ(raw.value)).Some?
    ensures r.Some? && r.value.Unchanged? ==> r.value.raw == raw.value && isoParse(ReplaceZ(raw.value)).None?
    ensures raw.Some? && raw.value != "" && isoParse(ReplaceZ(raw.value)).None? && ParseRelative(raw.value).None? ==>
              r == Some(Unchanged(raw.value))
    ensures r == Some(OutOfRange) <==>
              raw.Some? && raw.value != "" && isoParse(ReplaceZ(raw.value)).None?
              && ParseRelative(raw.value).Some? && AgeOverflows(ParseRelative(raw.value).value, now)
  {
    if raw.None? || raw.value == "" then None
    else
      var iso := isoParse(ReplaceZ(raw.value));
      if iso.Some? then Some(IsoTime(iso.value))
      else
        match ParseRelative(raw.value)
        case Some(age) =>
          if AgeOverflows(age, now) then Some(OutOfRange) else Some(Relative(now - AgeSeconds(age)))
        case None => Some(Unchanged(raw.value))
  }

  /** A relative result is `now` minus the digits times the unit of a string
      of the pattern's shape. */
  lemma {:induction false} NormalizedRelativeMatches(raw: string, now: int, isoParse: string -> Option<string>)
    requires NormalizeTime(Some(raw), now, isoParse).Some?
    requires NormalizeTime(Some(raw), now, isoParse).value.Relative?
    ensures exists i: nat, j: nat, k: nat :: RelativeShape(raw, i, j, k)
              && NormalizeTime(Some(raw), now, isoParse).value.at
                 == now - AgeSeconds(Age(ValueIn(raw, i, j), Text.LowerChar(raw[k])))
  {
    ParseRelativeSound(raw);
  }

  /** A string returned unchanged has no reading as a relative age. */
  lemma {:induction false} UnchangedMatchesNothing(raw: string, now: int, isoParse: string -> Option<string>, i: nat, j: nat, k: nat)
    requires NormalizeTime(Some(raw), now, isoParse) == Some(Unchanged(raw))
    ensures !RelativeShape(raw, i, j, k)
  {
    if RelativeShape(raw, i, j, k) {
      ParseRelativeComplete(raw, i, j, k);
      assert false;
    }
  }

  /** An age the ISO parser rejects becomes `now` minus the age, or raises
      when the age cannot be represented. */
  lemma {:induction false} NormalizeRelative(raw: string, now: int, isoParse: string -> Option<string>, age: Age)
    requires isoParse(ReplaceZ(raw)).None? && ParseRelative(raw) == Some(age)
    ensures NormalizeTime(Some(raw), now, isoParse)
            == if AgeOverflows(age, now) then Some(OutOfRange) else Some(Relative(now - AgeSeconds(age)))
  {
    ParsedIsNonEmpty(raw);
  }

  lemma ParsedIsNonEmpty(s: string)
    requires ParseRelative(s).Some?
    ensures s != ""
  {
  }

  /** An age written as digits and a unit letter parses back to itself. */
  lemma {:induction false} ShowAgeParses(n: nat, u: char)
    requires u in "smhd"
    ensures ParseRelative(ShowNat(n) + [u]) == Some(Age(n, u))
  {
    var d := ShowNat(n);
    var s := d + [u];
    ValueInExtend(d, [u], 0, |d|);
    assert s[|d|] == u;
    ParseRelativeComplete(s, 0, |d|, |d|);
  }

  /** An age written as digits and a unit, which the ISO parser rejects, is
      read back as exactly that many units before `now`, unless it cannot be
      represented. */
  lemma {:induction false} RelativeAgeRoundTrip(n: nat, u: char, now: int, isoParse: string -> Option<string>)
    requires u in "smhd"
    requires isoParse(ReplaceZ(ShowNat(n) + [u])).None?
    ensures NormalizeTime(Some(ShowNat(n) + [u]), now, isoParse)
            == if AgeOverflows(Age(n, u), now) then Some(OutOfRange) else Some(Relative(now - AgeSeconds(Age(n, u))))
  {
    var s := ShowNat(n) + [u];
    ShowAgeParses(n, u);
    NormalizeRelative(s, now, isoParse, Age(n, u));
  }

  /** "0m" is `now` itself (a `datetime`, so never before year 1). */
  lemma {:induction false} ZeroMinutesIsNow(now: int, isoParse: string -> Option<string>)
    requires now >= MIN_TIMESTAMP
    requires isoParse("0m").None?
    ensures NormalizeTime(Some("0m"), now, isoParse) == Some(Relative(now))
  {
    assert ShowNat(0) + ['m'] == "0m";
    RelativeAgeRoundTrip(0, 'm', now, isoParse);
  }

  /** A count above `MAX_DELTA_DAYS` raises in every unit, even where the
      age itself is small ("1000000000s" is about 31 years): the day
      `timedelta` of the same count is built first and is too large. */
  lemma {:induction false} LargeCountRaises(n: nat, u: char, now: int, isoParse: string -> Option<string>)
    requires u in "smhd" && n > MAX_DELTA_DAYS
    requires isoParse(ReplaceZ(ShowNat(n) + [u])).None?
    ensures NormalizeTime(Some(ShowNat(n) + [u]), now, isoParse) == Some(OutOfRange)
  {
    RelativeAgeRoundTrip(n, u, now, isoParse);
  }

  // ---------------------------------------------------------------------
  // The message rows (lines 73-103)

  /** The `<time>` element found in a message's article: its `datetime`,
      `title` and `aria-label` attributes and its stripped text. */
  datatype TimeTag = TimeTag(datetime: Option<string>, title: Option<string>, text: string, ariaLabel: Option<string>)

  /** A scraped message: its text and the time element, if any was found. */
  datatype MessageBody = MessageBody(text: string, tag: Option<TimeTag>)

  /** Python's `a or b` on optional strings: `a` unless it is None or empty. */
  function Or(a: Option<string>, b: Option<string>): (r: Option<string>)
    ensures a.Some? && a.value != "" ==> r == a
    ensures a.None? || a.value == "" ==> r == b
  {
    if a.Some? && a.value != "" then a else b
  }

  predicate Truthy(a: Option<string>) {
    a.Some? && a.value != ""
  }

  /** The time element's candidates, in the order the `or` chain tries them. */
  function Candidates(t: TimeTag): seq<Option<string>> {
    [t.datetime, t.title, Some(t.text), t.ariaLabel]
  }

  /** The raw time: the first non-empty of the attributes and the text, in
      that order (the last, `aria-label`, when none is), or nothing when no
      time element was found. */
  function RawTime(tag: Option<TimeTag>): (r: Option<string>)
    ensures tag.None? ==> r.None?
    ensures tag.Some? ==> forall i :: 0 <= i < 4 && Truthy(Candidates(tag.value)[i])
                            && (forall j :: 0 <= j < i ==> !Truthy(Candidates(tag.value)[j]))
                            ==> r == Candidates(tag.value)[i]
    ensures tag.Some? && (forall i :: 0 <= i < 4 ==> !Truthy(Candidates(tag.value)[i])) ==> r == tag.value.ariaLabel
  {
    match tag
    case None => None
    case Some(t) =>
      var r := Or(t.datetime, Or(t.title, Or(Some(t.text), t.ariaLabel)));
      var c := Candidates(t);
      assert forall i :: 0 <= i < 4 && Truthy(c[i]) && (forall j :: 0 <= j < i ==> !Truthy(c[j])) ==> r == c[i] by {
        forall i | 0 <= i < 4 && Truthy(c[i]) && (forall j :: 0 <= j < i ==> !Truthy(c[j])) ensures r == c[i] {
          if i > 0 { assert !Truthy(c[0]); }
          if i > 1 { assert !Truthy(c[1]); }
          if i > 2 { assert !Truthy(c[2]); }
        }
      }
      assert (forall i :: 0 <= i < 4 ==> !Truthy(c[i])) ==> r == t.ariaLabel by {
        if forall i :: 0 <= i < 4 ==> !Truthy(c[i]) {
          assert !Truthy(c[0]) && !Truthy(c[1]) && !Truthy(c[2]);
        }
      }
      r
  }

  /** One row of the Stocktwits CSV. */
  datatype MessageRow = MessageRow(index: nat, symbol: string, message: string, timestampRaw: string, timestampIso: string)

  /** `iso_time or ''`, rendering a relative time with `format`. */
  function IsoCell(n: Option<Normalized>, format: int -> string): string {
    match n
    case None => ""
    case Some(IsoTime(s)) => s
    case Some(Relative(at)) => format(at)
    case Some(Unchanged(raw)) => raw
    case Some(OutOfRange) => ""
  }

  /** The row for the message at 0-based position `i`: numbered `i + 1`, both
      timestamp cells '' when the message has no time. */
  function MessageRowAt(symbol: string, i: nat, body: MessageBody, now: int,
                        isoParse: string -> Option<string>, format: int -> string): (row: MessageRow)
    ensures row.index == i + 1 && row.symbol == symbol && row.message == body.text
    ensures RawTime(body.tag).None? ==> row.timestampRaw == "" && row.timestampIso == ""
    ensures RawTime(body.tag).Some? ==> row.timestampRaw == RawTime(body.tag).value
    ensures RawTime(body.tag) == Some("") ==> row.timestampIso == ""
    ensures var n := NormalizeTime(RawTime(body.tag), now, isoParse);
      && (n.Some? && n.value.IsoTime? ==> row.timestampIso == isoParse(ReplaceZ(RawTime(body.tag).value)).value)
      && (n.Some? && n.value.Relative? ==> row.timestampIso == format(n.value.at))
      && (n.Some? && n.value.Unchanged? ==> row.timestampIso == RawTime(body.tag).value)
    ensures var raw := RawTime(body.tag);
      raw.Some? && raw.value != "" && isoParse(ReplaceZ(raw.value)).None? && ParseRelative(raw.value).None? ==>
        row.timestampIso == raw.value
  {
    var raw := RawTime(body.tag);
    MessageRow(i + 1, symbol, body.text, raw.GetOr(""), IsoCell(NormalizeTime(raw, now, isoParse), format))
  }

  predicate Overflows(body: MessageBody, now: int, isoParse: string -> Option<string>) {
    Raises(NormalizeTime(RawTime(body.tag), now, isoParse))
  }

  /** The loop over the page's messages. An age that cannot be represented
      raises out of `normalize_time` and ends the script with nothing saved (None);
      otherwise there is one row per message, in page order, numbered from 1. */
  method BuildMessages(symbol: string, bodies: seq<MessageBody>, now: int,
                       isoParse: string -> Option<string>, format: int -> string)
    returns (rows: Option<seq<MessageRow>>)
    ensures rows.None? <==> exists i :: 0 <= i < |bodies| && Overflows(bodies[i], now, isoParse)
    ensures rows.Some? ==> |rows.value| == |bodies|
    ensures rows.Some? ==> forall i :: 0 <= i < |bodies| ==>
              rows.value[i] == MessageRowAt(symbol, i, bodies[i], now, isoParse, format)
  {
    var messages: seq<MessageRow> := [];
    for i := 0 to |bodies|
      invariant |messages| == i
      invariant forall j :: 0 <= j < i ==> !Overflows(bodies[j], now, isoParse)
      invariant forall j :: 0 <= j < i ==> messages[j] == MessageRowAt(symbol, j, bodies[j], now, isoParse, format)
    {
      var raw := RawTime(bodies[i].tag);
      var iso := NormalizeTime(raw, now, isoParse);
      if Raises(iso) {
        return None;
      }
      messages := messages + [MessageRow(i + 1, symbol, bodies[i].text, raw.GetOr(""), IsoCell(iso, format))];
      forall j | 0 <= j < i + 1 ensures !Overflows(bodies[j], now, isoParse) {
        if j == i {
          assert bodies[j] == bodies[i];
        }
      }
    }
    rows := Some(messages);
  }
}

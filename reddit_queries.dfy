/** `get_queries` of Scraping/scraping_reddit.py: the search phrases for a
    ticker, built from the ticker and the company name (which yfinance
    supplies; here it is a parameter). The company name loses its legal
    suffix ("Inc.", "Corp", ...) through a case-insensitive regular
    expression, is stripped, and is offered as written, title-cased and
    lower-cased, each phrase in double quotes. */
module RedditQueries {
  import opened Wrappers
  import Text

  // ---------------------------------------------------------------------
  // The suffix pattern
  //   (\s+(Inc\.?|Corp\.?|Corporation|Ltd\.?|PLC|Group|Holdings|Co\.?))\b
  // with re.IGNORECASE, applied by re.sub with an empty replacement.

  /** One alternative of the suffix group: its word in lower case and
      whether an optional '.' may follow it. */
  datatype Suffix = Suffix(word: string, dotted: bool)

  /** The alternatives, in the order the regex engine tries them. */
  const SUFFIXES: seq<Suffix> := [
    Suffix("inc", true), Suffix("corp", true), Suffix("corporation", false),
    Suffix("ltd", true), Suffix("plc", false), Suffix("group", false),
    Suffix("holdings", false), Suffix("co", true)]

  /** What must hold where a suffix match ends. */
  datatype EndTest =
    | WordBoundary   // `\b`, as the pattern is written
    | NoWordAfter    // `(?!\w)`: the end of a word, whatever precedes it

  /** The suffix pattern: its alternatives and the test at its end. */
  datatype Pattern = Pattern(alts: seq<Suffix>, end: EndTest)

  /** The pattern as line 53 writes it. */
  const AS_WRITTEN := Pattern(SUFFIXES, WordBoundary)

  /** The pattern as evidently intended. */
  const INTENDED := Pattern(SUFFIXES, NoWordAfter)

  predicate WordCharAt(s: string, i: int) {
    0 <= i < |s| && Text.IsWordChar(s[i])
  }

  predicate EndOk(t: EndTest, s: string, i: int) {
    match t
    case WordBoundary => WordCharAt(s, i - 1) != WordCharAt(s, i)
    case NoWordAfter => !WordCharAt(s, i)
  }

  /** `s` holds `word` at `q`, ignoring case. */
  predicate WordAt(s: string, q: nat, word: string) {
    q + |word| <= |s| && forall k {:trigger word[k]} :: 0 <= k < |word| ==> Text.LowerChar(s[q + k]) == word[k]
  }

  /** After the word of `a` at `q`, the optional dot is there and the end
      test holds behind it. */
  predicate DotFits(s: string, q: nat, a: Suffix, t: EndTest) {
    var e := q + |a.word|;
    a.dotted && e < |s| && s[e] == '.' && EndOk(t, s, e + 1)
  }

  /** Where alternative `a` matches from `q` with the end test met: the
      greedy `\.?` tries the form with the dot first, then backtracks to the
      bare word. */
  function SuffixEnd(s: string, q: nat, a: Suffix, t: EndTest): (r: Option<nat>)
    ensures r.Some? ==> WordAt(s, q, a.word) && r.value <= |s| && EndOk(t, s, r.value)
    ensures r.Some? ==> r.value == q + |a.word| || (a.dotted && r.value == q + |a.word| + 1 && s[q + |a.word|] == '.')
    ensures WordAt(s, q, a.word) && DotFits(s, q, a, t) ==> r == Some(q + |a.word| + 1)
    ensures WordAt(s, q, a.word) && !DotFits(s, q, a, t) && EndOk(t, s, q + |a.word|) ==> r == Some(q + |a.word|)
    ensures r.None? <==> !WordAt(s, q, a.word) || (!DotFits(s, q, a, t) && !EndOk(t, s, q + |a.word|))
  {
    if !WordAt(s, q, a.word) then None
    else
      var e := q + |a.word|;
      if a.dotted && e < |s| && s[e] == '.' && EndOk(t, s, e + 1) then Some(e + 1)
      else if EndOk(t, s, e) then Some(e)
      else None
  }

  /** The first alternative of `alts` that matches from `q`. */
  function FirstSuffixEnd(s: string, q: nat, alts: seq<Suffix>, t: EndTest): (r: Option<nat>)
    ensures r.Some? ==> exists a :: a in alts && SuffixEnd(s, q, a, t) == r
    ensures r.None? ==> forall a :: a in alts ==> SuffixEnd(s, q, a, t).None?
    ensures r.Some? ==> exists i :: FirstMatching(s, q, alts, t, i, r)
  {
    if alts == [] then None
    else
      match SuffixEnd(s, q, alts[0], t)
      case Some(e) =>
        assert FirstMatching(s, q, alts, t, 0, Some(e));
        Some(e)
      case None =>
        assert forall a :: a in alts ==> a == alts[0] || a in alts[1..];
        var rest := FirstSuffixEnd(s, q, alts[1..], t);
        if rest.Some? then
          var i :| FirstMatching(s, q, alts[1..], t, i, rest);
          FirstMatchingShift(s, q, alts, t, i, rest);
          rest
        else rest
  }

  /** Alternative `i` of `alts` gives `r`, and every alternative before it
      fails: the alternation's choice. */
  predicate FirstMatching(s: string, q: nat, alts: seq<Suffix>, t: EndTest, i: int, r: Option<nat>) {
    && 0 <= i < |alts| && SuffixEnd(s, q, alts[i], t) == r
    && forall j :: 0 <= j < i ==> SuffixEnd(s, q, alts[j], t).None?
  }

  /** A first match among the later alternatives is the first match of the
      whole list when the head alternative fails. */
  lemma FirstMatchingShift(s: string, q: nat, alts: seq<Suffix>, t: EndTest, i: int, r: Option<nat>)
    requires |alts| > 0 && SuffixEnd(s, q, alts[0], t).None?
    requires FirstMatching(s, q, alts[1..], t, i, r)
    ensures FirstMatching(s, q, alts, t, i + 1, r)
  {
    forall j | 0 <= j < i + 1 ensures SuffixEnd(s, q, alts[j], t).None? {
      if j > 0 {
        assert alts[j] == alts[1..][j - 1];
      }
    }
  }

  /** The end of a match of the whole pattern at `p`, if there is one. The
      greedy `\s+` takes the whole whitespace run; giving some of it back
      cannot help, since every alternative begins with a letter. */
  function MatchAt(s: string, p: nat, pat: Pattern): (r: Option<nat>)
    requires p <= |s|
    ensures r.Some? ==> p < r.value <= |s|
    ensures r.Some? ==> p < |s| && Text.IsSpace(s[p])
  {
    var q := Text.SpacesAfter(s, p, |s|);
    if q == p then None
    else
      FirstSuffixEnd(s, q, pat.alts, pat.end)
  }

  /** From whitespace at `p`, the match (if any) is the alternation tried
      where the maximal whitespace run from `p` ends. */
  lemma MatchAfterRun(s: string, p: nat, q: nat, pat: Pattern)
    requires p < q <= |s| && Text.SpacesIn(s, p, q) && (q == |s| || !Text.IsSpace(s[q]))
    ensures MatchAt(s, p, pat) == FirstSuffixEnd(s, q, pat.alts, pat.end)
  {
    Text.SpacesAfterAt(s, p, |s|, q);
  }

  /** `re.sub(pattern, "", s)` from position `p` on: matches are removed
      left to right and scanning resumes where a match ended; characters
      outside every match are kept in order. A match begins with whitespace,
      so any other character is kept without trying the pattern there. */
  function RemoveFrom(s: string, p: nat, pat: Pattern): (r: string)
    requires p <= |s|
    ensures |r| <= |s| - p
    decreases |s| - p
  {
    if p == |s| then []
    else if !Text.IsSpace(s[p]) then [s[p]] + RemoveFrom(s, p + 1, pat)
    else
      match MatchAt(s, p, pat)
      case Some(e) => RemoveFrom(s, e, pat)
      case None => [s[p]] + RemoveFrom(s, p + 1, pat)
  }

  /** Where no match starts, the character is kept and the scan moves on. */
  lemma KeepUnmatched(s: string, p: nat, pat: Pattern)
    requires p < |s| && MatchAt(s, p, pat).None?
    ensures RemoveFrom(s, p, pat) == [s[p]] + RemoveFrom(s, p + 1, pat)
  {
  }

  /** A stretch in which no match starts is copied unchanged. */
  lemma {:induction false} RemoveKeepsUnmatched(s: string, p: nat, n: nat, pat: Pattern)
    requires p <= n <= |s| && forall i :: p <= i < n ==> MatchAt(s, i, pat).None?
    ensures RemoveFrom(s, p, pat) == s[p..n] + RemoveFrom(s, n, pat)
    decreases n - p
  {
    if p < n {
      KeepUnmatched(s, p, pat);
      RemoveKeepsUnmatched(s, p + 1, n, pat);
      ConsSlice(s, p, n, RemoveFrom(s, n, pat));
    } else {
      assert s[p..n] == [];
    }
  }

  /** The leftmost match is removed: the text before it is kept, and the
      scan resumes where the match ends (so matches never overlap). */
  lemma RemoveFirstMatch(s: string, p: nat, i: nat, e: nat, pat: Pattern)
    requires p <= i < |s| && forall j :: p <= j < i ==> MatchAt(s, j, pat).None?
    requires MatchAt(s, i, pat) == Some(e)
    ensures RemoveFrom(s, p, pat) == s[p..i] + RemoveFrom(s, e, pat)
  {
    RemoveKeepsUnmatched(s, p, i, pat);
    SkipAt(s, i, pat, e);
  }

  /** A text in which no match starts comes back unchanged. */
  lemma NoMatchUnchanged(s: string, p: nat, pat: Pattern)
    requires p <= |s| && forall i :: p <= i < |s| ==> MatchAt(s, i, pat).None?
    ensures RemoveFrom(s, p, pat) == s[p..]
  {
    RemoveKeepsUnmatched(s, p, |s|, pat);
    assert s[p..|s|] + [] == s[p..];
  }

  /** A name without a suffix anywhere is only stripped. */
  lemma CleanWithoutSuffix(name: string, pat: Pattern)
    requires forall i :: 0 <= i < |name| ==> MatchAt(name, i, pat).None?
    ensures CleanWith(name, pat) == Text.Strip(name)
  {
    NoMatchUnchanged(name, 0, pat);
    assert name[0..] == name;
  }

  /** The company name with its suffixes removed and then stripped. */
  function CleanWith(name: string, pat: Pattern): string {
    Text.Strip(RemoveFrom(name, 0, pat))
  }

  /** The cleaning as line 53 writes it. */
  function CleanNameAsWritten(name: string): string {
    CleanWith(name, AS_WRITTEN)
  }

  /** The cleaning the pattern evidently intends: a suffix, with its dot,
      is removed wherever it ends a word. */
  function CleanName(name: string): string {
    CleanWith(name, INTENDED)
  }

  predicate AllLetters(s: string) {
    forall i :: 0 <= i < |s| ==> Text.IsLetter(s[i])
  }

  /** A match at `p` is removed and the scan resumes where it ends. */
  lemma SkipAt(s: string, p: nat, pat: Pattern, e: nat)
    requires p < |s| && MatchAt(s, p, pat) == Some(e)
    ensures RemoveFrom(s, p, pat) == RemoveFrom(s, e, pat)
  {
  }

  /** Inside a run of letters nothing matches: each letter is kept. */
  lemma {:induction false} RemoveKeepsLetters(s: string, n: nat, p: nat, pat: Pattern)
    requires p <= n <= |s| && forall i :: p <= i < n ==> Text.IsLetter(s[i])
    ensures RemoveFrom(s, p, pat) == s[p..n] + RemoveFrom(s, n, pat)
    decreases n - p
  {
    if p < n {
      KeepAt(s, p, pat);
      RemoveKeepsLetters(s, n, p + 1, pat);
      ConsSlice(s, p, n, RemoveFrom(s, n, pat));
    }
  }

  /** Any character but whitespace is kept and the scan moves on. */
  lemma KeepAt(s: string, p: nat, pat: Pattern)
    requires p < |s| && !Text.IsSpace(s[p])
    ensures RemoveFrom(s, p, pat) == [s[p]] + RemoveFrom(s, p + 1, pat)
  {
  }

  lemma ConsSlice(s: string, p: nat, n: nat, rest: string)
    requires p < n <= |s|
    ensures [s[p]] + (s[p + 1..n] + rest) == s[p..n] + rest
  {
    assert s[p..n] == [s[p]] + s[p + 1..n];
  }

  /** A string of letters is its own stripped form. */
  lemma {:induction false} StripLetters(s: string)
    requires |s| > 0 && AllLetters(s)
    ensures Text.Strip(s) == s
  {
    assert Text.StripStart(s) == s;
    assert Text.StripEnd(s) == s;
  }

  /** Name, one space, "Inc" and the end of the text: the "inc" alternative
      matches, with the dot if there is one and the end test allows it. */
  lemma {:induction false} IncMatches(base: string, tail: string, pat: Pattern, e: nat)
    requires |base| > 0 && AllLetters(base)
    requires tail == " Inc" || tail == " Inc."
    requires pat == AS_WRITTEN || pat == INTENDED
    requires e == |base| + (if tail == " Inc." && pat == INTENDED then 5 else 4)
    ensures MatchAt(base + tail, |base|, pat) == Some(e)
  {
    var s := base + tail;
    assert s[|base|] == ' ' && s[|base| + 1] == 'I' && s[|base| + 2] == 'n' && s[|base| + 3] == 'c';
    assert Text.SpacesAfter(s, |base|, |s|) == |base| + 1;
    assert WordAt(s, |base| + 1, "inc");
    assert SUFFIXES[0] == Suffix("inc", true);
    if tail == " Inc." {
      assert s[|base| + 4] == '.';
    }
  }

  /** FINDING, as written: `\b` after the optional dot fails at the end of
      the text (a '.' followed by nothing is no word boundary), so the
      engine backtracks and removes " Inc" alone, leaving the dot. */
  lemma AsWrittenKeepsDot(base: string)
    requires |base| > 0 && AllLetters(base)
    ensures CleanNameAsWritten(base + " Inc.") == base + "."
  {
    RemovesIncKeepsDot(base);
    var r := base + ".";
    assert Text.StripStart(r) == r;
    assert Text.StripEnd(r) == r;
  }

  lemma RemovesIncKeepsDot(base: string)
    requires |base| > 0 && AllLetters(base)
    ensures RemoveFrom(base + " Inc.", 0, AS_WRITTEN) == base + "."
  {
    LettersKept(base, " Inc.", AS_WRITTEN);
    IncKeepsDot(base);
  }

  /** The letters before the suffix pass through unchanged. */
  lemma LettersKept(base: string, tail: string, pat: Pattern)
    requires AllLetters(base)
    ensures RemoveFrom(base + tail, 0, pat) == base + RemoveFrom(base + tail, |base|, pat)
  {
    var s := base + tail;
    assert forall i :: 0 <= i < |base| ==> s[i] == base[i];
    RemoveKeepsLetters(s, |base|, 0, pat);
    assert s[0..|base|] == base;
  }

  /** As written, " Inc." at the end loses " Inc" and keeps the dot. */
  lemma IncKeepsDot(base: string)
    requires |base| > 0 && AllLetters(base)
    ensures RemoveFrom(base + " Inc.", |base|, AS_WRITTEN) == "."
  {
    var s := base + " Inc.";
    IncMatches(base, " Inc.", AS_WRITTEN, |base| + 4);
    SkipAt(s, |base|, AS_WRITTEN, |base| + 4);
    assert s[|base| + 4] == '.';
    LastDot(s, |base| + 4, AS_WRITTEN);
  }

  /** A '.' that ends the text is kept. */
  lemma LastDot(s: string, k: nat, pat: Pattern)
    requires k + 1 == |s| && s[k] == '.'
    ensures RemoveFrom(s, k, pat) == "."
  {
    KeepAt(s, k, pat);
  }

  /** "Apple Inc." is cleaned to "Apple." by the pattern as written. */
  lemma AppleIncAsWritten()
    ensures CleanNameAsWritten("Apple Inc.") == "Apple."
  {
    assert "Apple" + " Inc." == "Apple Inc.";
    AsWrittenKeepsDot("Apple");
  }

  /** The corrected cleaning removes " Inc." and " Inc" whole. */
  lemma CleanNameDropsInc(base: string, dotted: bool)
    requires |base| > 0 && AllLetters(base)
    ensures CleanName(base + (if dotted then " Inc." else " Inc")) == base
  {
    var tail := if dotted then " Inc." else " Inc";
    RemovesIncWhole(base, tail);
    StripLetters(base);
  }

  lemma RemovesIncWhole(base: string, tail: string)
    requires |base| > 0 && AllLetters(base)
    requires tail == " Inc" || tail == " Inc."
    ensures RemoveFrom(base + tail, 0, INTENDED) == base
  {
    LettersKept(base, tail, INTENDED);
    IncGoesWhole(base, tail);
    assert base + [] == base;
  }

  /** As intended, " Inc" or " Inc." at the end goes entirely. */
  lemma IncGoesWhole(base: string, tail: string)
    requires |base| > 0 && AllLetters(base)
    requires tail == " Inc" || tail == " Inc."
    ensures RemoveFrom(base + tail, |base|, INTENDED) == []
  {
    var s := base + tail;
    IncMatches(base, tail, INTENDED, |s|);
    SkipAt(s, |base|, INTENDED, |s|);
  }

  // ---------------------------------------------------------------------
  // Case forms and the query list

  /** `str.title()` on ASCII text: each character is cased by whether a
      letter precedes it. */
  function Title(s: string): (r: string)
    ensures |r| == |s|
    ensures forall i :: 0 <= i < |s| ==> r[i] == TitleChar(i > 0 && Text.IsLetter(s[i - 1]), s[i])
  {
    seq(|s|, i requires 0 <= i < |s| => TitleChar(i > 0 && Text.IsLetter(s[i - 1]), s[i]))
  }

  /** What `str.title()` does to ASCII text: a letter that follows a letter
      is lower-cased, any other letter upper-cased; nothing else changes,
      and only the case of a letter ever changes. */
  lemma TitleCases(s: string)
    ensures var r := Title(s);
      && |r| == |s|
      && (forall i :: 0 <= i < |s| ==> Text.LowerChar(r[i]) == Text.LowerChar(s[i]))
      && (forall i :: 0 <= i < |s| ==> (Text.IsLetter(r[i]) <==> Text.IsLetter(s[i])))
      && (forall i :: 0 <= i < |s| ==>
            if i > 0 && Text.IsLetter(s[i - 1]) then !('A' <= r[i] <= 'Z') else !('a' <= r[i] <= 'z'))
  {
    var r := Title(s);
    forall i | 0 <= i < |s|
      ensures Text.LowerChar(r[i]) == Text.LowerChar(s[i])
      ensures Text.IsLetter(r[i]) <==> Text.IsLetter(s[i])
      ensures if i > 0 && Text.IsLetter(s[i - 1]) then !('A' <= r[i] <= 'Z') else !('a' <= r[i] <= 'z')
    {
      var c := TitleChar(i > 0 && Text.IsLetter(s[i - 1]), s[i]);
      assert r[i] == c;
    }
  }

  /** One character of `str.title()`, given whether a letter precedes it. */
  function TitleChar(afterLetter: bool, c: char): (r: char)
    ensures Text.LowerChar(r) == Text.LowerChar(c)
    ensures Text.IsLetter(r) <==> Text.IsLetter(c)
    ensures afterLetter ==> !('A' <= r <= 'Z')
    ensures !afterLetter ==> !('a' <= r <= 'z')
  {
    if afterLetter then Text.LowerChar(c) else Text.UpperChar(c)
  }

  /** Title-casing a title-cased text changes nothing. */
  lemma {:induction false} TitleIdempotent(s: string)
    ensures Title(Title(s)) == Title(s)
  {
    var r := Title(s);
    TitleCases(s);
    forall i | 0 <= i < |s| ensures Title(r)[i] == r[i] {
      assert i > 0 ==> (Text.IsLetter(r[i - 1]) <==> Text.IsLetter(s[i - 1]));
    }
  }

  /** `f'"{x}"'`. */
  function Quote(x: string): (r: string)
    ensures |r| == |x| + 2 && r[0] == '"' && r[|r| - 1] == '"' && r[1..|r| - 1] == x
  {
    "\"" + x + "\""
  }

  /** The two ticker phrases are never the same. */
  lemma TickerQueriesDiffer(symbol: string)
    ensures Quote(symbol) != Quote("$" + symbol)
  {
    assert |Quote(symbol)| != |Quote("$" + symbol)|;
  }

  /** The distinct values of `xs`, each at its first occurrence. */
  function Dedup(xs: seq<string>): (r: seq<string>)
    ensures forall i, j :: 0 <= i < j < |r| ==> r[i] != r[j]
    ensures forall x :: x in r <==> x in xs
    ensures |r| <= |xs|
  {
    if xs == [] then []
    else
      var init := xs[..|xs| - 1];
      var r := Dedup(init);
      assert forall x :: x in xs <==> x in init || x == xs[|xs| - 1];
      if xs[|xs| - 1] in r then r else r + [xs[|xs| - 1]]
  }

  lemma TwoMembers(xs: seq<string>, a: string, b: string)
    requires a in xs && b in xs && a != b
    ensures |xs| >= 2
  {
    var i :| 0 <= i < |xs| && xs[i] == a;
    var j :| 0 <= j < |xs| && xs[j] == b;
    assert i != j;
  }

  /** The five phrases line 56 lists for a cleaned name. */
  function Candidates(symbol: string, clean: string): seq<string> {
    [Quote(symbol), Quote("$" + symbol), Quote(clean), Quote(Title(clean)), Quote(Text.Lower(clean))]
  }

  /** `get_queries(symbol)` with the company name `name` (None when yfinance
      had none or failed), the suffixes removed by `pat`. Without a name: the
      two ticker phrases. With one: the distinct phrases among the five, at
      most five, both ticker phrases always among them. */
  function GetQueriesWith(symbol: string, name: Option<string>, pat: Pattern): (r: seq<string>)
    ensures name.None? || name.value == "" ==> r == [Quote(symbol), Quote("$" + symbol)]
    ensures name.Some? && name.value != "" ==>
              forall q :: q in r <==> q in Candidates(symbol, CleanWith(name.value, pat))
    ensures forall i, j :: 0 <= i < j < |r| ==> r[i] != r[j]
    ensures 2 <= |r| <= 5
    ensures Quote(symbol) in r && Quote("$" + symbol) in r
  {
    TickerQueriesDiffer(symbol);
    if name.None? || name.value == "" then [Quote(symbol), Quote("$" + symbol)]
    else
      var c := Candidates(symbol, CleanWith(name.value, pat));
      var r := Dedup(c);
      TwoMembers(r, c[0], c[1]);
      r
  }

  /** `get_queries` with line 53 as written. */
  function GetQueriesAsWritten(symbol: string, name: Option<string>): (r: seq<string>)
    ensures name.None? || name.value == "" ==> r == [Quote(symbol), Quote("$" + symbol)]
    ensures name.Some? && name.value != "" ==>
              forall q :: q in r <==> q in Candidates(symbol, CleanNameAsWritten(name.value))
    ensures forall i, j :: 0 <= i < j < |r| ==> r[i] != r[j]
    ensures 2 <= |r| <= 5 && Quote(symbol) in r && Quote("$" + symbol) in r
  {
    GetQueriesWith(symbol, name, AS_WRITTEN)
  }

  /** `get_queries` with the suffix pattern corrected; the scraper uses these
      phrases. */
  function GetQueries(symbol: string, name: Option<string>): (r: seq<string>)
    ensures name.None? || name.value == "" ==> r == [Quote(symbol), Quote("$" + symbol)]
    ensures name.Some? && name.value != "" ==>
              forall q :: q in r <==> q in Candidates(symbol, CleanName(name.value))
    ensures forall i, j :: 0 <= i < j < |r| ==> r[i] != r[j]
    ensures 2 <= |r| <= 5
    ensures Quote(symbol) in r && Quote("$" + symbol) in r
  {
    GetQueriesWith(symbol, name, INTENDED)
  }

  /** FINDING in the queries: as written, the name "Name Inc." is searched as
      `"Name."`; corrected, as `"Name"`. */
  lemma QueriesForIncName(symbol: string, base: string)
    requires |base| > 0 && AllLetters(base)
    ensures Quote(base + ".") in GetQueriesAsWritten(symbol, Some(base + " Inc."))
    ensures Quote(base) in GetQueries(symbol, Some(base + " Inc."))
  {
    AsWrittenKeepsDot(base);
    CleanNameDropsInc(base, true);
    assert Quote(base + ".") in Candidates(symbol, CleanNameAsWritten(base + " Inc."));
    assert Quote(base) in Candidates(symbol, CleanName(base + " Inc."));
  }
}

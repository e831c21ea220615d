/** Character classes, case mapping and string order as Python applies them
    to ASCII text: `str.isspace` / regex `\s`, regex `\d` and `\w`,
    `str.lower`, and the code-point order `sorted` uses on strings. */
module Text {

  /** Python's whitespace among the ASCII characters: tab to carriage return,
      the four separators 0x1C-0x1F, and the space. */
  predicate IsSpace(c: char) {
    (9 <= c as int <= 13) || (28 <= c as int <= 32)
  }

  predicate IsDigit(c: char) {
    '0' <= c <= '9'
  }

  predicate IsLetter(c: char) {
    ('a' <= c <= 'z') || ('A' <= c <= 'Z')
  }

  /** Regex `\w`: letters, digits and the underscore. */
  predicate IsWordChar(c: char) {
    IsLetter(c) || IsDigit(c) || c == '_'
  }

  function LowerChar(c: char): (r: char)
    ensures 'A' <= c <= 'Z' ==> 'a' <= r <= 'z' && r as int == c as int + 32
    ensures !('A' <= c <= 'Z') ==> r == c
  {
    if 'A' <= c <= 'Z' then (c as int + 32) as char else c
  }

  function UpperChar(c: char): (r: char)
    ensures 'a' <= c <= 'z' ==> 'A' <= r <= 'Z' && LowerChar(r) == c
    ensures !('a' <= c <= 'z') ==> r == c
  {
    if 'a' <= c <= 'z' then (c as int - 32) as char else c
  }

  /** `str.lower()` on ASCII text. */
  function Lower(s: string): (r: string)
    ensures |r| == |s|
    ensures forall i :: 0 <= i < |s| ==> r[i] == LowerChar(s[i])
  {
    seq(|s|, i requires 0 <= i < |s| => LowerChar(s[i]))
  }

  predicate AllSpace(s: string) {
    forall i :: 0 <= i < |s| ==> IsSpace(s[i])
  }

  predicate AllDigits(s: string) {
    forall i :: 0 <= i < |s| ==> IsDigit(s[i])
  }

  /** `str.strip()`: whitespace removed from both ends. */
  function Strip(s: string): (r: string)
    ensures r == [] || (!IsSpace(r[0]) && !IsSpace(r[|r| - 1]))
  {
    StripEnd(StripStart(s))
  }

  /** `str.lstrip()`: the longest all-whitespace prefix removed. */
  function StripStart(s: string): (r: string)
    ensures |r| <= |s| && r == s[|s| - |r|..] && AllSpace(s[..|s| - |r|])
    ensures r == [] || !IsSpace(r[0])
  {
    if s != [] && IsSpace(s[0]) then StripStart(s[1..]) else s
  }

  /** `str.rstrip()`: the longest all-whitespace suffix removed. */
  function StripEnd(s: string): (r: string)
    ensures |r| <= |s| && r == s[..|r|] && AllSpace(s[|r|..])
    ensures r == [] || !IsSpace(r[|r| - 1])
    ensures s == [] || !IsSpace(s[0]) ==> r == [] || !IsSpace(r[0])
  {
    if s != [] && IsSpace(s[|s| - 1]) then StripEnd(s[..|s| - 1]) else s
  }

  predicate SpacesIn(s: string, lo: nat, hi: nat)
    requires lo <= hi <= |s|
  {
    forall t :: lo <= t < hi ==> IsSpace(s[t])
  }

  /** Where the whitespace run that ends at `hi` starts, going back no
      further than `lo`. */
  function SpacesBefore(s: string, lo: nat, hi: nat): (r: nat)
    requires lo <= hi <= |s|
    ensures lo <= r <= hi && SpacesIn(s, r, hi)
    ensures r == lo || !IsSpace(s[r - 1])
    decreases hi - lo
  {
    if lo < hi && IsSpace(s[hi - 1]) then SpacesBefore(s, lo, hi - 1) else hi
  }

  /** Where the whitespace run that starts at `lo` ends, going no further
      than `hi`. */
  function SpacesAfter(s: string, lo: nat, hi: nat): (r: nat)
    requires lo <= hi <= |s|
    ensures lo <= r <= hi && SpacesIn(s, lo, r)
    ensures r == hi || !IsSpace(s[r])
    decreases hi - lo
  {
    if lo < hi && IsSpace(s[lo]) then SpacesAfter(s, lo + 1, hi) else lo
  }

  lemma {:induction false} SpacesBeforeAt(s: string, lo: nat, hi: nat, m: nat)
    requires lo <= m <= hi <= |s| && SpacesIn(s, m, hi) && (m == lo || !IsSpace(s[m - 1]))
    ensures SpacesBefore(s, lo, hi) == m
  {
    var r := SpacesBefore(s, lo, hi);
    if r < m {
      assert false;
    } else if r > m {
      assert false;
    }
  }

  lemma {:induction false} SpacesAfterAt(s: string, lo: nat, hi: nat, m: nat)
    requires lo <= m <= hi <= |s| && SpacesIn(s, lo, m) && (m == hi || !IsSpace(s[m]))
    ensures SpacesAfter(s, lo, hi) == m
  {
    var r := SpacesAfter(s, lo, hi);
    if r < m {
      assert false;
    } else if r > m {
      assert false;
    }
  }

  /** Python's `<` on strings: code point by code point, a proper prefix first. */
  predicate StrLess(a: string, b: string) {
    if a == [] then b != []
    else if b == [] then false
    else if a[0] != b[0] then a[0] < b[0]
    else StrLess(a[1..], b[1..])
  }

  lemma {:induction false} StrLessIrreflexive(a: string)
    ensures !StrLess(a, a)
  {
    if a != [] {
      StrLessIrreflexive(a[1..]);
    }
  }

  lemma {:induction false} StrLessTransitive(a: string, b: string, c: string)
    requires StrLess(a, b) && StrLess(b, c)
    ensures StrLess(a, c)
  {
    if a != [] && b != [] && c != [] && a[0] == b[0] && b[0] == c[0] {
      StrLessTransitive(a[1..], b[1..], c[1..]);
    }
  }

  lemma {:induction false} StrLessTotal(a: string, b: string)
    requires a != b
    ensures StrLess(a, b) || StrLess(b, a)
  {
    if a != [] && b != [] && a[0] == b[0] {
      assert a == [a[0]] + a[1..] && b == [b[0]] + b[1..];
      StrLessTotal(a[1..], b[1..]);
    }
  }

  predicate StrictlySorted(xs: seq<string>) {
    forall i, j :: 0 <= i < j < |xs| ==> StrLess(xs[i], xs[j])
  }

  function InsertSorted(x: string, xs: seq<string>): (r: seq<string>)
    requires StrictlySorted(xs)
    ensures StrictlySorted(r)
    ensures forall y :: y in r <==> y == x || y in xs
  {
    if xs == [] then [x]
    else if x == xs[0] then xs
    else if StrLess(x, xs[0]) then
      forall j | 0 < j < |xs| ensures StrLess(x, xs[j]) {
        StrLessTransitive(x, xs[0], xs[j]);
      }
      [x] + xs
    else
      StrLessTotal(x, xs[0]);
      var tail := InsertSorted(x, xs[1..]);
      forall j | 0 <= j < |tail| ensures StrLess(xs[0], tail[j]) {
        assert tail[j] in tail;
      }
      [xs[0]] + tail
  }

  /** `sorted(set(xs))`: the distinct values of `xs` in ascending order. */
  function SortedDistinct(xs: seq<string>): (r: seq<string>)
    ensures StrictlySorted(r)
    ensures forall y :: y in r <==> y in xs
  {
    if xs == [] then [] else InsertSorted(xs[0], SortedDistinct(xs[1..]))
  }

  lemma {:induction false} StrictlySortedDistinct(xs: seq<string>, i: int, j: int)
    requires StrictlySorted(xs) && 0 <= i < |xs| && 0 <= j < |xs| && i != j
    ensures xs[i] != xs[j]
  {
    if i < j { StrLessIrreflexive(xs[i]); } else { StrLessIrreflexive(xs[j]); }
  }
}

/** The Python `str` built-ins that the trace parser relies on, with the
    semantics CPython gives them for the arguments the parser passes. */
module PyStr {
  import opened Results

  // ---------------------------------------------------------------------
  // Whitespace, as `str.isspace` defines it
  // ---------------------------------------------------------------------

  /** The characters for which `str.isspace()` holds; `str.strip()`,
      `str.rstrip()` and `int()` remove exactly these. */
  predicate IsSpace(c: char) {
    c == ' ' || ('\t' <= c <= '\r') || ('\U{1C}' <= c <= '\U{1F}')
    || c == '\U{85}' || c == '\U{A0}' || c == '\U{1680}'
    || ('\U{2000}' <= c <= '\U{200A}') || c == '\U{2028}' || c == '\U{2029}'
    || c == '\U{202F}' || c == '\U{205F}' || c == '\U{3000}'
  }

  /** `s.rstrip()` */
  function RStrip(s: string): string
    decreases |s|
  {
    if s != [] && IsSpace(s[|s| - 1]) then RStrip(s[..|s| - 1]) else s
  }

  /** `s.rstrip()` is the longest prefix of `s` that does not end in
      whitespace: what it drops is all whitespace. */
  lemma {:induction false} RStripSpec(s: string)
    ensures RStrip(s) <= s
    ensures RStrip(s) == [] || !IsSpace(RStrip(s)[|RStrip(s)| - 1])
    ensures forall i :: |RStrip(s)| <= i < |s| ==> IsSpace(s[i])
    decreases |s|
  {
    if s != [] && IsSpace(s[|s| - 1]) {
      RStripSpec(s[..|s| - 1]);
    }
  }

  /** `s.lstrip()` */
  function LStrip(s: string): string
    decreases |s|
  {
    if s != [] && IsSpace(s[0]) then LStrip(s[1..]) else s
  }

  /** `s.lstrip()` is the longest suffix of `s` that does not start with
      whitespace: what it drops is all whitespace. */
  lemma {:induction false} LStripSpec(s: string)
    ensures |LStrip(s)| <= |s| && LStrip(s) == s[|s| - |LStrip(s)|..]
    ensures LStrip(s) == [] || !IsSpace(LStrip(s)[0])
    ensures forall i :: 0 <= i < |s| - |LStrip(s)| ==> IsSpace(s[i])
    decreases |s|
  {
    if s != [] && IsSpace(s[0]) {
      LStripSpec(s[1..]);
    }
  }

  /** `s.strip()` */
  function Strip(s: string): string {
    LStrip(RStrip(s))
  }

  // ---------------------------------------------------------------------
  // Prefixes
  // ---------------------------------------------------------------------

  /** `s.startswith(p)` */
  predicate StartsWith(s: string, p: string) {
    |p| <= |s| && s[..|p|] == p
  }

  /** `s.removeprefix(p)` */
  function RemovePrefix(s: string, p: string): (r: string)
    ensures StartsWith(s, p) ==> p + r == s
    ensures !StartsWith(s, p) ==> r == s
  {
    if StartsWith(s, p) then s[|p|..] else s
  }

  // ---------------------------------------------------------------------
  // Splitting on a one-character separator
  // ---------------------------------------------------------------------

  /** Joins at least one piece with `sep` between neighbours: `sep.join(parts)`. */
  function Join(parts: seq<string>, sep: char): string
    requires |parts| >= 1
    decreases |parts|
  {
    if |parts| == 1 then parts[0] else parts[0] + [sep] + Join(parts[1..], sep)
  }

  /** `s.split(sep)` for a one-character separator: the pieces between the
      separators, never an empty list. Together with `SplitJoins` and
      `SplitIsUnique`, the first two postconditions characterise the result. */
  function Split(s: string, sep: char): (parts: seq<string>)
    ensures |parts| >= 1
    ensures forall k :: 0 <= k < |parts| ==> sep !in parts[k]
    ensures |parts| == 1 <==> sep !in s
    decreases |s|
  {
    if s == [] then [""]
    else
      var rest := Split(s[1..], sep);
      if s[0] == sep then
        assert ([""] + rest)[1..] == rest;
        [""] + rest
      else
        var parts := [[s[0]] + rest[0]] + rest[1..];
        assert parts[1..] == rest[1..];
        assert |rest| > 1 ==> rest[1..] == rest[1..];
        assert sep in s <==> sep in s[1..];
        parts
  }

  /** Joining the pieces with the separator gives the text back. */
  lemma {:induction false} SplitJoins(s: string, sep: char)
    ensures Join(Split(s, sep), sep) == s
    decreases |s|
  {
    if s != [] {
      var rest := Split(s[1..], sep);
      SplitJoins(s[1..], sep);
      var parts := Split(s, sep);
      if s[0] == sep {
        assert parts == [""] + rest && parts[1..] == rest;
      } else {
        assert parts == [[s[0]] + rest[0]] + rest[1..];
        if |rest| > 1 {
          assert parts[1..] == rest[1..];
          assert Join(rest, sep) == rest[0] + [sep] + Join(rest[1..], sep);
        }
      }
    }
  }

  /** The pieces of `Join` always contain the separator between them. */
  lemma {:induction false} JoinHasSeparator(parts: seq<string>, sep: char)
    requires |parts| >= 2
    ensures sep in Join(parts, sep)
  {
    var j := Join(parts, sep);
    assert j == parts[0] + [sep] + Join(parts[1..], sep);
    assert j[|parts[0]|] == sep;
  }

  /** Splitting text that begins with a separator-free piece and a separator
      yields that piece followed by the split of the remainder. */
  lemma {:induction false} SplitCons(a: string, b: string, sep: char)
    requires sep !in a
    ensures Split(a + [sep] + b, sep) == [a] + Split(b, sep)
    decreases |a|
  {
    var s := a + [sep] + b;
    if a == [] {
      assert s[0] == sep && s[1..] == b;
    } else {
      assert s[0] == a[0];
      assert s[1..] == a[1..] + [sep] + b;
      SplitCons(a[1..], b, sep);
      assert [a[0]] + a[1..] == a;
    }
  }

  /** `Split` is the only way of cutting `s` into separator-free pieces that
      join back to `s`. */
  lemma {:induction false} SplitIsUnique(parts: seq<string>, s: string, sep: char)
    requires |parts| >= 1
    requires forall k :: 0 <= k < |parts| ==> sep !in parts[k]
    requires Join(parts, sep) == s
    ensures Split(s, sep) == parts
    decreases |parts|
  {
    if |parts| == 1 {
      assert sep !in s;
      var q := Split(s, sep);
      SplitJoins(s, sep);
      assert |q| == 1 && Join(q, sep) == q[0];
    } else {
      var rest := parts[1..];
      SplitIsUnique(rest, Join(rest, sep), sep);
      SplitCons(parts[0], Join(rest, sep), sep);
      assert [parts[0]] + rest == parts;
    }
  }

  // ---------------------------------------------------------------------
  // Searching
  // ---------------------------------------------------------------------

  /** `pat` occurs in `s` starting at position `i`. */
  predicate OccursAt(s: string, pat: string, i: int) {
    0 <= i && i + |pat| <= |s| && s[i..i + |pat|] == pat
  }

  /** `pat in s` */
  ghost predicate Contains(s: string, pat: string) {
    exists i :: OccursAt(s, pat, i)
  }

  /** `s.find(pat, from)` without an end bound. */
  function FindFrom(s: string, pat: string, from: nat): (r: int)
    ensures r == -1 || (from <= r && OccursAt(s, pat, r))
    ensures r == -1 ==> forall i :: from <= i ==> !OccursAt(s, pat, i)
    ensures r != -1 ==> forall i :: from <= i < r ==> !OccursAt(s, pat, i)
    decreases |s| - from
  {
    if from + |pat| > |s| then -1
    else if OccursAt(s, pat, from) then from
    else FindFrom(s, pat, from + 1)
  }

  /** `s.find(pat)`: the first position at which `pat` occurs, or -1. */
  function Find(s: string, pat: string): (r: int)
    ensures r == -1 <==> !Contains(s, pat)
    ensures r != -1 ==> OccursAt(s, pat, r) && forall i :: 0 <= i < r ==> !OccursAt(s, pat, i)
  {
    FindFrom(s, pat, 0)
  }

  /** How CPython clips a slice or search bound `x` against a length:
      negative values count from the end, and the result lies in [0, len]. */
  function ClipIndex(x: int, len: nat): (r: nat)
    ensures r <= len
    ensures 0 <= x <= len ==> r == x
  {
    if x < 0 then (if x + len < 0 then 0 else x + len)
    else if x > len then len
    else x
  }

  /** The last position `j` in [lo, hi) with `s[j] == c`, or -1. */
  function LastIndexIn(s: string, c: char, lo: nat, hi: nat): (r: int)
    requires hi <= |s|
    ensures r == -1 || (lo <= r < hi && s[r] == c)
    ensures r == -1 ==> forall j :: lo <= j < hi ==> s[j] != c
    ensures r != -1 ==> forall j :: r < j < hi ==> s[j] != c
    decreases hi
  {
    if hi <= lo then -1
    else if s[hi - 1] == c then hi - 1
    else LastIndexIn(s, c, lo, hi - 1)
  }

  /** `s.rfind(c, start, end)` for a one-character needle: the last position
      of `c` inside the slice `s[start:end]`, or -1. */
  function RFind(s: string, c: char, start: int, end: int): (r: int)
    ensures r == -1 || (ClipIndex(start, |s|) <= r < ClipIndex(end, |s|) && s[r] == c)
    ensures r == -1 ==> forall j :: ClipIndex(start, |s|) <= j < ClipIndex(end, |s|) ==> s[j] != c
    ensures r != -1 ==> forall j :: r < j < ClipIndex(end, |s|) ==> s[j] != c
  {
    LastIndexIn(s, c, ClipIndex(start, |s|), ClipIndex(end, |s|))
  }

  /** `j` is the last position of `c` in `s[lo:hi]`. */
  ghost predicate IsLastIn(s: string, c: char, lo: int, hi: int, j: int) {
    0 <= lo <= j < hi <= |s| && s[j] == c && forall m :: j < m < hi ==> s[m] != c
  }

  /** When `c` occurs in the in-range slice `s[lo:hi]`, `rfind` returns its
      last position there. */
  lemma RFindFindsLast(s: string, c: char, lo: int, hi: int, j: int)
    requires IsLastIn(s, c, lo, hi, j)
    ensures RFind(s, c, lo, hi) == j
  {
    var r := RFind(s, c, lo, hi);
    assert ClipIndex(lo, |s|) == lo && ClipIndex(hi, |s|) == hi;
    assert r != -1;
    assert !(r < j) && !(j < r);
  }

  /** `s[a:b]`, with Python's treatment of negative and out-of-range bounds. */
  function Slice(s: string, a: int, b: int): (r: string)
    ensures 0 <= a <= b <= |s| ==> r == s[a..b]
  {
    var i, j := ClipIndex(a, |s|), ClipIndex(b, |s|);
    if i < j then s[i..j] else ""
  }

  // ---------------------------------------------------------------------
  // Replacing
  // ---------------------------------------------------------------------

  /** `s.replace(pat, rep)`: every occurrence of `pat`, scanning from the left
      and not overlapping, becomes `rep`; an empty `pat` inserts `rep` before
      every character and at the end. */
  function Replace(s: string, pat: string, rep: string): string
    decreases |s|
  {
    if pat == [] then
      (if s == [] then rep else rep + [s[0]] + Replace(s[1..], pat, rep))
    else if |s| < |pat| then s
    else if s[..|pat|] == pat then rep + Replace(s[|pat|..], pat, rep)
    else [s[0]] + Replace(s[1..], pat, rep)
  }

  /** Replacing one character by another maps the string pointwise. */
  lemma {:induction false} ReplaceCharPointwise(s: string, c: char, d: char)
    ensures |Replace(s, [c], [d])| == |s|
    ensures forall i :: 0 <= i < |s| ==>
      Replace(s, [c], [d])[i] == (if s[i] == c then d else s[i])
    decreases |s|
  {
    if s != [] {
      ReplaceCharPointwise(s[1..], c, d);
      assert s[..1] == [s[0]];
    }
  }

  /** After replacing `c` by a different character, no `c` is left. */
  lemma ReplaceCharRemovesIt(s: string, c: char, d: char)
    requires c != d
    ensures c !in Replace(s, [c], [d])
  {
    ReplaceCharPointwise(s, c, d);
  }

  /** Replacing a pattern that does not occur changes nothing. */
  lemma {:induction false} ReplaceAbsent(s: string, pat: string, rep: string)
    requires pat != []
    requires forall i :: !OccursAt(s, pat, i)
    ensures Replace(s, pat, rep) == s
    decreases |s|
  {
    if |s| >= |pat| {
      assert !OccursAt(s, pat, 0);
      forall i ensures !OccursAt(s[1..], pat, i) {
        if 0 <= i && i + |pat| <= |s[1..]| {
          assert s[1..][i..i + |pat|] == s[i + 1..i + 1 + |pat|];
          assert !OccursAt(s, pat, i + 1);
        }
      }
      ReplaceAbsent(s[1..], pat, rep);
    }
  }

  /** A string that starts with a non-empty pattern has that occurrence
      replaced first, and the rest is replaced on its own. */
  lemma ReplaceLeading(pat: string, s: string, rep: string)
    requires pat != []
    ensures Replace(pat + s, pat, rep) == rep + Replace(s, pat, rep)
  {
    assert (pat + s)[..|pat|] == pat;
    assert (pat + s)[|pat|..] == s;
  }

  /** Replacing the empty pattern by the empty string changes nothing, the case
      the parser meets when no `@` marker precedes the installation path. */
  lemma {:induction false} ReplaceEmptyByEmpty(s: string)
    ensures Replace(s, "", "") == s
    decreases |s|
  {
    if s != [] {
      ReplaceEmptyByEmpty(s[1..]);
    }
  }

  /** A string with no occurrence of `c` is left alone by replacing `c`. */
  lemma ReplaceCharAbsent(s: string, c: char, d: char)
    requires c !in s
    ensures Replace(s, [c], [d]) == s
  {
    ReplaceCharPointwise(s, c, d);
  }

  // ---------------------------------------------------------------------
  // Integers: str(n) and int(s)
  // ---------------------------------------------------------------------

  predicate IsDigit(c: char) { '0' <= c <= '9' }

  /** Every character is an ASCII digit (checked from the end, the order in
      which `DigitsValue` reads them). */
  predicate AllDigits(s: string)
    decreases |s|
  {
    s == [] || (AllDigits(s[..|s| - 1]) && IsDigit(s[|s| - 1]))
  }

  /** A non-empty run of ASCII digits: what `int()` accepts after the sign. */
  predicate IsDecimal(s: string) {
    |s| > 0 && AllDigits(s)
  }

  lemma {:induction false} AllDigitsAt(s: string, i: nat)
    requires AllDigits(s) && i < |s|
    ensures IsDigit(s[i])
    decreases |s|
  {
    if i < |s| - 1 {
      AllDigitsAt(s[..|s| - 1], i);
    }
  }

  /** The value of a string of ASCII digits, most significant first. */
  function DigitsValue(s: string): nat
    requires AllDigits(s)
    decreases |s|
  {
    if s == [] then 0
    else DigitsValue(s[..|s| - 1]) * 10 + (s[|s| - 1] as int - '0' as int)
  }

  function DigitChar(d: nat): char
    requires d < 10
  {
    (d + '0' as int) as char
  }

  /** `str(n)` for a non-negative `n`. */
  function NatToStr(n: nat): string
    decreases n
  {
    if n < 10 then [DigitChar(n)] else NatToStr(n / 10) + [DigitChar(n % 10)]
  }

  /** `str(n)`: decimal, with a leading `-` for negative numbers. */
  function IntToStr(n: int): (r: string)
    ensures |r| > 0
  {
    if n < 0 then "-" + NatToStr(-n) else NatToStr(n)
  }

  /** `int(s)`: surrounding whitespace, an optional sign and ASCII digits;
      anything else is the `ValueError`, here `None`. */
  function ParseInt(s: string): (r: Option<int>)
  {
    var t := Strip(s);
    if |t| > 0 && (t[0] == '-' || t[0] == '+') then
      if IsDecimal(t[1..]) then
        var v: int := DigitsValue(t[1..]);
        Some(if t[0] == '-' then -v else v)
      else None
    else if IsDecimal(t) then Some(DigitsValue(t))
    else None
  }

  /** `str(n)` is a run of digits whose value is `n`. */
  lemma {:induction false} DigitsOfNatToStr(n: nat)
    ensures IsDecimal(NatToStr(n))
    ensures DigitsValue(NatToStr(n)) == n
    decreases n
  {
    var r := NatToStr(n);
    if n >= 10 {
      DigitsOfNatToStr(n / 10);
      assert r[..|r| - 1] == NatToStr(n / 10);
    } else {
      assert IsDigit(DigitChar(n));
      assert r[..0] == [];
    }
  }

  /** `int(str(n)) == n` for every integer. */
  lemma ParseIntOfIntToStr(n: int)
    ensures ParseInt(IntToStr(n)) == Some(n)
  {
    var s := IntToStr(n);
    var d := NatToStr(if n < 0 then -n else n);
    DigitsOfNatToStr(if n < 0 then -n else n);
    AllDigitsAt(d, 0);
    AllDigitsAt(d, |d| - 1);
    assert !IsSpace(s[0]) && !IsSpace(s[|s| - 1]);
    assert RStrip(s) == s;
    assert LStrip(s) == s;
    if n < 0 {
      assert s[1..] == d;
    }
  }

  /** `str(n)` never contains a character that a separator of the trace
      format or whitespace could be. */
  lemma IntToStrIsPlain(n: int, c: char)
    requires c != '-' && !IsDigit(c)
    ensures c !in IntToStr(n)
  {
    var d := NatToStr(if n < 0 then -n else n);
    DigitsOfNatToStr(if n < 0 then -n else n);
    forall i | 0 <= i < |d| ensures d[i] != c {
      AllDigitsAt(d, i);
    }
  }
}

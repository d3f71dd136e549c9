/**
 * The parts of Rust's `str` and `format!` that the status summarisers use:
 * trimming, prefix and suffix tests, search, `replace`, `join`, decimal
 * rendering of counts and `{:N}` padding. Strings are sequences of Unicode
 * scalar values, so character order is the byte order of their UTF-8 form.
 */
module Strings {
  import opened Wrappers

  /** `char::is_whitespace`: the Unicode White_Space property. */
  predicate IsWhitespace(c: char) {
    ('\t' <= c <= '\r') || c == ' ' || c == '\U{85}' || c == '\U{a0}' || c == '\U{1680}'
    || ('\U{2000}' <= c <= '\U{200a}') || c == '\U{2028}' || c == '\U{2029}'
    || c == '\U{202f}' || c == '\U{205f}' || c == '\U{3000}'
  }

  /** Drops the longest prefix whose characters all satisfy `drop`. */
  function TrimLeft(s: string, drop: char -> bool): (r: string)
    ensures |r| <= |s| && r == s[|s| - |r|..]
    ensures forall i :: 0 <= i < |s| - |r| ==> drop(s[i])
    ensures r == [] || !drop(r[0])
  {
    if s == [] || !drop(s[0]) then s else TrimLeft(s[1..], drop)
  }

  /** Drops the longest suffix whose characters all satisfy `drop`. */
  function TrimRight(s: string, drop: char -> bool): (r: string)
    ensures |r| <= |s| && r == s[..|r|]
    ensures forall i :: |r| <= i < |s| ==> drop(s[i])
    ensures r == [] || !drop(r[|r| - 1])
  {
    if s == [] || !drop(s[|s| - 1]) then s else TrimRight(s[..|s| - 1], drop)
  }

  /** `str::trim_start` */
  function TrimStart(s: string): string {
    TrimLeft(s, IsWhitespace)
  }

  /** `str::trim_end` */
  function TrimEnd(s: string): string {
    TrimRight(s, IsWhitespace)
  }

  /** `str::trim` */
  function Trim(s: string): string {
    TrimEnd(TrimStart(s))
  }

  /** `trim` applied to every line. */
  function TrimAll(lines: seq<string>): (r: seq<string>)
    ensures |r| == |lines| && forall i :: 0 <= i < |lines| ==> r[i] == Trim(lines[i])
  {
    seq(|lines|, i requires 0 <= i < |lines| => Trim(lines[i]))
  }

  /** `str::trim_matches(c)` for a single character `c` */
  function TrimMatches(s: string, c: char): string {
    TrimRight(TrimLeft(s, x => x == c), x => x == c)
  }

  predicate StartsWith(s: string, prefix: string) {
    |prefix| <= |s| && s[..|prefix|] == prefix
  }

  predicate EndsWith(s: string, suffix: string) {
    |suffix| <= |s| && s[|s| - |suffix|..] == suffix
  }

  predicate OccursAt(s: string, pat: string, i: nat) {
    i + |pat| <= |s| && s[i..i + |pat|] == pat
  }

  /** An occurrence one position further into `s` is an occurrence in its tail. */
  lemma OccursShift(s: string, pat: string, i: nat)
    requires s != []
    ensures OccursAt(s, pat, i + 1) <==> OccursAt(s[1..], pat, i)
  {
    if i + 1 + |pat| <= |s| {
      assert s[1..][i..i + |pat|] == s[i + 1..i + 1 + |pat|];
    }
  }

  /** `str::find`: the first position at which `pat` occurs. */
  function Find(s: string, pat: string): (r: Option<nat>)
    ensures r.Some? ==> OccursAt(s, pat, r.value)
    ensures r.Some? ==> forall i: nat :: i < r.value ==> !OccursAt(s, pat, i)
    ensures r.None? ==> forall i: nat :: !OccursAt(s, pat, i)
    decreases |s|
  {
    if |s| < |pat| then None
    else if s[..|pat|] == pat then Some(0)
    else
      var rest := Find(s[1..], pat);
      var r := if rest.None? then None else Some(rest.value + 1);
      assert forall i: nat :: OccursAt(s, pat, i) ==> r.Some? && r.value <= i by {
        forall i: nat | OccursAt(s, pat, i) ensures r.Some? && r.value <= i {
          assert i > 0;
          OccursShift(s, pat, i - 1);
        }
      }
      if r.Some? then OccursShift(s, pat, r.value - 1); r else r
  }

  /** `str::contains` */
  predicate Contains(s: string, pat: string) {
    Find(s, pat).Some?
  }

  /**
   * `str::replace`: every non-overlapping occurrence of `pat`, scanning from
   * the left, is replaced by `rep`.
   */
  function Replace(s: string, pat: string, rep: string): string
    requires pat != []
    decreases |s|
  {
    if |s| < |pat| then s
    else if s[..|pat|] == pat then rep + Replace(s[|pat|..], pat, rep)
    else [s[0]] + Replace(s[1..], pat, rep)
  }

  /** A pattern whose first character is absent from `s` occurs nowhere in it. */
  lemma AbsentHead(s: string, pat: string, i: nat)
    requires pat != [] && pat[0] !in s
    ensures !OccursAt(s, pat, i)
  {
    if i + |pat| <= |s| {
      assert s[i..i + |pat|][0] == s[i] && s[i] in s;
    }
  }

  /** Where `pat` does not occur, `replace` changes nothing. */
  lemma {:induction false} ReplaceAbsent(s: string, pat: string, rep: string)
    requires pat != [] && pat[0] !in s
    ensures Replace(s, pat, rep) == s
    decreases |s|
  {
    if |s| >= |pat| {
      AbsentHead(s, pat, 0);
      assert s[1..] == s[1..] && pat[0] !in s[1..];
      ReplaceAbsent(s[1..], pat, rep);
    }
  }

  /** A prefix free of the pattern's first character is copied as it is. */
  lemma {:induction false} ReplaceSkip(x: string, y: string, pat: string, rep: string)
    requires pat != [] && pat[0] !in x
    ensures Replace(x + y, pat, rep) == x + Replace(y, pat, rep)
    decreases |x|
  {
    if x != [] {
      var s := x + y;
      assert s[0] == x[0] && x[0] in x;
      assert s[1..] == x[1..] + y;
      ReplaceSkip(x[1..], y, pat, rep);
      if |s| >= |pat| {
        assert s[..|pat|][0] == x[0];
      }
    } else {
      assert x + y == y;
    }
  }

  /** An occurrence at the front is replaced. */
  lemma ReplaceFront(pat: string, y: string, rep: string)
    requires pat != []
    ensures Replace(pat + y, pat, rep) == rep + Replace(y, pat, rep)
  {
    assert (pat + y)[..|pat|] == pat && (pat + y)[|pat|..] == y;
  }

  /** The one occurrence, at the front of three pattern-free pieces, is replaced. */
  lemma ReplaceLeading(pat: string, rep: string, a: string, b: string, c: string)
    requires pat != [] && pat[0] !in a && pat[0] !in b && pat[0] !in c
    ensures Replace(pat + a + b + c, pat, rep) == rep + a + b + c
  {
    var y := a + b + c;
    assert pat + a + b + c == pat + y;
    ReplaceFront(pat, y, rep);
    ReplaceAbsent(y, pat, rep);
    assert rep + y == rep + a + b + c;
  }

  /** The one occurrence, between pattern-free pieces, is replaced. */
  lemma ReplaceInside(x: string, a: string, q: string, pat: string, rep: string, c: string)
    requires pat != [] && pat[0] !in x && pat[0] !in a && pat[0] !in q && pat[0] !in c
    ensures Replace(x + a + (q + pat) + c, pat, rep) == x + a + (q + rep) + c
  {
    var w := x + a + q;
    assert x + a + (q + pat) + c == w + (pat + c);
    ReplaceSkip(w, pat + c, pat, rep);
    ReplaceFront(pat, c, rep);
    ReplaceAbsent(c, pat, rep);
    assert w + (rep + c) == x + a + (q + rep) + c;
  }

  /** The first `c` in `x + [c] + y` is at the end of `x` when `x` has none. */
  lemma FindFirst(x: string, c: char, y: string)
    requires c !in x
    ensures Find(x + [c] + y, [c]) == Some(|x|)
  {
    var s := x + [c] + y;
    assert OccursAt(s, [c], |x|);
    forall i: nat | i < |x| ensures !OccursAt(s, [c], i) {
      assert s[i] == x[i];
    }
  }

  /** `[&str]::join(sep)` */
  function Join(parts: seq<string>, sep: string): string {
    if parts == [] then ""
    else if |parts| == 1 then parts[0]
    else parts[0] + sep + Join(parts[1..], sep)
  }

  /** `s.split(sep)`: the pieces between separators, empty ones included. */
  function Split(s: string, sep: char): (r: seq<string>)
    ensures |r| > 0 && forall i :: 0 <= i < |r| ==> sep !in r[i]
  {
    if s == [] then [""]
    else
      var rest := Split(s[1..], sep);
      if s[0] == sep then [""] + rest else [[s[0]] + rest[0]] + rest[1..]
  }

  /** Text without a separator joins the first piece of what follows it. */
  lemma {:induction false} SplitPrefix(a: string, rest: string, sep: char)
    requires sep !in a
    ensures Split(a + rest, sep) == [a + Split(rest, sep)[0]] + Split(rest, sep)[1..]
  {
    if a != [] {
      var s := a + rest;
      assert s[1..] == a[1..] + rest;
      assert a[0] in a && s[0] == a[0] && s[0] != sep;
      SplitPrefix(a[1..], rest, sep);
      var r := Split(s[1..], sep);
      assert r == [a[1..] + Split(rest, sep)[0]] + Split(rest, sep)[1..];
      assert Split(s, sep) == [[s[0]] + r[0]] + r[1..];
      assert [a[0]] + (a[1..] + Split(rest, sep)[0]) == a + Split(rest, sep)[0];
    } else {
      assert a + rest == rest && a + Split(rest, sep)[0] == Split(rest, sep)[0];
      assert Split(rest, sep) == [Split(rest, sep)[0]] + Split(rest, sep)[1..];
    }
  }

  /** Splitting a join of separator-free pieces gives the pieces back. */
  lemma {:induction false} SplitJoin(xs: seq<string>, sep: char)
    requires xs != [] && forall i :: 0 <= i < |xs| ==> sep !in xs[i]
    ensures Split(Join(xs, [sep]), sep) == xs
  {
    if |xs| == 1 {
      SplitPrefix(xs[0], "", sep);
      assert xs[0] + "" == xs[0];
    } else {
      var tail := Join(xs[1..], [sep]);
      assert Join(xs, [sep]) == xs[0] + ([sep] + tail);
      SplitPrefix(xs[0], [sep] + tail, sep);
      assert ([sep] + tail)[1..] == tail;
      SplitJoin(xs[1..], sep);
      assert Split([sep] + tail, sep) == [""] + xs[1..];
      assert xs[0] + "" == xs[0];
      assert xs == [xs[0]] + xs[1..];
    }
  }

  /** A trailing separator adds one empty piece. */
  lemma {:induction false} SplitTrailingSeparator(s: string, sep: char)
    ensures Split(s + [sep], sep) == Split(s, sep) + [""]
  {
    if s != [] {
      assert (s + [sep])[1..] == s[1..] + [sep];
      SplitTrailingSeparator(s[1..], sep);
    } else {
      assert Split([sep], sep) == [""] + Split("", sep);
    }
  }

  /** `collect::<String>()` over string pieces: a join without separator. */
  function Concat(parts: seq<string>): string {
    Join(parts, "")
  }

  /** With a non-empty separator, a join is empty only when there is nothing, or one empty part, to join. */
  lemma {:induction false} JoinEmptyIff(parts: seq<string>, sep: string)
    requires sep != []
    ensures Join(parts, sep) == [] <==> parts == [] || (|parts| == 1 && parts[0] == [])
  {
    if |parts| > 1 {
      assert |Join(parts, sep)| >= |sep|;
    }
  }

  /** Every part, and every separator between two parts, is in the join. */
  lemma {:induction false} JoinLength(parts: seq<string>, sep: string)
    ensures parts != [] ==> |Join(parts, sep)| >= |parts[0]|
    ensures |parts| > 1 ==> |Join(parts, sep)| >= |parts[0]| + |sep|
  {
  }

  /** `s.split(' ').next()`: the text before the first space (all of it if none). */
  function FirstField(s: string): (r: string)
    ensures StartsWith(s, r) && ' ' !in r
    ensures |r| == |s| || s[|r|] == ' '
  {
    if s == [] || s[0] == ' ' then [] else [s[0]] + FirstField(s[1..])
  }

  /** Bytes in the UTF-8 encoding of `c`. */
  function Utf8Length(c: char): (r: nat)
    ensures 1 <= r <= 4
  {
    if c < '\U{80}' then 1 else if c < '\U{800}' then 2 else if c < '\U{10000}' then 3 else 4
  }

  /**
   * `&s[off..off + 1]` with byte offsets: the one-byte character that
   * starts `off` bytes into `s`, or None when there is none, in which case
   * the slice panics (too short, or `off` or `off + 1` inside a character).
   */
  function ByteAt(s: string, off: nat): Option<char> {
    if s == [] then None
    else if off == 0 then (if Utf8Length(s[0]) == 1 then Some(s[0]) else None)
    else if Utf8Length(s[0]) <= off then ByteAt(s[1..], off - Utf8Length(s[0]))
    else None
  }

  /** Over ASCII text, byte offsets are character positions. */
  lemma {:induction false} ByteAtAscii(s: string, off: nat)
    requires off < |s| && forall i :: 0 <= i <= off ==> s[i] < '\U{80}'
    ensures ByteAt(s, off) == Some(s[off])
  {
    if off > 0 {
      ByteAtAscii(s[1..], off - 1);
    }
  }

  /** A character of two or more bytes at that offset makes the slice panic. */
  lemma ByteAtWide(s: string, k: nat)
    requires k < |s| && forall i :: 0 <= i < k ==> s[i] < '\U{80}'
    requires s[k] >= '\U{80}'
    ensures ByteAt(s, k) == None
  {
    if k > 0 {
      ByteAtWide(s[1..], k - 1);
    }
  }

  function DigitChar(d: nat): char
    requires d < 10
  {
    ['0', '1', '2', '3', '4', '5', '6', '7', '8', '9'][d]
  }

  /** The number a string of decimal digits denotes. */
  function DecimalValue(s: string): nat
    requires forall i :: 0 <= i < |s| ==> '0' <= s[i] <= '9'
  {
    if s == [] then 0 else DecimalValue(s[..|s| - 1]) * 10 + (s[|s| - 1] - '0') as nat
  }

  /** `format!("{}", n)` for an unsigned count: its decimal digits. */
  function NatToString(n: nat): (r: string)
    ensures r != [] && forall i :: 0 <= i < |r| ==> '0' <= r[i] <= '9'
    ensures DecimalValue(r) == n
    ensures r[0] == '0' ==> n == 0
  {
    if n < 10 then [DigitChar(n)]
    else
      var r := NatToString(n / 10) + [DigitChar(n % 10)];
      assert r[..|r| - 1] == NatToString(n / 10);
      r
  }

  function Spaces(n: nat): (r: string)
    ensures |r| == n && forall i :: 0 <= i < n ==> r[i] == ' '
  {
    seq(n, _ => ' ')
  }

  /** `format!("{:w}", s)`: left-aligned, padded with spaces to `w` characters. */
  function PadRight(s: string, w: nat): (r: string)
    ensures StartsWith(r, s) && |r| == if |s| < w then w else |s|
    ensures forall i :: |s| <= i < |r| ==> r[i] == ' '
  {
    if |s| < w then s + Spaces(w - |s|) else s
  }
}

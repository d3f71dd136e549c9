/**
 * `std::path` as the resolver uses it: a path is the sequence of its
 * components, so two paths are equal, and ordered, component by component
 * (a trailing `/` or a doubled `/` makes no difference). Parse is
 * `Path::components` of a string on Unix, Display is the text of a
 * `PathBuf` collected from components, and Push is `PathBuf::push`.
 */
module Paths {
  import opened Wrappers
  import opened Strings
  import opened Ordering

  /** `std::path::Component` without the Windows-only `Prefix`. */
  datatype Component = RootDir | CurDir | ParentDir | Normal(name: string)

  type Path = seq<Component>

  /** A name `Path::components` can yield as `Normal`. */
  predicate ValidName(n: string) {
    n != "" && n != "." && n != ".." && '/' !in n
  }

  /** A component that can follow another one. */
  predicate IsTail(c: Component) {
    c.ParentDir? || (c.Normal? && ValidName(c.name))
  }

  /** The shape of every `components()` result: a root or `.` may only come first. */
  predicate WellFormed(p: Path) {
    forall i :: 0 <= i < |p| ==> IsTail(p[i]) || (i == 0 && (p[i].RootDir? || p[i].CurDir?))
  }

  // ---------------------------------------------------------------- parsing

  /** Components of one piece between separators: empty pieces and `.` vanish. */
  function Segment(seg: string): Path {
    if seg == "" || seg == "." then []
    else if seg == ".." then [ParentDir]
    else [Normal(seg)]
  }

  predicate SeparatorFree(segs: seq<string>) {
    forall i :: 0 <= i < |segs| ==> '/' !in segs[i]
  }

  function Segments(segs: seq<string>): (r: Path)
    requires SeparatorFree(segs)
    ensures forall i :: 0 <= i < |r| ==> IsTail(r[i])
  {
    if segs == [] then [] else Segment(segs[0]) + Segments(segs[1..])
  }

  predicate IsAbsolute(s: string) {
    |s| > 0 && s[0] == '/'
  }

  /**
   * `Path::new(s).components()`: a leading `/` gives RootDir, a leading `.`
   * piece of a relative path gives CurDir, and every other `.` or empty
   * piece is dropped.
   */
  function Parse(s: string): (r: Path)
    ensures WellFormed(r)
    ensures r != [] && r[0].RootDir? <==> IsAbsolute(s)
  {
    if IsAbsolute(s) then [RootDir] + Segments(Split(s[1..], '/'))
    else
      var segs := Split(s, '/');
      if segs[0] == "." then [CurDir] + Segments(segs[1..]) else Segments(segs)
  }

  // ---------------------------------------------------------------- display

  function ComponentText(c: Component): string {
    match c
    case RootDir => "/"
    case CurDir => "."
    case ParentDir => ".."
    case Normal(n) => n
  }

  function Texts(p: Path): (r: seq<string>)
    ensures |r| == |p| && forall i :: 0 <= i < |p| ==> r[i] == ComponentText(p[i])
  {
    if p == [] then [] else [ComponentText(p[0])] + Texts(p[1..])
  }

  /** `path.display().to_string()` of a path built from its components. */
  function Display(p: Path): string {
    if p != [] && p[0].RootDir? then "/" + Join(Texts(p[1..]), "/")
    else Join(Texts(p), "/")
  }

  lemma {:induction false} SegmentsTexts(p: Path)
    requires forall i :: 0 <= i < |p| ==> IsTail(p[i])
    ensures SeparatorFree(Texts(p)) && Segments(Texts(p)) == p
  {
    if p != [] {
      SegmentsTexts(p[1..]);
      assert p == [p[0]] + p[1..];
    }
  }

  /** The display of a rooted path parses back to it. */
  lemma ParseDisplayRooted(t: Path)
    requires forall i :: 0 <= i < |t| ==> IsTail(t[i])
    ensures Parse(Display([RootDir] + t)) == [RootDir] + t
  {
    var p := [RootDir] + t;
    assert p[1..] == t;
    var j := Join(Texts(t), "/");
    assert Display(p) == "/" + j;
    assert ("/" + j)[1..] == j;
    SegmentsTexts(t);
    if t != [] {
      SplitJoin(Texts(t), '/');
    } else {
      assert Split(j, '/') == [""];
      assert Segments([""]) == Segment("") + Segments([]);
    }
  }

  /** The display of a relative path parses back to it. */
  lemma ParseDisplayRelative(p: Path)
    requires WellFormed(p) && p != [] && !p[0].RootDir?
    ensures Parse(Display(p)) == p
  {
    var xs := Texts(p);
    SplitJoin(xs, '/');
    JoinLength(xs, "/");
    if p[0].CurDir? {
      var t := p[1..];
      forall i | 0 <= i < |t| ensures IsTail(t[i]) {
        assert t[i] == p[i + 1];
      }
      assert xs[1..] == Texts(t);
      SegmentsTexts(t);
      assert p == [CurDir] + t;
    } else {
      assert Display(p)[0] == xs[0][0];
      SegmentsTexts(p);
    }
  }

  /** Displaying a well-formed path and parsing the text gives the path back. */
  lemma ParseDisplay(p: Path)
    requires WellFormed(p)
    ensures Parse(Display(p)) == p
  {
    if p == [] {
    } else if p[0].RootDir? {
      var t := p[1..];
      forall i | 0 <= i < |t| ensures IsTail(t[i]) {
        assert t[i] == p[i + 1];
      }
      ParseDisplayRooted(t);
      assert p == [RootDir] + t;
    } else {
      ParseDisplayRelative(p);
    }
  }

  lemma {:induction false} SegmentsTrailingEmpty(segs: seq<string>)
    requires SeparatorFree(segs)
    ensures SeparatorFree(segs + [""]) && Segments(segs + [""]) == Segments(segs)
  {
    if segs == [] {
      assert Segments([""]) == Segment("") + Segments([]);
    } else {
      assert (segs + [""])[1..] == segs[1..] + [""];
      SegmentsTrailingEmpty(segs[1..]);
    }
  }

  /** A trailing separator adds no component (`Path` compares components). */
  lemma ParseTrailingSeparator(s: string)
    requires s != []
    ensures Parse(s + "/") == Parse(s)
  {
    var t := s + "/";
    if IsAbsolute(s) {
      assert t[1..] == s[1..] + "/";
      SplitTrailingSeparator(s[1..], '/');
      SegmentsTrailingEmpty(Split(s[1..], '/'));
    } else {
      SplitTrailingSeparator(s, '/');
      var segs := Split(s, '/');
      if segs[0] == "." {
        assert (segs + [""])[1..] == segs[1..] + [""];
        SegmentsTrailingEmpty(segs[1..]);
      } else {
        SegmentsTrailingEmpty(segs);
      }
    }
  }

  // ---------------------------------------------------------------- push

  /** `PathBuf::push` of one component: a root replaces the whole path, `.` adds nothing. */
  function Push(p: Path, c: Component): Path {
    match c
    case RootDir => [RootDir]
    case CurDir => if p == [] then [CurDir] else p
    case _ => p + [c]
  }

  /** `for c in cs { p.push(c) }` */
  function PushAll(p: Path, cs: seq<Component>): Path
    decreases |cs|
  {
    if cs == [] then p else PushAll(Push(p, cs[0]), cs[1..])
  }

  function DropCurDir(p: Path): Path {
    if p != [] && p[0].CurDir? then p[1..] else p
  }

  /**
   * `PathBuf::push` of a string: an absolute string, or any string pushed
   * onto the empty path, becomes the whole path; otherwise its components
   * are appended after a separator, where a leading `.` no longer counts.
   */
  function PushStr(p: Path, s: string): Path {
    if IsAbsolute(s) || p == [] then Parse(s) else p + DropCurDir(Parse(s))
  }

  lemma {:induction false} PushAllTails(p: Path, cs: seq<Component>)
    requires forall i :: 0 <= i < |cs| ==> IsTail(cs[i])
    ensures PushAll(p, cs) == p + cs
    decreases cs
  {
    if cs != [] {
      PushAllTails(p + [cs[0]], cs[1..]);
      assert p + [cs[0]] + cs[1..] == p + cs;
    }
  }

  /** Pushing a string is pushing its components one by one. */
  lemma PushStrIsPushAll(p: Path, s: string)
    ensures PushAll(p, Parse(s)) == PushStr(p, s)
  {
    var cs := Parse(s);
    if cs != [] {
      var t := cs[1..];
      assert forall i :: 0 <= i < |t| ==> IsTail(t[i]) by {
        forall i | 0 <= i < |t| ensures IsTail(t[i]) {
          assert t[i] == cs[i + 1];
        }
      }
      if cs[0].RootDir? || cs[0].CurDir? {
        PushAllTails(Push(p, cs[0]), t);
        assert cs == [cs[0]] + t;
      } else {
        PushAllTails(p, cs);
      }
    }
  }

  // ---------------------------------------------------------------- prefixes and names

  /** `Path::starts_with`: component-wise prefix. */
  predicate IsPrefix(prefix: Path, p: Path) {
    |prefix| <= |p| && p[..|prefix|] == prefix
  }

  /** `Path::parent`: absent for the empty path and for a path ending in its root. */
  function Parent(p: Path): (r: Option<Path>)
    ensures r.Some? <==> p != [] && !p[|p| - 1].RootDir?
    ensures r.Some? ==> r.value + [p[|p| - 1]] == p
  {
    if p != [] && !p[|p| - 1].RootDir? then Some(p[..|p| - 1]) else None
  }

  /** `Path::file_name`: the last component when it is a plain name. */
  function FileName(p: Path): Option<string> {
    if p != [] && p[|p| - 1].Normal? then Some(p[|p| - 1].name) else None
  }

  function LastIndexOf(s: string, c: char): (r: Option<nat>)
    ensures r.Some? ==> r.value < |s| && s[r.value] == c && c !in s[r.value + 1..]
    ensures r.None? ==> c !in s
  {
    if s == [] then None
    else if s[|s| - 1] == c then Some(|s| - 1)
    else
      var r := LastIndexOf(s[..|s| - 1], c);
      assert r.Some? ==> s[r.value + 1..] == s[..|s| - 1][r.value + 1..] + [s[|s| - 1]];
      assert r.None? ==> s == s[..|s| - 1] + [s[|s| - 1]];
      r
  }

  /**
   * The stem of a file name: everything before the last `.`, unless that
   * `.` is the first character or there is none, and `..` is its own stem.
   */
  function Stem(name: string): (r: string)
    ensures StartsWith(name, r)
  {
    if name == ".." then name
    else
      match LastIndexOf(name, '.')
      case None => name
      case Some(k) => if k == 0 then name else name[..k]
  }

  /** `Path::file_stem` */
  function FileStem(p: Path): Option<string> {
    match FileName(p)
    case None => None
    case Some(n) => Some(Stem(n))
  }

  // ---------------------------------------------------------------- order

  predicate CharLess(a: char, b: char) {
    a < b
  }

  /** `Ord for str`: lexicographic by character, which is UTF-8 byte order. */
  predicate StrLess(a: string, b: string) {
    LexLess(a, b, CharLess)
  }

  /** The declaration order of `Component`'s variants, which its derived `Ord` follows. */
  function Rank(c: Component): nat {
    match c
    case RootDir => 0
    case CurDir => 1
    case ParentDir => 2
    case Normal(_) => 3
  }

  predicate ComponentLess(a: Component, b: Component) {
    Rank(a) < Rank(b) || (a.Normal? && b.Normal? && StrLess(a.name, b.name))
  }

  /** `Ord for Path`: lexicographic by component. */
  predicate PathLess(a: Path, b: Path) {
    LexLess(a, b, ComponentLess)
  }

  lemma StrLessIsStrictTotalOrder()
    ensures StrictTotalOrder(StrLess)
  {
    assert StrictTotalOrder(CharLess);
    forall a: string ensures !StrLess(a, a) {
      LexIrreflexive(a, CharLess);
    }
    forall a: string, b: string, c: string | StrLess(a, b) && StrLess(b, c) ensures StrLess(a, c) {
      LexTransitive(a, b, c, CharLess);
    }
    forall a: string, b: string | a != b ensures StrLess(a, b) || StrLess(b, a) {
      LexTrichotomous(a, b, CharLess);
    }
  }

  lemma ComponentLessIsStrictTotalOrder()
    ensures StrictTotalOrder(ComponentLess)
  {
    StrLessIsStrictTotalOrder();
  }

  /** Path order is a strict total order, so sorting and deduplicating paths are well defined. */
  lemma PathLessIsStrictTotalOrder()
    ensures StrictTotalOrder(PathLess)
  {
    ComponentLessIsStrictTotalOrder();
    forall a: Path ensures !PathLess(a, a) {
      LexIrreflexive(a, ComponentLess);
    }
    forall a: Path, b: Path, c: Path | PathLess(a, b) && PathLess(b, c) ensures PathLess(a, c) {
      LexTransitive(a, b, c, ComponentLess);
    }
    forall a: Path, b: Path | a != b ensures PathLess(a, b) || PathLess(b, a) {
      LexTrichotomous(a, b, ComponentLess);
    }
  }
}

/**
 * The per-repository summarisers of the `git` back end: each runs `git`
 * (and, for branchstat, `jj`) in the repository and turns the lines it
 * prints into a one-line or few-line report, or into nothing when there is
 * nothing to say. Reports are plain text, or the JSON item of `format_json`.
 */
module VcsGit {
  import opened Wrappers
  import opened Strings
  import opened Ordering
  import opened Paths
  import opened AnsiEscape
  import opened Host
  import opened Util

  /**
   * How reports are rendered: as JSON items or text, with or without
   * colour, and with which ancestor of every repository taken off the front
   * of its path.
   */
  datatype FormatOpts = FormatOpts(useJson: bool, noColour: bool, commonPrefix: Option<Path>)

  /** A report: a line (or lines) of text, or the item `format_json` serialises. */
  datatype Report = Text(text: string) | Json(item: JsonItem)

  /** The common prefix, when there is one, is a component prefix of `p` (else `strip_prefix(..).unwrap()` panics). */
  predicate Fits(p: Path, fmt: FormatOpts) {
    fmt.commonPrefix.Some? ==> IsPrefix(fmt.commonPrefix.value, p)
  }

  /** The displayed name of repository `p`: its path below the common prefix. */
  function Title(p: Path, fmt: FormatOpts): (r: string)
    requires Fits(p, fmt)
    ensures WellFormed(p) ==> (if fmt.commonPrefix.Some? then fmt.commonPrefix.value else []) + Parse(r) == p
  {
    RemoveCommonAncestor(p, fmt.commonPrefix)
  }

  /** The report that names the repository and says nothing else. */
  function Label(p: Path, fmt: FormatOpts): (r: Report)
    requires Fits(p, fmt)
    ensures r.Json? <==> fmt.useJson
    ensures r.Json? ==> r.item.subtitle.None? && (WellFormed(p) ==> Parse(r.item.arg) == p)
    ensures r.Json? ==> r.item.title == Title(p, fmt)
    ensures r.Text? ==> r.text == Title(p, fmt)
  {
    if fmt.useJson then Json(FormatJson(p, None, true, fmt.commonPrefix)) else Text(Title(p, fmt))
  }

  /**
   * `format!("{:w}{sep}{}", left, right)`: `left` padded with spaces to `w`
   * characters, the separator, then `right`.
   */
  function Columns(left: string, w: nat, sep: string, right: string): (r: string)
    ensures StartsWith(r, left) && EndsWith(r, sep + right)
    ensures |r| == (if |left| < w then w else |left|) + |sep| + |right|
    ensures forall i :: |left| <= i < |r| - |sep| - |right| ==> r[i] == ' '
  {
    var padded := PadRight(left, w);
    var r := padded + (sep + right);
    assert r[..|padded|] == padded && r[..|left|] == padded[..|left|];
    assert r[|padded|..] == sep + right;
    r
  }

  // ---------------------------------------------------------------- push, untracked

  const PUSH_ARGS: seq<string> := ["push", "--all", "--tags"]

  /** `push`: `git push --all --tags`; only a failure to start it is an error, and it never reports. */
  function Push(p: Path, fmt: FormatOpts, run: Runner): (r: Result<Option<Report>>)
    ensures r.Err? <==> run("git", p, PUSH_ARGS).SpawnFailed?
    ensures r.Ok? ==> r.value.None?
  {
    var st := Status(run("git", p, PUSH_ARGS));
    if st.Err? then Err(st.error) else Ok(None)
  }

  /** `untracked`: every repository is reported, by name alone. */
  function Untracked(p: Path, fmt: FormatOpts): (r: Result<Option<Report>>)
    requires Fits(p, fmt)
    ensures r.Ok? && r.value.Some? && r.value.value == Label(p, fmt)
  {
    Ok(Some(Label(p, fmt)))
  }

  // ---------------------------------------------------------------- stat

  const STAT_ARGS: seq<string> := ["status", "-s", "-b"]

  /**
   * The lines of `git status -s -b` worth reporting: all of them when the
   * branch line ends with `]` (ahead, behind or gone), otherwise the file
   * lines after it.
   */
  function KeptLines(lines: seq<string>): seq<string> {
    if lines == [] || EndsWith(lines[0], "]") then lines else lines[1..]
  }

  /** The branch line is kept exactly when it ends in `]`; the file lines always are. */
  lemma KeptLinesShape(lines: seq<string>)
    requires lines != []
    ensures EndsWith(lines[0], "]") ==> KeptLines(lines) == lines
    ensures !EndsWith(lines[0], "]") ==> KeptLines(lines) == lines[1..]
    ensures KeptLines(lines) == [] <==> |lines| == 1 && !EndsWith(lines[0], "]")
  {
  }

  /** What `stat` needs: the common prefix fits whenever there is something to report. */
  predicate StatDefined(p: Path, fmt: FormatOpts, run: Runner) {
    var out := run("git", p, STAT_ARGS);
    out.Lines? && KeptLines(out.lines) != [] ==> Fits(p, fmt)
  }

  /**
   * `stat`: nothing when no line is kept; otherwise the title, then the
   * kept lines, each on a line of its own, or a JSON item whose subtitle
   * is the kept lines joined with `, `.
   */
  function Stat(p: Path, fmt: FormatOpts, run: Runner): (r: Result<Option<Report>>)
    requires StatDefined(p, fmt, run)
    ensures r.Err? <==> !run("git", p, STAT_ARGS).Lines?
    ensures r == Ok(None) <==> run("git", p, STAT_ARGS).Lines? && KeptLines(run("git", p, STAT_ARGS).lines) == []
    ensures r.Ok? && r.value.Some? ==> (r.value.value.Json? <==> fmt.useJson)
  {
    var out := OutputLines(run("git", p, STAT_ARGS));
    if out.Err? then Err(out.error)
    else
      var status := KeptLines(out.value);
      if status == [] then Ok(None)
      else if fmt.useJson then Ok(Some(Json(FormatJson(p, Some(Join(status, ", ")), true, fmt.commonPrefix))))
      else Ok(Some(Text(Title(p, fmt) + "\n" + Join(status, "\n") + "\n")))
  }

  /**
   * The text report of `stat` splits back, at its newlines, into the title,
   * the kept lines and an empty last piece (lines of output never hold a
   * newline; the title must not either).
   */
  lemma StatTextLines(p: Path, fmt: FormatOpts, run: Runner)
    requires StatDefined(p, fmt, run) && !fmt.useJson
    requires Stat(p, fmt, run).Ok? && Stat(p, fmt, run).value.Some?
    requires forall i :: 0 <= i < |run("git", p, STAT_ARGS).lines| ==> '\n' !in run("git", p, STAT_ARGS).lines[i]
    requires '\n' !in Title(p, fmt)
    ensures Split(Stat(p, fmt, run).value.value.text, '\n') == [Title(p, fmt)] + KeptLines(run("git", p, STAT_ARGS).lines) + [""]
  {
    var lines := run("git", p, STAT_ARGS).lines;
    var kept := KeptLines(lines);
    var t := Title(p, fmt);
    var j := Join(kept, "\n");
    var x := "\n" + (j + "\n");
    assert Stat(p, fmt, run).value.value.text == t + x;
    forall i | 0 <= i < |kept| ensures '\n' !in kept[i] {
      if kept != lines {
        assert kept[i] == lines[i + 1];
      }
    }
    assert ['\n'] == "\n";
    SplitJoin(kept, '\n');
    SplitTrailingSeparator(j, '\n');
    assert Split(x, '\n') == [""] + (kept + [""]) by {
      assert x[1..] == j + "\n";
    }
    SplitPrefix(t, x, '\n');
    assert t + "" == t;
  }

  /** The JSON report of `stat` carries the kept lines as its subtitle, the full path as its argument and the title. */
  lemma StatJson(p: Path, fmt: FormatOpts, run: Runner)
    requires StatDefined(p, fmt, run) && fmt.useJson && WellFormed(p)
    requires Stat(p, fmt, run).Ok? && Stat(p, fmt, run).value.Some?
    ensures Stat(p, fmt, run).value.value.item.subtitle == Some(Join(KeptLines(run("git", p, STAT_ARGS).lines), ", "))
    ensures Parse(Stat(p, fmt, run).value.value.item.arg) == p
    ensures Stat(p, fmt, run).value.value.item.title == Title(p, fmt)
  {
  }

  // ---------------------------------------------------------------- needs_attention

  /** `String::is_empty` of a rendered report; a serialised JSON object is never empty. */
  predicate IsEmpty(r: Report) {
    r.Text? && r.text == ""
  }

  /**
   * `needs_attention`: a repository whose `stat` has something to say is
   * reported by name; errors pass through.
   */
  function NeedsAttention(p: Path, fmt: FormatOpts, run: Runner): (r: Result<Option<Report>>)
    requires StatDefined(p, fmt, run)
    ensures r.Err? <==> Stat(p, fmt, run).Err?
    ensures r.Err? ==> r.error == Stat(p, fmt, run).error
    ensures r.Ok? && r.value.Some? <==> Stat(p, fmt, run).Ok? && Stat(p, fmt, run).value.Some?
    ensures r.Ok? && r.value.Some? ==> r.value.value == Label(p, fmt)
  {
    match Stat(p, fmt, run)
    case Ok(Some(output)) =>
      if IsEmpty(output) then Ok(None)
      else Ok(Some(Label(p, fmt)))
    case Ok(None) => Ok(None)
    case Err(e) => Err(e)
  }

  // ---------------------------------------------------------------- branches

  const BRANCH_ARGS: seq<string> := ["branch"]

  predicate StrGreater(a: string, b: string) {
    StrLess(b, a)
  }

  /** `sort` then `reverse`: the lines in descending order. */
  function Descending(lines: seq<string>): seq<string> {
    StrLessIsStrictTotalOrder();
    Reverse(Sort(lines, StrLess))
  }

  /**
   * The descending order holds the same lines, no line is smaller than
   * one after it, and it is the only arrangement of the lines that does so.
   */
  lemma DescendingOrder(lines: seq<string>, q: seq<string>)
    ensures multiset(Descending(lines)) == multiset(lines)
    ensures forall i, j :: 0 <= i < j < |Descending(lines)| ==> !StrLess(Descending(lines)[i], Descending(lines)[j])
    ensures multiset(q) == multiset(lines) && (forall i, j :: 0 <= i < j < |q| ==> !StrLess(q[i], q[j]))
      ==> q == Descending(lines)
  {
    StrLessIsStrictTotalOrder();
    var s := Sort(lines, StrLess);
    ReverseSorted(s, StrLess);
    var d := Descending(lines);
    assert StrictTotalOrder(StrGreater);
    if multiset(q) == multiset(lines) && (forall i, j :: 0 <= i < j < |q| ==> !StrLess(q[i], q[j])) {
      assert Sorted(q, StrGreater);
      assert Sorted(d, StrGreater);
      SortedUnique(q, d, StrGreater);
    }
  }

  /** What `branches` needs: the common prefix fits whenever `git branch` printed its lines. */
  predicate BranchesDefined(p: Path, fmt: FormatOpts, run: Runner) {
    run("git", p, BRANCH_ARGS).Lines? ==> Fits(p, fmt)
  }

  /**
   * `branches`: the lines of `git branch` in descending order, each
   * trimmed, joined with `, `; after the title padded to 30 characters and
   * a tab, or as the subtitle of a JSON item with an empty argument.
   */
  function Branches(p: Path, fmt: FormatOpts, run: Runner): (r: Result<Option<Report>>)
    requires BranchesDefined(p, fmt, run)
    ensures r.Err? <==> !run("git", p, BRANCH_ARGS).Lines?
    ensures r.Ok? ==> r.value.Some?
    ensures r.Ok? && fmt.useJson ==> (r.value.value.Json? && r.value.value.item.arg == ""
      && r.value.value.item.subtitle == Some(Join(TrimAll(Descending(run("git", p, BRANCH_ARGS).lines)), ", ")))
    ensures r.Ok? && !fmt.useJson ==> (r.value.value.Text?
      && r.value.value.text == Columns(Title(p, fmt), 30, "\t", Join(TrimAll(Descending(run("git", p, BRANCH_ARGS).lines)), ", ")))
  {
    var out := OutputLines(run("git", p, BRANCH_ARGS));
    if out.Err? then Err(out.error)
    else
      var branches := Join(TrimAll(Descending(out.value)), ", ");
      if fmt.useJson then Ok(Some(Json(FormatJson(p, Some(branches), false, fmt.commonPrefix))))
      else Ok(Some(Text(Columns(Title(p, fmt), 30, "\t", branches))))
  }

  // ---------------------------------------------------------------- branchstat

  const PORCELAIN_ARGS: seq<string> := ["status", "--porcelain", "--ahead-behind", "-b"]
  const JJ_ARGS: seq<string> := ["list_mut"]

  /**
   * The slice between the first `[` and the first `]` exists: when the line
   * has a `[`, a `]` comes after it.
   */
  predicate BracketsClose(line: string) {
    Contains(line, "[") ==> Find(line, "]").Some? && Find(line, "[").value < Find(line, "]").value
  }

  /** The text between the brackets, with `ahead ` written `↑` and `behind ` written `↓`. */
  function AheadBehind(line: string): string
    requires Contains(line, "[") && BracketsClose(line)
  {
    var start := Find(line, "[").value;
    var end := Find(line, "]").value;
    Replace(Replace(line[start + 1..end], "ahead ", "↑"), "behind ", "↓")
  }

  /** Only the text inside the first pair of brackets matters. */
  lemma AheadBehindInside(pre: string, inner: string, post: string)
    requires '[' !in pre && ']' !in pre && ']' !in inner
    ensures Contains(pre + "[" + inner + "]" + post, "[")
    ensures BracketsClose(pre + "[" + inner + "]" + post)
    ensures AheadBehind(pre + "[" + inner + "]" + post) == Replace(Replace(inner, "ahead ", "↑"), "behind ", "↓")
  {
    var line := pre + "[" + inner + "]" + post;
    BracketPositions(pre, inner, post);
    MiddleSlice(pre + "[", inner, "]" + post);
    assert line == (pre + "[") + inner + ("]" + post);
  }

  lemma MiddleSlice(a: string, b: string, c: string)
    ensures (a + b + c)[|a|..|a| + |b|] == b
  {
    var s := a + b + c;
    forall i | 0 <= i < |b| ensures s[|a|..|a| + |b|][i] == b[i] {
      assert s[|a| + i] == b[i];
    }
  }

  lemma BracketPositions(pre: string, inner: string, post: string)
    requires '[' !in pre && ']' !in pre && ']' !in inner
    ensures Find(pre + "[" + inner + "]" + post, "[") == Some(|pre|)
    ensures Find(pre + "[" + inner + "]" + post, "]") == Some(|pre| + 1 + |inner|)
  {
    var line := pre + "[" + inner + "]" + post;
    assert line == pre + ['['] + (inner + "]" + post);
    FindFirst(pre, '[', inner + "]" + post);
    var x := pre + "[" + inner;
    assert ']' !in "[";
    assert line == x + [']'] + post;
    FindFirst(x, ']', post);
  }

  predicate IsDigits(s: string) {
    forall i :: 0 <= i < |s| ==> '0' <= s[i] <= '9'
  }

  /** `ahead N, behind M` becomes `↑N, ↓M`. */
  lemma ArrowsAheadBehind(n: string, m: string)
    requires IsDigits(n) && IsDigits(m)
    ensures Replace(Replace("ahead " + n + ", behind " + m, "ahead ", "↑"), "behind ", "↓") == "↑" + n + ", ↓" + m
  {
    assert 'a' !in n && 'a' !in m && 'b' !in n && 'b' !in m;
    ReplaceLeading("ahead ", "↑", n, ", behind ", m);
    assert ", " + "behind " == ", behind " && ", " + "↓" == ", ↓";
    ReplaceInside("↑", n, ", ", "behind ", "↓", m);
  }

  /** `ahead N` alone becomes `↑N`, and `behind M` alone `↓M`. */
  lemma {:induction false} ArrowsOneSided(n: string)
    requires IsDigits(n)
    ensures Replace(Replace("ahead " + n, "ahead ", "↑"), "behind ", "↓") == "↑" + n
    ensures Replace(Replace("behind " + n, "ahead ", "↑"), "behind ", "↓") == "↓" + n
  {
    assert 'a' !in n && 'b' !in n;
    ReplaceFront("ahead ", n, "↑");
    ReplaceAbsent(n, "ahead ", "↑");
    ReplaceSkip("↑", n, "behind ", "↓");
    ReplaceAbsent(n, "behind ", "↓");
    assert 'a' !in "behind " + n;
    ReplaceAbsent("behind " + n, "ahead ", "↑");
    ReplaceFront("behind ", n, "↓");
  }

  /**
   * A file line whose status code can be read: when it starts (after
   * leading white space) with ESC, byte 5 of it is a whole character.
   */
  predicate CodeReadable(line: string) {
    StartsWith(TrimStart(line), [ESC]) ==> ByteAt(TrimStart(line), 5).Some?
  }

  /** The text whose start is the status code: the line without leading white space, or the one character at byte 5 when it is colour-coded. */
  function Code(line: string): string
    requires CodeReadable(line)
  {
    var trimmed := TrimStart(line);
    if StartsWith(trimmed, [ESC]) then [ByteAt(trimmed, 5).value] else trimmed
  }

  predicate IsModified(line: string) {
    CodeReadable(line) && StartsWith(Code(line), "M")
  }

  predicate IsUntracked(line: string) {
    CodeReadable(line) && StartsWith(Code(line), "?")
  }

  /** For a colour-coded line the code is the character after `ESC [ N N m`. */
  lemma CodeAfterColour(line: string)
    requires StartsWith(TrimStart(line), [ESC]) && |TrimStart(line)| > 5
    requires forall i :: 0 <= i <= 5 ==> TrimStart(line)[i] < '\U{80}'
    ensures CodeReadable(line) && Code(line) == [TrimStart(line)[5]]
  {
    ByteAtAscii(TrimStart(line), 5);
  }

  /** No line counts as both modified and untracked. */
  lemma ModifiedOrUntracked(lines: seq<string>)
    ensures |Filter(lines, IsModified)| + |Filter(lines, IsUntracked)| <= |lines|
  {
    FilterDisjoint(lines, IsModified, IsUntracked);
  }

  /** `branchstat` does not panic on these lines of `git status --porcelain -b`. */
  predicate Readable(lines: seq<string>) {
    && (lines != [] ==> BracketsClose(lines[0]))
    && forall i :: 1 <= i < |lines| ==> CodeReadable(lines[i])
  }

  /** What `branchstat` finds out about a repository. */
  datatype Summary = Summary(aheadBehind: Option<string>, modified: nat, untracked: nat, mutable: nat)

  /** The file lines: every line after the branch line. */
  function FileLines(lines: seq<string>): seq<string> {
    if lines == [] then [] else lines[1..]
  }

  /** The branch line's bracketed text, the counts of modified and untracked files, and the count of mutable `jj` changes. */
  function Summarise(lines: seq<string>, jjCount: nat): Summary
    requires Readable(lines)
  {
    var ab := if lines != [] && Contains(lines[0], "[") then Some(AheadBehind(lines[0])) else None;
    Summary(ab, |Filter(FileLines(lines), IsModified)|, |Filter(FileLines(lines), IsUntracked)|, jjCount)
  }

  predicate HasNews(sum: Summary) {
    sum.aheadBehind.Some? || sum.modified > 0 || sum.untracked > 0 || sum.mutable != 0
  }

  /** `s`, in colour `code` unless colour is off. */
  function Paint(s: string, code: string, noColour: bool): string {
    if noColour then s else Colour(s, [code])
  }

  function AheadBehindColours(noColour: bool): seq<string> {
    if noColour then [] else [BLUE]
  }

  /** The part for a count: the number followed by `mark`, painted unless colour is off; none for zero. */
  function Counted(n: nat, mark: string, code: string, noColour: bool): seq<string> {
    if n > 0 then [Paint(NatToString(n) + mark, code, noColour)] else []
  }

  /** The parts of the summary in their fixed order, each present only when it has something to say. */
  function Parts(sum: Summary, noColour: bool): seq<string> {
    (if sum.aheadBehind.Some? then [Colour(sum.aheadBehind.value, AheadBehindColours(noColour))] else [])
    + Counted(sum.modified, "±", GREEN, noColour)
    + Counted(sum.untracked, "?", YELLOW, noColour)
    + Counted(sum.mutable, "▲", YELLOW, noColour)
  }

  /** The summary text is empty exactly when there is nothing to say. */
  lemma PartsEmpty(sum: Summary, noColour: bool)
    ensures Join(Parts(sum, noColour), ", ") == [] <==> !HasNews(sum)
  {
    var parts := Parts(sum, noColour);
    JoinEmptyIff(parts, ", ");
    if HasNews(sum) {
      assert parts != [] && parts[0] != [];
    }
  }

  /** One part per thing to say. */
  lemma PartsCount(sum: Summary, noColour: bool)
    ensures |Parts(sum, noColour)| ==
      (if sum.aheadBehind.Some? then 1 else 0) + (if sum.modified > 0 then 1 else 0)
      + (if sum.untracked > 0 then 1 else 0) + (if sum.mutable != 0 then 1 else 0)
  {
  }

  /**
   * Without colour the counts are plain text, but the ahead/behind part
   * still passes through `colour` with no codes and so ends in a reset.
   */
  lemma NoColourParts(sum: Summary)
    ensures sum.aheadBehind.Some? ==> Parts(sum, true)[0] == sum.aheadBehind.value + ANSI_RESET
    ensures forall k :: (if sum.aheadBehind.Some? then 1 else 0) <= k < |Parts(sum, true)| ==> ESC !in Parts(sum, true)[k]
  {
    var head := if sum.aheadBehind.Some? then [Colour(sum.aheadBehind.value, AheadBehindColours(true))] else [];
    var c1 := Counted(sum.modified, "±", GREEN, true);
    var c2 := Counted(sum.untracked, "?", YELLOW, true);
    var c3 := Counted(sum.mutable, "▲", YELLOW, true);
    PlainCounted(sum.modified, "±", GREEN);
    PlainCounted(sum.untracked, "?", YELLOW);
    PlainCounted(sum.mutable, "▲", YELLOW);
    PlainConcat(c1, c2);
    PlainConcat(c1 + c2, c3);
    var parts := Parts(sum, true);
    assert parts == head + (c1 + c2 + c3);
    forall k | |head| <= k < |parts| ensures ESC !in parts[k] {
      assert parts[k] == (c1 + c2 + c3)[k - |head|];
    }
  }

  /** No part in `ps` holds an escape character. */
  predicate Plain(ps: seq<string>) {
    forall k :: 0 <= k < |ps| ==> ESC !in ps[k]
  }

  lemma PlainCounted(n: nat, mark: string, code: string)
    requires ESC !in mark
    ensures Plain(Counted(n, mark, code, true))
  {
    if n > 0 {
      var s := NatToString(n) + mark;
      assert ESC !in NatToString(n);
      assert Counted(n, mark, code, true) == [s];
    }
  }

  lemma PlainConcat(a: seq<string>, b: seq<string>)
    requires Plain(a) && Plain(b)
    ensures Plain(a + b)
  {
    forall k | 0 <= k < |a + b| ensures ESC !in (a + b)[k] {
      if k >= |a| {
        assert (a + b)[k] == b[k - |a|];
      }
    }
  }

  /** With colour, every part opens with its colour code. */
  lemma ColouredParts(sum: Summary)
    ensures var parts := Parts(sum, false);
      (sum.aheadBehind.Some? ==> StartsWith(parts[0], BLUE))
      && forall k :: 0 <= k < |parts| ==> StartsWith(parts[k], [ESC])
  {
  }

  /** What `branchstat` needs: its slices succeed, and the common prefix fits whenever there is something to report. */
  predicate BranchstatDefined(p: Path, fmt: FormatOpts, run: Runner) {
    var git := run("git", p, PORCELAIN_ARGS);
    var jj := run("jj", p, JJ_ARGS);
    git.Lines? && jj.Lines? ==> Readable(git.lines) && (HasNews(Summarise(git.lines, |jj.lines|)) ==> Fits(p, fmt))
  }

  /** The rendered report of a non-empty summary. */
  function BranchstatReport(p: Path, fmt: FormatOpts, joined: string): Report
    requires Fits(p, fmt)
  {
    if fmt.useJson then Json(FormatJson(p, Some(joined), true, fmt.commonPrefix))
    else
      var s := Title(p, fmt);
      Text(Columns(if fmt.noColour then s else Colour(s, [BOLD, RED]), 40, " | ", joined))
  }

  /** The result of `branchstat`. */
  function BranchstatSpec(p: Path, fmt: FormatOpts, run: Runner): Result<Option<Report>>
    requires BranchstatDefined(p, fmt, run)
  {
    var git := OutputLines(run("git", p, PORCELAIN_ARGS));
    if git.Err? then Err(git.error)
    else
      var jj := OutputLines(run("jj", p, JJ_ARGS));
      if jj.Err? then Err(jj.error)
      else
        var joined := Join(Parts(Summarise(git.value, |jj.value|), fmt.noColour), ", ");
        PartsEmpty(Summarise(git.value, |jj.value|), fmt.noColour);
        if joined == [] then Ok(None) else Ok(Some(BranchstatReport(p, fmt, joined)))
  }

  /**
   * `branchstat` errs when either command does (the `git` one first),
   * and reports nothing exactly when the branch line has no brackets and
   * no file is modified or untracked and `jj` lists no mutable change.
   */
  lemma BranchstatOutcome(p: Path, fmt: FormatOpts, run: Runner)
    requires BranchstatDefined(p, fmt, run)
    ensures var git := run("git", p, PORCELAIN_ARGS);
      var jj := run("jj", p, JJ_ARGS);
      && (!git.Lines? ==> BranchstatSpec(p, fmt, run) == Err(git.error))
      && (git.Lines? && !jj.Lines? ==> BranchstatSpec(p, fmt, run) == Err(jj.error))
      && (git.Lines? && jj.Lines? ==>
            (BranchstatSpec(p, fmt, run) == Ok(None) <==>
              && (git.lines == [] || !Contains(git.lines[0], "["))
              && |Filter(FileLines(git.lines), IsModified)| == 0
              && |Filter(FileLines(git.lines), IsUntracked)| == 0
              && jj.lines == []))
  {
  }

  /**
   * The counting loop of `branchstat`: how many file lines have a status
   * code starting with `M`, and how many with `?`.
   */
  method CountCodes(files: seq<string>) returns (nModified: nat, nUntracked: nat)
    requires forall i :: 0 <= i < |files| ==> CodeReadable(files[i])
    ensures nModified == |Filter(files, IsModified)|
    ensures nUntracked == |Filter(files, IsUntracked)|
  {
    nModified := 0;
    nUntracked := 0;
    for i := 0 to |files|
      invariant nModified == |Filter(files[..i], IsModified)|
      invariant nUntracked == |Filter(files[..i], IsUntracked)|
    {
      nModified, nUntracked := CountLine(files, i, nModified, nUntracked);
    }
    assert files[..|files|] == files;
  }

  /** Counts line `i` into the tallies of the lines before it. */
  method CountLine(files: seq<string>, i: nat, nModified: nat, nUntracked: nat) returns (m: nat, u: nat)
    requires i < |files| && CodeReadable(files[i])
    requires nModified == |Filter(files[..i], IsModified)| && nUntracked == |Filter(files[..i], IsUntracked)|
    ensures m == |Filter(files[..i + 1], IsModified)| && u == |Filter(files[..i + 1], IsUntracked)|
  {
    var code := ReadCode(files[i]);
    CountStep(files, i);
    m, u := nModified, nUntracked;
    if StartsWith(code, "M") {
      m := m + 1;
    }
    if StartsWith(code, "?") {
      u := u + 1;
    }
  }

  /** Trims the line, and for a colour-coded one takes the character at byte 5. */
  method ReadCode(line: string) returns (code: string)
    requires CodeReadable(line)
    ensures code == Code(line)
  {
    code := TrimStart(line);
    if StartsWith(code, [ESC]) {
      code := [ByteAt(code, 5).value];
    }
  }

  lemma CountStep(files: seq<string>, i: nat)
    requires i < |files|
    ensures |Filter(files[..i + 1], IsModified)| == |Filter(files[..i], IsModified)| + (if IsModified(files[i]) then 1 else 0)
    ensures |Filter(files[..i + 1], IsUntracked)| == |Filter(files[..i], IsUntracked)| + (if IsUntracked(files[i]) then 1 else 0)
  {
    assert files[..i + 1] == files[..i] + [files[i]];
    FilterSnoc(files[..i], files[i], IsModified);
    FilterSnoc(files[..i], files[i], IsUntracked);
  }

  /**
   * `branchstat`: reads the branch line and the file lines of
   * `git status --porcelain --ahead-behind -b` and the count of lines from
   * `jj list_mut`, and collects the parts of the summary.
   */
  method Branchstat(p: Path, fmt: FormatOpts, run: Runner) returns (r: Result<Option<Report>>)
    requires BranchstatDefined(p, fmt, run)
    ensures r == BranchstatSpec(p, fmt, run)
  {
    var git := OutputLines(run("git", p, PORCELAIN_ARGS));
    if git.Err? {
      return Err(git.error);
    }
    var jj := OutputLines(run("jj", p, JJ_ARGS));
    if jj.Err? {
      return Err(jj.error);
    }
    var response := git.value;
    var jjMutable := |jj.value|;
    ghost var sum := Summarise(response, jjMutable);

    var parts: seq<string> := [];
    var colours := if fmt.noColour then [] else [BLUE];
    if response != [] && Contains(response[0], "[") {
      parts := parts + [Colour(AheadBehind(response[0]), colours)];
    }
    assert parts == (if sum.aheadBehind.Some? then [Colour(sum.aheadBehind.value, AheadBehindColours(fmt.noColour))] else []);

    var files := FileLines(response);
    forall i | 0 <= i < |files| ensures CodeReadable(files[i]) {
      assert files[i] == response[i + 1];
    }
    var nModified, nUntracked := CountCodes(files);

    parts := PushCount(parts, nModified, "±", GREEN, fmt.noColour);
    parts := PushCount(parts, nUntracked, "?", YELLOW, fmt.noColour);
    parts := PushCount(parts, jjMutable, "▲", YELLOW, fmt.noColour);
    assert parts == Parts(sum, fmt.noColour);

    var joined := Join(parts, ", ");
    PartsEmpty(sum, fmt.noColour);
    if joined == [] {
      return Ok(None);
    }
    r := Ok(Some(BranchstatReport(p, fmt, joined)));
  }

  /** One count's step of `branchstat`: push its part when the count is not zero. */
  method PushCount(parts: seq<string>, n: nat, mark: string, code: string, noColour: bool) returns (r: seq<string>)
    ensures r == parts + Counted(n, mark, code, noColour)
  {
    r := parts;
    if n > 0 {
      var s := NatToString(n) + mark;
      r := r + [if noColour then s else Colour(s, [code])];
    }
  }

  // ---------------------------------------------------------------- fetch

  const FETCH_ARGS: seq<string> := ["fetch", "--all", "--tags", "--prune"]

  /** `fetch`: `git fetch --all --tags --prune`, then the `branchstat` report. */
  method Fetch(p: Path, fmt: FormatOpts, run: Runner) returns (r: Result<Option<Report>>)
    requires !run("git", p, FETCH_ARGS).SpawnFailed? ==> BranchstatDefined(p, fmt, run)
    ensures run("git", p, FETCH_ARGS).SpawnFailed? ==> r == Err(run("git", p, FETCH_ARGS).error)
    ensures !run("git", p, FETCH_ARGS).SpawnFailed? ==> r == BranchstatSpec(p, fmt, run)
  {
    var st := Status(run("git", p, FETCH_ARGS));
    if st.Err? {
      return Err(st.error);
    }
    r := Branchstat(p, fmt, run);
  }
}

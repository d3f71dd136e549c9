/**
 * The older, colourless summarisers the original driver dispatches to.
 * Each runs one or more `git` commands in the repository and reports on
 * their lines as plain text. `branches` can panic on a slice, which the
 * driver catches when it joins the repository's thread, so its outcome
 * records a panic as a value.
 */
module Git {
  import opened Wrappers
  import opened Strings
  import opened Ordering
  import opened Paths
  import Host
  import VcsGit

  /** What running a summariser comes to: a result, or a panic. */
  datatype Outcome = Returned(result: Result<Option<string>>) | Panicked

  /** `command_output`: the lines `git` prints when run with `args` in `p`. */
  function CommandOutput(p: Path, args: seq<string>, run: Host.Runner): (r: Result<seq<string>>)
    ensures r.Ok? <==> run("git", p, args).Lines?
    ensures r.Ok? ==> r.value == run("git", p, args).lines
  {
    Host.OutputLines(run("git", p, args))
  }

  // ---------------------------------------------------------------- fetch

  const FETCH_ARGS: seq<string> := ["fetch", "--all"]

  /**
   * `fetch`: nothing when `git fetch --all` prints nothing; otherwise the
   * path on a line of its own followed by every line after the first, run
   * together.
   */
  function Fetch(p: Path, run: Host.Runner): (r: Result<Option<string>>)
    ensures r.Err? <==> !run("git", p, FETCH_ARGS).Lines?
    ensures r.Ok? ==> (r.value.None? <==> run("git", p, FETCH_ARGS).lines == [])
    ensures r.Ok? && r.value.Some? ==>
      StartsWith(r.value.value, Display(p) + "\n")
      && r.value.value[|Display(p)| + 1..] == Concat(run("git", p, FETCH_ARGS).lines[1..])
  {
    match CommandOutput(p, FETCH_ARGS, run)
    case Err(e) => Err(e)
    case Ok(lines) =>
      if |lines| >= 1 then
        var r := Display(p) + "\n" + Concat(lines[1..]);
        assert r[..|Display(p)| + 1] == Display(p) + "\n";
        Ok(Some(r))
      else Ok(None)
  }

  /** A fetch that prints one line reports the bare path and a newline. */
  lemma FetchOneLine(p: Path, run: Host.Runner)
    requires run("git", p, FETCH_ARGS).Lines? && |run("git", p, FETCH_ARGS).lines| == 1
    ensures Fetch(p, run) == Ok(Some(Display(p) + "\n"))
  {
    var lines := run("git", p, FETCH_ARGS).lines;
    assert lines[1..] == [];
    assert Concat(lines[1..]) == "";
    assert Display(p) + "\n" + Concat(lines[1..]) == Display(p) + "\n";
  }

  // ---------------------------------------------------------------- stat

  const STAT_ARGS: seq<string> := ["status", "-s", "-b"]

  /**
   * `stat`: nothing for no output; every line when the branch line ends in
   * `]`; otherwise the lines after it, or nothing when there are none. The
   * report is the path, then the lines, each ending in a newline.
   */
  function Stat(p: Path, run: Host.Runner): (r: Result<Option<string>>)
    ensures r.Err? <==> !run("git", p, STAT_ARGS).Lines?
  {
    match CommandOutput(p, STAT_ARGS, run)
    case Err(e) => Err(e)
    case Ok(lines) =>
      if lines == [] then Ok(None)
      else if EndsWith(lines[0], "]") then Ok(Some(Display(p) + "\n" + Join(lines, "\n") + "\n"))
      else
        var status := lines[1..];
        if status == [] then Ok(None)
        else Ok(Some(Display(p) + "\n" + Join(status, "\n") + "\n"))
  }

  /**
   * The old `stat` keeps the same lines as the newer one, and its report is
   * the newer plain report when no common prefix is taken off.
   */
  lemma StatAgreesWithNewer(p: Path, run: Host.Runner)
    ensures var fmt := VcsGit.FormatOpts(false, true, None);
      && VcsGit.StatDefined(p, fmt, run)
      && (Stat(p, run).Ok? <==> VcsGit.Stat(p, fmt, run).Ok?)
      && (Stat(p, run).Ok? ==>
            (Stat(p, run).value.None? <==> VcsGit.Stat(p, fmt, run).value.None?)
            && (Stat(p, run).value.Some? ==> VcsGit.Stat(p, fmt, run).value.value == VcsGit.Text(Stat(p, run).value.value)))
  {
    var fmt := VcsGit.FormatOpts(false, true, None);
    assert VcsGit.Title(p, fmt) == Display(p) by {
      assert p[0..] == p;
    }
  }

  // ---------------------------------------------------------------- ahead_behind

  const AHEAD_BEHIND_ARGS: seq<string> := ["for-each-ref", "--format='%(refname:short) %(upstream:track)'", "refs/heads"]

  /** A branch line with its quotes and surrounding white space removed. */
  function Cleaned(line: string): string {
    Trim(TrimMatches(line, '\''))
  }

  /** `split(' ')` yields a second field: the branch has tracking information. */
  predicate HasTrack(x: string) {
    |Split(x, ' ')| > 1
  }

  /** There is a second field exactly when there is a space. */
  lemma {:induction false} HasTrackIffSpace(x: string)
    ensures HasTrack(x) <==> ' ' in x
  {
    if x != [] {
      HasTrackIffSpace(x[1..]);
      assert x == [x[0]] + x[1..];
    }
  }

  function CleanedAll(lines: seq<string>): (r: seq<string>)
    ensures |r| == |lines| && forall i :: 0 <= i < |lines| ==> r[i] == Cleaned(lines[i])
  {
    seq(|lines|, i requires 0 <= i < |lines| => Cleaned(lines[i]))
  }

  predicate HasSpace(x: string) {
    ' ' in x
  }

  /** Keeping the lines with a second field keeps exactly those with a space. */
  lemma TrackedAreSpaced(xs: seq<string>)
    ensures Filter(xs, HasTrack) == Filter(xs, HasSpace)
  {
    forall x | x in xs ensures HasTrack(x) == HasSpace(x) {
      HasTrackIffSpace(x);
    }
    FilterAgree(xs, HasTrack, HasSpace);
  }

  /**
   * `ahead_behind`: the cleaned branch lines that have a tracking field,
   * run together; nothing when there are none.
   */
  function AheadBehind(p: Path, run: Host.Runner): (r: Result<Option<string>>)
    ensures r.Err? <==> !run("git", p, AHEAD_BEHIND_ARGS).Lines?
    ensures r.Ok? && r.value.Some? ==> (r.value.value != ""
      && r.value.value == Concat(Filter(CleanedAll(run("git", p, AHEAD_BEHIND_ARGS).lines), HasSpace)))
  {
    match CommandOutput(p, AHEAD_BEHIND_ARGS, run)
    case Err(e) => Err(e)
    case Ok(lines) =>
      TrackedAreSpaced(CleanedAll(lines));
      var response := Concat(Filter(CleanedAll(lines), HasTrack));
      if response != "" then Ok(Some(response)) else Ok(None)
  }

  /** Tracked lines are never empty, so the concatenation is empty only when there are none. */
  lemma {:induction false} ConcatTracked(xs: seq<string>)
    requires forall i :: 0 <= i < |xs| ==> HasTrack(xs[i])
    ensures Concat(xs) == "" <==> xs == []
  {
    if xs != [] {
      HasTrackIffSpace(xs[0]);
      JoinLength(xs, "");
    }
  }

  /** `ahead_behind` reports nothing exactly when no cleaned line holds a space. */
  lemma AheadBehindNone(p: Path, run: Host.Runner)
    requires run("git", p, AHEAD_BEHIND_ARGS).Lines?
    ensures AheadBehind(p, run) == Ok(None) <==>
      forall i :: 0 <= i < |run("git", p, AHEAD_BEHIND_ARGS).lines| ==> ' ' !in Cleaned(run("git", p, AHEAD_BEHIND_ARGS).lines[i])
  {
    var lines := run("git", p, AHEAD_BEHIND_ARGS).lines;
    var cleaned := CleanedAll(lines);
    var kept := Filter(cleaned, HasTrack);
    forall i | 0 <= i < |kept| ensures HasTrack(kept[i]) {
      assert kept[i] in kept;
    }
    ConcatTracked(kept);
    FilterEmpty(cleaned, HasTrack);
    forall i | 0 <= i < |lines| ensures HasTrack(cleaned[i]) <==> ' ' in Cleaned(lines[i]) {
      HasTrackIffSpace(cleaned[i]);
    }
  }

  // ---------------------------------------------------------------- modified

  const MODIFIED_ARGS: seq<string> := ["diff", "--shortstat"]

  /**
   * `modified`: when `git diff --shortstat` mentions `changed`, `Modified`
   * and the first word of its output (the number of files).
   */
  function Modified(p: Path, run: Host.Runner): (r: Result<Option<string>>)
    ensures r.Err? <==> !run("git", p, MODIFIED_ARGS).Lines?
    ensures r.Ok? ==> (r.value.Some? <==> Contains(Join(run("git", p, MODIFIED_ARGS).lines, "\n"), "changed"))
    ensures r.Ok? && r.value.Some? ==> StartsWith(r.value.value, "Modified ")
  {
    match CommandOutput(p, MODIFIED_ARGS, run)
    case Err(e) => Err(e)
    case Ok(lines) =>
      var modified := Join(lines, "\n");
      if Contains(modified, "changed") then
        var num := FirstField(TrimStart(modified));
        assert ("Modified " + num)[..9] == "Modified ";
        Ok(Some("Modified " + num))
      else Ok(None)
  }

  /** After leading white space, the number is the text up to the next space. */
  lemma {:induction false} ModifiedNumber(ws: string, n: string, rest: string)
    requires forall i :: 0 <= i < |ws| ==> IsWhitespace(ws[i])
    requires n != [] && !IsWhitespace(n[0]) && ' ' !in n
    ensures FirstField(TrimStart(ws + n + " " + rest)) == n
  {
    TrimStartPrefix(ws, n + " " + rest);
    assert ws + n + " " + rest == ws + (n + " " + rest);
    FirstFieldOf(n, rest);
  }

  /**
   * When `git diff --shortstat` says `changed` and its output is white
   * space, a number and a space, the report is `Modified` and that number.
   */
  lemma ModifiedCount(p: Path, run: Host.Runner, ws: string, n: string, rest: string)
    requires run("git", p, MODIFIED_ARGS).Lines?
    requires Join(run("git", p, MODIFIED_ARGS).lines, "\n") == ws + n + " " + rest
    requires Contains(ws + n + " " + rest, "changed")
    requires forall i :: 0 <= i < |ws| ==> IsWhitespace(ws[i])
    requires n != [] && !IsWhitespace(n[0]) && ' ' !in n
    ensures Modified(p, run) == Ok(Some("Modified " + n))
  {
    ModifiedNumber(ws, n, rest);
  }

  lemma {:induction false} TrimStartPrefix(ws: string, s: string)
    requires forall i :: 0 <= i < |ws| ==> IsWhitespace(ws[i])
    requires s != [] && !IsWhitespace(s[0])
    ensures TrimStart(ws + s) == s
  {
    if ws != [] {
      assert (ws + s)[1..] == ws[1..] + s;
      TrimStartPrefix(ws[1..], s);
    }
  }

  lemma {:induction false} FirstFieldOf(n: string, rest: string)
    requires ' ' !in n
    ensures FirstField(n + " " + rest) == n
  {
    if n != [] {
      assert (n + " " + rest)[1..] == n[1..] + " " + rest;
      assert n[0] in n;
      FirstFieldOf(n[1..], rest);
      assert n == [n[0]] + n[1..];
    }
  }

  // ---------------------------------------------------------------- status, untracked

  const STAGED_ARGS: seq<string> := ["diff", "--stat", "--cached"]
  const UNTRACKED_ARGS: seq<string> := ["ls-files", "--others", "--exclude-standard"]

  /** A count of output lines after a name, or nothing for no lines. */
  function CountReport(name: string, lines: seq<string>): (r: Option<string>)
    ensures r.None? <==> lines == []
    ensures r.Some? ==> StartsWith(r.value, name + " ")
    ensures r.Some? ==> var digits := r.value[|name| + 1..];
      (forall i :: 0 <= i < |digits| ==> '0' <= digits[i] <= '9') && DecimalValue(digits) == |lines|
  {
    if lines != [] then
      var r := name + " " + NatToString(|lines|);
      assert r[..|name| + 1] == name + " " && r[|name| + 1..] == NatToString(|lines|);
      Some(r)
    else None
  }

  /** `status`: `Staged` and the number of lines of `git diff --stat --cached`. */
  function Status(p: Path, run: Host.Runner): (r: Result<Option<string>>)
    ensures r.Err? <==> !run("git", p, STAGED_ARGS).Lines?
    ensures r.Ok? ==> r.value == CountReport("Staged", run("git", p, STAGED_ARGS).lines)
  {
    match CommandOutput(p, STAGED_ARGS, run)
    case Err(e) => Err(e)
    case Ok(response) => Ok(CountReport("Staged", response))
  }

  /** `untracked`: `Untracked` and the number of untracked files. */
  function Untracked(p: Path, run: Host.Runner): (r: Result<Option<string>>)
    ensures r.Err? <==> !run("git", p, UNTRACKED_ARGS).Lines?
    ensures r.Ok? ==> r.value == CountReport("Untracked", run("git", p, UNTRACKED_ARGS).lines)
  {
    match CommandOutput(p, UNTRACKED_ARGS, run)
    case Err(e) => Err(e)
    case Ok(untracked) => Ok(CountReport("Untracked", untracked))
  }

  // ---------------------------------------------------------------- branches

  const BRANCH_ARGS: seq<string> := ["branch"]

  /** `&x[2..]` of a trimmed line starting with `*`: defined when byte 2 starts a character. */
  predicate SliceFrom2(x: string) {
    |x| >= 2 && Utf8Length(x[1]) == 1
  }

  predicate IsCurrent(x: string) {
    StartsWith(x, "*")
  }

  /** The trimmed lines that start with `*`, in order. */
  function Marked(lines: seq<string>): seq<string> {
    Filter(TrimAll(lines), IsCurrent)
  }

  predicate Sliceable(marked: seq<string>) {
    forall i :: 0 <= i < |marked| ==> SliceFrom2(marked[i])
  }

  /** The current-branch lines without their `* ` marker, run together. */
  function CurrentBranches(marked: seq<string>): string
    requires Sliceable(marked)
  {
    if marked == [] then ""
    else
      assert SliceFrom2(marked[0]);
      marked[0][2..] + CurrentBranches(marked[1..])
  }

  /**
   * `branches`: the current branch (the trimmed `git branch` lines that
   * start with `*`, marker removed) after `parent/dir`, the stems of the
   * parent's and the repository's names, padded to 40 characters and a
   * tab. A marked line that cannot be sliced at byte 2 panics; then a path
   * without a parent, a parent without a stem, and a path without a stem
   * are errors, checked in that order.
   */
  function Branches(p: Path, run: Host.Runner): (r: Outcome)
    ensures r.Panicked? <==> (run("git", p, BRANCH_ARGS).Lines?
      && exists i :: (0 <= i < |run("git", p, BRANCH_ARGS).lines|
        && IsCurrent(Trim(run("git", p, BRANCH_ARGS).lines[i])) && !SliceFrom2(Trim(run("git", p, BRANCH_ARGS).lines[i]))))
    ensures r.Returned? && run("git", p, BRANCH_ARGS).Lines? ==>
      && (Parent(p).None? ==> r.result == Err("No parent for dir"))
      && (Parent(p).Some? && FileStem(Parent(p).value).None? ==> r.result == Err("No stem for parent"))
      && (Parent(p).Some? && FileStem(Parent(p).value).Some? && FileStem(p).None? ==> r.result == Err("No stem for dir"))
    ensures r.Returned? && r.result.Ok? ==> (run("git", p, BRANCH_ARGS).Lines? && Parent(p).Some? && FileStem(Parent(p).value).Some? && FileStem(p).Some?
      && Sliceable(Marked(run("git", p, BRANCH_ARGS).lines))
      && r.result.value == Some(VcsGit.Columns(FileStem(Parent(p).value).value + "/" + FileStem(p).value, 40, "\t",
           CurrentBranches(Marked(run("git", p, BRANCH_ARGS).lines)))))
  {
    match CommandOutput(p, BRANCH_ARGS, run)
    case Err(e) => Returned(Err(e))
    case Ok(lines) =>
      var marked := Marked(lines);
      if !Sliceable(marked) then
        assert exists i :: 0 <= i < |lines| && IsCurrent(Trim(lines[i])) && !SliceFrom2(Trim(lines[i])) by {
          var i :| 0 <= i < |marked| && !SliceFrom2(marked[i]);
          assert marked[i] in marked;
        }
        Panicked
      else
        assert !exists i :: 0 <= i < |lines| && IsCurrent(Trim(lines[i])) && !SliceFrom2(Trim(lines[i])) by {
          forall i | 0 <= i < |lines| && IsCurrent(Trim(lines[i])) ensures SliceFrom2(Trim(lines[i])) {
            assert TrimAll(lines)[i] in TrimAll(lines);
            var k :| 0 <= k < |marked| && marked[k] == Trim(lines[i]);
          }
        }
        var branches := CurrentBranches(marked);
        match Parent(p)
        case None => Returned(Err("No parent for dir"))
        case Some(parentpath) =>
          match FileStem(parentpath)
          case None => Returned(Err("No stem for parent"))
          case Some(parentname) =>
            match FileStem(p)
            case None => Returned(Err("No stem for dir"))
            case Some(dirname) =>
              Returned(Ok(Some(VcsGit.Columns(parentname + "/" + dirname, 40, "\t", branches))))
  }

  /** In `/code/repoutil` on branch `main`, with a second branch `dev`, the report is `code/repoutil` and `main`. */
  lemma BranchesExample(run: Host.Runner)
    requires run("git", [RootDir, Normal("code"), Normal("repoutil")], BRANCH_ARGS) == Host.Lines(["* main", "  dev"])
    ensures Branches([RootDir, Normal("code"), Normal("repoutil")], run)
      == Returned(Ok(Some(VcsGit.Columns("code/repoutil", 40, "\t", "main"))))
  {
    var p: Path := [RootDir, Normal("code"), Normal("repoutil")];
    var marked := Marked(run("git", p, BRANCH_ARGS).lines);
    ExampleMarked(run("git", p, BRANCH_ARGS).lines);
    ExampleCurrent(marked);
    ExampleStems(p);
    BranchesValue(p, run);
    var left := FileStem(Parent(p).value).value + "/" + FileStem(p).value;
    ExampleColumns(Branches(p, run), left, CurrentBranches(marked));
  }

  lemma ExampleColumns(o: Outcome, left: string, right: string)
    requires o == Returned(Ok(Some(VcsGit.Columns(left, 40, "\t", right))))
    requires left == "code/repoutil" && right == "main"
    ensures o == Returned(Ok(Some(VcsGit.Columns("code/repoutil", 40, "\t", "main"))))
  {
  }

  /** With a parent, both stems and every marked line sliceable, `branches` reports the current branch. */
  lemma BranchesValue(p: Path, run: Host.Runner)
    requires run("git", p, BRANCH_ARGS).Lines? && Sliceable(Marked(run("git", p, BRANCH_ARGS).lines))
    requires Parent(p).Some? && FileStem(Parent(p).value).Some? && FileStem(p).Some?
    ensures Branches(p, run) == Returned(Ok(Some(VcsGit.Columns(FileStem(Parent(p).value).value + "/" + FileStem(p).value,
      40, "\t", CurrentBranches(Marked(run("git", p, BRANCH_ARGS).lines))))))
  {
  }

  lemma ExampleMarked(lines: seq<string>)
    requires lines == ["* main", "  dev"]
    ensures Marked(lines) == ["* main"]
  {
    ExampleTrimMain();
    ExampleTrimDev();
    var t := TrimAll(["* main", "  dev"]);
    assert t == ["* main", "dev"];
    assert IsCurrent("* main") && !IsCurrent("dev");
    assert Filter(t[1..], IsCurrent) == [];
  }

  lemma ExampleTrimMain()
    ensures Trim("* main") == "* main"
  {
    assert !IsWhitespace('*') && !IsWhitespace('n');
  }

  lemma ExampleTrimDev()
    ensures Trim("  dev") == "dev"
  {
    assert IsWhitespace(' ') && !IsWhitespace('d') && !IsWhitespace('v');
    assert TrimLeft("dev", IsWhitespace) == "dev";
    assert TrimLeft(" dev", IsWhitespace) == "dev";
  }

  lemma ExampleCurrent(marked: seq<string>)
    requires marked == ["* main"]
    ensures Sliceable(marked) && CurrentBranches(marked) == "main"
  {
    var x := marked[0];
    assert x[1] == ' ';
    assert SliceFrom2(x);
    assert x[2..] == "main";
  }

  lemma ExampleStems(p: Path)
    requires p == [RootDir, Normal("code"), Normal("repoutil")]
    ensures Parent(p).Some? && FileStem(Parent(p).value) == Some("code") && FileStem(p) == Some("repoutil")
    ensures "code" + "/" + "repoutil" == "code/repoutil"
  {
    assert p[..|p| - 1] == [RootDir, Normal("code")];
    assert LastIndexOf("code", '.') == None;
    assert LastIndexOf("repoutil", '.') == None;
  }

  // ---------------------------------------------------------------- branchstat

  /** The present parts, in order. */
  function Present(parts: seq<Option<string>>): (r: seq<string>)
    ensures |r| <= |parts|
    ensures r == [] <==> forall i :: 0 <= i < |parts| ==> parts[i].None?
    ensures forall x :: x in r <==> Some(x) in parts
  {
    if parts == [] then []
    else
      assert parts == [parts[0]] + parts[1..];
      (if parts[0].Some? then [parts[0].value] else []) + Present(parts[1..])
  }

  /** The present parts of two runs of parts are those of the first, then those of the second. */
  lemma {:induction false} PresentAppend(a: seq<Option<string>>, b: seq<Option<string>>)
    ensures Present(a + b) == Present(a) + Present(b)
  {
    if a == [] {
      assert a + b == b;
    } else {
      var head := if a[0].Some? then [a[0].value] else [];
      assert Present(a + b) == head + Present(a[1..] + b) by {
        assert (a + b)[0] == a[0] && (a + b)[1..] == a[1..] + b;
        PresentFirst(a + b);
      }
      assert Present(a) == head + Present(a[1..]) by {
        PresentFirst(a);
      }
      PresentAppend(a[1..], b);
      assert (head + Present(a[1..])) + Present(b) == head + (Present(a[1..]) + Present(b));
    }
  }

  /** `Present` one step in: the first part when it is present, then the rest. */
  lemma PresentFirst(parts: seq<Option<string>>)
    requires parts != []
    ensures Present(parts) == (if parts[0].Some? then [parts[0].value] else []) + Present(parts[1..])
  {
  }

  /**
   * `branchstat`: the ahead/behind, modified, staged and untracked parts
   * that are present, joined with `, ` after the path padded to 40
   * characters and ` | `; nothing when none is present. The first of the
   * four commands to fail decides the error.
   */
  function Branchstat(p: Path, run: Host.Runner): (r: Result<Option<string>>)
    ensures r.Err? <==> AheadBehind(p, run).Err? || Modified(p, run).Err? || Status(p, run).Err? || Untracked(p, run).Err?
    ensures r.Err? ==> (r.error ==
      if AheadBehind(p, run).Err? then AheadBehind(p, run).error
      else if Modified(p, run).Err? then Modified(p, run).error
      else if Status(p, run).Err? then Status(p, run).error
      else Untracked(p, run).error)
    ensures r.Ok? && r.value.Some? ==> r.value.value == VcsGit.Columns(Display(p), 40, " | ",
      Join(Present([AheadBehind(p, run).value, Modified(p, run).value, Status(p, run).value, Untracked(p, run).value]), ", "))
  {
    var ab := AheadBehind(p, run);
    if ab.Err? then Err(ab.error) else
    var m := Modified(p, run);
    if m.Err? then Err(m.error) else
    var st := Status(p, run);
    if st.Err? then Err(st.error) else
    var u := Untracked(p, run);
    if u.Err? then Err(u.error) else
    var outputs := Join(Present([ab.value, m.value, st.value, u.value]), ", ");
    if outputs == "" then Ok(None)
    else Ok(Some(VcsGit.Columns(Display(p), 40, " | ", outputs)))
  }

  /** Every present part is non-empty text. */
  lemma PartsNonEmpty(p: Path, run: Host.Runner)
    ensures AheadBehind(p, run).Ok? && AheadBehind(p, run).value.Some? ==> AheadBehind(p, run).value.value != ""
    ensures Modified(p, run).Ok? && Modified(p, run).value.Some? ==> Modified(p, run).value.value != ""
    ensures Status(p, run).Ok? && Status(p, run).value.Some? ==> Status(p, run).value.value != ""
    ensures Untracked(p, run).Ok? && Untracked(p, run).value.Some? ==> Untracked(p, run).value.value != ""
  {
  }

  /** `branchstat` reports nothing exactly when all four parts are absent. */
  lemma BranchstatNone(p: Path, run: Host.Runner)
    requires Branchstat(p, run).Ok?
    ensures Branchstat(p, run).value.None? <==>
      AheadBehind(p, run).value.None? && Modified(p, run).value.None?
      && Status(p, run).value.None? && Untracked(p, run).value.None?
  {
    PartsNonEmpty(p, run);
    PresentJoinEmpty(AheadBehind(p, run).value, Modified(p, run).value, Status(p, run).value, Untracked(p, run).value);
  }

  /** When no present part is empty text, the joined parts are empty exactly when every part is absent. */
  lemma PresentJoinEmpty(a: Option<string>, b: Option<string>, c: Option<string>, d: Option<string>)
    requires a.Some? ==> a.value != ""
    requires b.Some? ==> b.value != ""
    requires c.Some? ==> c.value != ""
    requires d.Some? ==> d.value != ""
    ensures Join(Present([a, b, c, d]), ", ") == "" <==> a.None? && b.None? && c.None? && d.None?
  {
    var parts := [a, b, c, d];
    var present := Present(parts);
    JoinEmptyIff(present, ", ");
    if present != [] {
      assert present[0] in present;
      var k :| 0 <= k < |parts| && parts[k] == Some(present[0]);
    }
    assert (forall i :: 0 <= i < |parts| ==> parts[i].None?) ==> parts[0].None? && parts[1].None? && parts[2].None? && parts[3].None?;
  }

  // ---------------------------------------------------------------- needs_attention, list

  /**
   * `needs_attention`: the path when `stat` has something to say, and
   * nothing otherwise, even when `stat` fails.
   */
  function NeedsAttention(p: Path, run: Host.Runner): (r: Result<Option<string>>)
    ensures r.Ok?
    ensures r.value.Some? <==> Stat(p, run).Ok? && Stat(p, run).value.Some?
    ensures r.value.Some? ==> Parse(r.value.value) == p || !WellFormed(p)
  {
    match Stat(p, run)
    case Ok(Some(_)) =>
      Shown(p);
      Ok(Some(Display(p)))
    case _ => Ok(None)
  }

  /** `list`: every repository is reported by its path. */
  function List(p: Path): (r: Result<Option<string>>)
    ensures r.Ok? && r.value.Some?
    ensures WellFormed(p) ==> Parse(r.value.value) == p
  {
    Shown(p);
    Ok(Some(Display(p)))
  }

  lemma Shown(p: Path)
    ensures WellFormed(p) ==> Parse(Display(p)) == p
  {
    if WellFormed(p) {
      ParseDisplay(p);
    }
  }
}

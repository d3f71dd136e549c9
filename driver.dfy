/**
 * The original command-line driver: it reads the directories to look at
 * from `~/.repoutilrc`, resolves them to a sorted list of repositories,
 * runs the chosen summariser on each, and prints what each one reports.
 * The threads it runs the summarisers on are modelled as one pass over the
 * repositories in order.
 */
module Driver {
  import opened Wrappers
  import opened Strings
  import opened Ordering
  import opened Paths
  import opened Host
  import Util
  import Git

  /** The subcommands. */
  datatype Subcommand = Stat | Fetch | List | Unclean | Branchstat | Branches

  const USAGE: string := "usage: repoutil stat|fetch|list|unclean|branchstat|branches"

  /** The summariser that handles one repository. */
  type Handler = (Path, Runner) -> Git.Outcome

  /**
   * The handler `main` picks for each subcommand; `unclean` is
   * `needs_attention`. Only `branches` can panic, and `unclean` and `list`
   * never fail.
   */
  function Dispatch(cmd: Subcommand): (h: Handler)
    ensures forall p, run :: !cmd.Branches? ==> h(p, run).Returned?
    ensures forall p, run :: cmd.Unclean? ==> h(p, run) == Git.Returned(Git.NeedsAttention(p, run))
    ensures forall p, run :: cmd.Unclean? || cmd.List? ==> h(p, run).result.Ok?
  {
    match cmd
    case Fetch => (p: Path, run: Runner) => Git.Returned(Git.Fetch(p, run))
    case Stat => (p: Path, run: Runner) => Git.Returned(Git.Stat(p, run))
    case List => (p: Path, run: Runner) => Git.Returned(Git.List(p))
    case Unclean => (p: Path, run: Runner) => Git.Returned(Git.NeedsAttention(p, run))
    case Branchstat => (p: Path, run: Runner) => Git.Returned(Git.Branchstat(p, run))
    case Branches => (p: Path, run: Runner) => Git.Branches(p, run)
  }

  // ---------------------------------------------------------------- tilde

  /**
   * `shellexpand::tilde`: a `~` alone or before a `/` becomes the home
   * directory, when it is known; anything else is left as it is.
   */
  function Tilde(s: string, homeDir: Option<string>): string {
    if StartsWith(s, "~") && (|s| == 1 || s[1] == '/') && homeDir.Some? then homeDir.value + s[1..] else s
  }

  /**
   * Unlike the newer `homedir`, which turns `~/name` into `/name`, the
   * shell-style expansion puts `name` under an absolute home directory.
   */
  lemma TildeUnderHome(h: string, name: string)
    requires IsAbsolute(h) && ValidName(name)
    ensures Parse(Tilde("~/" + name, Some(h))) == Parse(h) + [Normal(name)]
  {
    var s := "~/" + name;
    assert s[1..] == "/" + name;
    assert Tilde(s, Some(h)) == h + ("/" + name);
    ParseChild(h, name);
  }

  /** Appending `/name` to an absolute path's text adds one normal component. */
  lemma ParseChild(h: string, name: string)
    requires IsAbsolute(h) && ValidName(name)
    ensures Parse(h + ("/" + name)) == Parse(h) + [Normal(name)]
  {
    var t := h + ("/" + name);
    assert t[0] == h[0];
    assert t[1..] == h[1..] + ['/'] + name;
    SplitSeparated(h[1..], name, '/');
    var segs := Split(h[1..], '/');
    SegmentsAppend(segs, [name]);
    assert Segments([name]) == [Normal(name)] by {
      assert [name][1..] == [];
    }
    calc {
      Parse(t);
      [RootDir] + Segments(segs + [name]);
      [RootDir] + (Segments(segs) + [Normal(name)]);
      ([RootDir] + Segments(segs)) + [Normal(name)];
    }
  }

  /** Text, a separator and a piece free of separators split into the text's pieces and that piece. */
  lemma {:induction false} SplitSeparated(a: string, b: string, sep: char)
    requires sep !in b
    ensures Split(a + [sep] + b, sep) == Split(a, sep) + [b]
  {
    if a == [] {
      assert a + [sep] + b == [sep] + b;
      assert ([sep] + b)[1..] == b;
      SplitPrefix(b, "", sep);
      assert b + "" == b;
    } else {
      assert (a + [sep] + b)[1..] == a[1..] + [sep] + b;
      SplitSeparated(a[1..], b, sep);
    }
  }

  lemma {:induction false} SegmentsAppend(xs: seq<string>, ys: seq<string>)
    requires SeparatorFree(xs) && SeparatorFree(ys)
    ensures SeparatorFree(xs + ys) && Segments(xs + ys) == Segments(xs) + Segments(ys)
  {
    if xs == [] {
      assert xs + ys == ys;
    } else {
      assert SeparatorFree(xs + ys) by {
        forall i | 0 <= i < |xs + ys| ensures '/' !in (xs + ys)[i] {
          if i < |xs| { assert (xs + ys)[i] == xs[i]; } else { assert (xs + ys)[i] == ys[i - |xs|]; }
        }
      }
      assert (xs + ys)[0] == xs[0];
      assert (xs + ys)[1..] == xs[1..] + ys;
      SegmentsAppend(xs[1..], ys);
      Util.AppendAssociative(Segment(xs[0]), Segments(xs[1..]), Segments(ys));
    }
  }

  // ---------------------------------------------------------------- configuration

  const NO_CONFIG: string := "No ~/.repoutilrc, or passed dirs"

  /**
   * `get_dirs_from_config`: every line of `~/.repoutilrc`, expanded like a
   * shell word, is a directory; blank, comment and `!` lines are not
   * treated specially.
   */
  function ConfigDirs(env: Env, homeDir: Option<string>): (r: Result<seq<Path>>)
    ensures var file := env.readFile(Parse(Tilde("~/.repoutilrc", homeDir)));
      && (file.Missing? ==> r == Err(NO_CONFIG))
      && (file.Unreadable? ==> r == Err(file.error))
      && (file.Contents? ==>
            (r.Ok? && |r.value| == |file.lines|
             && forall i :: 0 <= i < |file.lines| ==> r.value[i] == Parse(Tilde(file.lines[i], homeDir))))
  {
    match env.readFile(Parse(Tilde("~/.repoutilrc", homeDir)))
    case Missing => Err(NO_CONFIG)
    case Unreadable(e) => Err(e)
    case Contents(lines) => Ok(seq(|lines|, i requires 0 <= i < |lines| => Parse(Tilde(lines[i], homeDir))))
  }

  // ---------------------------------------------------------------- resolution

  /** The notice printed for a directory that is not a repository and cannot be listed. */
  function SkipNotice(dir: Path, e: string): string {
    "Couldn't get repos from '\"" + Display(dir) + "\"': '" + e + "'\n"
  }

  /** The notice a directory gives, if it is skipped. */
  function Skipped(dir: Path, env: Env): seq<string> {
    if !env.isRepo(dir) && env.listDir(dir).Err? then [SkipNotice(dir, env.listDir(dir).error)] else []
  }

  /** The notices for the directories that are skipped. */
  function SkipNotices(dirs: seq<Path>, env: Env): seq<string> {
    if dirs == [] then [] else Skipped(dirs[0], env) + SkipNotices(dirs[1..], env)
  }

  /**
   * The loop over the configured directories: a repository is kept, any
   * other directory gives its repository children, and one that cannot be
   * listed is reported and skipped. Then the list is sorted and
   * deduplicated.
   */
  method Resolve(dirs: seq<Path>, env: Env) returns (repos: seq<Path>, notices: seq<string>)
    ensures repos == Util.Collect(dirs, env)
    ensures notices == SkipNotices(dirs, env)
  {
    var allRepos: seq<Path> := [];
    notices := [];
    var i := 0;
    assert dirs[0..] == dirs;
    while i < |dirs|
      invariant 0 <= i <= |dirs|
      invariant allRepos + Util.ExpandAll(dirs[i..], env) == Util.ExpandAll(dirs, env)
      invariant notices + SkipNotices(dirs[i..], env) == SkipNotices(dirs, env)
    {
      var dir := dirs[i];
      assert dirs[i..][1..] == dirs[i + 1..];
      var found, notice := ResolveDir(dir, env);
      Util.AppendAssociative(allRepos, found, Util.ExpandAll(dirs[i + 1..], env));
      Util.AppendAssociative(notices, notice, SkipNotices(dirs[i + 1..], env));
      allRepos := allRepos + found;
      notices := notices + notice;
      i := i + 1;
    }
    assert dirs[|dirs|..] == [];
    assert allRepos == Util.ExpandAll(dirs, env);
    PathLessIsStrictTotalOrder();
    allRepos := Sort(allRepos, PathLess);
    allRepos := Dedup(allRepos);
    repos := allRepos;
  }

  /** One step of the loop: a repository is kept, any other directory gives its repository children or a notice. */
  method ResolveDir(dir: Path, env: Env) returns (found: seq<Path>, notice: seq<string>)
    ensures found == Util.ExpandDir(dir, env)
    ensures notice == Skipped(dir, env)
  {
    found, notice := [], [];
    if env.isRepo(dir) {
      found := [dir];
    } else {
      var repos := Util.GetReposFromDir(dir, env);
      if repos.Err? {
        notice := [SkipNotice(dir, repos.error)];
      } else {
        found := repos.value;
      }
    }
  }

  // ---------------------------------------------------------------- per-repository output

  /** What the driver prints: lines on standard output and on standard error. */
  datatype Printed = Printed(stdout: seq<string>, stderr: seq<string>)

  const PANIC_NOTICE: string := "A child git command panic'd: Any { .. }"

  /** What one repository's result prints: its report without trailing white space, or its error. */
  function Effect(repo: Path, o: Git.Outcome): Printed {
    match o
    case Returned(Ok(Some(out))) => Printed([TrimEnd(out)], [])
    case Returned(Err(e)) => Printed([], ["Repo " + Display(repo) + ": " + e])
    case _ => Printed([], [])
  }

  /** The effects of the repositories in order, then one notice per panic, as the joins print them. */
  function Effects(repos: seq<Path>, h: Handler, run: Runner): Printed
    decreases |repos|
  {
    if repos == [] then Printed([], [])
    else
      var rest := Effects(repos[..|repos| - 1], h, run);
      var e := Effect(repos[|repos| - 1], h(repos[|repos| - 1], run));
      Printed(rest.stdout + e.stdout, rest.stderr + e.stderr)
  }

  function Panics(repos: seq<Path>, h: Handler, run: Runner): seq<string>
    decreases |repos|
  {
    if repos == [] then []
    else Panics(repos[..|repos| - 1], h, run) + (if h(repos[|repos| - 1], run).Panicked? then [PANIC_NOTICE] else [])
  }

  /** At most one line per repository, and a printed report never ends in white space. */
  lemma {:induction false} EffectsShape(repos: seq<Path>, h: Handler, run: Runner)
    ensures |Effects(repos, h, run).stdout| + |Effects(repos, h, run).stderr| + |Panics(repos, h, run)| <= |repos|
    ensures forall k :: 0 <= k < |Effects(repos, h, run).stdout| ==>
      var l := Effects(repos, h, run).stdout[k]; l == [] || !IsWhitespace(l[|l| - 1])
    decreases |repos|
  {
    if repos != [] {
      var init := repos[..|repos| - 1];
      var last := repos[|repos| - 1];
      EffectsShape(init, h, run);
      EffectShape(last, h(last, run));
      var rest := Effects(init, h, run);
      var e := Effect(last, h(last, run));
      var out := rest.stdout + e.stdout;
      assert Effects(repos, h, run).stdout == out;
      forall k | 0 <= k < |out| ensures out[k] == [] || !IsWhitespace(out[k][|out[k]| - 1]) {
        if k >= |rest.stdout| {
          assert out[k] == e.stdout[k - |rest.stdout|];
        }
      }
    }
  }

  /** One repository prints at most one line, never ending in white space. */
  lemma EffectShape(repo: Path, o: Git.Outcome)
    ensures |Effect(repo, o).stdout| + |Effect(repo, o).stderr| + (if o.Panicked? then 1 else 0) <= 1
    ensures forall k :: 0 <= k < |Effect(repo, o).stdout| ==>
      var l := Effect(repo, o).stdout[k]; l == [] || !IsWhitespace(l[|l| - 1])
  {
    if o.Returned? && o.result.Ok? && o.result.value.Some? {
      var l := TrimEnd(o.result.value.value);
      assert Effect(repo, o).stdout == [l];
    }
  }

  /** A repository whose handler returns nothing prints nothing. */
  lemma {:induction false} QuietRepos(repos: seq<Path>, h: Handler, run: Runner)
    requires forall k :: 0 <= k < |repos| ==> h(repos[k], run) == Git.Returned(Ok(None))
    ensures Effects(repos, h, run) == Printed([], []) && Panics(repos, h, run) == []
    decreases |repos|
  {
    if repos != [] {
      QuietRepos(repos[..|repos| - 1], h, run);
    }
  }

  /**
   * `main`: without arguments only the usage is printed; a configuration
   * error is printed with the usage; otherwise the skipped directories are
   * reported and every resolved repository's outcome is printed.
   */
  method Run(args: seq<string>, cmd: Subcommand, env: Env, homeDir: Option<string>, run: Runner) returns (out: Printed)
    ensures args == [] ==> out == Printed([], [USAGE])
    ensures args != [] && ConfigDirs(env, homeDir).Err? ==> out == Printed([], [ConfigDirs(env, homeDir).error, USAGE])
    ensures args != [] && ConfigDirs(env, homeDir).Ok? ==>
      var dirs := ConfigDirs(env, homeDir).value;
      var repos := Util.Collect(dirs, env);
      var e := Effects(repos, Dispatch(cmd), run);
      out == Printed(e.stdout, SkipNotices(dirs, env) + e.stderr + Panics(repos, Dispatch(cmd), run))
  {
    if args == [] {
      return Printed([], [USAGE]);
    }
    var handler := Dispatch(cmd);
    var dirs := ConfigDirs(env, homeDir);
    if dirs.Err? {
      return Printed([], [dirs.error, USAGE]);
    }
    var allRepos, notices := Resolve(dirs.value, env);
    var e, panics := Report(allRepos, handler, run);
    out := Printed(e.stdout, notices + e.stderr + panics);
  }

  /** One pass over the repositories, printing each outcome and counting the panics. */
  method Report(allRepos: seq<Path>, handler: Handler, run: Runner) returns (e: Printed, panics: seq<string>)
    ensures e == Effects(allRepos, handler, run)
    ensures panics == Panics(allRepos, handler, run)
  {
    var stdout: seq<string> := [];
    var stderr: seq<string> := [];
    panics := [];
    for i := 0 to |allRepos|
      invariant Printed(stdout, stderr) == Effects(allRepos[..i], handler, run)
      invariant panics == Panics(allRepos[..i], handler, run)
    {
      var repo := allRepos[i];
      assert allRepos[..i + 1][..i] == allRepos[..i];
      match handler(repo, run)
      case Returned(Ok(Some(o))) =>
        stdout := stdout + [TrimEnd(o)];
      case Returned(Err(e)) =>
        stderr := stderr + ["Repo " + Display(repo) + ": " + e];
      case Returned(Ok(None)) =>
      case Panicked =>
        panics := panics + [PANIC_NOTICE];
    }
    assert allRepos[..|allRepos|] == allRepos;
    e := Printed(stdout, stderr);
  }
}

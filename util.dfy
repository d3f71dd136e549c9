/**
 * Path display and repository-set resolution (`src/util.rs`): the display
 * of a path below a common ancestor, the JSON record of a report, `~`
 * expansion against HOME, the longest ancestor several paths share, the
 * include and exclude lists of `~/.repoutilrc`, and the repositories they
 * stand for.
 */
module Util {
  import opened Wrappers
  import opened Strings
  import opened Ordering
  import opened Paths
  import opened Host

  lemma AppendAssociative<T>(a: seq<T>, b: seq<T>, c: seq<T>)
    ensures (a + b) + c == a + (b + c)
  {
  }

  // ---------------------------------------------------------------- display

  /** Displaying what is left after the first `k` components and parsing it back gives that rest. */
  lemma StripRoundTrip(p: Path, k: nat)
    requires k <= |p|
    ensures WellFormed(p) ==> p[..k] + Parse(Display(p[k..])) == p
  {
    if WellFormed(p) {
      var rest := p[k..];
      assert WellFormed(rest) by {
        if k == 0 {
          assert rest == p;
        } else {
          forall i | 0 <= i < |rest| ensures IsTail(rest[i]) {
            assert rest[i] == p[k + i];
          }
        }
      }
      ParseDisplay(rest);
      TakeDrop(p, k);
    }
  }

  lemma TakeDrop<T>(s: seq<T>, k: nat)
    requires k <= |s|
    ensures s[..k] + s[k..] == s
  {
  }

  /**
   * `remove_common_ancestor`: the display of `repo` with the components of
   * `common` taken off its front (`strip_prefix(..).unwrap()`, which panics
   * unless `common` is a component prefix), or all of `repo`. Reading the
   * text back as a path and putting the ancestor in front gives `repo`.
   */
  function RemoveCommonAncestor(repo: Path, common: Option<Path>): (r: string)
    requires common.Some? ==> IsPrefix(common.value, repo)
    ensures WellFormed(repo) ==> (if common.Some? then common.value else []) + Parse(r) == repo
  {
    var k := if common.Some? then |common.value| else 0;
    StripRoundTrip(repo, k);
    Display(repo[k..])
  }

  /** The fields of the object `format_json` serialises; an absent subtitle is left out of it. */
  datatype JsonItem = JsonItem(title: string, arg: string, subtitle: Option<string>)

  /**
   * `format_json`: the title is the path below the common ancestor, the
   * argument is the full path when `pathAsArg` holds and empty otherwise,
   * and the subtitle is present exactly when one is given.
   */
  function FormatJson(title: Path, subtitle: Option<string>, pathAsArg: bool, common: Option<Path>): (r: JsonItem)
    requires common.Some? ==> IsPrefix(common.value, title)
    ensures r.subtitle.Some? <==> subtitle.Some?
    ensures subtitle.Some? ==> r.subtitle.value == subtitle.value
    ensures !pathAsArg ==> r.arg == ""
    ensures pathAsArg && WellFormed(title) ==> Parse(r.arg) == title
    ensures WellFormed(title) ==> (if common.Some? then common.value else []) + Parse(r.title) == title
  {
    var arg := if pathAsArg then Display(title) else "";
    StripRoundTrip(title, 0);
    JsonItem(RemoveCommonAncestor(title, common), arg, subtitle)
  }

  // ---------------------------------------------------------------- homedir

  /**
   * What `homedir(s)` returns once HOME has been read as `home`: after a
   * leading `~` every component of the rest is pushed onto HOME, and any
   * other string is pushed onto HOME whole.
   */
  function HomeDirSpec(s: string, home: Path): Path {
    if StartsWith(s, "~") then PushAll(home, Parse(s[1..])) else PushStr(home, s)
  }

  /** `homedir`: fails only when HOME cannot be read. */
  method HomeDir(s: string, home: Result<string>) returns (r: Result<Path>)
    ensures home.Err? ==> r == Err(home.error)
    ensures home.Ok? ==> r == Ok(HomeDirSpec(s, Parse(home.value)))
  {
    if home.Err? {
      return Err(home.error);
    }
    var h := Parse(home.value);
    if StartsWith(s, "~") {
      var cs := Parse(s[1..]);
      var i := 0;
      while i < |cs|
        invariant 0 <= i <= |cs|
        invariant PushAll(h, cs[i..]) == HomeDirSpec(s, Parse(home.value))
      {
        assert cs[i..][1..] == cs[i + 1..];
        h := Push(h, cs[i]);
        i := i + 1;
      }
      return Ok(h);
    } else {
      h := PushStr(h, s);
      return Ok(h);
    }
  }

  /** Pushing the components after `~` one by one is pushing the rest of the string. */
  lemma HomeDirTilde(s: string, home: Path)
    requires StartsWith(s, "~")
    ensures HomeDirSpec(s, home) == PushStr(home, s[1..])
  {
    PushStrIsPushAll(home, s[1..]);
  }

  /**
   * A leading `~` changes nothing: `~rest` and `rest` expand alike. So
   * `~/x` is the absolute `/x`, not `x` under HOME.
   */
  lemma HomeDirTildeRedundant(rest: string, home: Path)
    requires !StartsWith(rest, "~")
    ensures HomeDirSpec("~" + rest, home) == HomeDirSpec(rest, home)
  {
    var s := "~" + rest;
    assert StartsWith(s, "~") && s[1..] == rest;
    HomeDirTilde(s, home);
  }

  /** A relative string lands under a non-empty HOME; an absolute one replaces HOME. */
  lemma HomeDirPlacement(s: string, home: Path)
    requires !StartsWith(s, "~")
    ensures IsAbsolute(s) ==> HomeDirSpec(s, home) == Parse(s)
    ensures !IsAbsolute(s) && home != [] ==> HomeDirSpec(s, home) == home + DropCurDir(Parse(s))
    ensures !IsAbsolute(s) && home != [] ==> IsPrefix(home, HomeDirSpec(s, home))
  {
    if !IsAbsolute(s) && home != [] {
      var r := home + DropCurDir(Parse(s));
      assert r[..|home|] == home;
    }
  }

  /** `~/code` is `/code`, wherever HOME is. */
  lemma HomeDirSlashExample(home: Path)
    ensures HomeDirSpec("~/code", home) == [RootDir, Normal("code")]
  {
    var s := "~/code";
    assert StartsWith(s, "~") && s[1..] == "/code";
    HomeDirTilde(s, home);
    var p := [RootDir, Normal("code")];
    assert Display(p) == "/code";
    ParseDisplay(p);
  }

  // ---------------------------------------------------------------- common_ancestor

  /** Every path has a `k`-th component, and it is the same in all of them. */
  predicate Agree(ss: seq<Path>, k: nat)
    requires ss != []
  {
    k < |ss[0]| && forall i :: 0 <= i < |ss| ==> k < |ss[i]| && ss[i][k] == ss[0][k]
  }

  /** The first position, from `k` on, where the paths stop agreeing. */
  function AgreeUntil(ss: seq<Path>, k: nat): (r: nat)
    requires ss != [] && k <= |ss[0]|
    ensures k <= r <= |ss[0]| && !Agree(ss, r)
    ensures forall j :: k <= j < r ==> Agree(ss, j)
    decreases |ss[0]| - k
  {
    if Agree(ss, k) then AgreeUntil(ss, k + 1) else k
  }

  /** The longest path every one of `ss` starts with; empty for fewer than two paths. */
  function CommonAncestorSpec(ss: seq<Path>): Path {
    if |ss| <= 1 then [] else ss[0][..AgreeUntil(ss, 0)]
  }

  /**
   * `common_ancestor`: the iterators over the paths' components advance in
   * step, so all of them have yielded `k` components at the start of each
   * round of the outer loop.
   */
  method CommonAncestor(ss: seq<Path>) returns (r: Path)
    ensures r == CommonAncestorSpec(ss)
  {
    if |ss| == 0 || |ss| == 1 {
      return [];
    }
    var prefix: Path := [];
    var k := 0;
    label outer: while true
      invariant k <= |ss[0]| && prefix == ss[0][..k]
      invariant AgreeUntil(ss, k) == AgreeUntil(ss, 0)
      decreases |ss[0]| - k
    {
      var next: Option<Component> := None;
      var i := 0;
      while i < |ss|
        invariant 0 <= i <= |ss|
        invariant next.None? <==> i == 0
        invariant next.Some? ==> k < |ss[0]| && next.value == ss[0][k]
        invariant forall j :: 0 <= j < i ==> k < |ss[j]| && ss[j][k] == ss[0][k]
      {
        if k < |ss[i]| {
          var c := ss[i][k];
          if next.Some? {
            if next.value != c {
              break outer;
            }
          } else {
            next := Some(c);
          }
        } else {
          break outer;
        }
        i := i + 1;
      }
      if next.Some? {
        prefix := prefix + [next.value];
        k := k + 1;
      } else {
        break;
      }
    }
    return prefix;
  }

  /**
   * For two or more paths the result is a component prefix of each, and any
   * common prefix of all of them is a prefix of the result: it is the
   * longest one.
   */
  lemma CommonAncestorGreatest(ss: seq<Path>, q: Path)
    requires |ss| >= 2
    requires forall i :: 0 <= i < |ss| ==> IsPrefix(q, ss[i])
    ensures forall i :: 0 <= i < |ss| ==> IsPrefix(CommonAncestorSpec(ss), ss[i])
    ensures IsPrefix(q, CommonAncestorSpec(ss))
  {
    var n := AgreeUntil(ss, 0);
    forall i | 0 <= i < |ss| ensures IsPrefix(ss[0][..n], ss[i]) {
      if n > 0 {
        assert Agree(ss, n - 1);
      }
      forall j | 0 <= j < n ensures ss[i][j] == ss[0][j] {
        assert Agree(ss, j);
      }
    }
    if |q| > n {
      assert Agree(ss, n) by {
        forall i | 0 <= i < |ss| ensures n < |ss[i]| && ss[i][n] == ss[0][n] {
          assert ss[i][..|q|][n] == q[n] == ss[0][..|q|][n];
        }
      }
    }
    forall j | 0 <= j < |q| ensures q[j] == ss[0][j] {
      assert ss[0][..|q|][j] == q[j];
    }
  }

  /**
   * The result cannot be extended: some path has no further component, or
   * two paths differ at the next one.
   */
  lemma CommonAncestorMaximal(ss: seq<Path>)
    requires |ss| >= 2
    ensures var r := CommonAncestorSpec(ss);
      (exists i :: 0 <= i < |ss| && |ss[i]| == |r|)
      || (exists i :: 0 <= i < |ss| && |r| < |ss[i]| && |r| < |ss[0]| && ss[i][|r|] != ss[0][|r|])
  {
    var n := AgreeUntil(ss, 0);
    if n < |ss[0]| {
      var i :| 0 <= i < |ss| && !(n < |ss[i]| && ss[i][n] == ss[0][n]);
      if n >= |ss[i]| {
        CommonAncestorGreatest(ss, []);
        assert |ss[i]| == n;
      }
    }
  }

  /** Fewer than two paths have no common ancestor. */
  lemma CommonAncestorFew(ss: seq<Path>)
    requires |ss| <= 1
    ensures CommonAncestorSpec(ss) == []
  {
  }

  /**
   * `/home/cdavison/code`, `/home/cdavison/code/recipes` and
   * `/home/cdavison/strathclyde` share `/home/cdavison`, which is the path
   * `/home/cdavison/` names too: a trailing separator adds no component.
   */
  lemma CommonAncestorExample()
    ensures var home := [RootDir, Normal("home"), Normal("cdavison")];
      && CommonAncestorSpec([
           home + [Normal("code")],
           home + [Normal("code"), Normal("recipes")],
           home + [Normal("strathclyde")]]) == home
      && Parse(Display(home) + "/") == home
  {
    var home := [RootDir, Normal("home"), Normal("cdavison")];
    var ss := [home + [Normal("code")], home + [Normal("code"), Normal("recipes")], home + [Normal("strathclyde")]];
    assert Agree(ss, 0) && Agree(ss, 1) && Agree(ss, 2);
    assert !Agree(ss, 3) by {
      assert ss[2][3] != ss[0][3];
    }
    assert AgreeUntil(ss, 0) == 3;
    assert ss[0][..3] == home;
    TrailingSeparatorExample(home);
  }

  lemma TrailingSeparatorExample(home: Path)
    requires home == [RootDir, Normal("home"), Normal("cdavison")]
    ensures Parse(Display(home) + "/") == home
  {
    ParseTrailingSeparator(Display(home));
    ParseDisplay(home);
  }

  // ---------------------------------------------------------------- get_dirs_from_config

  /** What one line of `~/.repoutilrc` says, once trimmed. */
  datatype ConfigLine = Ignored | Exclude(path: Path) | Include(path: Path)

  /** Blank and `#` lines say nothing; a `!` line excludes the expanded rest; any other line includes itself. */
  function Classify(line: string, home: Path): ConfigLine {
    var t := Trim(line);
    if t == [] || StartsWith(t, "#") then Ignored
    else if StartsWith(t, "!") then Exclude(HomeDirSpec(t[1..], home))
    else Include(HomeDirSpec(t, home))
  }

  function ClassifyAll(lines: seq<string>, home: Path): (r: seq<ConfigLine>)
    ensures |r| == |lines| && forall i :: 0 <= i < |lines| ==> r[i] == Classify(lines[i], home)
  {
    seq(|lines|, i requires 0 <= i < |lines| => Classify(lines[i], home))
  }

  /** The excluded paths, in line order. */
  function ExcludesOf(kinds: seq<ConfigLine>): seq<Path> {
    if kinds == [] then []
    else (if kinds[0].Exclude? then [kinds[0].path] else []) + ExcludesOf(kinds[1..])
  }

  /** The included paths, in line order, each unless an earlier line (or `seen`) excluded it. */
  function IncludesOf(kinds: seq<ConfigLine>, seen: seq<Path>): seq<Path> {
    if kinds == [] then []
    else
      match kinds[0]
      case Include(p) => (if p in seen then [] else [p]) + IncludesOf(kinds[1..], seen)
      case Exclude(p) => IncludesOf(kinds[1..], seen + [p])
      case Ignored => IncludesOf(kinds[1..], seen)
  }

  /** The configuration file's name, relative to HOME. */
  const CONFIG_FILE: string := ".repoutilrc"

  /** `$HOME/.repoutilrc`, where `get_dirs_from_config` reads. */
  function ConfigPath(home: Path): Path {
    HomeDirSpec(CONFIG_FILE, home)
  }

  /** What `get_dirs_from_config` returns: the includes and excludes, or why there are none. */
  function DirsFromConfig(env: Env): Result<(seq<Path>, seq<Path>)> {
    match env.home
    case Err(e) => Err(e)
    case Ok(h) =>
      var home := Parse(h);
      match env.readFile(ConfigPath(home))
      case Missing => Err("No ~/.repoutilrc")
      case Unreadable(e) => Err(e)
      case Contents(lines) =>
        var kinds := ClassifyAll(lines, home);
        Ok((IncludesOf(kinds, []), ExcludesOf(kinds)))
  }

  /**
   * The line loop of `get_dirs_from_config`, entered once HOME has been
   * read: it keeps the order of the lines in both lists.
   */
  method ReadConfigLines(lines: seq<string>, homeVar: Result<string>) returns (includes: seq<Path>, excludes: seq<Path>)
    requires homeVar.Ok?
    ensures var kinds := ClassifyAll(lines, Parse(homeVar.value));
      includes == IncludesOf(kinds, []) && excludes == ExcludesOf(kinds)
  {
    ghost var kinds := ClassifyAll(lines, Parse(homeVar.value));
    includes := [];
    excludes := [];
    var i := 0;
    assert kinds[0..] == kinds;
    while i < |lines|
      invariant 0 <= i <= |lines|
      invariant includes + IncludesOf(kinds[i..], excludes) == IncludesOf(kinds, [])
      invariant excludes + ExcludesOf(kinds[i..]) == ExcludesOf(kinds)
    {
      var k := ClassifyLine(lines[i], homeVar);
      ReadStep(kinds, i, includes, excludes);
      if k.Exclude? {
        excludes := excludes + [k.path];
      } else if k.Include? && k.path !in excludes {
        includes := includes + [k.path];
      }
      i := i + 1;
    }
    assert kinds[i..] == [];
  }

  /** Trims one line, skips it when blank or a comment, and expands the path of any other. */
  method ClassifyLine(line: string, homeVar: Result<string>) returns (k: ConfigLine)
    requires homeVar.Ok?
    ensures k == Classify(line, Parse(homeVar.value))
  {
    var t := Trim(line);
    if t == [] || StartsWith(t, "#") {
      return Ignored;
    }
    if StartsWith(t, "!") {
      // HOME was read before the loop and cannot fail now.
      var path := HomeDir(t[1..], homeVar);
      return Exclude(path.value);
    }
    var path := HomeDir(t, homeVar);
    return Include(path.value);
  }

  /** The loop's invariant survives reading line `i`. */
  lemma ReadStep(kinds: seq<ConfigLine>, i: nat, includes: seq<Path>, excludes: seq<Path>)
    requires i < |kinds|
    requires includes + IncludesOf(kinds[i..], excludes) == IncludesOf(kinds, [])
    requires excludes + ExcludesOf(kinds[i..]) == ExcludesOf(kinds)
    ensures var k := kinds[i];
      var includes' := if k.Include? && k.path !in excludes then includes + [k.path] else includes;
      var excludes' := if k.Exclude? then excludes + [k.path] else excludes;
      && includes' + IncludesOf(kinds[i + 1..], excludes') == IncludesOf(kinds, [])
      && excludes' + ExcludesOf(kinds[i + 1..]) == ExcludesOf(kinds)
  {
    var k := kinds[i];
    var rest := kinds[i + 1..];
    assert kinds[i..] == [k] + rest;
    OneLine(k, rest, excludes);
    var addInc: seq<Path> := if k.Include? && k.path !in excludes then [k.path] else [];
    var addExc: seq<Path> := if k.Exclude? then [k.path] else [];
    AppendAssociative(includes, addInc, IncludesOf(rest, excludes + addExc));
    AppendAssociative(excludes, addExc, ExcludesOf(rest));
    assert includes + [] == includes && excludes + [] == excludes;
  }

  /** What one more line at the front adds to either list. */
  lemma OneLine(k: ConfigLine, rest: seq<ConfigLine>, seen: seq<Path>)
    ensures ExcludesOf([k] + rest) == (if k.Exclude? then [k.path] else []) + ExcludesOf(rest)
    ensures IncludesOf([k] + rest, seen) ==
      (if k.Include? && k.path !in seen then [k.path] else [])
      + IncludesOf(rest, seen + (if k.Exclude? then [k.path] else []))
  {
    assert ([k] + rest)[1..] == rest;
    assert seen + [] == seen;
  }

  /** `get_dirs_from_config` */
  method GetDirsFromConfig(env: Env) returns (r: Result<(seq<Path>, seq<Path>)>)
    ensures r == DirsFromConfig(env)
  {
    var p := HomeDir(CONFIG_FILE, env.home);
    if p.Err? {
      return Err(p.error);
    }
    assert p.value == ConfigPath(Parse(env.home.value));
    match env.readFile(p.value)
    case Missing =>
      return Err("No ~/.repoutilrc");
    case Unreadable(e) =>
      return Err(e);
    case Contents(lines) =>
      var includes, excludes := ReadConfigLines(lines, env.home);
      return Ok((includes, excludes));
  }

  /** A path is excluded exactly when some `!` line names it. */
  lemma {:induction false} ExcludesMembership(kinds: seq<ConfigLine>, p: Path)
    ensures p in ExcludesOf(kinds) <==> Exclude(p) in kinds
  {
    if kinds != [] {
      ExcludesMembership(kinds[1..], p);
      assert kinds == [kinds[0]] + kinds[1..];
    }
  }

  /**
   * A path is included exactly when a plain line names it and neither
   * `seen` nor a `!` line before that one excluded it: a `!` line never
   * includes anything, and a later `!` line does not undo an earlier
   * inclusion.
   */
  lemma {:induction false} IncludesMembership(kinds: seq<ConfigLine>, seen: seq<Path>, p: Path)
    ensures p in IncludesOf(kinds, seen) <==>
      exists i :: 0 <= i < |kinds| && kinds[i] == Include(p) && p !in seen + ExcludesOf(kinds[..i])
  {
    if kinds != [] {
      var tail := kinds[1..];
      var head := if kinds[0].Exclude? then [kinds[0].path] else [];
      var seen' := seen + head;
      IncludesMembership(tail, seen', p);
      if !kinds[0].Exclude? {
        assert seen' == seen;
      }
      assert p in IncludesOf(kinds, seen) <==>
        (kinds[0] == Include(p) && p !in seen) || p in IncludesOf(tail, seen');
      forall i | 1 <= i <= |kinds|
        ensures seen + ExcludesOf(kinds[..i]) == seen' + ExcludesOf(tail[..i - 1])
      {
        ExcludesShift(kinds, seen, i);
      }
      assert seen + ExcludesOf(kinds[..0]) == seen by {
        assert kinds[..0] == [];
      }
      if exists i :: 0 <= i < |kinds| && kinds[i] == Include(p) && p !in seen + ExcludesOf(kinds[..i]) {
        var i :| 0 <= i < |kinds| && kinds[i] == Include(p) && p !in seen + ExcludesOf(kinds[..i]);
        if i > 0 {
          assert tail[i - 1] == kinds[i];
        }
      }
      if exists i :: 0 <= i < |tail| && tail[i] == Include(p) && p !in seen' + ExcludesOf(tail[..i]) {
        var i :| 0 <= i < |tail| && tail[i] == Include(p) && p !in seen' + ExcludesOf(tail[..i]);
        assert kinds[i + 1] == tail[i];
      }
    }
  }

  /** The excludes before line `i`, seen from the second line on. */
  lemma ExcludesShift(kinds: seq<ConfigLine>, seen: seq<Path>, i: nat)
    requires 1 <= i <= |kinds|
    ensures seen + ExcludesOf(kinds[..i]) ==
      (seen + if kinds[0].Exclude? then [kinds[0].path] else []) + ExcludesOf(kinds[1..][..i - 1])
  {
    var head := if kinds[0].Exclude? then [kinds[0].path] else [];
    var tail := kinds[1..];
    assert kinds[..i] == [kinds[0]] + tail[..i - 1];
    assert ([kinds[0]] + tail[..i - 1])[1..] == tail[..i - 1];
    assert ExcludesOf(kinds[..i]) == head + ExcludesOf(tail[..i - 1]);
    AppendAssociative(seen, head, ExcludesOf(tail[..i - 1]));
  }

  predicate Said(k: ConfigLine) {
    !k.Ignored?
  }

  /** Blank and comment lines can be dropped from the file without changing either list. */
  lemma {:induction false} IgnoredLinesDropOut(kinds: seq<ConfigLine>, seen: seq<Path>)
    ensures IncludesOf(Filter(kinds, Said), seen) == IncludesOf(kinds, seen)
    ensures ExcludesOf(Filter(kinds, Said)) == ExcludesOf(kinds)
  {
    if kinds != [] {
      var rest := Filter(kinds[1..], Said);
      assert Filter(kinds, Said) == (if Said(kinds[0]) then [kinds[0]] else []) + rest;
      match kinds[0]
      case Include(p) =>
        IgnoredLinesDropOut(kinds[1..], seen);
        assert ([kinds[0]] + rest)[1..] == rest;
      case Exclude(p) =>
        IgnoredLinesDropOut(kinds[1..], seen + [p]);
        assert ([kinds[0]] + rest)[1..] == rest;
      case Ignored =>
        assert Filter(kinds, Said) == rest;
        IgnoredLinesDropOut(kinds[1..], seen);
    }
  }

  // ---------------------------------------------------------------- get_repos_from_dir

  /** `read_dir(dir)` entries' `path()`: each name joined onto `dir`. */
  function Children(dir: Path, names: seq<string>): (r: seq<Path>)
    ensures |r| == |names|
    ensures forall i :: 0 <= i < |names| ==> r[i] == dir + [Normal(names[i])]
  {
    seq(|names|, i requires 0 <= i < |names| => dir + [Normal(names[i])])
  }

  /**
   * `get_repos_from_dir`: the entries of `dir` that are repositories,
   * sorted; the listing's error when `dir` cannot be read.
   */
  function GetReposFromDir(dir: Path, env: Env): (r: Result<seq<Path>>)
    ensures r.Err? <==> env.listDir(dir).Err?
    ensures r.Ok? ==> Sorted(r.value, PathLess)
    ensures r.Ok? ==> forall x :: x in r.value <==> x in Children(dir, env.listDir(dir).value) && env.isRepo(x)
    ensures r.Ok? ==> multiset(r.value) == multiset(Filter(Children(dir, env.listDir(dir).value), env.isRepo))
  {
    match env.listDir(dir)
    case Err(e) => Err(e)
    case Ok(names) =>
      PathLessIsStrictTotalOrder();
      var repos := Sort(Filter(Children(dir, names), env.isRepo), PathLess);
      assert forall x :: x in repos <==> x in multiset(repos);
      Ok(repos)
  }

  // ---------------------------------------------------------------- get_repos_from_config

  /** What one configured directory stands for: itself if a repository, else its repository children. */
  function ExpandDir(dir: Path, env: Env): seq<Path> {
    if env.isRepo(dir) then [dir]
    else match GetReposFromDir(dir, env)
      case Ok(repos) => repos
      case Err(_) => []
  }

  function ExpandAll(dirs: seq<Path>, env: Env): seq<Path> {
    if dirs == [] then [] else ExpandDir(dirs[0], env) + ExpandAll(dirs[1..], env)
  }

  /**
   * Every directory's repositories, sorted and without repeats: the list
   * both `get_repos_from_config` and `main` build before they go on.
   */
  function Collect(dirs: seq<Path>, env: Env): (r: seq<Path>)
    ensures StrictlySorted(r, PathLess)
    ensures forall x :: x in r <==> exists i :: 0 <= i < |dirs| && x in ExpandDir(dirs[i], env)
  {
    PathLessIsStrictTotalOrder();
    var sorted := Sort(ExpandAll(dirs, env), PathLess);
    DedupSorted(sorted, PathLess);
    forall x ensures x in sorted <==> x in ExpandAll(dirs, env) {
      assert x in sorted <==> x in multiset(sorted);
    }
    forall x ensures x in ExpandAll(dirs, env) <==> exists i :: 0 <= i < |dirs| && x in ExpandDir(dirs[i], env) {
      ExpandAllMembership(dirs, env, x);
    }
    Dedup(sorted)
  }

  /** Everything collected is a repository. */
  lemma CollectedAreRepos(dirs: seq<Path>, env: Env)
    ensures forall x :: x in Collect(dirs, env) ==> env.isRepo(x)
  {
    forall x | x in Collect(dirs, env) ensures env.isRepo(x) {
      var i :| 0 <= i < |dirs| && x in ExpandDir(dirs[i], env);
      ExpandDirRepos(dirs[i], env);
    }
  }

  /** What `get_repos_from_config` returns. */
  function ReposFromConfig(env: Env): Result<(seq<Path>, seq<Path>)> {
    match DirsFromConfig(env)
    case Err(e) => Err(e)
    case Ok((inc, exc)) =>
      var excludes := Filter(exc, env.isRepo);
      Ok((Filter(Collect(inc, env), x => x !in excludes), excludes))
  }

  /** `get_repos_from_config` */
  method GetReposFromConfig(env: Env) returns (r: Result<(seq<Path>, seq<Path>)>)
    ensures r == ReposFromConfig(env)
  {
    var dirs := GetDirsFromConfig(env);
    if dirs.Err? {
      return Err(dirs.error);
    }
    var (inc, exc) := dirs.value;
    var excludes := Filter(exc, env.isRepo);
    var includes: seq<Path> := [];
    var i := 0;
    assert inc[0..] == inc;
    while i < |inc|
      invariant 0 <= i <= |inc|
      invariant includes + ExpandAll(inc[i..], env) == ExpandAll(inc, env)
    {
      assert inc[i..][1..] == inc[i + 1..];
      var dir := inc[i];
      ghost var before := includes;
      assert ExpandAll(inc[i..], env) == ExpandDir(dir, env) + ExpandAll(inc[i + 1..], env);
      if env.isRepo(dir) {
        assert ExpandDir(dir, env) == [dir];
        includes := includes + [dir];
      } else {
        var repos := GetReposFromDir(dir, env);
        if repos.Ok? {
          assert ExpandDir(dir, env) == repos.value;
          includes := includes + repos.value;
        } else {
          assert ExpandDir(dir, env) == [];
        }
      }
      assert includes == before + ExpandDir(dir, env);
      AppendAssociative(before, ExpandDir(dir, env), ExpandAll(inc[i + 1..], env));
      i := i + 1;
    }
    assert inc[|inc|..] == [];
    assert includes == ExpandAll(inc, env);
    PathLessIsStrictTotalOrder();
    includes := Sort(includes, PathLess);
    includes := Dedup(includes);
    assert DirsFromConfig(env) == Ok((inc, exc));
    return Ok((Filter(includes, x => x !in excludes), excludes));
  }

  /** The repositories one list of directories stands for. */
  lemma {:induction false} ExpandAllMembership(dirs: seq<Path>, env: Env, x: Path)
    ensures x in ExpandAll(dirs, env) <==> exists i :: 0 <= i < |dirs| && x in ExpandDir(dirs[i], env)
  {
    if dirs != [] {
      ExpandAllMembership(dirs[1..], env, x);
      if exists i :: 0 <= i < |dirs| && x in ExpandDir(dirs[i], env) {
        var i :| 0 <= i < |dirs| && x in ExpandDir(dirs[i], env);
        if i > 0 {
          assert dirs[1..][i - 1] == dirs[i];
        }
      }
    }
  }

  /** Every path a directory expands to is a repository; an unreadable non-repository expands to nothing. */
  lemma ExpandDirRepos(dir: Path, env: Env)
    ensures forall x :: x in ExpandDir(dir, env) ==> env.isRepo(x)
    ensures !env.isRepo(dir) && env.listDir(dir).Err? ==> ExpandDir(dir, env) == []
  {
  }

  /**
   * The resolved includes are strictly increasing (so sorted and free of
   * duplicates), all repositories, and none of them excluded; they are
   * exactly the repositories the configured directories stand for, minus
   * the excludes. The excludes are the `!` paths that are repositories.
   */
  lemma ReposFromConfigShape(env: Env)
    requires ReposFromConfig(env).Ok?
    ensures var (inc, exc) := ReposFromConfig(env).value;
      && StrictlySorted(inc, PathLess)
      && (forall x :: x in inc ==> env.isRepo(x) && x !in exc)
      && (forall x :: x in exc ==> env.isRepo(x))
      && exc == Filter(DirsFromConfig(env).value.1, env.isRepo)
      && forall x :: x in inc <==> (x !in exc
           && exists i :: 0 <= i < |DirsFromConfig(env).value.0| && x in ExpandDir(DirsFromConfig(env).value.0[i], env))
  {
    var (inc0, exc0) := DirsFromConfig(env).value;
    var excludes := Filter(exc0, env.isRepo);
    PathLessIsStrictTotalOrder();
    FilterStrictlySorted(Collect(inc0, env), x => x !in excludes, PathLess);
    CollectedAreRepos(inc0, env);
  }
}

# repoutil, modelled in Dafny

`repoutil` manages many git repositories at once. It reads a list of
directories from `~/.repoutilrc`, expands each one into the repositories it
holds, and runs one summariser per repository: a short status, a branch
status with ahead/behind arrows and change counts, a list of branches, or
only the names of the repositories that need attention. Its results are
printed as plain lines, lines with ANSI colour, or JSON records.

This project models that core and proves what it promises:

- `Paths`: `Path::components`, `PathBuf::push` and path display over a
  `Path = seq<Component>`. It proves the display round trip and that path
  order is a strict total order.
- `Strings` and `Ordering`: the string and vector operations the source
  relies on. These are `split`, `replace`, `find`, `trim`, `join`, sorting,
  deduplication, filtering and reversal, each with the lemmas the models
  below need.
- `AnsiEscape`: the escape constants and `colour` (`src/ansi_escape.rs`).
- `Host`: the outside world as parameters. An `Env` answers "is this a
  repository", lists a directory, reads a file, and holds the `HOME`
  variable. A `Runner` maps a program, a working directory and arguments to
  the output lines of the command, a spawn failure, or invalid UTF-8.
- `Util` (`src/util.rs`): common ancestors, title stripping, JSON records,
  `homedir`, the configuration file, and repository resolution.
- `VcsGit` (`src/vcs/git.rs`): the newer summarisers `push`, `fetch`,
  `stat`, `needs_attention`, `untracked`, `branches` and `branchstat`.
- `Git` (`src/git.rs`): the older summarisers, which run several git
  commands and join what they say.
- `Driver` (`src/main.rs`): the older command-line driver. It covers
  configuration reading with shell-style `~` expansion, the resolution
  loop, the subcommand dispatch, and what each repository's outcome
  prints. Its `get_repos` (`src/main.rs:119-127`) is the same function as
  `get_repos_from_dir` in `src/util.rs`, so `Util.GetReposFromDir` models
  both. Its expand, sort and dedup of the configured directories is also
  the one `get_repos_from_config` performs, so both use `Util.Collect`.

The panics in the newer code become preconditions: the `unwrap` of
`strip_prefix`, the bracket slice of `branchstat`, and its byte slice of an
escape-led line. The older driver catches a panic when it joins the
thread, so the panic of the older `branches` becomes a `Panicked` outcome.

## Model

| member | source | states |
|---|---|---|
| AnsiEscape.StylesAreSgr | src/ansi_escape.rs:4-45 | every style constant and the reset has the form ESC `[` digits `m` |
| AnsiEscape.Colour | src/ansi_escape.rs:52-55 | the result starts with the joined codes, ends with the reset, and holds exactly the text between them |
| AnsiEscape.ColourWithoutCodes | src/ansi_escape.rs:52-55 | with no codes the result is the text followed by the reset, and never the bare text |
| AnsiEscape.ColourInjective | src/ansi_escape.rs:52-55 | colouring with the same codes never maps two texts to one result |
| Util.RemoveCommonAncestor | src/util.rs:9-15 | given a component prefix, the common prefix followed by the parsed title gives back the repository path; without one the title is the whole path |
| Util.FormatJson | src/util.rs:17-42 | the arg parses back to the path exactly when the path is the arg, and is empty otherwise; the title is the path without the prefix; a subtitle field exists exactly when one is given |
| Util.HomeDir | src/util.rs:44-56 | a missing `HOME` is the error; otherwise the loop pushing each component after `~` onto the home path computes `HomeDirSpec`, which the three lemmas below characterise |
| Util.HomeDirTilde | src/util.rs:46-51 | a string starting with `~` pushes each component of the rest onto the home path |
| Util.HomeDirTildeRedundant | src/util.rs:44-56 | `~` followed by text that does not start with `~` expands like the text alone |
| Util.HomeDirPlacement | src/util.rs:52-54 | an absolute string replaces the home path; a relative one lands under it |
| Util.HomeDirSlashExample | src/util.rs:46-51 | `~/code` expands to `/code`, not to a path under the home directory |
| Util.CommonAncestor | src/util.rs:58-86 | the loop over the component iterators computes the common-ancestor specification |
| Util.CommonAncestorFew | src/util.rs:59-61 | zero or one path gives the empty path |
| Util.CommonAncestorGreatest | src/util.rs:62-85 | for two or more paths the result is a prefix of every path, and every common prefix is a prefix of the result |
| Util.CommonAncestorMaximal | src/util.rs:64-84 | after the result, some path ends or two paths differ at the next component |
| Util.CommonAncestorExample | src/util.rs:158-167 | the ancestor of `/home/cdavison/code`, `.../code/recipes` and `.../strathclyde` is `/home/cdavison` |
| Util.ReadConfigLines | src/util.rs:96-114 | the line loop builds the includes and the excludes of the classified lines (each line classified on its own, in order), in line order |
| Util.ClassifyLine | src/util.rs:98-108 | a trimmed blank or `#` line is skipped, a `!` line is the exclude of its expanded rest, any other the include of its expanded self |
| Util.GetDirsFromConfig | src/util.rs:88-115 | a missing `HOME` or configuration file, or an unreadable one, is an error; otherwise the result is the classified lines' includes and excludes |
| Util.ExcludesMembership | src/util.rs:103-106 | a path is excluded exactly when some `!` line names it |
| Util.IncludesMembership | src/util.rs:107-111 | a path is included exactly when some plain line names it and no earlier `!` line excluded it |
| Util.IgnoredLinesDropOut | src/util.rs:99-102 | blank and `#` lines change neither list |
| Util.GetReposFromDir | src/util.rs:117-126 | an unlistable directory is the error; otherwise the result is sorted and holds exactly the children (the directory joined with each listed name) that are repositories, as a permutation of those repository children |
| Util.GetReposFromConfig | src/util.rs:128-152 | the include loop, sort, dedup and exclude filter compute the resolution specification |
| Util.ExpandAllMembership | src/util.rs:136-143 | a path is in the expansion exactly when one configured directory expands to it |
| Util.ExpandDirRepos | src/util.rs:137-142 | a directory expands only to repositories, and an unlistable non-repository to nothing |
| Util.CollectedAreRepos | src/util.rs:136-145 | everything left after the sort and dedup of the expansions is a repository |
| Util.ReposFromConfigShape | src/util.rs:128-152 | the includes are strictly increasing repositories with no exclude among them; they are exactly the non-excluded expansions; the excludes are the `!` paths that are repositories |
| Host.Status | src/vcs/git.rs:11-14 | waiting for a command fails only when it cannot be spawned |
| Host.OutputLines | src/vcs/git.rs:56-61 | the output lines are available exactly when the command ran and printed UTF-8 |
| VcsGit.Title | src/util.rs:9-15 | the prefix and the parsed title give back the repository path |
| VcsGit.Label | src/vcs/git.rs:45-50 | JSON exactly when asked, with the path as the arg, no subtitle and the title; otherwise the title |
| VcsGit.Columns | src/vcs/git.rs:102-106 | the left text is padded with spaces to the width, then comes the separator and the right text |
| VcsGit.Push | src/vcs/git.rs:10-16 | an error exactly when git cannot be spawned, and never a report |
| VcsGit.Untracked | src/vcs/git.rs:45-52 | always a report, the repository's label |
| VcsGit.KeptLinesShape | src/vcs/git.rs:62-66 | all lines are kept when the first ends with `]`, otherwise all but the first; none remain exactly when there is one line and it does not end with `]` |
| VcsGit.Stat | src/vcs/git.rs:55-82 | an error exactly when the output is unavailable; nothing exactly when no line is kept; JSON exactly when asked |
| VcsGit.StatTextLines | src/vcs/git.rs:74-78 | the plain report splits on newlines into the title, the kept lines and a final empty piece |
| VcsGit.StatJson | src/vcs/git.rs:71-72 | the JSON subtitle is the kept lines joined with `, `, the arg is the path and the title is the path below the common prefix |
| VcsGit.NeedsAttention | src/vcs/git.rs:28-42 | `stat` errors pass through unchanged; a report exactly when `stat` has one, and then it is the repository's label |
| VcsGit.DescendingOrder | src/vcs/git.rs:91-93 | sorting then reversing the branch lines gives the unique arrangement in descending order |
| VcsGit.Branches | src/vcs/git.rs:85-109 | an error exactly when the output is unavailable, otherwise always a report; in JSON the arg is empty and the subtitle is the descending trimmed lines (every line trimmed, in order) joined by `, `; in plain text it is the title padded to 30, a tab, then that list |
| VcsGit.AheadBehindInside | src/vcs/git.rs:155-162 | the text between the first `[` and the first `]` is taken, with `ahead ` and `behind ` rewritten |
| VcsGit.BracketPositions | src/vcs/git.rs:157-158 | the first `[` and the first `]` are found where they stand |
| VcsGit.ArrowsAheadBehind | src/vcs/git.rs:159-161 | `ahead N, behind M` becomes `↑N, ↓M` |
| VcsGit.ArrowsOneSided | src/vcs/git.rs:159-161 | `ahead N` becomes `↑N` and `behind M` becomes `↓M` |
| VcsGit.CodeAfterColour | src/vcs/git.rs:170-175 | an escape-led line is classified by its character at byte 5 |
| VcsGit.ModifiedOrUntracked | src/vcs/git.rs:176-181 | no line counts as both modified and untracked |
| VcsGit.CountCodes | src/vcs/git.rs:167-182 | the loop counts exactly the modified and the untracked file lines |
| VcsGit.ReadCode | src/vcs/git.rs:169-174 | the status code is read from the trimmed line, or from byte 5 of a colour-coded one |
| VcsGit.PartsEmpty | src/vcs/git.rs:184-212 | the joined summary is empty exactly when there is nothing ahead or behind and no count is positive |
| VcsGit.PartsCount | src/vcs/git.rs:184-208 | there is one part per thing to say, in the order ahead/behind, `±`, `?`, `▲` |
| VcsGit.NoColourParts | src/vcs/git.rs:154-199 | without colour the ahead/behind part still ends in a reset, and the count parts contain no escape |
| VcsGit.ColouredParts | src/vcs/git.rs:154-207 | with colour every part opens with an escape, and the ahead/behind part with blue |
| VcsGit.BranchstatOutcome | src/vcs/git.rs:135-231 | git's failure comes first, then jj's; the result is nothing exactly when there is no bracket, nothing is modified or untracked, and jj lists no mutable change |
| VcsGit.Branchstat | src/vcs/git.rs:135-231 | the method, with its counting loop and its parts vector, computes the branch-status specification |
| VcsGit.Fetch | src/vcs/git.rs:19-25 | a spawn failure is the error, whatever `branchstat` would do; otherwise the result is `branchstat`'s |
| Git.CommandOutput | src/git.rs:13-22 | the lines exactly when the command ran and printed UTF-8 |
| Git.Fetch | src/git.rs:25-31 | nothing exactly when there is no output line; otherwise the path, a newline, then lines 1 onward concatenated |
| Git.FetchOneLine | src/git.rs:27-28 | a single output line gives the path and a newline |
| Git.StatAgreesWithNewer | src/git.rs:34-50 | the older `stat` keeps the same lines as the newer one and prints the newer plain report |
| Git.HasTrackIffSpace | src/git.rs:63-66 | a line has a second space-separated field exactly when it contains a space |
| Git.AheadBehind | src/git.rs:52-73 | an error exactly when the output is unavailable; a report is never empty, and it is the output lines, each stripped of quotes and surrounding white space, that contain a space, run together in order |
| Git.AheadBehindNone | src/git.rs:61-72 | nothing exactly when no cleaned line contains a space |
| Git.Modified | src/git.rs:75-83 | a report exactly when the joined output contains `changed`, and it starts with `Modified ` |
| Git.ModifiedNumber | src/git.rs:78 | the number is the first space-separated field after leading white space |
| Git.ModifiedCount | src/git.rs:75-83 | output that is white space, a number `n`, a space and text containing `changed` reports exactly `Modified n` |
| Git.CountReport | src/git.rs:87-91 | nothing exactly when there are no lines; otherwise the name, a space, and the decimal line count |
| Git.Status | src/git.rs:85-92 | staged files are counted as `Staged n` |
| Git.Untracked | src/git.rs:94-101 | untracked files are counted as `Untracked n` |
| Git.Branches | src/git.rs:103-118 | a panic exactly when byte 2 of a trimmed `*` line is not a character boundary; otherwise a missing parent, then a parent without a stem, then a directory without a stem is the error, in that order; a report is parent stem `/` directory stem padded to 40, a tab, then the `*` lines without their first two characters, run together |
| Git.BranchesValue | src/git.rs:103-118 | with a parent, both stems and sliceable `*` lines, the report is exactly that padded label, a tab and the current branch |
| Git.BranchesExample | src/git.rs:103-118 | in `/code/repoutil`, the lines `* main` and `  dev` report `code/repoutil`, padding, a tab and `main` |
| Git.Present | src/git.rs:121-125 | a text is kept exactly when it is one of the present parts; none exactly when every part is absent |
| Git.PresentAppend | src/git.rs:121-125 | the parts are kept in order: those of a concatenation are those of the first run, then those of the second |
| Git.Branchstat | src/git.rs:120-134 | an error exactly when one of the four commands fails, and it is the first failure in the order ahead/behind, modified, staged, untracked; a report is the displayed path padded to 40, a space, a vertical bar and a space, then the present parts joined by `, ` |
| Git.PartsNonEmpty | src/git.rs:52-101 | a part that is present is never empty |
| Git.BranchstatNone | src/git.rs:128-133 | nothing exactly when all four parts are absent |
| Git.NeedsAttention | src/git.rs:137-142 | never an error; a report exactly when `stat` has one, and it is the path |
| Git.List | src/git.rs:145-147 | always the path |
| Driver.Dispatch | src/main.rs:50-57 | only `branches` can panic; `unclean` is `needs_attention`; `unclean` and `list` never fail |
| Driver.TildeUnderHome | src/main.rs:111 | `~/name` lands under an absolute home directory |
| Driver.ConfigDirs | src/main.rs:104-116 | a missing file is the `No ~/.repoutilrc` error and an unreadable one its read error; otherwise each line, `~`-expanded, is one directory |
| Util.Collect | src/main.rs:66-82 | the repositories `main` runs on are strictly increasing and are exactly the expansions of the configured directories |
| Driver.Resolve | src/main.rs:66-82 | the loop, sort and dedup compute the repository list, with one notice per unlistable non-repository directory |
| Driver.Report | src/main.rs:84-101 | the per-repository pass prints each outcome and records each panic |
| Driver.EffectsShape | src/main.rs:89-93 | at most one line per repository, and a printed report never ends in white space |
| Driver.QuietRepos | src/main.rs:89-93 | repositories with nothing to report print nothing |
| Driver.Run | src/main.rs:43-102 | no arguments prints only the usage; a configuration error prints the error and the usage; otherwise the skip notices, then each repository's outcome, then the panic notices |

## Left out

- Running git and jj, reading files, listing directories and reading
  `HOME` are parameters (`Host.Runner`, `Host.Env`). Whether a path holds
  `.git` is `Env.isRepo`, for both `is_repo` and `is_git_repo`.
- The threads in the older `main` run one per repository, and their output
  may interleave. The model runs the repositories in sorted order. Each
  join prints its notice once its own thread and all earlier threads have
  finished, so a notice can come before a later repository's output. The
  model prints all notices last and does not model interleaving.
- Command-line parsing with StructOpt, `should_color_stdout`, and the
  completion script in `build.rs` are not modelled. The subcommand
  arrives already parsed.
- JSON output is the record `Util.JsonItem`. `serde_json`'s text and its
  escaping are not modelled.
- The `{:?}` form of a path is modelled as its display in double quotes,
  without Rust's escaping of special characters.
- `Display` prints a path in its normalised form. It keeps no doubled `/`
  and no interior `.`, because paths are component sequences.
- `lines()` also drops a `\r` before each `\n`. The model takes the command
  output as lines already split.
- `dashboard`, `src/vcs/jj.rs`, and `add` and `list` in `src/vcs.rs` are
  not modelled. They relay subprocess output or append to the
  configuration file.
- The `FormatOpts` struct is defined in the crate root, which is not part
  of this model. `VcsGit.FormatOpts` holds the three fields the
  summarisers read.
- VcsGit.Title: requires that the common prefix is a component prefix of
  the path. This is the `unwrap` of `strip_prefix`.
- VcsGit.Branchstat: requires that a bracketed first line closes its
  bracket after opening it, and that an escape-led file line has an ASCII
  character at byte 5. These are the panics at `src/vcs/git.rs:157-159`
  and `src/vcs/git.rs:172`.
- VcsGit.Branches: the in-place sort and reverse are modelled as the
  function `Descending`, proved to be the unique descending permutation.
- Driver.Tilde: follows shell-style expansion, with the home directory
  passed in as an option.
- Util.GetReposFromConfig: `~/x` in the configuration file expands to
  `/x`, not to a path under the home directory. The excludes
  are filtered to repositories but not sorted or deduplicated. An
  unreadable include is skipped without a warning; only the older driver
  prints one.
- Driver.Run: a configuration error ends the run after printing, as the
  code does; the exit status is not modelled.
- Driver.Run: the branch for an empty command line models
  `src/main.rs:46` as written, but the program never reaches it. The
  subcommand is required (`src/main.rs:15`), so StructOpt rejects an empty
  command line before that test.
- Driver.Run: a panicking thread also prints Rust's default panic message
  (`thread '<unnamed>' panicked at ...`) to standard error, before the
  join notice of `src/main.rs:98-99`. The model prints only the join
  notice.

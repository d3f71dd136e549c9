/**
 * What the program asks of the machine it runs on, as values: the HOME
 * variable, which directories hold a `.git`, directory listings, the
 * configuration file, and the output of the `git` and `jj` subprocesses.
 */
module Host {
  import opened Wrappers
  import opened Paths

  /** What reading a file finds: nothing there, a read error, or its lines. */
  datatype FileState = Missing | Unreadable(error: string) | Contents(lines: seq<string>)

  /**
   * The environment. `home` is `std::env::var("HOME")` (its error text when
   * unset or not Unicode); `isRepo(p)` is whether `p/.git` exists;
   * `listDir(p)` gives the names of the readable entries of directory `p`,
   * or the error `read_dir` fails with; `readFile(p)` is the config file.
   */
  datatype Env = Env(
    home: Result<string>,
    isRepo: Path -> bool,
    listDir: Path -> Result<seq<string>>,
    readFile: Path -> FileState)

  /**
   * A finished subprocess: it could not be started, its standard output
   * was not UTF-8, or it printed these lines (as `str::lines` splits them).
   */
  datatype CmdOutput = SpawnFailed(error: string) | NotUtf8(error: string) | Lines(lines: seq<string>)

  /** Runs `program` with `args` in directory `dir`. */
  type Runner = (string, Path, seq<string>) -> CmdOutput

  /** `Command::status()?`: only a failure to start is an error; the exit code is ignored. */
  function Status(out: CmdOutput): (r: Result<()>)
    ensures r.Err? <==> out.SpawnFailed?
  {
    if out.SpawnFailed? then Err(out.error) else Ok(())
  }

  /** `Command::output()?` then `str::from_utf8(..)?.lines()`. */
  function OutputLines(out: CmdOutput): (r: Result<seq<string>>)
    ensures r.Ok? <==> out.Lines?
    ensures r.Ok? ==> r.value == out.lines
  {
    match out
    case SpawnFailed(e) => Err(e)
    case NotUtf8(e) => Err(e)
    case Lines(ls) => Ok(ls)
  }
}

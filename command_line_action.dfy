/**
 * `CommandLineAction`, which runs an external command once per enumerated source file.
 *
 * The command is a template. `%source%` stands for the absolute source path and `%target%` for
 * the absolute target path. The result is split at runs of whitespace into the program and its
 * arguments. The target mirrors the source file under the destination, and its directory is
 * created when it is missing.
 *
 * Three external things are parameters:
 * - `exec` stands for starting the process, reading its output and waiting for it. Given the
 *   argument list, it returns the lines the process prints and its exit code, or the exception
 *   that ended the attempt.
 * - `cwd` is the working directory that `toAbsolutePath` resolves against.
 * - `matches` is the glob matcher.
 */
module CommandLine {
  import opened Wrappers
  import opened Sequences
  import opened JavaText
  import opened Paths
  import opened Exceptions
  import opened Logging
  import opened FileSystems
  import opened FileTree
  import opened Settings
  import opened Actions

  const ACTION_NAME := "command-line"
  const PN_COMMAND := ACTION_NAME + ".command"
  const SOURCE_PLACEHOLDER := "%source%"
  const TARGET_PLACEHOLDER := "%target%"

  /** The action's three final fields. */
  datatype CommandLineAction = CommandLineAction(commandFormat: string, outputLogLevel: LogLevel, ignoreExitCode: bool)

  /**
   * The constructor, given the bound properties. A missing output level is OFF and a missing
   * exit-code flag is false: Spring supplies both defaults. A null command is refused.
   */
  function NewCommandLineAction(command: Option<string>, outputLogLevel: LogLevel, ignoreExitCode: bool)
    : (r: Result<CommandLineAction, Throwable>)
    ensures r.Success? <==> command.Some?
    ensures r.Success? ==>
      r.value.commandFormat == command.value && r.value.outputLogLevel == outputLogLevel
      && r.value.ignoreExitCode == ignoreExitCode
    ensures r.Failure? ==>
      r.error.kind == ActionPropertyException && IsA(r.error.kind, ActionInitException) && r.error.cause == None
      && ParseActionMessage(r.error.message) == Some((ACTION_NAME, PropertyError(PN_COMMAND, "not specified")))
  {
    if command.None? then
      assert IsA(ActionPropertyException, ActionInitException) by {
        assert Super(ActionPropertyException) == Some(ActionInitException);
      }
      ActionMessageRoundTrip(ACTION_NAME, PropertyError(PN_COMMAND, "not specified"));
      Failure(NewActionPropertyException(ACTION_NAME, PN_COMMAND, "not specified", None))
    else Success(CommandLineAction(command.value, outputLogLevel, ignoreExitCode))
  }

  // ---------------------------------------------------------------------------
  // execCommand: the command line, its arguments and the exit-code rule
  // ---------------------------------------------------------------------------

  /** Every `%source%` is replaced by the absolute source, then every `%target%` by the absolute target. */
  function CommandLineText(commandFormat: string, absSource: Path, absTarget: Path): string {
    Replace(Replace(commandFormat, SOURCE_PLACEHOLDER, ToString(absSource)), TARGET_PLACEHOLDER, ToString(absTarget))
  }

  /**
   * No placeholder is left when neither absolute path contains `%`. An absolute path's text
   * contains '/', and neither placeholder does.
   */
  lemma NoPlaceholderRemains(commandFormat: string, absSource: Path, absTarget: Path)
    requires IsAbsolute(absSource) && IsAbsolute(absTarget)
    requires '%' !in ToString(absSource) && '%' !in ToString(absTarget)
    ensures var c := CommandLineText(commandFormat, absSource, absTarget);
      !Occurs(SOURCE_PLACEHOLDER, c) && !Occurs(TARGET_PLACEHOLDER, c)
  {
    var src, tgt := ToString(absSource), ToString(absTarget);
    AbsoluteTextHasSlash(absSource);
    AbsoluteTextHasSlash(absTarget);
    assert '/' in src && '/' in tgt;
    var once := Replace(commandFormat, SOURCE_PLACEHOLDER, src);
    ReplaceLeavesNoPlaceholder(commandFormat, SOURCE_PLACEHOLDER, src, SOURCE_PLACEHOLDER, '/');
    ReplaceLeavesNoPlaceholder(once, TARGET_PLACEHOLDER, tgt, SOURCE_PLACEHOLDER, '/');
    ReplaceLeavesNoPlaceholder(once, TARGET_PLACEHOLDER, tgt, TARGET_PLACEHOLDER, '/');
  }

  /** A template without placeholders is the command line as it stands. */
  lemma TemplateWithoutPlaceholders(commandFormat: string, absSource: Path, absTarget: Path)
    requires !Occurs(SOURCE_PLACEHOLDER, commandFormat) && !Occurs(TARGET_PLACEHOLDER, commandFormat)
    ensures CommandLineText(commandFormat, absSource, absTarget) == commandFormat
  {
    ReplaceWithoutOccurrence(commandFormat, SOURCE_PLACEHOLDER, ToString(absSource));
    ReplaceWithoutOccurrence(commandFormat, TARGET_PLACEHOLDER, ToString(absTarget));
  }

  /**
   * The argument list, `commandLine.split("\\s+")`. No token contains whitespace. Every token
   * after the first is non-empty. The tokens joined are the command line with its whitespace
   * removed.
   */
  function Arguments(commandFormat: string, absSource: Path, absTarget: Path): (r: seq<string>)
    ensures forall i :: 0 <= i < |r| ==> !HasSpace(r[i])
    ensures forall i :: 0 < i < |r| ==> r[i] != []
    ensures Concat(r) == NonSpace(CommandLineText(commandFormat, absSource, absTarget))
  {
    var commandLine := CommandLineText(commandFormat, absSource, absTarget);
    SplitTokensHaveNoSpace(commandLine);
    SplitTokensNonEmpty(commandLine);
    SplitKeepsText(commandLine);
    Split(commandLine)
  }

  /** `%` starts both placeholders, so a template without `%` contains neither. */
  lemma {:induction false} NoMarkNoOccurrence(pat: string, s: string)
    requires pat != [] && pat[0] !in s
    ensures !Occurs(pat, s)
    decreases |s|
  {
    if s != [] {
      assert pat[0] != s[0];
      assert pat[0] !in s[1..] by {
        assert forall i :: 0 <= i < |s[1..]| ==> s[1..][i] == s[i + 1];
      }
      NoMarkNoOccurrence(pat, s[1..]);
    }
  }

  /**
   * A template of `\s` only, such as `" "`, passes construction, which rejects only a missing
   * command. It has no placeholder, and its command line splits into no argument at all.
   */
  lemma BlankTemplateHasNoArguments(commandFormat: string, absSource: Path, absTarget: Path)
    requires commandFormat != [] && forall i :: 0 <= i < |commandFormat| ==> IsSpace(commandFormat[i])
    ensures NewCommandLineAction(Some(commandFormat), OFF, false).Success?
    ensures Arguments(commandFormat, absSource, absTarget) == []
  {
    assert '%' !in commandFormat;
    NoMarkNoOccurrence(SOURCE_PLACEHOLDER, commandFormat);
    NoMarkNoOccurrence(TARGET_PLACEHOLDER, commandFormat);
    TemplateWithoutPlaceholders(commandFormat, absSource, absTarget);
    SplitEmptyExactlyWhenAllSpace(commandFormat);
  }

  /** A command succeeds when it exits with 0, or with any code when exit codes are ignored. */
  predicate ExitAccepted(exitCode: int, ignoreExitCode: bool) {
    exitCode == 0 || ignoreExitCode
  }

  function ExitError(sourceFile: Path, exitCode: int): string {
    "Command run for " + ToString(sourceFile) + " exits with code " + IntToString(exitCode)
  }

  /** The `ActionException` of a refused exit code; it has no cause. */
  function ExitFailure(sourceFile: Path, exitCode: int): Throwable {
    NewActionException(ACTION_NAME, ExitError(sourceFile, exitCode), None)
  }

  /** The message of a refused exit code names the file, and the exit code can be read back from its end. */
  lemma ExitFailureNamesCode(sourceFile: Path, exitCode: int)
    ensures var t := ExitFailure(sourceFile, exitCode);
      var head := ActionMessage(ACTION_NAME, "Command run for " + ToString(sourceFile) + " exits with code ");
      t.kind == ActionException && t.cause == None
      && StartsWith(t.message, head) && ParseInt(t.message[|head|..]) == Some(exitCode)
  {
    var t := ExitFailure(sourceFile, exitCode);
    var error, digits := "Command run for " + ToString(sourceFile) + " exits with code ", IntToString(exitCode);
    var head := ActionMessage(ACTION_NAME, error);
    assert t.message == head + digits;
    HeadAndTail(head, digits);
    IntToStringRoundTrip(exitCode);
  }

  lemma HeadAndTail(head: string, tail: string)
    ensures StartsWith(head + tail, head) && (head + tail)[|head|..] == tail
  {
  }

  /** Different exit codes of the same file give different messages. */
  lemma ExitFailuresDistinct(sourceFile: Path, a: int, b: int)
    requires a != b
    ensures ExitFailure(sourceFile, a).message != ExitFailure(sourceFile, b).message
  {
    ExitFailureNamesCode(sourceFile, a);
    ExitFailureNamesCode(sourceFile, b);
  }

  // ---------------------------------------------------------------------------
  // handleOutput
  // ---------------------------------------------------------------------------

  /** `"Command for {} outputs:\n{}"` with the source file's text and one output line. */
  function OutputMessage(sourceText: string, line: string): string {
    "Command for " + sourceText + " outputs:\n" + line
  }

  /**
   * The log events of `handleOutput`. At OFF the output is not read and nothing is logged.
   * Otherwise each line, in order, goes to the logger method of the level.
   */
  function OutputEvents(level: LogLevel, sourceText: string, lines: seq<string>): (r: seq<LogEvent>)
    ensures level == OFF ==> r == []
    ensures level != OFF ==>
      |r| == |lines| && forall i :: 0 <= i < |lines| ==> r[i] == LogEvent(MethodFor(level), OutputMessage(sourceText, lines[i]))
    decreases |lines|
  {
    if level == OFF || lines == [] then []
    else OutputEvents(level, sourceText, lines[..|lines| - 1])
         + [LogEvent(MethodFor(level), OutputMessage(sourceText, lines[|lines| - 1]))]
  }

  /** The read-line loop of `handleOutput`. */
  method HandleOutput(level: LogLevel, sourceText: string, lines: seq<string>) returns (events: seq<LogEvent>)
    ensures events == OutputEvents(level, sourceText, lines)
  {
    events := [];
    if level == OFF {
      return;
    }
    var i := 0;
    while i < |lines|
      invariant 0 <= i <= |lines|
      invariant events == OutputEvents(level, sourceText, lines[..i])
    {
      assert lines[..i + 1][..i] == lines[..i];
      events := events + [LogEvent(MethodFor(level), OutputMessage(sourceText, lines[i]))];
      i := i + 1;
    }
    assert lines[..i] == lines;
  }

  /**
   * The level decides the logger method. FATAL and ERROR log the same events. Any other two
   * levels that log anything log differently.
   */
  lemma OutputLevels(a: LogLevel, b: LogLevel, sourceText: string, lines: seq<string>)
    requires a != OFF && b != OFF && lines != []
    ensures OutputEvents(a, sourceText, lines) == OutputEvents(b, sourceText, lines)
        <==> a == b || ({a, b} == {ERROR, FATAL})
  {
    var ea, eb := OutputEvents(a, sourceText, lines), OutputEvents(b, sourceText, lines);
    if ea == eb {
      assert ea[0].via == MethodFor(a) && eb[0].via == MethodFor(b);
    }
  }

  // ---------------------------------------------------------------------------
  // execCommand
  // ---------------------------------------------------------------------------

  /**
   * What running an argument list gives. Either the process exits, after printing `output`, with
   * `exitCode`. Or an exception ends the attempt: starting the process, reading its output or
   * waiting for it fails, after the lines in `output` were read.
   */
  datatype ProcessRun =
    | Exited(output: seq<string>, exitCode: int)
    | Raised(output: seq<string>, error: Throwable)

  /** What `execCommand` did: the argument list, the events its output logged, and the exception it threw, if any. */
  datatype Exec = Exec(arguments: seq<string>, events: seq<LogEvent>, error: Option<Throwable>)

  /**
   * `ProcessBuilder.start()` takes the program from `cmdarray[0]`, so an empty argument list
   * throws `ArrayIndexOutOfBoundsException` before any process exists. The JDK's message is
   * the one below.
   */
  const EmptyCommandFailure := Throwable(ArrayIndexOutOfBoundsException, "Index 0 out of bounds for length 0", None)

  /** Starting a process for `arguments`, reading its output and waiting for it. */
  function Start(exec: seq<string> -> ProcessRun, arguments: seq<string>): ProcessRun {
    if arguments == [] then Raised([], EmptyCommandFailure) else exec(arguments)
  }

  /** `execCommand(sourceFile, targetFile)`. */
  function ExecResult(action: CommandLineAction, cwd: Path, exec: seq<string> -> ProcessRun,
                      sourceFile: Path, targetFile: Path): Exec
    requires IsAbsolute(cwd)
  {
    var arguments := Arguments(action.commandFormat, Absolute(cwd, sourceFile), Absolute(cwd, targetFile));
    var run := Start(exec, arguments);
    var events := OutputEvents(action.outputLogLevel, ToString(sourceFile), run.output);
    match run
    case Raised(_, e) => Exec(arguments, events, Some(e))
    case Exited(_, exitCode) =>
      Exec(arguments, events, if ExitAccepted(exitCode, action.ignoreExitCode) then None else Some(ExitFailure(sourceFile, exitCode)))
  }

  /**
   * The exit-code rule. A command succeeds exactly when its process exits with 0, or with any
   * code when exit codes are ignored. An exception from the process is passed on as it is. A
   * refused exit code gives an `ActionException` that names the file and the code. The output
   * is logged either way. An empty argument list starts nothing and always fails, with an
   * unchecked exception and no output.
   */
  lemma ExitRule(action: CommandLineAction, cwd: Path, exec: seq<string> -> ProcessRun, sourceFile: Path,
                 targetFile: Path)
    requires IsAbsolute(cwd)
    ensures var x := ExecResult(action, cwd, exec, sourceFile, targetFile);
      var run := Start(exec, x.arguments);
      (x.arguments != [] ==> run == exec(x.arguments))
      && (x.arguments == [] ==>
           x.error == Some(EmptyCommandFailure) && IsUnchecked(EmptyCommandFailure.kind) && x.events == [])
      && x.arguments == Split(CommandLineText(action.commandFormat, Absolute(cwd, sourceFile), Absolute(cwd, targetFile)))
      && x.events == OutputEvents(action.outputLogLevel, ToString(sourceFile), run.output)
      && (x.error.None? <==> run.Exited? && (run.exitCode == 0 || action.ignoreExitCode))
      && (run.Raised? ==> x.error == Some(run.error))
      && (run.Exited? && x.error.Some? ==>
            x.error.value.kind == ActionException && x.error.value.cause == None
            && x.error.value.message
               == ActionMessage(ACTION_NAME, "Command run for " + ToString(sourceFile) + " exits with code " + IntToString(run.exitCode)))
  {
    assert IsUnchecked(EmptyCommandFailure.kind) by {
      assert Super(ArrayIndexOutOfBoundsException) == Some(IndexOutOfBoundsException);
      assert Super(IndexOutOfBoundsException) == Some(RuntimeException);
    }
  }

  method ExecCommand(action: CommandLineAction, cwd: Path, exec: seq<string> -> ProcessRun,
                     sourceFile: Path, targetFile: Path) returns (x: Exec)
    requires IsAbsolute(cwd)
    ensures x == ExecResult(action, cwd, exec, sourceFile, targetFile)
  {
    var commandLine := CommandLineText(action.commandFormat, Absolute(cwd, sourceFile), Absolute(cwd, targetFile));
    var arguments := Arguments(action.commandFormat, Absolute(cwd, sourceFile), Absolute(cwd, targetFile));
    if arguments == [] {
      return Exec(arguments, [], Some(EmptyCommandFailure));
    }
    var run := exec(arguments);
    var events := HandleOutput(action.outputLogLevel, ToString(sourceFile), run.output);
    if run.Raised? {
      return Exec(arguments, events, Some(run.error));
    }
    if ExitAccepted(run.exitCode, action.ignoreExitCode) {
      return Exec(arguments, events, None);
    }
    x := Exec(arguments, events, Some(ExitFailure(sourceFile, run.exitCode)));
  }

  // ---------------------------------------------------------------------------
  // processFile
  // ---------------------------------------------------------------------------

  /**
   * What happened to one file that did not end the run. It is `Ran` when the command succeeded.
   * It is `Skipped` when a fail-tolerant setting passed over a failure, with the warning and
   * the exception.
   */
  datatype CommandOutcome =
    | Ran(source: Path, target: Path, arguments: seq<string>)
    | Skipped(source: Path, warning: string, cause: Throwable)

  /** The directories, the outcomes so far, the events logged from command output, and the exception that ends the run. */
  datatype CommandState = CommandState(dirs: set<Path>, log: seq<CommandOutcome>, output: seq<LogEvent>,
                                       error: Option<Throwable>)

  /** The working directory, the process runner and the glob matcher. */
  datatype CommandEnv = CommandEnv(cwd: Path, exec: seq<string> -> ProcessRun, matches: (string, string) -> bool)

  function DirFailed(sourceFile: Path): string {
    "Failed to create a target sub-dir/s for " + ToString(sourceFile)
  }

  function ExecFailed(sourceFile: Path): string {
    "Failed to execute a command for " + ToString(sourceFile)
  }

  /**
   * `if (Files.notExists(dir)) Files.createDirectories(dir)`. An existing path is left alone,
   * even a regular file. Otherwise the missing ancestors are created.
   */
  function EnsureDir(dirs: set<Path>, files: set<Path>, unwritable: set<Path>, dir: Path): (m: Made)
    requires [] in dirs
    ensures dirs <= m.dirs
  {
    if dir in dirs || dir in files then Made(true, dirs) else MkDirs(dirs, files, unwritable, dir)
  }

  /** What `EnsureDir` creates: only missing ancestors, nothing for an existing path. */
  lemma EnsureDirEffect(dirs: set<Path>, files: set<Path>, unwritable: set<Path>, dir: Path)
    requires Closed(dirs) && dirs !! files
    ensures var m := EnsureDir(dirs, files, unwritable, dir);
      Closed(m.dirs) && m.dirs !! files && dirs <= m.dirs <= dirs + Ancestors(dir)
      && (dir in dirs || dir in files ==> m == Made(true, dirs))
      && (m.ok ==> dir in m.dirs || dir in files)
  {
    MkDirsEffect(dirs, files, unwritable, dir);
    assert dir in Ancestors(dir) by {
      assert dir[..|dir|] == dir;
    }
  }

  /**
   * `processFile(sourceFile, setting)`. The target's directory is the working directory when
   * the target is a bare name; the code as written fails there.
   */
  function ProcessFileStep(s: CommandState, files: set<Path>, unwritable: set<Path>, action: CommandLineAction,
                           setting: Setting, env: CommandEnv, sourceFile: Path): (r: CommandState)
    requires [] in s.dirs && IsAbsolute(env.cwd) && Beneath(setting.source, sourceFile)
    ensures s.dirs <= r.dirs
  {
    var target := TargetFile(setting.source, sourceFile, setting.destination);
    var dir := ContainingDir(target);
    var m := EnsureDir(s.dirs, files, unwritable, dir);
    if !m.ok then
      if setting.failTolerant then CommandState(m.dirs, s.log + [Skipped(sourceFile, DirFailed(sourceFile), IOFailure(dir))], s.output, None)
      else CommandState(m.dirs, s.log, s.output,
                        Some(NewActionRuntimeException(ACTION_NAME, DirFailed(sourceFile), Some(IOFailure(dir)))))
    else
      var x := ExecResult(action, env.cwd, env.exec, sourceFile, target);
      if x.error.None? then CommandState(m.dirs, s.log + [Ran(sourceFile, target, x.arguments)], s.output + x.events, None)
      else if setting.failTolerant then
        CommandState(m.dirs, s.log + [Skipped(sourceFile, ExecFailed(sourceFile), x.error.value)], s.output + x.events, None)
      else CommandState(m.dirs, s.log, s.output + x.events,
                        Some(NewActionRuntimeException(ACTION_NAME, ExecFailed(sourceFile), x.error)))
  }

  /** The directory step of `processFile` on the file system: `EnsureDir`. */
  method EnsureTargetDir(fs: FileSystem, dir: Path) returns (ok: bool)
    requires fs.Valid()
    modifies fs
    ensures fs.Valid() && fs.files == old(fs.files)
    ensures Made(ok, fs.dirs) == EnsureDir(old(fs.dirs), fs.files, fs.unwritable, dir)
  {
    ok := true;
    if !fs.Exists(dir) {
      ok := fs.CreateDirectories(dir);
    }
  }

  method ProcessFile(fs: FileSystem, action: CommandLineAction, setting: Setting, env: CommandEnv, sourceFile: Path,
                     log: seq<CommandOutcome>, output: seq<LogEvent>)
    returns (newLog: seq<CommandOutcome>, newOutput: seq<LogEvent>, error: Option<Throwable>)
    requires fs.Valid() && IsAbsolute(env.cwd) && Beneath(setting.source, sourceFile)
    modifies fs
    ensures fs.Valid() && fs.files == old(fs.files)
    ensures CommandState(fs.dirs, newLog, newOutput, error)
         == ProcessFileStep(CommandState(old(fs.dirs), log, output, None), fs.files, fs.unwritable, action, setting,
                            env, sourceFile)
  {
    var targetFile := TargetFile(setting.source, sourceFile, setting.destination);
    var dir := ContainingDir(targetFile);
    var ok := EnsureTargetDir(fs, dir);
    if !ok {
      if setting.failTolerant {
        return log + [Skipped(sourceFile, DirFailed(sourceFile), IOFailure(dir))], output, None;
      }
      return log, output, Some(NewActionRuntimeException(ACTION_NAME, DirFailed(sourceFile), Some(IOFailure(dir))));
    }
    var x := ExecCommand(action, env.cwd, env.exec, sourceFile, targetFile);
    newOutput := output + x.events;
    if x.error.Some? {
      if setting.failTolerant {
        return log + [Skipped(sourceFile, ExecFailed(sourceFile), x.error.value)], newOutput, None;
      }
      return log, newOutput, Some(NewActionRuntimeException(ACTION_NAME, ExecFailed(sourceFile), x.error));
    }
    newLog, error := log + [Ran(sourceFile, targetFile, x.arguments)], None;
  }

  /**
   * With a template of `\s` only, `processFile` never runs a command. Once the target's
   * directory is there, the empty argument list fails: a fail-tolerant setting skips the file
   * with that failure, any other ends the run with it as the cause. No command output is logged.
   */
  lemma BlankCommandNeverRuns(s: CommandState, files: set<Path>, unwritable: set<Path>, action: CommandLineAction,
                              setting: Setting, env: CommandEnv, sourceFile: Path)
    requires [] in s.dirs && IsAbsolute(env.cwd) && Beneath(setting.source, sourceFile)
    requires action.commandFormat != []
    requires forall i :: 0 <= i < |action.commandFormat| ==> IsSpace(action.commandFormat[i])
    ensures var r := ProcessFileStep(s, files, unwritable, action, setting, env, sourceFile);
      r.output == s.output
      && (setting.failTolerant ==>
            r.error.None? && |r.log| == |s.log| + 1 && r.log[..|s.log|] == s.log && r.log[|s.log|].Skipped?)
      && (!setting.failTolerant ==> r.error.Some? && r.log == s.log)
    ensures var r := ProcessFileStep(s, files, unwritable, action, setting, env, sourceFile);
      var dir := ContainingDir(TargetFile(setting.source, sourceFile, setting.destination));
      EnsureDir(s.dirs, files, unwritable, dir).ok ==>
        (setting.failTolerant ==> r.log[|s.log|] == Skipped(sourceFile, ExecFailed(sourceFile), EmptyCommandFailure))
        && (!setting.failTolerant ==> r.error.value.cause == Some(EmptyCommandFailure))
  {
    var target := TargetFile(setting.source, sourceFile, setting.destination);
    BlankTemplateHasNoArguments(action.commandFormat, Absolute(env.cwd, sourceFile), Absolute(env.cwd, target));
  }

  // ---------------------------------------------------------------------------
  // run
  // ---------------------------------------------------------------------------

  /**
   * The `forEach` of `run` over the enumerated files, from the state before them. An exception
   * thrown for one file ends the iteration, and no later file is looked at.
   */
  function ProcessAll(paths: seq<Path>, s: CommandState, files: set<Path>, unwritable: set<Path>,
                      action: CommandLineAction, setting: Setting, env: CommandEnv): (r: CommandState)
    requires [] in s.dirs && IsAbsolute(env.cwd)
    requires forall p :: p in paths ==> Beneath(setting.source, p)
    ensures s.dirs <= r.dirs
    decreases |paths|
  {
    if paths == [] || s.error.Some? then s
    else
      ProcessAll(paths[1..], ProcessFileStep(s, files, unwritable, action, setting, env, paths[0]), files, unwritable,
                 action, setting, env)
  }

  /**
   * `run(setting)` with this action's own `createPathStream`. A source directory that cannot be
   * opened gives the `IOException` itself. An unreadable directory met during the walk ends the
   * run after the files before it.
   */
  function RunSpec(dirs: set<Path>, files: set<Path>, unwritable: set<Path>, action: CommandLineAction,
                   setting: Setting, tree: Entry, env: CommandEnv): CommandState
    requires [] in dirs && IsAbsolute(env.cwd)
    requires ValidPath(setting.source) && WellFormed(tree) && !tree.RegularFile?
  {
    match FindFiles(setting, tree, env.matches)
    case StartFailed => CommandState(dirs, [], [], Some(IOFailure(setting.source)))
    case Started(walk) =>
      StreamPathsBeneath(ACTION_NAME, setting, tree, env.matches);
      var s := ProcessAll(walk.paths, CommandState(dirs, [], [], None), files, unwritable, action, setting, env);
      if s.error.None? && walk.failed then s.(error := Some(WalkFailed)) else s
  }

  /** The `forEach` on the file system: `ProcessFile` for each path until one throws. */
  method ProcessPaths(fs: FileSystem, action: CommandLineAction, setting: Setting, env: CommandEnv, paths: seq<Path>)
    returns (log: seq<CommandOutcome>, output: seq<LogEvent>, error: Option<Throwable>)
    requires fs.Valid() && IsAbsolute(env.cwd)
    requires forall p :: p in paths ==> Beneath(setting.source, p)
    modifies fs
    ensures fs.Valid() && fs.files == old(fs.files)
    ensures CommandState(fs.dirs, log, output, error)
         == ProcessAll(paths, CommandState(old(fs.dirs), [], [], None), fs.files, fs.unwritable, action, setting, env)
  {
    ghost var files := fs.files;
    ghost var goal := ProcessAll(paths, CommandState(fs.dirs, [], [], None), files, fs.unwritable, action, setting, env);
    log, output, error := [], [], None;
    var i := 0;
    Whole(paths);
    while i < |paths|
      invariant 0 <= i <= |paths| && fs.Valid() && fs.files == files && error.None?
      invariant goal == ProcessAll(paths[i..], CommandState(fs.dirs, log, output, None), files, fs.unwritable,
                                   action, setting, env)
    {
      ghost var st := CommandState(fs.dirs, log, output, None);
      DropNext(paths, i);
      ghost var next := ProcessFileStep(st, files, fs.unwritable, action, setting, env, paths[i]);
      assert ProcessAll(paths[i..], st, files, fs.unwritable, action, setting, env)
          == ProcessAll(paths[i + 1..], next, files, fs.unwritable, action, setting, env);
      log, output, error := ProcessFile(fs, action, setting, env, paths[i], log, output);
      assert CommandState(fs.dirs, log, output, error) == next;
      if error.Some? {
        assert ProcessAll(paths[i + 1..], next, files, fs.unwritable, action, setting, env) == next;
        return;
      }
      i := i + 1;
    }
  }

  method Run(fs: FileSystem, action: CommandLineAction, setting: Setting, tree: Entry, env: CommandEnv)
    returns (log: seq<CommandOutcome>, output: seq<LogEvent>, error: Option<Throwable>)
    requires fs.Valid() && IsAbsolute(env.cwd)
    requires ValidPath(setting.source) && WellFormed(tree) && !tree.RegularFile?
    modifies fs
    ensures fs.Valid() && fs.files == old(fs.files)
    ensures CommandState(fs.dirs, log, output, error)
         == RunSpec(old(fs.dirs), fs.files, fs.unwritable, action, setting, tree, env)
  {
    var found := FindFiles(setting, tree, env.matches);
    if found.StartFailed? {
      return [], [], Some(IOFailure(setting.source));
    }
    StreamPathsBeneath(ACTION_NAME, setting, tree, env.matches);
    log, output, error := ProcessPaths(fs, action, setting, env, found.walk.paths);
    if error.None? && found.walk.failed {
      error := Some(WalkFailed);
    }
  }

  // ---------------------------------------------------------------------------
  // Properties of processFile and run
  // ---------------------------------------------------------------------------

  /**
   * One file. A failure to create the target's directory, or a failed command, ends the run
   * exactly when the setting is not fail-tolerant. The `ActionRuntimeException` then names the
   * action and the file and wraps the cause. Otherwise exactly one outcome is logged for the
   * file, and it is `Ran` exactly when the command succeeded. The command's output is logged
   * whenever it ran.
   */
  lemma ProcessFileOutcome(s: CommandState, files: set<Path>, unwritable: set<Path>, action: CommandLineAction,
                           setting: Setting, env: CommandEnv, sourceFile: Path)
    requires [] in s.dirs && IsAbsolute(env.cwd) && Beneath(setting.source, sourceFile)
    ensures var target := TargetFile(setting.source, sourceFile, setting.destination);
      var dir := ContainingDir(target);
      var m := EnsureDir(s.dirs, files, unwritable, dir);
      var x := ExecResult(action, env.cwd, env.exec, sourceFile, target);
      var r := ProcessFileStep(s, files, unwritable, action, setting, env, sourceFile);
      (r.error.Some? <==> !setting.failTolerant && (!m.ok || x.error.Some?))
      && r.output == (if m.ok then s.output + x.events else s.output)
      && (r.error.Some? ==>
            r.log == s.log && r.error.value.kind == ActionRuntimeException
            && r.error.value.message == ActionMessage(ACTION_NAME, if m.ok then ExecFailed(sourceFile) else DirFailed(sourceFile))
            && r.error.value.cause == (if m.ok then x.error else Some(IOFailure(dir))))
      && (r.error.None? ==>
            |r.log| == |s.log| + 1 && r.log[..|s.log|] == s.log && r.log[|s.log|].source == sourceFile
            && (r.log[|s.log|].Ran? <==> m.ok && x.error.None?)
            && (r.log[|s.log|].Ran? ==> r.log[|s.log|] == Ran(sourceFile, target, x.arguments)))
  {
  }

  /**
   * The directories. The target mirrors the source under the destination. Only missing
   * ancestors of its directory are created, and nothing when that path exists. A command runs
   * only once the directory exists.
   */
  lemma ProcessFileDirectories(s: CommandState, files: set<Path>, unwritable: set<Path>, action: CommandLineAction,
                               setting: Setting, env: CommandEnv, sourceFile: Path)
    requires Closed(s.dirs) && s.dirs !! files && IsAbsolute(env.cwd) && Beneath(setting.source, sourceFile)
    ensures var r := ProcessFileStep(s, files, unwritable, action, setting, env, sourceFile);
      Closed(r.dirs) && r.dirs !! files
    ensures var target := TargetFile(setting.source, sourceFile, setting.destination);
      var dir := ContainingDir(target);
      var r := ProcessFileStep(s, files, unwritable, action, setting, env, sourceFile);
      target == setting.destination + sourceFile[|setting.source|..]
      && s.dirs <= r.dirs <= s.dirs + Ancestors(dir)
      && (dir in s.dirs || dir in files ==> r.dirs == s.dirs)
      && (r.error.None? && r.log[|s.log|].Ran? ==> dir in r.dirs || dir in files)
  {
    ProcessFileOutcome(s, files, unwritable, action, setting, env, sourceFile);
    var target := TargetFile(setting.source, sourceFile, setting.destination);
    EnsureDirEffect(s.dirs, files, unwritable, ContainingDir(target));
  }

  /** The sources of the logged outcomes, in order. */
  function Sources(log: seq<CommandOutcome>): (r: seq<Path>)
    ensures |r| == |log| && forall i :: 0 <= i < |log| ==> r[i] == log[i].source
  {
    seq(|log|, i requires 0 <= i < |log| => log[i].source)
  }

  lemma SourcesAppend(log: seq<CommandOutcome>, o: CommandOutcome)
    ensures Sources(log + [o]) == Sources(log) + [o.source]
  {
  }

  /** An iteration that does not throw logs one outcome, for its file; one that throws logs none. */
  lemma LogStep(s: CommandState, files: set<Path>, unwritable: set<Path>, action: CommandLineAction,
                setting: Setting, env: CommandEnv, sourceFile: Path)
    requires [] in s.dirs && IsAbsolute(env.cwd) && Beneath(setting.source, sourceFile)
    ensures var r := ProcessFileStep(s, files, unwritable, action, setting, env, sourceFile);
      (r.error.None? ==> Sources(r.log) == Sources(s.log) + [sourceFile])
      && (r.error.Some? ==> r.log == s.log)
      && (setting.failTolerant ==> r.error.None?)
  {
    var r := ProcessFileStep(s, files, unwritable, action, setting, env, sourceFile);
    ProcessFileOutcome(s, files, unwritable, action, setting, env, sourceFile);
    if r.error.None? {
      var o := r.log[|s.log|];
      assert r.log == s.log + [o];
      SourcesAppend(s.log, o);
    }
  }

  /**
   * Files are processed in enumeration order. The log names a prefix of the enumeration, all of
   * it unless an iteration threw. Then the iteration that threw is the one for the first file
   * not logged, and nothing happens after it.
   */
  lemma {:induction false} FilesProcessedInOrder(paths: seq<Path>, init: CommandState, files: set<Path>,
                                                 unwritable: set<Path>, action: CommandLineAction,
                                                 setting: Setting, env: CommandEnv)
    returns (k: nat)
    requires [] in init.dirs && IsAbsolute(env.cwd)
    requires forall p :: p in paths ==> Beneath(setting.source, p)
    requires init.error.None?
    ensures var r := ProcessAll(paths, init, files, unwritable, action, setting, env);
      k <= |paths| && Sources(r.log) == Sources(init.log) + paths[..k]
      && (r.error.None? <==> k == |paths|)
      && (r.error.Some? ==>
            var before := ProcessAll(paths[..k], init, files, unwritable, action, setting, env);
            before.error.None?
            && r == ProcessFileStep(before, files, unwritable, action, setting, env, paths[k]))
    decreases |paths|
  {
    if paths == [] {
      k := 0;
      assert Sources(init.log) + paths[..0] == Sources(init.log);
    } else {
      var next := ProcessFileStep(init, files, unwritable, action, setting, env, paths[0]);
      LogStep(init, files, unwritable, action, setting, env, paths[0]);
      if next.error.Some? {
        k := 0;
        assert ProcessAll(paths[1..], next, files, unwritable, action, setting, env) == next;
        assert paths[..0] == [];
      } else {
        var rest := paths[1..];
        var k' := FilesProcessedInOrder(rest, next, files, unwritable, action, setting, env);
        k := k' + 1;
        TakeFirst(paths, k);
        AppendFirst(Sources(init.log), paths[..k]);
      }
    }
  }

  /** Under a fail-tolerant setting no file ends the run: every enumerated file gets an outcome. */
  lemma {:induction false} FailTolerantProcessesAll(paths: seq<Path>, init: CommandState, files: set<Path>,
                                                    unwritable: set<Path>, action: CommandLineAction,
                                                    setting: Setting, env: CommandEnv)
    requires [] in init.dirs && IsAbsolute(env.cwd)
    requires forall p :: p in paths ==> Beneath(setting.source, p)
    requires init.error.None? && setting.failTolerant
    ensures var r := ProcessAll(paths, init, files, unwritable, action, setting, env);
      r.error.None? && Sources(r.log) == Sources(init.log) + paths
    decreases |paths|
  {
    if paths != [] {
      var next := ProcessFileStep(init, files, unwritable, action, setting, env, paths[0]);
      LogStep(init, files, unwritable, action, setting, env, paths[0]);
      FailTolerantProcessesAll(paths[1..], next, files, unwritable, action, setting, env);
      AppendFirst(Sources(init.log), paths);
    } else {
      assert Sources(init.log) + paths == Sources(init.log);
    }
  }

  /** A source directory that cannot be opened ends the run with its `IOException`, unwrapped. */
  lemma RunStartFails(dirs: set<Path>, files: set<Path>, unwritable: set<Path>, action: CommandLineAction,
                      setting: Setting, tree: Entry, env: CommandEnv)
    requires [] in dirs && IsAbsolute(env.cwd)
    requires ValidPath(setting.source) && WellFormed(tree) && tree.UnreadableDirectory?
    ensures var r := RunSpec(dirs, files, unwritable, action, setting, tree, env);
      r == CommandState(dirs, [], [], Some(IOFailure(setting.source))) && r.error.value.kind == IOException
  {
    assert CreatePathStream(ACTION_NAME, setting, tree, env.matches).Failure?;
  }

  /**
   * A fail-tolerant run over a readable source runs the command for every enumerated file, in
   * the enumeration's order, and fails only with the enumeration's own failure.
   */
  lemma RunFailTolerant(dirs: set<Path>, files: set<Path>, unwritable: set<Path>, action: CommandLineAction,
                        setting: Setting, tree: Entry, env: CommandEnv)
    requires [] in dirs && IsAbsolute(env.cwd)
    requires ValidPath(setting.source) && WellFormed(tree) && !tree.RegularFile? && !tree.UnreadableDirectory?
    requires setting.failTolerant
    ensures var r := RunSpec(dirs, files, unwritable, action, setting, tree, env);
      var walk := FindFiles(setting, tree, env.matches).walk;
      Sources(r.log) == walk.paths && (r.error.Some? <==> walk.failed)
      && (r.error.Some? ==> r.error.value == WalkFailed)
  {
    assert CreatePathStream(ACTION_NAME, setting, tree, env.matches).Success?;
    var walk := FindFiles(setting, tree, env.matches).walk;
    StreamPathsBeneath(ACTION_NAME, setting, tree, env.matches);
    var init := CommandState(dirs, [], [], None);
    assert Sources(init.log) == [];
    AppendEmpty(walk.paths);
    FailTolerantProcessesAll(walk.paths, init, files, unwritable, action, setting, env);
    var s := ProcessAll(walk.paths, init, files, unwritable, action, setting, env);
    assert RunSpec(dirs, files, unwritable, action, setting, tree, env)
        == if walk.failed then s.(error := Some(WalkFailed)) else s;
  }

  // ---------------------------------------------------------------------------
  // processFile as written: getParent() can be null
  // ---------------------------------------------------------------------------

  /**
   * `processFile` as written. `Files.notExists(targetFile.getParent())` is given a null path for
   * a target of one segment, and its `NullPointerException` leaves the `forEach`.
   */
  function ProcessFileAsWritten(s: CommandState, files: set<Path>, unwritable: set<Path>, action: CommandLineAction,
                                setting: Setting, env: CommandEnv, sourceFile: Path): CommandState
    requires [] in s.dirs && IsAbsolute(env.cwd) && Beneath(setting.source, sourceFile)
  {
    var target := TargetFile(setting.source, sourceFile, setting.destination);
    if JavaParent(target).None? then s.(error := Some(Throwable(NullPointerException, "", None)))
    else ProcessFileStep(s, files, unwritable, action, setting, env, sourceFile)
  }

  /**
   * With no destination configured (the empty path), a file directly in the source directory
   * makes the code as written throw `NullPointerException`. Its target's directory is the
   * working directory, which exists. The corrected step creates nothing and can only fail in
   * the command.
   */
  lemma TopLevelFileWithoutDestination(s: CommandState, files: set<Path>, unwritable: set<Path>,
                                       action: CommandLineAction, setting: Setting, env: CommandEnv, name: string)
    requires [] in s.dirs && IsAbsolute(env.cwd)
    requires ValidPath(setting.source) && IsName(name) && setting.destination == []
    ensures Beneath(setting.source, setting.source + [name])
    ensures ProcessFileAsWritten(s, files, unwritable, action, setting, env, setting.source + [name]).error
         == Some(Throwable(NullPointerException, "", None))
    ensures var r := ProcessFileStep(s, files, unwritable, action, setting, env, setting.source + [name]);
      var x := ExecResult(action, env.cwd, env.exec, setting.source + [name], [name]);
      r.dirs == s.dirs && (r.error.Some? <==> !setting.failTolerant && x.error.Some?)
  {
    var file := setting.source + [name];
    ChildOfSourceDir(setting.source, name);
    assert ContainingDir([name]) == [] && JavaParent([name]).None?;
    assert EnsureDir(s.dirs, files, unwritable, []) == Made(true, s.dirs);
    var r := ProcessFileStep(s, files, unwritable, action, setting, env, file);
    var x := ExecResult(action, env.cwd, env.exec, file, [name]);
    assert r.dirs == s.dirs;
    if x.error.None? || setting.failTolerant {
      assert r.error.None?;
    } else {
      assert r.error.Some?;
    }
  }
}

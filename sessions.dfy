/**
 * The session flow of `run`, `handleSessionSwitch` and `handleSwitchToZero`.
 * External programs (fzf and tmux) are not run: every invocation is recorded as
 * a `Command`, and what each one answers is read from a `World`.
 */
module Sessions {
  import opened Wrappers
  import opened GoStrings
  import opened GoPath
  import opened SessionId
  import opened Listing

  /** An external process the program starts, with the arguments that matter. */
  datatype Command =
    | Fzf(stdin: string)                   // fzf, with the candidates on its standard input
    | HasSession(id: string)               // tmux has-session -t id
    | NewSession(id: string, dir: string)  // tmux new-session -d -s id -c dir
    | Attach(id: string)                   // tmux attach -t id
    | SwitchClient(id: string)             // tmux switch-client -t id

  /** The commands that connect the terminal to a session. */
  predicate IsSwitch(c: Command) {
    c.Attach? || c.SwitchClient?
  }

  /** The session a tmux command names (fzf names none). */
  function SessionOf(c: Command): Option<string> {
    if c.Fzf? then None else Some(c.id)
  }

  /** What the selector did: exited successfully with this standard output, or failed. */
  datatype Selection = Chosen(stdout: string) | SelectorFailed

  /**
   * Everything outside the program: the directories, the selector's answer, the
   * existing tmux sessions, the tmux commands that fail, whether TMUX is set, and
   * the home directory if it is known.
   */
  datatype World = World(
    fs: FileSystem,
    selection: Selection,
    sessions: set<string>,
    failing: set<Command>,
    insideTmux: bool,
    home: Option<string>)

  /** Whether running `c` exits with status zero. */
  predicate Succeeds(w: World, c: Command) {
    match c
    case Fzf(_) => w.selection.Chosen?
    case HasSession(id) => id in w.sessions
    case _ => c !in w.failing
  }

  datatype ConfigError = ConfigDirUnknown | ConfigReadFailed | ConfigParseFailed | ConfigWriteFailed

  datatype Error =
    | ListingFailed(dir: string)
    | CommandFailed(cmd: Command)
    | NoHomeDir
    | BadConfig(reason: ConfigError)

  /** The commands one run issues, in order, and how it ends. */
  datatype Trace = Trace(commands: seq<Command>, outcome: Outcome<Error>)

  /** What the selector step yields: the commands issued and the chosen directory ("" for none). */
  datatype Target = Target(commands: seq<Command>, dir: Result<string, Error>)

  /** `switchToSession`: switch-client when TMUX is set, attach otherwise. */
  function SwitchCommand(id: string, insideTmux: bool): (c: Command)
    ensures IsSwitch(c) && c.id == id
    ensures c.SwitchClient? <==> insideTmux
  {
    if insideTmux then SwitchClient(id) else Attach(id)
  }

  /** Runs `c`; a non-zero exit becomes the run's error. */
  function RunSpec(w: World, c: Command): Trace {
    Trace([c], if Succeeds(w, c) then Pass else Fail(CommandFailed(c)))
  }

  /**
   * The step both handlers share: create the session `id` in `dir` unless it
   * exists, then switch or attach to it.
   */
  function OpenSessionSpec(id: string, dir: string, w: World): Trace {
    var switch := RunSpec(w, SwitchCommand(id, w.insideTmux));
    if id in w.sessions then
      Trace([HasSession(id)] + switch.commands, switch.outcome)
    else
      var create := NewSession(id, dir);
      if !Succeeds(w, create) then Trace([HasSession(id), create], Fail(CommandFailed(create)))
      else Trace([HasSession(id), create] + switch.commands, switch.outcome)
  }

  /** `getTargetDir`: list the candidates, ask the selector, trim its answer. */
  function TargetDirSpec(config: Config, w: World): Target {
    match ListDirectoriesSpec(config, w.fs)
    case Failure(err) => Target([], Failure(ListingFailed(err.dir)))
    case Success(paths) =>
      var select := Fzf(JoinLines(paths));
      match w.selection
      case SelectorFailed => Target([select], Success(""))
      case Chosen(out) => Target([select], Success(TrimSpace(out)))
  }

  /** `handleSessionSwitch`. */
  function SessionSwitchSpec(config: Config, w: World): Trace {
    var target := TargetDirSpec(config, w);
    match target.dir
    case Failure(err) => Trace(target.commands, Fail(err))
    case Success(dir) =>
      if dir == "" then Trace(target.commands, Pass)
      else
        var open := OpenSessionSpec(CleanedID(Base(dir)), dir, w);
        Trace(target.commands + open.commands, open.outcome)
  }

  /** `handleSwitchToZero`: the session "0" in the home directory. */
  function SwitchToZeroSpec(w: World): Trace {
    match w.home
    case None => Trace([], Fail(NoHomeDir))
    case Some(home) => OpenSessionSpec("0", home, w)
  }

  /** The configuration file as the program finds it. */
  datatype ConfigFile =
    | NoConfigDir            // os.UserConfigDir fails
    | Missing(writeOk: bool) // no file yet; whether writing the default one succeeds
    | Unreadable             // reading fails for another reason
    | Malformed              // the contents are not valid JSON for a Config
    | Parsed(config: Config)

  /** `getConfigPath` and `readConfig`: a missing file becomes the empty configuration, written back. */
  function ReadConfig(file: ConfigFile): (r: Result<Config, Error>)
    ensures r.Success? <==> file.Parsed? || (file.Missing? && file.writeOk)
    ensures file.Missing? && file.writeOk ==> r.value == Config([], [])
    ensures file.Parsed? ==> r.value == file.config
  {
    match file
    case NoConfigDir => Failure(BadConfig(ConfigDirUnknown))
    case Missing(writeOk) => if writeOk then Success(Config([], [])) else Failure(BadConfig(ConfigWriteFailed))
    case Unreadable => Failure(BadConfig(ConfigReadFailed))
    case Malformed => Failure(BadConfig(ConfigParseFailed))
    case Parsed(config) => Success(config)
  }

  /** `run`: load the configuration, then the zero flow for argument "0" and the switcher otherwise. */
  function TsmSpec(arg: string, file: ConfigFile, w: World): Trace {
    match ReadConfig(file)
    case Failure(err) => Trace([], Fail(err))
    case Success(config) => if arg == "0" then SwitchToZeroSpec(w) else SessionSwitchSpec(config, w)
  }

  // ----- properties of the shared create-then-switch step -----

  /** new-session is issued exactly when the session does not exist, with the given id and directory. */
  lemma OpenSessionCreatesIff(id: string, dir: string, w: World, c: Command)
    ensures c in OpenSessionSpec(id, dir, w).commands && c.NewSession? <==>
      id !in w.sessions && c == NewSession(id, dir)
  {
  }

  /**
   * The existence check comes first, new-session (if any) second, and the one
   * switch or attach last; it is issued unless creating the session failed.
   */
  lemma OpenSessionOrder(id: string, dir: string, w: World)
    ensures var cs := OpenSessionSpec(id, dir, w).commands;
      && 1 <= |cs| <= 3
      && cs[0] == HasSession(id)
      && (forall i :: 0 <= i < |cs| && cs[i].HasSession? ==> i == 0)
      && (forall i :: 0 <= i < |cs| && cs[i].NewSession? ==> i == 1)
      && (forall i :: 0 <= i < |cs| && IsSwitch(cs[i]) ==> i == |cs| - 1)
      && (forall i, j :: 0 <= i < |cs| && 0 <= j < |cs| && cs[i].NewSession? && IsSwitch(cs[j]) ==> i < j)
      && ((exists i :: 0 <= i < |cs| && IsSwitch(cs[i])) <==>
            id in w.sessions || Succeeds(w, NewSession(id, dir)))
  {
    var cs := OpenSessionSpec(id, dir, w).commands;
    if id in w.sessions || Succeeds(w, NewSession(id, dir)) {
      assert IsSwitch(cs[|cs| - 1]);
    }
  }

  /** The terminal is connected by switch-client exactly when TMUX is set, and by attach otherwise. */
  lemma OpenSessionSwitchKind(id: string, dir: string, w: World, c: Command)
    requires c in OpenSessionSpec(id, dir, w).commands && IsSwitch(c)
    ensures c == SwitchCommand(id, w.insideTmux)
    ensures c.SwitchClient? <==> w.insideTmux
  {
  }

  /** Every tmux command of the step names the session `id`. */
  lemma OpenSessionNamesId(id: string, dir: string, w: World, c: Command)
    requires c in OpenSessionSpec(id, dir, w).commands
    ensures SessionOf(c) == Some(id)
  {
  }

  /** The step succeeds exactly when the session exists or is created, and the switch succeeds. */
  lemma OpenSessionOutcome(id: string, dir: string, w: World)
    ensures OpenSessionSpec(id, dir, w).outcome == Pass <==>
      (id in w.sessions || Succeeds(w, NewSession(id, dir)))
      && Succeeds(w, SwitchCommand(id, w.insideTmux))
  {
  }

  // ----- properties of the two flows -----

  /** A listing error stops the switcher before any external command. */
  lemma SessionSwitchListingFails(config: Config, w: World)
    requires ListDirectoriesSpec(config, w.fs).Failure?
    ensures SessionSwitchSpec(config, w) ==
      Trace([], Fail(ListingFailed(ListDirectoriesSpec(config, w.fs).error.dir)))
  {
  }

  /**
   * No selection (the selector failed, or printed only white space) ends the
   * switcher successfully after the selector, with no tmux command.
   */
  lemma SessionSwitchNoSelection(config: Config, w: World)
    requires ListDirectoriesSpec(config, w.fs).Success?
    requires w.selection.SelectorFailed? ||
      forall i :: 0 <= i < |w.selection.stdout| ==> IsSpace(w.selection.stdout[i])
    ensures SessionSwitchSpec(config, w) ==
      Trace([Fzf(JoinLines(ListDirectoriesSpec(config, w.fs).value))], Pass)
  {
  }

  /**
   * A selection is offered the listed candidates, one per line, and the session
   * opened for it is named by its sanitised base name.
   */
  lemma SessionSwitchSelected(config: Config, w: World)
    requires ListDirectoriesSpec(config, w.fs).Success?
    requires w.selection.Chosen? && TrimSpace(w.selection.stdout) != ""
    ensures var paths := ListDirectoriesSpec(config, w.fs).value;
      var dir := TrimSpace(w.selection.stdout);
      var id := CleanedID(Base(dir));
      var t := SessionSwitchSpec(config, w);
      && t.commands[0] == Fzf(JoinLines(paths))
      && (paths != [] && (forall i :: 0 <= i < |paths| ==> IsLine(paths[i])) ==>
            SplitLines(t.commands[0].stdin) == paths)
      && id != [] && IsSessionName(id)
      && t.commands[1..] == OpenSessionSpec(id, dir, w).commands
      && t.outcome == OpenSessionSpec(id, dir, w).outcome
  {
    var paths := ListDirectoriesSpec(config, w.fs).value;
    if paths != [] && (forall i :: 0 <= i < |paths| ==> IsLine(paths[i])) {
      SplitJoinLines(paths);
    }
    var t := SessionSwitchSpec(config, w);
    assert t.commands == [Fzf(JoinLines(paths))] + t.commands[1..];
  }

  /** The zero flow opens the session "0" in the home directory, and fails with no command without a home. */
  lemma SwitchToZeroUsesZero(w: World)
    ensures w.home.None? ==> SwitchToZeroSpec(w) == Trace([], Fail(NoHomeDir))
    ensures w.home.Some? ==>
      && SwitchToZeroSpec(w).commands[0] == HasSession("0")
      && (forall c :: c in SwitchToZeroSpec(w).commands ==> SessionOf(c) == Some("0"))
      && (NewSession("0", w.home.value) in SwitchToZeroSpec(w).commands <==> "0" !in w.sessions)
  {
  }

  /** A configuration that cannot be loaded ends the run before any external command, in both flows. */
  lemma TsmConfigFailure(arg: string, file: ConfigFile, w: World)
    requires ReadConfig(file).Failure?
    ensures TsmSpec(arg, file, w) == Trace([], Fail(ReadConfig(file).error))
  {
  }

  /** Sequence concatenation is associative (kept apart from the handler's larger proof context). */
  lemma SeqAssoc(a: seq<Command>, b: seq<Command>, c: seq<Command>)
    ensures a + b + c == a + (b + c)
  {
  }

  /**
   * The process runner: it records every command it starts, in order. Its
   * methods are the handlers of the program, stepping through the calls.
   */
  class Runner {
    const world: World
    var log: seq<Command>

    constructor (w: World)
      ensures world == w && log == []
    {
      world := w;
      log := [];
    }

    /** `runCommand`: starts `c` and reports whether it exited with status zero. */
    method RunCommand(c: Command) returns (ok: bool)
      modifies this
      ensures log == old(log) + [c]
      ensures ok == Succeeds(world, c)
    {
      log := log + [c];
      ok := Succeeds(world, c);
    }

    /** `sessionExists`: a failing has-session reads as "no such session". */
    method SessionExists(id: string) returns (exists_: bool)
      modifies this
      ensures log == old(log) + [HasSession(id)]
      ensures exists_ == (id in world.sessions)
    {
      exists_ := RunCommand(HasSession(id));
    }

    /** `switchToSession`. */
    method SwitchToSession(id: string) returns (o: Outcome<Error>)
      modifies this
      ensures log == old(log) + RunSpec(world, SwitchCommand(id, world.insideTmux)).commands
      ensures o == RunSpec(world, SwitchCommand(id, world.insideTmux)).outcome
    {
      var c := if world.insideTmux then SwitchClient(id) else Attach(id);
      var ok := RunCommand(c);
      o := if ok then Pass else Fail(CommandFailed(c));
    }

    /** The tail both handlers share: create the session when it is missing, then switch to it. */
    method OpenSession(id: string, dir: string) returns (o: Outcome<Error>)
      modifies this
      ensures log == old(log) + OpenSessionSpec(id, dir, world).commands
      ensures o == OpenSessionSpec(id, dir, world).outcome
    {
      var found := SessionExists(id);
      if !found {
        var create := NewSession(id, dir);
        var ok := RunCommand(create);
        if !ok {
          return Fail(CommandFailed(create));
        }
      }
      o := SwitchToSession(id);
    }

    /** `getTargetDir`. */
    method GetTargetDir(config: Config) returns (dir: Result<string, Error>)
      modifies this
      ensures log == old(log) + TargetDirSpec(config, world).commands
      ensures dir == TargetDirSpec(config, world).dir
    {
      var paths := ListDirectories(config, world.fs);
      if paths.Failure? {
        return Failure(ListingFailed(paths.error.dir));
      }
      var ok := RunCommand(Fzf(JoinLines(paths.value)));
      if !ok {
        return Success("");
      }
      dir := Success(TrimSpace(world.selection.stdout));
    }

    /** `handleSessionSwitch`. */
    method HandleSessionSwitch(config: Config) returns (o: Outcome<Error>)
      modifies this
      ensures log == old(log) + SessionSwitchSpec(config, world).commands
      ensures o == SessionSwitchSpec(config, world).outcome
    {
      ghost var before := log;
      var target := GetTargetDir(config);
      ghost var selected := log;
      ghost var t := TargetDirSpec(config, world);
      assert SessionSwitchSpec(config, world) ==
        if t.dir.Failure? then Trace(t.commands, Fail(t.dir.error))
        else if t.dir.value == "" then Trace(t.commands, Pass)
        else
          var open := OpenSessionSpec(CleanedID(Base(t.dir.value)), t.dir.value, world);
          Trace(t.commands + open.commands, open.outcome);
      if target.Failure? {
        return Fail(target.error);
      } else if target.value == "" {
        return Pass;
      }
      var id := CleanID(Base(target.value));
      o := OpenSession(id, target.value);
      SeqAssoc(before, selected[|before|..], OpenSessionSpec(id, target.value, world).commands);
    }

    /** `handleSwitchToZero`. */
    method HandleSwitchToZero() returns (o: Outcome<Error>)
      modifies this
      ensures log == old(log) + SwitchToZeroSpec(world).commands
      ensures o == SwitchToZeroSpec(world).outcome
    {
      var id := "0";
      if world.home.None? {
        return Fail(NoHomeDir);
      }
      o := OpenSession(id, world.home.value);
    }

    /** `run`. */
    method Execute(arg: string, file: ConfigFile) returns (o: Outcome<Error>)
      modifies this
      ensures log == old(log) + TsmSpec(arg, file, world).commands
      ensures o == TsmSpec(arg, file, world).outcome
    {
      var config := ReadConfig(file);
      if config.Failure? {
        return Fail(config.error);
      }
      if arg == "0" {
        o := HandleSwitchToZero();
      } else {
        o := HandleSessionSwitch(config.value);
      }
    }
  }
}

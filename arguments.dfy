/**
 * MavenExecutor.parseArguments: the first argument is the `group:artifact:version` coordinate,
 * then options each take the argument after them (`--repositories`, `--mainClass`,
 * `--settings`, `--localRepository`), `--` hands everything after it to the program as it is,
 * and any other argument is skipped.
 *
 * The executor's state is the artifact it runs, its Maven settings (the `.m2` directory,
 * repositories, settings file, local repository) and the main class and pass-through
 * arguments. The `.m2` directory is under the `user.home` system property's directory, which
 * is a constructor parameter here. When no `--localRepository` was given, the local
 * repository is read from the settings file: the host's files are a parameter mapping each
 * settings file to the text of its `<localRepository>` element, a path that is absent being
 * a file that does not exist or has no such element.
 */
module Arguments {
  import opened Wrappers
  import opened JavaLang
  import opened JavaPaths
  import MvnxArtifact
  import Layout

  /** The remote repositories MavenExecutor.Maven starts with. */
  const DEFAULT_REPOSITORIES: seq<string> := ["https://repo.maven.apache.org/maven2/", "https://jitpack.io/"]

  const MISSING_IDENTIFIER: string := "Missing artifact identifier"

  /** What parseArguments reads and writes. */
  datatype Settings = Settings(
    artifact: MvnxArtifact.Artifact,
    userHomeM2: Path,
    repositories: seq<string>,
    mainClass: Option<string>,
    settingsXml: Path,
    localRepository: Option<Path>,
    passthroughArguments: seq<string>)

  /** The five arguments the switch knows. */
  predicate IsKeyword(arg: string) {
    arg == "--repositories" || arg == "--mainClass" || arg == "--settings" || arg == "--localRepository" || arg == "--"
  }

  /** Reading the coordinate: groupId, artifactId and version are the first three parts of args[0] split on ':'. */
  function WithCoordinate(s: Settings, coordinate: string): (r: Result<Settings, Exception>)
    ensures r.Failure? <==> |Split(coordinate, ':')| < 3
    ensures r.Failure? ==> r.error == IndexOutOfBounds
    ensures r.Success? ==> var parts := Split(coordinate, ':');
      r.value == s.(artifact := s.artifact.(groupId := Some(parts[0]), artifactId := Some(parts[1]), version := Some(parts[2])))
  {
    var parts := Split(coordinate, ':');
    if |parts| < 3 then Failure(IndexOutOfBounds)
    else Success(s.(artifact := s.artifact.(groupId := Some(parts[0]), artifactId := Some(parts[1]), version := Some(parts[2]))))
  }

  /** The field an option names, set from the option's value. */
  function Apply(s: Settings, option: string, value: string): Settings {
    if option == "--repositories" then s.(repositories := Split(value, ','))
    else if option == "--mainClass" then s.(mainClass := Some(value))
    else if option == "--settings" then s.(settingsXml := Get(value))
    else s.(localRepository := Some(Get(value)))
  }

  /**
   * The for loop from index i on: an option whose value is missing throws
   * ArrayIndexOutOfBoundsException, `--` ends the loop.
   */
  function Options(args: seq<string>, i: nat, s: Settings): (r: Result<Settings, Exception>)
    ensures r.Failure? ==> r.error == IndexOutOfBounds
    decreases |args| - i
  {
    if i >= |args| then Success(s)
    else if args[i] == "--" then Success(s.(passthroughArguments := args[i + 1..]))
    else if IsKeyword(args[i]) then
      if i + 1 >= |args| then Failure(IndexOutOfBounds)
      else
        Options(args, i + 2, Apply(s, args[i], args[i + 1]))
    else Options(args, i + 1, s)
  }

  /** At an option: its value is the next argument, or the exception when there is none. */
  lemma OptionsAtOption(args: seq<string>, i: nat, s: Settings)
    requires i < |args| && IsKeyword(args[i]) && args[i] != "--"
    ensures i + 1 < |args| ==> Options(args, i, s) == Options(args, i + 2, Apply(s, args[i], args[i + 1]))
    ensures i + 1 >= |args| ==> Options(args, i, s) == Failure(IndexOutOfBounds)
  {
  }

  /** At `--`: the rest is passed through. */
  lemma OptionsAtDoubleDash(args: seq<string>, i: nat, s: Settings)
    requires i < |args| && args[i] == "--"
    ensures Options(args, i, s) == Success(s.(passthroughArguments := args[i + 1..]))
  {
  }

  /** At an argument the switch does not know: it is skipped. */
  lemma OptionsAtOther(args: seq<string>, i: nat, s: Settings)
    requires i < |args| && !IsKeyword(args[i])
    ensures Options(args, i, s) == Options(args, i + 1, s)
  {
  }

  /** What the executor sees of its host: the settings files' local repositories, the environment, the system properties. */
  datatype Host = Host(localRepositorySettings: map<Path, string>, env: map<string, string>,
                       sys: map<string, string>, fuel: nat)

  /** The last lines of parseArguments: without a local repository, the one the settings file names, else `.m2/repository`. */
  function WithLocalRepository(s: Settings, host: Host): (r: Result<Settings, Exception>)
    ensures s.localRepository.Some? ==> r == Success(s)
    ensures r.Success? ==> r.value == s.(localRepository := r.value.localRepository) && r.value.localRepository.Some?
    ensures s.localRepository.None? && s.settingsXml !in host.localRepositorySettings ==>
      r == Success(s.(localRepository := Some(Resolve(s.userHomeM2, "repository"))))
  {
    if s.localRepository.Some? then Success(s)
    else
      var setting := if s.settingsXml in host.localRepositorySettings then Some(host.localRepositorySettings[s.settingsXml]) else None;
      var path :- Layout.MavenLocalRepository(s.userHomeM2, setting, host.env, host.sys, host.fuel);
      Success(s.(localRepository := Some(path)))
  }

  /** parseArguments. */
  function Parse(args: seq<string>, s: Settings, host: Host): (r: Result<Settings, Exception>)
    ensures |args| == 0 ==> r == Failure(IllegalArgument(MISSING_IDENTIFIER))
    ensures |args| > 0 && |Split(args[0], ':')| < 3 ==> r == Failure(IndexOutOfBounds)
    ensures r.Success? ==> r.value.localRepository.Some?
  {
    if |args| == 0 then Failure(IllegalArgument(MISSING_IDENTIFIER))
    else
      var withCoordinate :- WithCoordinate(s, args[0]);
      var withOptions :- Options(args, 1, withCoordinate);
      WithLocalRepository(withOptions, host)
  }

  /** The executor object: the artifact, the Maven settings it holds, the main class and the pass-through arguments. */
  class Executor {
    var artifact: MvnxArtifact.Artifact
    var userHomeM2: Path
    var repositories: seq<string>
    var mainClass: Option<string>
    var settingsXml: Path
    var localRepository: Option<Path>
    var passthroughArguments: seq<string>

    function State(): Settings
      reads this
    {
      Settings(artifact, userHomeM2, repositories, mainClass, settingsXml, localRepository, passthroughArguments)
    }

    /**
     * new MavenExecutor(): an empty artifact, `.m2` under the user's home, the settings file in
     * it, the default repositories, no local repository, no main class, no arguments.
     */
    constructor (userHome: Path)
      ensures State() == Settings(MvnxArtifact.Empty(), Resolve(userHome, ".m2"), DEFAULT_REPOSITORIES, None,
                                  Resolve(Resolve(userHome, ".m2"), "settings.xml"), None, [])
    {
      artifact := MvnxArtifact.Empty();
      userHomeM2 := Resolve(userHome, ".m2");
      settingsXml := Resolve(Resolve(userHome, ".m2"), "settings.xml");
      repositories := DEFAULT_REPOSITORIES;
      mainClass := None;
      localRepository := None;
      passthroughArguments := [];
    }

    /** One case of the switch: the option's field takes the value. */
    method SetOption(option: string, value: string)
      modifies this
      ensures State() == Apply(old(State()), option, value)
    {
      if option == "--repositories" {
        repositories := Split(value, ',');
      } else if option == "--mainClass" {
        mainClass := Some(value);
      } else if option == "--settings" {
        settingsXml := Get(value);
      } else {
        localRepository := Some(Get(value));
      }
    }

    /** parseArguments: the fields become what Parse gives, or the exception Parse names is raised. */
    method ParseArguments(arguments: seq<string>, host: Host) returns (r: Result<(), Exception>)
      modifies this
      ensures r.Success? <==> Parse(arguments, old(State()), host).Success?
      ensures r.Failure? ==> r.error == Parse(arguments, old(State()), host).error
      ensures r.Success? ==> State() == Parse(arguments, old(State()), host).value
    {
      if |arguments| == 0 {
        return Failure(IllegalArgument(MISSING_IDENTIFIER));
      }
      var identifier := Split(arguments[0], ':');
      if |identifier| < 3 {
        return Failure(IndexOutOfBounds);
      }
      artifact := artifact.(groupId := Some(identifier[0]), artifactId := Some(identifier[1]), version := Some(identifier[2]));
      r := ReadOptions(arguments);
      if r.Failure? {
        return r;
      }
      r := SetLocalRepository(host);
    }

    /** The for loop of parseArguments, from the argument after the coordinate on. */
    method ReadOptions(arguments: seq<string>) returns (r: Result<(), Exception>)
      modifies this
      ensures r.Success? <==> Options(arguments, 1, old(State())).Success?
      ensures r.Failure? ==> r.error == IndexOutOfBounds
      ensures r.Success? ==> State() == Options(arguments, 1, old(State())).value
    {
      ghost var outcome := Options(arguments, 1, State());
      var i := 1;
      while i < |arguments|
        invariant 1 <= i
        invariant Options(arguments, i, State()) == outcome
        decreases |arguments| - i
      {
        var argument := arguments[i];
        if argument == "--repositories" || argument == "--mainClass" || argument == "--settings" || argument == "--localRepository" {
          OptionsAtOption(arguments, i, State());
          i := i + 1;
          if i >= |arguments| {
            return Failure(IndexOutOfBounds);
          }
          SetOption(argument, arguments[i]);
        } else if argument == "--" {
          OptionsAtDoubleDash(arguments, i, State());
          passthroughArguments := arguments[i + 1..];
          i := |arguments|;
        } else {
          OptionsAtOther(arguments, i, State());
        }
        i := i + 1;
      }
      return Success(());
    }

    /** The last lines of parseArguments: the local repository, when none was given. */
    method SetLocalRepository(host: Host) returns (r: Result<(), Exception>)
      modifies this
      ensures r.Success? <==> WithLocalRepository(old(State()), host).Success?
      ensures r.Failure? ==> r.error == WithLocalRepository(old(State()), host).error
      ensures r.Success? ==> State() == WithLocalRepository(old(State()), host).value
    {
      if localRepository.None? {
        var setting := if settingsXml in host.localRepositorySettings then Some(host.localRepositorySettings[settingsXml]) else None;
        var path := Layout.MavenLocalRepository(userHomeM2, setting, host.env, host.sys, host.fuel);
        if path.Failure? {
          return Failure(path.error);
        }
        localRepository := Some(path.value);
      }
      return Success(());
    }
  }

  // ---------------------------------------------------------------------------
  // Properties of the parse

  /** `g:a:v` with parts free of ':' and a non-empty version sets exactly those three coordinates. */
  lemma CoordinateSplit(g: string, a: string, v: string, s: Settings)
    requires ':' !in g && ':' !in a && ':' !in v && v != ""
    ensures WithCoordinate(s, g + ":" + a + ":" + v) ==
      Success(s.(artifact := s.artifact.(groupId := Some(g), artifactId := Some(a), version := Some(v))))
  {
    var parts := [g, a, v];
    assert Join(parts, ':') == g + ":" + a + ":" + v by {
      assert parts[1..] == [a, v];
      assert parts[1..][1..] == [v];
      assert Join([a, v], ':') == a + [':'] + v;
      assert Join(parts, ':') == g + [':'] + (a + [':'] + v);
    }
    SplitJoin(parts, ':');
  }

  // ---------------------------------------------------------------------------
  // The option loop read as a sequence of steps

  /** An option that takes a value: a keyword other than `--`. */
  predicate IsOption(arg: string) {
    IsKeyword(arg) && arg != "--"
  }

  /** What the loop reads in one turn: an option with the argument after it, or an argument it skips. */
  datatype Step = OptionStep(option: string, value: string) | Skipped(arg: string)

  /** How the arguments end: at their end, at `--` with what follows it, or at an option without its value. */
  datatype Ending = AtEnd | DoubleDash(rest: seq<string>) | MissingValue(option: string)

  predicate ValidStep(st: Step) {
    match st
    case OptionStep(option, _) => IsOption(option)
    case Skipped(arg) => !IsKeyword(arg)
  }

  predicate ValidSteps(steps: seq<Step>) {
    forall j :: 0 <= j < |steps| ==> ValidStep(steps[j])
  }

  predicate ValidEnding(ending: Ending) {
    ending.MissingValue? ==> IsOption(ending.option)
  }

  /** The arguments a step is made of. */
  function StepArguments(st: Step): (r: seq<string>)
    ensures |r| == if st.OptionStep? then 2 else 1
  {
    match st
    case OptionStep(option, value) => [option, value]
    case Skipped(arg) => [arg]
  }

  /** The arguments the steps are made of, in order. */
  function Flatten(steps: seq<Step>): seq<string> {
    if |steps| == 0 then [] else StepArguments(steps[0]) + Flatten(steps[1..])
  }

  /** The arguments an ending is made of. */
  function EndingArguments(ending: Ending): seq<string> {
    match ending
    case AtEnd => []
    case DoubleDash(rest) => ["--"] + rest
    case MissingValue(option) => [option]
  }

  /** One step: an option sets its field; a skipped argument changes nothing. */
  function ApplyStep(s: Settings, st: Step): Settings {
    match st
    case OptionStep(option, value) => Apply(s, option, value)
    case Skipped(_) => s
  }

  /** The steps applied in order. */
  function FoldApply(s: Settings, steps: seq<Step>): Settings
    decreases |steps|
  {
    if |steps| == 0 then s else FoldApply(ApplyStep(s, steps[0]), steps[1..])
  }

  /** What the loop gives for steps and an ending: the settings the steps make, or the exception. */
  function Outcome(s: Settings, steps: seq<Step>, ending: Ending): (r: Result<Settings, Exception>)
    ensures r.Failure? <==> ending.MissingValue?
  {
    match ending
    case AtEnd => Success(FoldApply(s, steps))
    case DoubleDash(rest) => Success(FoldApply(s, steps).(passthroughArguments := rest))
    case MissingValue(_) => Failure(IndexOutOfBounds)
  }

  /** One turn of the loop over a step's arguments: the step is applied and the loop goes on after them. */
  lemma OptionsTurn(args: seq<string>, i: nat, st: Step, s: Settings)
    requires ValidStep(st) && i + |StepArguments(st)| <= |args|
    requires args[i..i + |StepArguments(st)|] == StepArguments(st)
    ensures Options(args, i, s) == Options(args, i + |StepArguments(st)|, ApplyStep(s, st))
  {
    assert args[i] == StepArguments(st)[0];
    if st.OptionStep? {
      assert args[i + 1] == StepArguments(st)[1];
    }
  }

  /** The loop at an ending gives the ending's outcome for the settings so far. */
  lemma OptionsAtEnding(pre: seq<string>, ending: Ending, s: Settings)
    requires ValidEnding(ending)
    ensures Options(pre + EndingArguments(ending), |pre|, s) == Outcome(s, [], ending)
  {
    var args := pre + EndingArguments(ending);
    match ending
    case AtEnd =>
    case DoubleDash(rest) =>
      assert args[|pre|] == "--" && args[|pre| + 1..] == rest;
    case MissingValue(option) =>
      assert args[|pre|] == option;
  }

  /**
   * Reading the steps' arguments from position |pre| on: each option takes the argument after
   * it, whatever it says, and the ending decides the rest: `--` passes every argument after it
   * through, options included, and an option standing last throws.
   */
  lemma {:induction false} OptionsReadsSteps(pre: seq<string>, steps: seq<Step>, ending: Ending, s: Settings)
    requires ValidSteps(steps) && ValidEnding(ending)
    ensures Options(pre + Flatten(steps) + EndingArguments(ending), |pre|, s) == Outcome(s, steps, ending)
    decreases |steps|
  {
    assert |steps| > 0 ==> ValidStep(steps[0]);
    if |steps| == 0 {
      assert pre + Flatten(steps) + EndingArguments(ending) == pre + EndingArguments(ending);
      OptionsAtEnding(pre, ending, s);
    } else {
      var args := pre + Flatten(steps) + EndingArguments(ending);
      var pre' := pre + StepArguments(steps[0]);
      FirstStep(pre, steps, EndingArguments(ending));
      OptionsTurn(args, |pre|, steps[0], s);
      OptionsReadsSteps(pre', steps[1..], ending, ApplyStep(s, steps[0]));
    }
  }

  /** The first step's arguments follow pre; the rest of the steps follow them. */
  lemma FirstStep(pre: seq<string>, steps: seq<Step>, tail: seq<string>)
    requires |steps| > 0
    ensures var args := pre + Flatten(steps) + tail;
      var pre' := pre + StepArguments(steps[0]);
      && args == pre' + Flatten(steps[1..]) + tail
      && |pre'| <= |args| && args[|pre|..|pre'|] == StepArguments(steps[0])
  {
    var first := StepArguments(steps[0]);
    var rest := Flatten(steps[1..]);
    assert Flatten(steps) == first + rest;
    Reassoc(pre, first, rest, tail);
    MiddleSlice(pre, first, rest, tail);
  }

  /** Every argument list, from a position on, is made of steps and an ending. */
  lemma {:induction false} StepsOf(args: seq<string>, i: nat) returns (steps: seq<Step>, ending: Ending)
    requires i <= |args|
    ensures ValidSteps(steps) && ValidEnding(ending)
    ensures args == args[..i] + Flatten(steps) + EndingArguments(ending)
    decreases |args| - i
  {
    if i == |args| {
      steps, ending := [], AtEnd;
      assert args == args[..i] + [] + [];
    } else if args[i] == "--" {
      steps, ending := [], DoubleDash(args[i + 1..]);
      assert args == args[..i] + [] + (["--"] + args[i + 1..]);
    } else if IsKeyword(args[i]) && i + 1 == |args| {
      steps, ending := [], MissingValue(args[i]);
      assert args == args[..i] + [] + [args[i]];
    } else {
      var st := StepAt(args, i);
      var n := i + |StepArguments(st)|;
      var more;
      more, ending := StepsOf(args, n);
      steps := [st] + more;
      Prepend(args, i, n, st, more, ending);
    }
  }

  /** The step that starts at position i when neither `--` nor a lone option stands there. */
  function StepAt(args: seq<string>, i: nat): (st: Step)
    requires i < |args| && args[i] != "--" && !(IsKeyword(args[i]) && i + 1 == |args|)
    ensures ValidStep(st) && i + |StepArguments(st)| <= |args|
    ensures args[i..i + |StepArguments(st)|] == StepArguments(st)
  {
    if IsKeyword(args[i]) then OptionStep(args[i], args[i + 1]) else Skipped(args[i])
  }

  lemma Prepend(args: seq<string>, i: nat, n: nat, st: Step, more: seq<Step>, ending: Ending)
    requires i <= n <= |args| && args[i..n] == StepArguments(st)
    requires args == args[..n] + Flatten(more) + EndingArguments(ending)
    ensures args == args[..i] + Flatten([st] + more) + EndingArguments(ending)
  {
    assert ([st] + more)[0] == st && ([st] + more)[1..] == more;
    assert Flatten([st] + more) == StepArguments(st) + Flatten(more);
    TakeSplit(args, i, n);
    Reassoc(args[..i], StepArguments(st), Flatten(more), EndingArguments(ending));
  }

  lemma TakeSplit<T>(s: seq<T>, i: nat, n: nat)
    requires i <= n <= |s|
    ensures s[..n] == s[..i] + s[i..n]
  {
  }

  lemma Reassoc<T>(a: seq<T>, b: seq<T>, c: seq<T>, d: seq<T>)
    ensures a + (b + c) + d == (a + b) + c + d
  {
  }

  lemma MiddleSlice<T>(a: seq<T>, b: seq<T>, c: seq<T>, d: seq<T>)
    ensures |a| + |b| <= |a + b + c + d| && (a + b + c + d)[|a|..|a| + |b|] == b
  {
  }

  /**
   * The loop, for every argument list: it applies the options it reads in order and fails
   * exactly when an option it reads has no value after it.
   */
  lemma OptionsSpec(args: seq<string>, i: nat, s: Settings) returns (steps: seq<Step>, ending: Ending)
    requires i <= |args|
    ensures ValidSteps(steps) && ValidEnding(ending)
    ensures args == args[..i] + Flatten(steps) + EndingArguments(ending)
    ensures Options(args, i, s) == Outcome(s, steps, ending)
    ensures Options(args, i, s).Failure? <==> ending.MissingValue?
  {
    steps, ending := StepsOf(args, i);
    OptionsReadsSteps(args[..i], steps, ending, s);
  }

  /** Arguments the switch does not know, up to the end, change nothing. */
  lemma {:induction false} UnknownArgumentsIgnored(args: seq<string>, i: nat, s: Settings)
    requires forall j :: i <= j < |args| ==> !IsKeyword(args[j])
    ensures Options(args, i, s) == Success(s)
    decreases |args| - i
  {
    if i < |args| {
      UnknownArgumentsIgnored(args, i + 1, s);
    }
  }

  /**
   * The loop never touches the coordinate, and the pass-through arguments it leaves are either
   * the ones it started with or everything after some `--`.
   */
  lemma {:induction false} OptionsKeepCoordinate(args: seq<string>, i: nat, s: Settings)
    requires Options(args, i, s).Success?
    ensures Options(args, i, s).value.artifact == s.artifact
    ensures var p := Options(args, i, s).value.passthroughArguments;
      p == s.passthroughArguments || exists j :: i <= j < |args| && args[j] == "--" && p == args[j + 1..]
    decreases |args| - i
  {
    if i < |args| && args[i] != "--" {
      if IsKeyword(args[i]) {
        OptionsKeepCoordinate(args, i + 2, Apply(s, args[i], args[i + 1]));
      } else {
        OptionsKeepCoordinate(args, i + 1, s);
      }
    }
  }

  /** The argument tests' cases: a main class, a repository list, a settings file and pass-through arguments. */
  lemma SingleOptions(coordinate: string, value: string, s: Settings, host: Host)
    requires |Split(coordinate, ':')| >= 3 && s.localRepository.Some?
    ensures var c := WithCoordinate(s, coordinate).value;
      && Parse([coordinate, "--mainClass", value], s, host) == Success(c.(mainClass := Some(value)))
      && Parse([coordinate, "--repositories", value], s, host) == Success(c.(repositories := Split(value, ',')))
      && Parse([coordinate, "--settings", value], s, host) == Success(c.(settingsXml := Get(value)))
      && Parse([coordinate, "--", value], s, host) == Success(c.(passthroughArguments := [value]))
  {
    var c := WithCoordinate(s, coordinate).value;
    assert Options([coordinate, "--mainClass", value], 3, c.(mainClass := Some(value))) == Success(c.(mainClass := Some(value)));
    assert Options([coordinate, "--repositories", value], 3, c.(repositories := Split(value, ','))) == Success(c.(repositories := Split(value, ',')));
    assert Options([coordinate, "--settings", value], 3, c.(settingsXml := Get(value))) == Success(c.(settingsXml := Get(value)));
    assert [coordinate, "--", value][2..] == [value];
  }

  /** An explicit `--localRepository` wins: the settings file is not consulted. */
  lemma ExplicitLocalRepositoryWins(coordinate: string, dir: string, s: Settings, host: Host)
    requires |Split(coordinate, ':')| >= 3
    ensures Parse([coordinate, "--localRepository", dir], s, host) ==
      Success(WithCoordinate(s, coordinate).value.(localRepository := Some(Get(dir))))
  {
    var c := WithCoordinate(s, coordinate).value;
    assert Options([coordinate, "--localRepository", dir], 3, c.(localRepository := Some(Get(dir)))) == Success(c.(localRepository := Some(Get(dir))));
  }

  /** Without the option and without a setting, the local repository is `repository` under the `.m2` directory. */
  lemma DefaultLocalRepository(coordinate: string, s: Settings, host: Host)
    requires |Split(coordinate, ':')| >= 3 && s.localRepository.None? && s.settingsXml !in host.localRepositorySettings
    ensures Parse([coordinate], s, host) ==
      Success(WithCoordinate(s, coordinate).value.(localRepository := Some(Resolve(s.userHomeM2, "repository"))))
  {
  }
}

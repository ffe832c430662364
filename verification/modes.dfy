/**
 The driver's choices: which analysis runs (the -mode option, defaulting to
 data flow) and where the change list comes from (a git merge commit when
 both -repo and -commit are given, the -csv file otherwise).
 */
module Modes {
  import opened Wrappers
  import opened ClassPath

  /** The two analyses the driver can dispatch to. */
  datatype Mode = DataFlow | Reachability

  /** runAnalysis rejects any other mode name. */
  datatype ModeError = InvalidMode(mode: string)

  /** The mode used when -mode is absent. */
  const DefaultMode: string := "dataflow"

  /** The name under which the driver accepts each mode. */
  function ModeName(m: Mode): string
  {
    match m
    case DataFlow => "dataflow"
    case Reachability => "reachability"
  }

  /**
   runAnalysis's switch: a name is accepted exactly when it is the name of
   a mode, and then selects that mode; anything else is an invalid mode.
   */
  function Dispatch(mode: string): (r: Result<Mode, ModeError>)
    ensures r.Success? <==> exists m: Mode :: ModeName(m) == mode
    ensures r.Success? ==> ModeName(r.value) == mode
    ensures r.Failure? ==> r.error == InvalidMode(mode)
  {
    if mode == "dataflow" then assert ModeName(DataFlow) == mode; Success(DataFlow)
    else if mode == "reachability" then assert ModeName(Reachability) == mode; Success(Reachability)
    else Failure(InvalidMode(mode))
  }

  /** The mode named on the command line, or the default when none is. */
  function SelectMode(option: Option<string>): (r: Result<Mode, ModeError>)
    ensures option.None? ==> r == Success(DataFlow)
    ensures option.Some? ==> (r.Success? <==> exists m: Mode :: ModeName(m) == option.value)
    ensures r.Success? ==> option.None? || ModeName(r.value) == option.value
  {
    var mode := match option
      case None => DefaultMode
      case Some(m) => m;
    Dispatch(mode)
  }

  /** Every mode's name dispatches back to that mode. */
  lemma DispatchRoundTrip(m: Mode)
    ensures Dispatch(ModeName(m)) == Success(m)
  {
  }

  /** Distinct modes have distinct names, so each name reaches its own analysis. */
  lemma ModeNamesDistinct(m1: Mode, m2: Mode)
    requires ModeName(m1) == ModeName(m2)
    ensures m1 == m2
  {
  }

  /**
   The -mode help text lists "data-flow", but the switch matches only
   "dataflow": the documented spelling is rejected.
   */
  lemma DocumentedSpellingRejected()
    ensures Dispatch("data-flow") == Failure(InvalidMode("data-flow"))
  {
    assert ModeName(DataFlow) != "data-flow";
    assert ModeName(Reachability) != "data-flow";
  }

  /** Where the change list is read from. */
  datatype ChangeInput = FromGit(repo: string, commit: string) | FromCsv(csv: Option<string>)

  /** The options main reads; `cp` is a required option. */
  datatype CommandLine = CommandLine(
    cp: string, csv: Option<string>, mode: Option<string>, repo: Option<string>, commit: Option<string>)

  /** What main does with a parsed command line. */
  datatype Plan = Plan(input: ChangeInput, mode: Mode, classPath: string)

  /**
   main: the change list comes from git exactly when both -repo and
   -commit are given, from the -csv option otherwise; the run fails
   exactly when the selected mode is not a mode name; the analysis gets
   the -cp path expanded with the jars of the directory it names
   (`cpStatus` is what that path denotes on disk).
   */
  function PlanRun(cmd: CommandLine, cpStatus: PathStatus): (r: Result<Plan, ModeError>)
    ensures r.Success? <==> SelectMode(cmd.mode).Success?
    ensures r.Failure? ==> r == Failure(SelectMode(cmd.mode).error)
    ensures r.Success? ==> r.value.mode == SelectMode(cmd.mode).value
    ensures r.Success? ==> (r.value.input.FromGit? <==> cmd.repo.Some? && cmd.commit.Some?)
    ensures r.Success? && r.value.input.FromGit? ==>
              r.value.input == FromGit(cmd.repo.value, cmd.commit.value)
    ensures r.Success? && r.value.input.FromCsv? ==> r.value.input.csv == cmd.csv
    ensures r.Success? ==> r.value.classPath == Expand(cmd.cp, cpStatus)
    ensures r.Success? ==> |cmd.cp| <= |r.value.classPath| && r.value.classPath[..|cmd.cp|] == cmd.cp
    ensures r.Success? && !cpStatus.Directory? ==> r.value.classPath == cmd.cp
  {
    var input := if cmd.repo.Some? && cmd.commit.Some?
      then FromGit(cmd.repo.value, cmd.commit.value)
      else FromCsv(cmd.csv);
    match SelectMode(cmd.mode)
    case Success(m) => Success(Plan(input, m, Expand(cmd.cp, cpStatus)))
    case Failure(e) => Failure(e)
  }

  /**
   Given -cp naming a directory that holds one jar and another file, the
   analysis class path is the directory followed by that jar.
   */
  lemma PlanExpandsClassPath()
    ensures var cmd := CommandLine("/lib", None, None, None, None);
            var status := Directory([DirEntry("a.jar", "/lib/a.jar"), DirEntry("notes.txt", "/lib/notes.txt")]);
            PlanRun(cmd, status) == Success(Plan(FromCsv(None), DataFlow, "/lib:/lib/a.jar"))
  {
    SampleExpansion();
  }

  lemma SampleExpansion()
    ensures Expand("/lib", Directory([DirEntry("a.jar", "/lib/a.jar"), DirEntry("notes.txt", "/lib/notes.txt")]))
            == "/lib:/lib/a.jar"
  {
    ExpandsOnlyJars();
    assert "/lib" + ":/lib/a.jar" == "/lib:/lib/a.jar";
  }
}

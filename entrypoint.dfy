/** The small decisions of gcg/entrypoint.py: which commits a changelog
    leaves out, which log level a `-v` count selects, and the check that
    `deb` output has the options it needs. */
module Entrypoint {

  import opened Wrappers
  import Re

  /** The parts of a `git.Commit` the changelog reads. `authoredDate` is the
      author timestamp in seconds since the epoch. */
  datatype Commit = Commit(
    hexsha: string,
    parents: seq<string>,
    authoredDate: int,
    authorName: string,
    authorEmail: string,
    message: string)

  datatype OutputFormat = Rpm | Deb

  /** The values `--deb-urgency` accepts. */
  datatype Urgency = Low | Medium | High | Emergency | Critical

  /** The parsed command line, restricted to what the core reads. Options
      that are left unset are `None`. */
  datatype Options = Options(
    outputFormat: OutputFormat,
    currentVersion: string,
    excludeMerges: bool,
    bugTrackingOnly: bool,
    bugTrackingPattern: string,
    preferTags: bool,
    customTagPattern: Option<string>,
    debDistribution: Option<string>,
    debPackageName: Option<string>,
    debUrgency: Urgency,
    verbose: int)

  /** The default of `--current-version`. */
  const DEFAULT_CURRENT_VERSION: string := "current"

  /** The default of `--bug-tracking-pattern`: a Jira issue reference. */
  const DEFAULT_BUG_TRACKING_PATTERN: string := @"\b(([A-Z]{1,10})-?)[A-Z]+-[1-9]+\d*\b"

  /** The options when only the output format is given. */
  function DefaultOptions(outputFormat: OutputFormat): Options {
    Options(outputFormat, DEFAULT_CURRENT_VERSION, false, false, DEFAULT_BUG_TRACKING_PATTERN,
            false, None, None, None, Low, 0)
  }

  /** A merge commit: more than one parent. */
  predicate IsMerge(commit: Commit) { |commit.parents| > 1 }

  /** `commit_filtered_out`: the merge rule is applied first; only a commit
      it lets through is held to the bug-reference rule, which asks the
      pattern to match at the very start of the message. */
  function CommitFilteredOut(commit: Commit, options: Options, bugRegex: Re.Pattern): (excluded: bool)
    ensures options.excludeMerges && IsMerge(commit) ==> excluded
    ensures !(options.excludeMerges && IsMerge(commit)) && options.bugTrackingOnly
            ==> (excluded <==> !bugRegex.matchesAtStart(commit.message))
    ensures !options.bugTrackingOnly ==> (excluded <==> options.excludeMerges && IsMerge(commit))
  {
    if options.excludeMerges && IsMerge(commit) then true
    else if options.bugTrackingOnly then !bugRegex.matchesAtStart(commit.message)
    else false
  }

  /** The two rules read as one: a commit is left out when either rule
      rejects it, whatever the order they are tried in. */
  lemma FilteredOutEitherRule(commit: Commit, options: Options, bugRegex: Re.Pattern)
    ensures CommitFilteredOut(commit, options, bugRegex)
            <==> (options.excludeMerges && IsMerge(commit))
                 || (options.bugTrackingOnly && !bugRegex.matchesAtStart(commit.message))
  {
  }

  /** With neither flag nothing is left out, and a commit with one parent
      is never left out for being a merge. */
  lemma NothingFilteredByDefault(commit: Commit, bugRegex: Re.Pattern, outputFormat: OutputFormat)
    ensures !CommitFilteredOut(commit, DefaultOptions(outputFormat), bugRegex)
  {
  }

  /** The levels of Python's `logging` module that the `-v` count selects. */
  datatype LogLevel = Debug | Info | Warning

  /** The numeric value `logging` gives each level. */
  function LevelValue(level: LogLevel): (n: int)
    ensures n in {10, 20, 30}
  {
    match level
    case Debug => 10
    case Info => 20
    case Warning => 30
  }

  /** `log_level_from_verbosity`: one `-v` gives INFO, two give DEBUG, and
      every other count, negative or larger, gives WARNING. */
  function LogLevelFromVerbosity(count: int): (level: LogLevel)
    ensures level == Info <==> count == 1
    ensures level == Debug <==> count == 2
    ensures level == Warning <==> count != 1 && count != 2
  {
    if count == 1 then Info else if count == 2 then Debug else Warning
  }

  /** Up to two `-v`, each one lowers the threshold. */
  lemma MoreVerboseLowersThreshold(count: int)
    requires 0 <= count < 2
    ensures LevelValue(LogLevelFromVerbosity(count + 1)) < LevelValue(LogLevelFromVerbosity(count))
  {
  }

  /** tests/test_standalone_functions.py, `test_loglevels_mapping`. */
  lemma LogLevelExamples()
    ensures LogLevelFromVerbosity(0) == Warning && LogLevelFromVerbosity(-1) == Warning
    ensures LogLevelFromVerbosity(3) == Warning
    ensures LogLevelFromVerbosity(1) == Info && LogLevelFromVerbosity(2) == Debug
  {
  }

  /** The message of the `ValueError` that `parse_args` raises. */
  type OptionsError = string

  const MISSING_PACKAGE_NAME: OptionsError := "For 'deb', the package name (-n) is mandatory"
  const MISSING_DISTRIBUTION: OptionsError := "For 'deb', the --deb-distribution is mandatory"

  /** The check at the end of `parse_args`: `deb` output needs a package
      name, then a distribution; `rpm` output needs neither. The options come
      back unchanged when they pass. */
  function CheckDebOptions(options: Options): (r: Result<Options, OptionsError>)
    ensures r.Success? <==> options.outputFormat.Rpm?
                            || (options.debPackageName.Some? && options.debDistribution.Some?)
    ensures r.Success? ==> r.value == options
    ensures r.Failure? ==> r.error == (if options.debPackageName.None? then MISSING_PACKAGE_NAME
                                        else MISSING_DISTRIBUTION)
  {
    if options.outputFormat.Deb? then
      if options.debPackageName.None? then Failure(MISSING_PACKAGE_NAME)
      else if options.debDistribution.None? then Failure(MISSING_DISTRIBUTION)
      else Success(options)
    else Success(options)
  }

  /** tests/test_input.py: `-O deb` alone lacks the package name; with `-n`
      it still lacks the distribution; `-O rpm` alone passes. */
  lemma DebOptionExamples(name: string, distribution: string)
    ensures CheckDebOptions(DefaultOptions(Deb)) == Failure(MISSING_PACKAGE_NAME)
    ensures CheckDebOptions(DefaultOptions(Deb).(debPackageName := Some(name))) == Failure(MISSING_DISTRIBUTION)
    ensures CheckDebOptions(DefaultOptions(Deb).(debPackageName := Some(name), debDistribution := Some(distribution))).Success?
    ensures CheckDebOptions(DefaultOptions(Rpm)) == Success(DefaultOptions(Rpm))
  {
  }
}

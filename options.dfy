/**
 * git-metrics' options: the interval, repository path, cohort format and the
 * ignore/only patterns, each pattern list joined into one alternation.
 */
module MetricsOptions {

  import opened Wrappers
  import opened Text

  type Pattern = string

  /**
   * `Options`; the accessors `path`, `format` and `interval` are the fields
   * `repoPath`, `cohortFmt` and `interval`.
   */
  datatype Options = Options(interval: int, repoPath: string, cohortFmt: string,
                             ignore: Option<Pattern>, only: Option<Pattern>)
  {
    /** `should_ignore`: whether the ignore pattern is set and matches the file name. */
    predicate ShouldIgnore(isMatch: (Pattern, string) -> bool, f: string) {
      match ignore
      case None => false
      case Some(re) => isMatch(re, f)
    }

    /**
     * `should_keep` as written: it consults the ignore pattern, not the only
     * pattern, so once an ignore pattern is set it agrees with `ShouldIgnore`.
     */
    predicate ShouldKeep(isMatch: (Pattern, string) -> bool, f: string)
      ensures ignore.Some? ==> (ShouldKeep(isMatch, f) <==> ShouldIgnore(isMatch, f))
      ensures ignore.None? ==> ShouldKeep(isMatch, f)
    {
      match ignore
      case None => true
      case Some(re) => isMatch(re, f)
    }

    /** `should_keep` as evidently intended: keep what the only pattern matches, or everything without one. */
    predicate ShouldKeepOnly(isMatch: (Pattern, string) -> bool, f: string) {
      match only
      case None => true
      case Some(re) => isMatch(re, f)
    }
  }

  /**
   * The values of a repeatable option joined with `|` between consecutive
   * values (`intersperse` then `collect`); an absent option has no pattern.
   */
  function JoinPatterns(values: Option<seq<string>>): (r: Option<Pattern>)
    ensures values.None? <==> r.None?
  {
    match values
    case None => None
    case Some(vs) => Some(Join(vs, '|'))
  }

  /** The joined pattern splits back, at `|`, into the values given, in order. */
  lemma JoinPatternsSplit(values: seq<string>)
    requires |values| >= 1
    requires forall i | 0 <= i < |values| :: '|' !in values[i]
    ensures JoinPatterns(Some(values)).Some?
    ensures Split(JoinPatterns(Some(values)).value, '|') == values
  {
    SplitJoin(values, '|');
  }

  /** `Options::new` from the parsed command line. */
  function New(interval: int, repoPath: string, cohortFmt: string,
               ignoreValues: Option<seq<string>>, onlyValues: Option<seq<string>>): (o: Options)
    ensures o.interval == interval && o.repoPath == repoPath && o.cohortFmt == cohortFmt
    ensures o.ignore == JoinPatterns(ignoreValues) && o.only == JoinPatterns(onlyValues)
  {
    Options(interval, repoPath, cohortFmt, JoinPatterns(ignoreValues), JoinPatterns(onlyValues))
  }
}

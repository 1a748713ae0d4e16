/**
 * src/lib.rs: the file filter with both an ignore and an only pattern, and
 * `collect_samples` with that filter.
 */
module AxeLib {

  import opened Wrappers
  import opened Diff
  import opened Store
  import opened MetricsOptions
  import opened MetricsSample
  import MetricsLib
  import AxeSample
  import opened Pipeline

  /**
   * `skip_file`: skip a file when the ignore pattern matches it, or when an only
   * pattern is set and does not match it.
   */
  predicate SkipFile(ignore: Option<Pattern>, only: Option<Pattern>, isMatch: (Pattern, string) -> bool, f: FileName) {
    var ignored := match ignore case None => false case Some(re) => isMatch(re, f);
    var keep := match only case None => true case Some(re) => isMatch(re, f);
    ignored || !keep
  }

  /**
   * It is the filter git-metrics evidently intended, and without an only
   * pattern it is the ignore-only filter of src/axe/mod.rs and src/axe.rs.
   */
  lemma SkipFileAgrees(o: Options, isMatch: (Pattern, string) -> bool, f: FileName)
    ensures SkipFile(o.ignore, o.only, isMatch, f) == MetricsLib.SkipFileIntended(o, isMatch, f)
    ensures o.only.None? ==> SkipFile(o.ignore, o.only, isMatch, f) == AxeSample.SkipFile(o.ignore, isMatch, f)
  {
  }

  /** The file filter as a function of the file name. */
  function Skipper(ignore: Option<Pattern>, only: Option<Pattern>, isMatch: (Pattern, string) -> bool): FileName -> bool {
    f => SkipFile(ignore, only, isMatch, f)
  }

  /**
   * The hunks that reach the changeset are exactly those whose old path the
   * ignore pattern (if any) does not match and the only pattern (if any)
   * matches; with neither pattern every hunk does.
   */
  lemma {:induction false} SkipKept(ignore: Option<Pattern>, only: Option<Pattern>, isMatch: (Pattern, string) -> bool, events: seq<HunkEvent>)
    ensures forall k | 0 <= k < |Kept(events, Skipper(ignore, only, isMatch))| ::
              var f := Kept(events, Skipper(ignore, only, isMatch))[k].delta.oldPath;
              (ignore.None? || !isMatch(ignore.value, f)) && (only.None? || isMatch(only.value, f))
    ensures forall i | 0 <= i < |events| ::
              var f := events[i].delta.oldPath;
              (ignore.None? || !isMatch(ignore.value, f)) && (only.None? || isMatch(only.value, f)) ==>
              events[i] in Kept(events, Skipper(ignore, only, isMatch))
    ensures ignore.None? && only.None? ==> Kept(events, Skipper(ignore, only, isMatch)) == events
  {
    var skip := Skipper(ignore, only, isMatch);
    KeptFiltered(events, skip);
    KeptComplete(events, skip);
    if ignore.None? && only.None? {
      AllKept(events, skip);
    }
  }

  /**
   * `collect_samples`: the same thinning, pairing and consumer fold as
   * git-metrics, with this filter.
   */
  method CollectSamples(ids: seq<Commit>, interval: int, diff: (Option<nat>, nat) -> seq<HunkEvent>,
                        ignore: Option<Pattern>, only: Option<Pattern>, isMatch: (Pattern, string) -> bool,
                        cohortOf: int -> Cohort) returns (samples: seq<Sample>)
    requires |ids| > 0
    requires History(ids, interval, diff, Skipper(ignore, only, isMatch)).Some?
    requires Replayable(map[], History(ids, interval, diff, Skipper(ignore, only, isMatch)).value, cohortOf)
    requires SpliceReplayable(map[], History(ids, interval, diff, Skipper(ignore, only, isMatch)).value, cohortOf)
    ensures |samples| == |Thin(ids, interval)|
    ensures forall i | 0 <= i < |samples| ::
              samples[i].dateTime == Thin(ids, interval)[i].time &&
              samples[i].files == Series(map[], History(ids, interval, diff, Skipper(ignore, only, isMatch)).value, cohortOf)[i]
  {
    samples := MetricsLib.CollectSamples(ids, interval, diff, Skipper(ignore, only, isMatch), cohortOf);
  }
}

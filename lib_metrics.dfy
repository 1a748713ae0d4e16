/**
 * git-metrics' `Metrics`: the file filter, the consumer that turns the stream of
 * changesets into samples, and `collect_samples` end to end.
 */
module MetricsLib {

  import opened Wrappers
  import opened Diff
  import opened Changes
  import opened Store
  import opened MetricsOptions
  import opened MetricsSample
  import opened Pipeline

  /**
   * `skip_file` as written: `should_ignore || !should_keep`. Since `should_keep`
   * consults the ignore pattern, nothing is skipped without one and every file
   * is skipped with one.
   */
  predicate SkipFile(o: Options, isMatch: (Pattern, string) -> bool, f: FileName)
    ensures o.ignore.None? ==> !SkipFile(o, isMatch, f)
    ensures o.ignore.Some? ==> SkipFile(o, isMatch, f)
  {
    o.ShouldIgnore(isMatch, f) || !o.ShouldKeep(isMatch, f)
  }

  /** The file filter as a function of the file name. */
  function Skipper(o: Options, isMatch: (Pattern, string) -> bool): FileName -> bool {
    f => SkipFile(o, isMatch, f)
  }

  /** With an ignore pattern set, every changeset git-metrics collects is empty. */
  lemma IgnoreEmptiesChangesets(o: Options, isMatch: (Pattern, string) -> bool, events: seq<HunkEvent>)
    requires o.ignore.Some?
    ensures ChangesFrom([], events, Skipper(o, isMatch)) == Some([])
  {
    AllSkippedNoChanges(events, Skipper(o, isMatch));
  }

  /**
   * `skip_file` as evidently intended: skip what the ignore pattern matches and,
   * when an only pattern is set, what it does not match.
   */
  predicate SkipFileIntended(o: Options, isMatch: (Pattern, string) -> bool, f: FileName) {
    o.ShouldIgnore(isMatch, f) || !o.ShouldKeepOnly(isMatch, f)
  }

  /** The corrected filter as a function of the file name. */
  function IntendedSkipper(o: Options, isMatch: (Pattern, string) -> bool): FileName -> bool {
    f => SkipFileIntended(o, isMatch, f)
  }

  /**
   * Under the corrected filter the hunks that reach the changeset are exactly
   * those whose old path the ignore pattern (if any) does not match and the
   * only pattern (if any) matches; with neither pattern every hunk does.
   */
  lemma {:induction false} IntendedKept(o: Options, isMatch: (Pattern, string) -> bool, events: seq<HunkEvent>)
    ensures forall k | 0 <= k < |Kept(events, IntendedSkipper(o, isMatch))| ::
              var f := Kept(events, IntendedSkipper(o, isMatch))[k].delta.oldPath;
              (o.ignore.None? || !isMatch(o.ignore.value, f)) && (o.only.None? || isMatch(o.only.value, f))
    ensures forall i | 0 <= i < |events| ::
              var f := events[i].delta.oldPath;
              (o.ignore.None? || !isMatch(o.ignore.value, f)) && (o.only.None? || isMatch(o.only.value, f)) ==>
              events[i] in Kept(events, IntendedSkipper(o, isMatch))
    ensures o.ignore.None? && o.only.None? ==> Kept(events, IntendedSkipper(o, isMatch)) == events
  {
    var skip := IntendedSkipper(o, isMatch);
    KeptFiltered(events, skip);
    KeptComplete(events, skip);
    if o.ignore.None? && o.only.None? {
      AllKept(events, skip);
    }
  }

  /**
   * One turn of the consumer loop: the first sample from `Sample::new`, each
   * later one cloned from the last and dated by the changeset, which is then
   * added with the changeset's cohort; the earlier samples are left alone.
   */
  method NextSample(samples: seq<Sample>, cs: Changeset, cohort: Cohort) returns (sample: Sample)
    requires var prev := if |samples| == 0 then map[] else samples[|samples| - 1].files;
             Applicable(prev, cs.changes, cohort) && SpliceApplicable(prev, cs.changes, cohort)
    ensures fresh(sample) && sample.dateTime == cs.dateTime
    ensures sample.files == ApplyAll(if |samples| == 0 then map[] else samples[|samples| - 1].files, cs.changes, cohort)
  {
    if |samples| == 0 {
      sample := new Sample(cs.dateTime);
    } else {
      sample := samples[|samples| - 1].CloneAndDate(cs.dateTime);
    }
    sample.AddChangeset(cs, cohort);
  }

  /**
   * The consumer loop: one sample per received changeset, in order; the first
   * from `Sample::new`, each later one cloned from the last, dated and labelled
   * by its own changeset.
   */
  method Consume(css: seq<Changeset>, cohortOf: int -> Cohort) returns (samples: seq<Sample>)
    requires Replayable(map[], Steps(css), cohortOf) && SpliceReplayable(map[], Steps(css), cohortOf)
    ensures |samples| == |css|
    ensures forall i | 0 <= i < |css| ::
              samples[i].dateTime == css[i].dateTime &&
              samples[i].files == Series(map[], Steps(css), cohortOf)[i]
  {
    ghost var steps := Steps(css);
    ghost var series := Series(map[], steps, cohortOf);
    samples := [];
    var i := 0;
    while i < |css|
      invariant 0 <= i <= |css| && |samples| == i
      invariant forall j | 0 <= j < i :: samples[j].dateTime == steps[j].dateTime && samples[j].files == series[j]
    {
      SpliceSeriesStep(map[], steps, cohortOf, i);
      SeriesStep(map[], steps, cohortOf, i);
      assert steps[i] == Step(css[i].dateTime, css[i].changes);
      ghost var prev := if i == 0 then map[] else series[i - 1];
      assert prev == if |samples| == 0 then map[] else samples[|samples| - 1].files;
      var cohort := cohortOf(css[i].dateTime);
      var sample := NextSample(samples, css[i], cohort);
      assert sample.dateTime == steps[i].dateTime && sample.files == series[i];
      ghost var before := samples;
      samples := samples + [sample];
      forall j | 0 <= j <= i
        ensures samples[j].dateTime == steps[j].dateTime && samples[j].files == series[j]
      {
        if j < i {
          assert samples[j] == before[j];
        }
      }
      i := i + 1;
    }
  }

  /**
   * `collect_samples`: thin the commits, pair the trees, collect one changeset
   * per pair and fold them into samples; sample i belongs to kept commit i.
   */
  method CollectSamples(ids: seq<Commit>, interval: int, diff: (Option<nat>, nat) -> seq<HunkEvent>,
                        skip: FileName -> bool, cohortOf: int -> Cohort) returns (samples: seq<Sample>)
    requires |ids| > 0 && History(ids, interval, diff, skip).Some?
    requires Replayable(map[], History(ids, interval, diff, skip).value, cohortOf)
    requires SpliceReplayable(map[], History(ids, interval, diff, skip).value, cohortOf)
    ensures |samples| == |Thin(ids, interval)|
    ensures forall i | 0 <= i < |samples| ::
              samples[i].dateTime == Thin(ids, interval)[i].time &&
              samples[i].files == Series(map[], History(ids, interval, diff, skip).value, cohortOf)[i]
  {
    var commits := ThinCommits(ids, interval);
    var trees := Trees(ids[0].time, commits);
    var css := CollectChangesets(trees, diff, skip);
    samples := Consume(css, cohortOf);
  }

  /** The git-metrics pipeline with its own filter: with an ignore pattern, every sample is empty. */
  lemma IgnoreEmptiesSamples(ids: seq<Commit>, interval: int, diff: (Option<nat>, nat) -> seq<HunkEvent>,
                             o: Options, isMatch: (Pattern, string) -> bool, cohortOf: int -> Cohort, i: nat)
    requires |ids| > 0 && o.ignore.Some?
    ensures History(ids, interval, diff, Skipper(o, isMatch)).Some?
    ensures Replayable(map[], History(ids, interval, diff, Skipper(o, isMatch)).value, cohortOf)
    ensures i < |Thin(ids, interval)| ==>
              Series(map[], History(ids, interval, diff, Skipper(o, isMatch)).value, cohortOf)[i] == map[]
  {
    var trees := Trees(ids[0].time, Thin(ids, interval));
    var skip := Skipper(o, isMatch);
    forall k | 0 <= k < |trees| - 1
      ensures PairChanges(trees, diff, skip, k) == Some([])
    {
      IgnoreEmptiesChangesets(o, isMatch, diff(trees[k].tree, trees[k + 1].tree.value));
    }
    var steps := History(ids, interval, diff, skip).value;
    assert forall k | 0 <= k < |steps| :: steps[k].changes == [];
    EmptyStepsKeepFiles(map[], steps, cohortOf);
  }

  /** Changesets with no changes leave every snapshot equal to the starting store. */
  lemma {:induction false} EmptyStepsKeepFiles(files: Files, steps: seq<Step>, cohortOf: int -> Cohort)
    requires forall k | 0 <= k < |steps| :: steps[k].changes == []
    ensures Replayable(files, steps, cohortOf)
    ensures forall k | 0 <= k < |steps| :: Series(files, steps, cohortOf)[k] == files
    decreases |steps|
  {
    if |steps| > 0 {
      EmptyStepsKeepFiles(files, steps[1..], cohortOf);
      var r := Series(files, steps, cohortOf);
      assert r == [files] + Series(files, steps[1..], cohortOf);
    }
  }
}

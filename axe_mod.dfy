/**
 * The sample of src/axe/mod.rs: the same store as git-metrics' sample, but
 * changed through `get_lines`/`set_lines`/`delete_lines` and loops of
 * `Vec::insert`/`Vec::remove`, so a zero-length change never panics. Also the
 * series fold `from_changesets` and the file filter of this variant.
 */
module AxeSample {

  import opened Wrappers
  import opened Diff
  import opened Changes
  import opened Store
  import opened Pipeline

  class Sample {
    var dateTime: int
    var files: Files

    /** `Sample::new`. */
    constructor(dt: int)
      ensures dateTime == dt && files == map[]
    {
      dateTime := dt;
      files := map[];
    }

    /** `clone_and_date`. */
    method CloneAndDate(dt: int) returns (s: Sample)
      ensures fresh(s) && s.dateTime == dt && s.files == files
    {
      s := new Sample(dt);
      s.files := files;
    }

    /** `get_lines`: a copy of the file's lines, empty when the file is absent. */
    function GetLines(f: FileName): (r: Lines)
      reads this
      ensures r == LinesOf(files, f)
    {
      if f in files then files[f] else []
    }

    /** `set_lines`. */
    method SetLines(f: FileName, lines: Lines)
      modifies this
      ensures dateTime == old(dateTime) && files == old(files)[f := lines]
    {
      files := files[f := lines];
    }

    /** `delete_lines`. */
    method DeleteLines(f: FileName)
      modifies this
      ensures dateTime == old(dateTime) && files == old(files) - {f}
    {
      files := files - {f};
    }

    /** `add_changeset`: the changes applied in order with the given cohort. */
    method AddChangeset(cs: Changeset, cohort: Cohort)
      requires Applicable(files, cs.changes, cohort)
      modifies this
      ensures dateTime == old(dateTime)
      ensures files == ApplyAll(old(files), cs.changes, cohort)
    {
      var i := 0;
      while i < |cs.changes|
        invariant 0 <= i <= |cs.changes|
        invariant dateTime == old(dateTime)
        invariant Applicable(files, cs.changes[i..], cohort)
        invariant ApplyAll(files, cs.changes[i..], cohort) == ApplyAll(old(files), cs.changes, cohort)
      {
        var ch := cs.changes[i];
        assert cs.changes[i..][0] == ch && cs.changes[i..][1..] == cs.changes[i + 1..];
        ghost var next := ApplyChange(files, ch, cohort);
        match ch {
          case Add(f, start, length) =>
            var lines := GetLines(f);
            lines := InsertRun(lines, start, length, cohort);
            SetLines(f, lines);
          case Delete(f, start, length) =>
            var lines := GetLines(f);
            lines := RemoveRun(lines, start, length);
            SetLines(f, lines);
          case AddFile(f, length) =>
            SetLines(f, Repeat(cohort, length));
          case DeleteFile(f) =>
            DeleteLines(f);
        }
        assert files == next;
        i := i + 1;
      }
    }

    /** `count_cohort_lines`. */
    method CountCohortLines(cohort: Cohort) returns (n: nat)
      ensures n == CountCohort(files, cohort)
    {
      n := SumValues(files, OccurrencesOf(cohort));
    }
  }

  /**
   * One turn of `from_changesets`: the first sample from `Sample::new`, each
   * later one cloned from the last and dated by the changeset, which is then
   * added with the changeset's cohort; the earlier samples are left alone.
   */
  method NextSample(samples: seq<Sample>, cs: Changeset, cohort: Cohort) returns (sample: Sample)
    requires Applicable(if |samples| == 0 then map[] else samples[|samples| - 1].files, cs.changes, cohort)
    ensures fresh(sample) && sample.dateTime == cs.dateTime
    ensures sample.files == ApplyAll(if |samples| == 0 then map[] else samples[|samples| - 1].files, cs.changes, cohort)
  {
    if |samples| == 0 {
      sample := new Sample(cs.dateTime);
    } else {
      sample := samples[|samples| - 1].CloneAndDate(cs.dateTime);
    }
    sample.AddChangeset(cs, cohort);
  }

  /**
   * `from_changesets`: one sample per changeset, in order; the first starts from
   * no files, each later one from the previous sample's files, and each is dated
   * and labelled by its own changeset's date.
   */
  method FromChangesets(css: seq<Changeset>, cohortOf: int -> Cohort) returns (samples: seq<Sample>)
    requires Replayable(map[], Steps(css), cohortOf)
    ensures |samples| == |css|
    ensures forall i | 0 <= i < |css| ::
              samples[i].dateTime == css[i].dateTime &&
              samples[i].files == Series(map[], Steps(css), cohortOf)[i]
  {
    ghost var steps := Steps(css);
    ghost var series := Series(map[], steps, cohortOf);
    samples := [];
    var i := 0;
    while i < |css|
      invariant 0 <= i <= |css| && |samples| == i
      invariant forall j | 0 <= j < i :: samples[j].dateTime == steps[j].dateTime && samples[j].files == series[j]
    {
      SeriesStep(map[], steps, cohortOf, i);
      assert steps[i] == Step(css[i].dateTime, css[i].changes);
      ghost var prev := if i == 0 then map[] else series[i - 1];
      assert prev == if |samples| == 0 then map[] else samples[|samples| - 1].files;
      var cohort := cohortOf(css[i].dateTime);
      var sample := NextSample(samples, css[i], cohort);
      assert sample.dateTime == steps[i].dateTime && sample.files == series[i];
      ghost var before := samples;
      samples := samples + [sample];
      forall j | 0 <= j <= i
        ensures samples[j].dateTime == steps[j].dateTime && samples[j].files == series[j]
      {
        if j < i {
          assert samples[j] == before[j];
        }
      }
      i := i + 1;
    }
  }

  /** `skip_file`: skip a file exactly when an ignore pattern is set and matches its name. */
  predicate SkipFile(ignore: Option<string>, isMatch: (string, string) -> bool, f: FileName) {
    match ignore
    case None => false
    case Some(re) => isMatch(re, f)
  }

  /** The file filter as a function of the file name. */
  function Skipper(ignore: Option<string>, isMatch: (string, string) -> bool): FileName -> bool {
    f => SkipFile(ignore, isMatch, f)
  }

  /**
   * The hunks that reach the changeset are exactly those whose old path the
   * ignore pattern does not match; without a pattern every hunk does.
   */
  lemma {:induction false} SkipKept(ignore: Option<string>, isMatch: (string, string) -> bool, events: seq<HunkEvent>)
    ensures forall k | 0 <= k < |Kept(events, Skipper(ignore, isMatch))| ::
              ignore.None? || !isMatch(ignore.value, Kept(events, Skipper(ignore, isMatch))[k].delta.oldPath)
    ensures forall i | 0 <= i < |events| ::
              (ignore.None? || !isMatch(ignore.value, events[i].delta.oldPath)) ==>
              events[i] in Kept(events, Skipper(ignore, isMatch))
    ensures ignore.None? ==> Kept(events, Skipper(ignore, isMatch)) == events
  {
    var skip := Skipper(ignore, isMatch);
    KeptFiltered(events, skip);
    KeptComplete(events, skip);
    if ignore.None? {
      AllKept(events, skip);
    }
  }

  /**
   * `collect_samples`: thin the commits, collect one changeset per pair of
   * consecutive trees with this filter, then `from_changesets`.
   */
  method CollectSamples(ids: seq<Commit>, interval: int, diff: (Option<nat>, nat) -> seq<HunkEvent>,
                        ignore: Option<string>, isMatch: (string, string) -> bool, cohortOf: int -> Cohort)
    returns (samples: seq<Sample>)
    requires |ids| > 0
    requires History(ids, interval, diff, Skipper(ignore, isMatch)).Some?
    requires Replayable(map[], History(ids, interval, diff, Skipper(ignore, isMatch)).value, cohortOf)
    ensures |samples| == |Thin(ids, interval)|
    ensures forall i | 0 <= i < |samples| ::
              samples[i].dateTime == Thin(ids, interval)[i].time &&
              samples[i].files == Series(map[], History(ids, interval, diff, Skipper(ignore, isMatch)).value, cohortOf)[i]
  {
    var commits := ThinCommits(ids, interval);
    var trees := Trees(ids[0].time, commits);
    var css := CollectChangesets(trees, diff, Skipper(ignore, isMatch));
    samples := FromChangesets(css, cohortOf);
  }
}

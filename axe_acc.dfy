/**
 * src/axe.rs: one accumulator threaded through all changesets, and after each
 * changeset a sample that keeps, per file, only how many lines each cohort owns.
 */
module AxeAccumulator {

  import opened Diff
  import opened Changes
  import opened Wrappers
  import opened Store
  import opened Pipeline
  import AxeSample
  import opened LineHistogram

  /** `Accumulator`: the provenance store, changed in place. */
  class Accumulator {
    var files: Files

    /** `Accumulator::new`. */
    constructor()
      ensures files == map[]
    {
      files := map[];
    }

    /** `get_lines`. */
    function GetLines(f: FileName): (r: Lines)
      reads this
      ensures r == LinesOf(files, f)
    {
      if f in files then files[f] else []
    }

    /** `set_lines`. */
    method SetLines(f: FileName, lines: Lines)
      modifies this
      ensures files == old(files)[f := lines]
    {
      files := files[f := lines];
    }

    /** `delete_lines`. */
    method DeleteLines(f: FileName)
      modifies this
      ensures files == old(files) - {f}
    {
      files := files - {f};
    }

    /** `Accumulator::add_changeset`: the changes applied in order with the given cohort. */
    method AddChangeset(cs: Changeset, cohort: Cohort)
      requires Applicable(files, cs.changes, cohort)
      modifies this
      ensures files == ApplyAll(old(files), cs.changes, cohort)
    {
      var i := 0;
      while i < |cs.changes|
        invariant 0 <= i <= |cs.changes|
        invariant Applicable(files, cs.changes[i..], cohort)
        invariant ApplyAll(files, cs.changes[i..], cohort) == ApplyAll(old(files), cs.changes, cohort)
      {
        var ch := cs.changes[i];
        assert cs.changes[i..][0] == ch && cs.changes[i..][1..] == cs.changes[i + 1..];
        ghost var next := ApplyChange(files, ch, cohort);
        match ch {
          case Add(f, start, length) =>
            var lines := GetLines(f);
            lines := InsertRun(lines, start, length, cohort);
            SetLines(f, lines);
          case Delete(f, start, length) =>
            var lines := GetLines(f);
            lines := RemoveRun(lines, start, length);
            SetLines(f, lines);
          case AddFile(f, length) =>
            SetLines(f, Repeat(cohort, length));
          case DeleteFile(f) =>
            DeleteLines(f);
        }
        assert files == next;
        i := i + 1;
      }
    }
  }

  /** src/axe.rs's `Sample`: a date and, per file, the number of lines of each cohort. */
  datatype HistSample = HistSample(dateTime: int, files: map<FileName, CohortMap>)

  /** Every file's histogram. */
  function Histograms(files: Files): (r: map<FileName, CohortMap>)
    ensures r.Keys == files.Keys
  {
    map f | f in files :: Histogram(files[f])
  }

  /** `v.get(cohort)`, read as zero when the cohort is absent. */
  function CountOf(c: Cohort): CohortMap -> nat {
    (m: CohortMap) => if c in m then m[c] else 0
  }

  /** The lines of cohort `c` summed over every file's histogram. */
  ghost function HistCount(files: map<FileName, CohortMap>, c: Cohort): nat {
    SumMap(files, CountOf(c))
  }

  /** Summing the histograms counts the same lines as counting the labels directly. */
  lemma HistCountAgrees(files: Files, c: Cohort)
    ensures HistCount(Histograms(files), c) == CountCohort(files, c)
  {
    var hs := Histograms(files);
    forall f | f in files
      ensures CountOf(c)(hs[f]) == OccurrencesOf(c)(files[f])
    {
      HistogramCounts(files[f]);
    }
    SumMapPointwise(hs, CountOf(c), files, OccurrencesOf(c));
  }

  /** The inner fold of `from_acc` over one file's lines. */
  method CountLabels(lines: Lines) returns (h: CohortMap)
    ensures h == Histogram(lines)
  {
    h := map[];
    var i := 0;
    while i < |lines|
      invariant 0 <= i <= |lines|
      invariant HistFrom(h, lines[i..]) == Histogram(lines)
    {
      assert lines[i..][0] == lines[i] && lines[i..][1..] == lines[i + 1..];
      var c := lines[i];
      var count := if c in h then h[c] else 0;
      h := h[c := count + 1];
      i := i + 1;
    }
  }

  /** `from_acc`: the sample for date `dt`, one histogram per accumulated file. */
  method FromAcc(dt: int, acc: Accumulator) returns (s: HistSample)
    ensures s.dateTime == dt && s.files == Histograms(acc.files)
  {
    var fcs: map<FileName, CohortMap> := map[];
    var keys := acc.files.Keys;
    while keys != {}
      invariant keys <= acc.files.Keys
      invariant fcs.Keys == acc.files.Keys - keys
      invariant forall f | f in fcs :: fcs[f] == Histogram(acc.files[f])
      decreases keys
    {
      var key :| key in keys;
      var fh := CountLabels(acc.files[key]);
      fcs := fcs[key := fh];
      keys := keys - {key};
    }
    s := HistSample(dt, fcs);
  }

  /** One turn of `from_changesets`: apply the changeset, then take the sample. */
  method Advance(acc: Accumulator, cs: Changeset, cohort: Cohort) returns (s: HistSample)
    requires Applicable(acc.files, cs.changes, cohort)
    modifies acc
    ensures acc.files == ApplyAll(old(acc.files), cs.changes, cohort)
    ensures s == HistSample(cs.dateTime, Histograms(acc.files))
  {
    acc.AddChangeset(cs, cohort);
    s := FromAcc(cs.dateTime, acc);
  }

  /**
   * `from_changesets`: one accumulator threaded through the changesets; sample i
   * holds the histograms of changesets 0..i applied in order, and the progress
   * callback runs once per changeset.
   */
  method FromChangesets(css: seq<Changeset>, cohortOf: int -> Cohort) returns (result: seq<HistSample>, callbacks: nat)
    requires Replayable(map[], Steps(css), cohortOf)
    ensures |result| == |css| && callbacks == |css|
    ensures forall i | 0 <= i < |css| ::
              result[i] == HistSample(css[i].dateTime, Histograms(Series(map[], Steps(css), cohortOf)[i]))
  {
    ghost var steps := Steps(css);
    ghost var series := Series(map[], steps, cohortOf);
    var acc := new Accumulator();
    result := [];
    callbacks := 0;
    var i := 0;
    while i < |css|
      invariant 0 <= i <= |css| && |result| == i && callbacks == i
      invariant (if i == 0 then map[] else series[i - 1]) == acc.files
      invariant forall j | 0 <= j < i :: result[j] == HistSample(steps[j].dateTime, Histograms(series[j]))
    {
      SeriesStep(map[], steps, cohortOf, i);
      assert steps[i] == Step(css[i].dateTime, css[i].changes);
      callbacks := callbacks + 1;
      var s := Advance(acc, css[i], cohortOf(css[i].dateTime));
      ghost var before := result;
      result := result + [s];
      forall j | 0 <= j <= i
        ensures result[j] == HistSample(steps[j].dateTime, Histograms(series[j]))
      {
        if j < i {
          assert result[j] == before[j];
        }
      }
      i := i + 1;
    }
  }

  /**
   * `count_cohort_lines` as written: it unwraps the cohort's count in every
   * file, so it is defined only when every file has a line of that cohort.
   */
  method CountCohortLines(s: HistSample, cohort: Cohort) returns (n: nat)
    requires forall f | f in s.files :: cohort in s.files[f]
    ensures n == HistCount(s.files, cohort)
  {
    n := 0;
    var rest := s.files;
    while |rest| > 0
      invariant forall f | f in rest :: cohort in rest[f]
      invariant n + SumMap(rest, CountOf(cohort)) == HistCount(s.files, cohort)
      decreases |rest|
    {
      var f :| f in rest;
      SumMapRemove(rest, CountOf(cohort), f);
      n := n + rest[f][cohort];
      rest := rest - {f};
    }
  }

  /**
   * Sample 0 of a history whose first changeset adds one file and whose second
   * has another cohort holds no count for the second cohort, which is a column
   * of the report; `count_cohort_lines` then panics on it.
   */
  lemma CountCohortLinesPanics(cohortOf: int -> Cohort, t1: int, t2: int)
    requires cohortOf(t1) != cohortOf(t2)
    ensures var steps := [Step(t1, [AddFile("a", 1)]), Step(t2, [])];
            Replayable(map[], steps, cohortOf) &&
            var s0 := Histograms(Series(map[], steps, cohortOf)[0]);
            "a" in s0 && cohortOf(t2) !in s0["a"]
  {
    var steps := [Step(t1, [AddFile("a", 1)]), Step(t2, [])];
    var c1 := cohortOf(t1);
    var files1 := map["a" := [c1]];
    assert Repeat(c1, 1) == [c1];
    assert ApplyChange(map[], AddFile("a", 1), c1) == files1;
    assert ApplyAll(map[], steps[0].changes, c1) == files1;
    assert steps[1..][0].changes == [];
    assert Replayable(files1, steps[1..], cohortOf);
    HistogramCounts([c1]);
  }

  /** `count_cohort_lines` reading an absent cohort as zero: defined on every sample. */
  method CountCohortLinesOrZero(s: HistSample, cohort: Cohort) returns (n: nat)
    ensures n == HistCount(s.files, cohort)
  {
    n := SumValues(s.files, CountOf(cohort));
  }

  /** On a sample built by `from_acc`, the corrected count is the number of lines of that cohort. */
  lemma CountOrZeroOnSample(acc: Files, dt: int, cohort: Cohort)
    ensures HistCount(HistSample(dt, Histograms(acc)).files, cohort) == CountCohort(acc, cohort)
  {
    HistCountAgrees(acc, cohort);
  }

  /**
   * `collect_samples`: thin the commits, collect one changeset per pair of
   * consecutive trees with the ignore filter, then `from_changesets`.
   */
  method CollectSamples(ids: seq<Commit>, interval: int, diff: (Option<nat>, nat) -> seq<HunkEvent>,
                        ignore: Option<string>, isMatch: (string, string) -> bool, cohortOf: int -> Cohort)
    returns (samples: seq<HistSample>)
    requires |ids| > 0
    requires History(ids, interval, diff, AxeSample.Skipper(ignore, isMatch)).Some?
    requires Replayable(map[], History(ids, interval, diff, AxeSample.Skipper(ignore, isMatch)).value, cohortOf)
    ensures |samples| == |Thin(ids, interval)|
    ensures forall i | 0 <= i < |samples| ::
              samples[i].dateTime == Thin(ids, interval)[i].time &&
              samples[i].files == Histograms(Series(map[], History(ids, interval, diff, AxeSample.Skipper(ignore, isMatch)).value, cohortOf)[i])
  {
    var commits := ThinCommits(ids, interval);
    var trees := Trees(ids[0].time, commits);
    var css := CollectChangesets(trees, diff, AxeSample.Skipper(ignore, isMatch));
    var callbacks;
    samples, callbacks := FromChangesets(css, cohortOf);
  }
}

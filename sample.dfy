/**
 * git-metrics' sample: a dated snapshot of the provenance store, updated in place
 * by whole changesets with `split_off`/`extend_from_slice`/`drain`.
 */
module MetricsSample {

  import opened Diff
  import opened Changes
  import opened Store

  /** `split_off(start)`, `extend_from_slice(&vec![cohort; length])`, then the split-off tail appended back. */
  method SplitInsert(lines: Lines, start: nat, length: nat, cohort: Cohort) returns (r: Lines)
    requires start <= |lines|
    ensures r == InsertLines(lines, start, length, cohort)
  {
    var tail := lines[start..];
    r := lines[..start];
    r := r + Repeat(cohort, length);
    r := r + tail;
    if length == 0 {
      assert r == lines[..start] + lines[start..];
      assert lines == lines[..start] + lines[start..];
    }
  }

  /** `drain(start..start + length)`. */
  method Drain(lines: Lines, start: nat, length: nat) returns (r: Lines)
    requires start + length <= |lines|
    ensures r == RemoveLines(lines, start, length)
  {
    r := lines[..start] + lines[start + length..];
    if length == 0 {
      assert lines == lines[..start] + lines[start..];
    }
  }

  /** One change done on the file's line vector; an absent file starts out empty. */
  method Splice(files: Files, ch: Change, cohort: Cohort) returns (r: Files)
    requires Fits(files, ch) && SpliceFits(files, ch)
    ensures r == ApplyChange(files, ch, cohort)
  {
    match ch {
      case Add(f, start, length) =>
        var lines := SplitInsert(LinesOf(files, f), start, length, cohort);
        r := files[f := lines];
      case Delete(f, start, length) =>
        var lines := Drain(LinesOf(files, f), start, length);
        r := files[f := lines];
      case AddFile(f, length) =>
        r := files[f := Repeat(cohort, length)];
      case DeleteFile(f) =>
        r := files - {f};
    }
  }

  class Sample {
    var dateTime: int
    var files: Files

    /** `Sample::new`: a dated sample with no files. */
    constructor(dt: int)
      ensures dateTime == dt && files == map[]
    {
      dateTime := dt;
      files := map[];
    }

    /** `clone_and_date`: a new sample with the same files and another date; this one is untouched. */
    method CloneAndDate(dt: int) returns (s: Sample)
      ensures fresh(s) && s.dateTime == dt && s.files == files
    {
      s := new Sample(dt);
      s.files := files;
    }

    /**
     * `add_changeset`: the changes applied in order with the given cohort. Every
     * `split_off` and `drain` must be in range, zero-length ones included.
     */
    method AddChangeset(cs: Changeset, cohort: Cohort)
      requires Applicable(files, cs.changes, cohort) && SpliceApplicable(files, cs.changes, cohort)
      modifies this
      ensures dateTime == old(dateTime)
      ensures files == ApplyAll(old(files), cs.changes, cohort)
    {
      var i := 0;
      while i < |cs.changes|
        invariant 0 <= i <= |cs.changes|
        invariant dateTime == old(dateTime)
        invariant Applicable(files, cs.changes[i..], cohort) && SpliceApplicable(files, cs.changes[i..], cohort)
        invariant ApplyAll(files, cs.changes[i..], cohort) == ApplyAll(old(files), cs.changes, cohort)
      {
        var ch := cs.changes[i];
        assert cs.changes[i..][0] == ch && cs.changes[i..][1..] == cs.changes[i + 1..];
        files := Splice(files, ch, cohort);
        i := i + 1;
      }
    }

    /** `count_cohort_lines`: the lines labelled `cohort` over all files. */
    method CountCohortLines(cohort: Cohort) returns (n: nat)
      ensures n == CountCohort(files, cohort)
    {
      n := SumValues(files, OccurrencesOf(cohort));
    }
  }
}

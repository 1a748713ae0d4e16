/**
 * src/ax/mod.rs: a sample changed hunk by hunk, straight from each delta, with
 * no intermediate change list; and the date-cursor selection of commits that
 * builds one sample per selected commit.
 */
module AxSample {

  import opened Wrappers
  import opened Diff
  import opened Changes
  import opened Store

  /**
   * Whether a hunk can be applied without a panic: Added computes
   * `new_start - 1` on a `u32` with no clamp, and the insert/remove loops need
   * their indices in range.
   */
  predicate HunkFits(files: Files, d: Delta, h: Hunk) {
    match d.status
    case Added =>
      h.newStart >= 1 && (h.newLines == 0 || h.newStart - 1 <= |LinesOf(files, d.newPath)|)
    case Modified =>
      var lines := LinesOf(files, d.newPath);
      var start := HunkStart(h);
      (h.oldLines == 0 || start + h.oldLines <= |lines|) &&
      (h.newLines == 0 || start <= |lines| - h.oldLines)
    case _ => true
  }

  /** What one hunk does to the store, by the delta's status. */
  function HunkEffect(files: Files, d: Delta, h: Hunk, c: Cohort): (r: Files)
    requires HunkFits(files, d, h)
    ensures d.status !in {Added, Deleted, Modified} ==> r == files
    ensures d.status == Deleted ==> r == files - {d.oldPath}
    ensures d.status in {Added, Modified} ==>
              forall g | g != d.newPath :: (g in r <==> g in files) && (g in files ==> r[g] == files[g])
  {
    match d.status
    case Added =>
      files[d.newPath := InsertLines(LinesOf(files, d.newPath), h.newStart - 1, h.newLines, c)]
    case Deleted =>
      files - {d.oldPath}
    case Modified =>
      var lines := LinesOf(files, d.newPath);
      var start := HunkStart(h);
      files[d.newPath := InsertLines(RemoveLines(lines, start, h.oldLines), start, h.newLines, c)]
    case _ => files
  }

  /**
   * A Delete followed by an Add at the same start: applicable exactly when the
   * removal and then the insertion are in range, with the lines spliced in place.
   */
  lemma DeleteThenAdd(files: Files, f: FileName, start: nat, o: nat, n: nat, c: Cohort)
    requires o > 0 && n > 0
    ensures var lines := LinesOf(files, f);
            Applicable(files, [Delete(f, start, o), Add(f, start, n)], c) <==>
            start + o <= |lines| && start <= |lines| - o
    ensures var lines := LinesOf(files, f);
            start + o <= |lines| && start <= |lines| - o ==>
            ApplyAll(files, [Delete(f, start, o), Add(f, start, n)], c) ==
            files[f := InsertLines(RemoveLines(lines, start, o), start, n, c)]
  {
    var chs := [Delete(f, start, o), Add(f, start, n)];
    var lines := LinesOf(files, f);
    assert chs[1..] == [chs[1]] && chs[1..][1..] == [];
    if start + o <= |lines| {
      var removed := RemoveLines(lines, start, o);
      var mid := ApplyChange(files, chs[0], c);
      assert mid == files[f := removed];
      assert LinesOf(mid, f) == removed;
      assert Applicable(files, chs, c) <==> Applicable(mid, chs[1..], c);
      assert Applicable(mid, chs[1..], c) <==> Fits(mid, chs[1]);
      if start <= |removed| {
        var after := ApplyChange(mid, chs[1], c);
        assert after == files[f := removed][f := InsertLines(removed, start, n, c)];
        assert ApplyAll(mid, chs[1..], c) == after;
        assert after == files[f := InsertLines(removed, start, n, c)];
      }
    }
  }

  /**
   * A Modified hunk does to the store what its translation into a Delete and an
   * Add does, and applies exactly when that translation applies.
   */
  lemma ModifiedAgreesWithChanges(files: Files, d: Delta, h: Hunk, c: Cohort)
    requires d.status == Modified && (h.oldLines > 0 || h.newLines > 0)
    ensures Applicable(files, Translate(d, h), c) <==> HunkFits(files, d, h)
    ensures HunkFits(files, d, h) ==> ApplyAll(files, Translate(d, h), c) == HunkEffect(files, d, h, c)
  {
    var f := d.newPath;
    var start := HunkStart(h);
    var chs := Translate(d, h);
    if h.oldLines > 0 && h.newLines > 0 {
      assert chs == [Delete(f, start, h.oldLines), Add(f, start, h.newLines)];
      DeleteThenAdd(files, f, start, h.oldLines, h.newLines, c);
    } else if h.oldLines > 0 {
      assert chs == [Delete(f, start, h.oldLines)];
      SingleChange(files, chs[0], c);
      var lines := LinesOf(files, f);
      if start + h.oldLines <= |lines| {
        var removed := RemoveLines(lines, start, h.oldLines);
        assert ApplyChange(files, chs[0], c) == files[f := removed];
        assert InsertLines(removed, start, 0, c) == removed;
      }
    } else {
      assert chs == [Add(f, start, h.newLines)];
      SingleChange(files, chs[0], c);
      var lines := LinesOf(files, f);
      assert RemoveLines(lines, start, 0) == lines;
    }
  }

  /** A one-change list applies exactly when its change fits, and then does what that change does. */
  lemma SingleChange(files: Files, ch: Change, c: Cohort)
    ensures Applicable(files, [ch], c) <==> Fits(files, ch)
    ensures Fits(files, ch) ==> ApplyAll(files, [ch], c) == ApplyChange(files, ch, c)
  {
    assert [ch][1..] == [];
  }

  /** A Deleted hunk drops the file, as the DeleteFile it translates to does. */
  lemma DeletedAgreesWithChanges(files: Files, d: Delta, h: Hunk, c: Cohort)
    requires d.status == Deleted
    ensures Applicable(files, Translate(d, h), c)
    ensures ApplyAll(files, Translate(d, h), c) == HunkEffect(files, d, h, c)
  {
    assert Translate(d, h)[1..] == [];
  }

  /**
   * An Added hunk for a new file starting at line 1 gives the file the lines
   * the AddFile it translates to gives it; for a file already present it
   * inserts instead of replacing.
   */
  lemma AddedAgreesWithChanges(files: Files, d: Delta, h: Hunk, c: Cohort)
    requires d.status == Added && h.newStart == 1 && d.newPath !in files
    ensures HunkFits(files, d, h) && Applicable(files, Translate(d, h), c)
    ensures ApplyAll(files, Translate(d, h), c) == HunkEffect(files, d, h, c)
  {
    assert Translate(d, h)[1..] == [];
    var empty: Lines := [];
    assert InsertLines(empty, 0, h.newLines, c) == Repeat(c, h.newLines) by {
      if h.newLines > 0 {
        assert empty[..0] + Repeat(c, h.newLines) + empty[0..] == Repeat(c, h.newLines);
      }
    }
  }

  /** A Modified hunk moves the line total by `new_lines - old_lines`. */
  lemma ModifiedTotal(files: Files, d: Delta, h: Hunk, c: Cohort)
    requires d.status == Modified && HunkFits(files, d, h)
    ensures TotalLines(HunkEffect(files, d, h, c)) + h.oldLines == TotalLines(files) + h.newLines
  {
    var r := HunkEffect(files, d, h, c);
    var f := d.newPath;
    SumMapUpdate(files, LineCount, f, r[f]);
    assert r == files[f := r[f]];
  }

  /** Every hunk of a list fits the store its predecessors have left. */
  predicate HunksFit(files: Files, events: seq<HunkEvent>, c: Cohort)
    decreases |events|
  {
    |events| == 0 ||
    (HunkFits(files, events[0].delta, events[0].hunk) &&
     HunksFit(HunkEffect(files, events[0].delta, events[0].hunk, c), events[1..], c))
  }

  /** The hunks of a diff applied in order. */
  function ApplyHunks(files: Files, events: seq<HunkEvent>, c: Cohort): Files
    requires HunksFit(files, events, c)
    decreases |events|
  {
    if |events| == 0 then files
    else ApplyHunks(HunkEffect(files, events[0].delta, events[0].hunk, c), events[1..], c)
  }

  class Sample {
    var dateTime: int
    var files: Files

    /** `Sample::new`. */
    constructor(dt: int)
      ensures dateTime == dt && files == map[]
    {
      dateTime := dt;
      files := map[];
    }

    /** `clone_and_date`. */
    method CloneAndDate(dt: int) returns (s: Sample)
      ensures fresh(s) && s.dateTime == dt && s.files == files
    {
      s := new Sample(dt);
      s.files := files;
    }

    /** `get_lines`. */
    function GetLines(f: FileName): (r: Lines)
      reads this
      ensures r == LinesOf(files, f)
    {
      if f in files then files[f] else []
    }

    /** `set_lines`. */
    method SetLines(f: FileName, lines: Lines)
      modifies this
      ensures dateTime == old(dateTime) && files == old(files)[f := lines]
    {
      files := files[f := lines];
    }

    /** `delete_lines`. */
    method DeleteLines(f: FileName)
      modifies this
      ensures dateTime == old(dateTime) && files == old(files) - {f}
    {
      files := files - {f};
    }

    /** `process_added`: the new lines inserted at `new_start - 1` of the new file. */
    method ProcessAdded(d: Delta, h: Hunk, cohort: Cohort)
      requires d.status == Added && HunkFits(files, d, h)
      modifies this
      ensures dateTime == old(dateTime) && files == HunkEffect(old(files), d, h, cohort)
    {
      var lines := GetLines(d.newPath);
      assert lines == LinesOf(files, d.newPath);
      assert h.newStart >= 1 && (h.newLines == 0 || h.newStart - 1 <= |lines|);
      var start := h.newStart - 1;
      lines := InsertRun(lines, start, h.newLines, cohort);
      SetLines(d.newPath, lines);
    }

    /** `process_deleted`: the old file's entry removed, whatever the hunk. */
    method ProcessDeleted(d: Delta, h: Hunk)
      requires d.status == Deleted
      modifies this
      ensures dateTime == old(dateTime) && files == old(files) - {d.oldPath}
    {
      DeleteLines(d.oldPath);
    }

    /** `process_modified`: `old_lines` removed at the clamped start, then `new_lines` inserted there. */
    method ProcessModified(d: Delta, h: Hunk, cohort: Cohort)
      requires d.status == Modified && HunkFits(files, d, h)
      modifies this
      ensures dateTime == old(dateTime) && files == HunkEffect(old(files), d, h, cohort)
    {
      var lines := GetLines(d.newPath);
      var start := if h.newStart > 0 then h.newStart - 1 else 0;
      lines := RemoveRun(lines, start, h.oldLines);
      lines := InsertRun(lines, start, h.newLines, cohort);
      SetLines(d.newPath, lines);
    }

    /** `process_renamed` and `process_copied`: only a message is printed. */
    method ProcessRenamedOrCopied(d: Delta, h: Hunk)
      ensures files == old(files)
    {
    }

    /** `add_diff_hunk`: dispatch on the delta's status; other statuses change nothing. */
    method AddDiffHunk(d: Delta, h: Hunk, cohort: Cohort)
      requires HunkFits(files, d, h)
      modifies this
      ensures dateTime == old(dateTime) && files == HunkEffect(old(files), d, h, cohort)
    {
      match d.status {
        case Added => ProcessAdded(d, h, cohort);
        case Deleted => ProcessDeleted(d, h);
        case Modified => ProcessModified(d, h, cohort);
        case Renamed => ProcessRenamedOrCopied(d, h);
        case Copied => ProcessRenamedOrCopied(d, h);
        case _ =>
      }
    }

    /** `total_lines`: the number of lines over all files. */
    method TotalLines() returns (n: nat)
      ensures n == Store.TotalLines(files)
    {
      n := SumValues(files, LineCount);
    }

    /** `count_cohort_lines`. */
    method CountCohortLines(cohort: Cohort) returns (n: nat)
      ensures n == CountCohort(files, cohort)
    {
      n := SumValues(files, OccurrencesOf(cohort));
    }
  }

  // ----- commit selection -----

  /** The fold state: the date cursor, the last processed commit, and the last sample's files. */
  datatype Cursor = Cursor(dateTime: int, last: Option<nat>, files: Files)

  /** A sample as produced: its date and its files. */
  datatype Snap = Snap(dateTime: int, files: Files)

  /**
   * Every selected commit's hunks fit; `diff(last, id)` stands for the hunks of
   * the diff from the last processed commit's tree (or from nothing) to commit `id`'s.
   */
  predicate Collectable(cur: Cursor, ids: seq<Commit>, interval: int,
                        diff: (Option<nat>, nat) -> seq<HunkEvent>, cohortOf: int -> Cohort)
    decreases |ids|
  {
    |ids| == 0 ||
    if ids[0].time < cur.dateTime + interval then Collectable(cur, ids[1..], interval, diff, cohortOf)
    else
      var c := cohortOf(ids[0].time);
      var events := diff(cur.last, ids[0].id);
      HunksFit(cur.files, events, c) &&
      Collectable(Cursor(ids[0].time, Some(ids[0].id), ApplyHunks(cur.files, events, c)), ids[1..], interval, diff, cohortOf)
  }

  /** The samples the fold produces from cursor `cur` over the remaining commits. */
  function Collect(cur: Cursor, ids: seq<Commit>, interval: int,
                   diff: (Option<nat>, nat) -> seq<HunkEvent>, cohortOf: int -> Cohort): (r: seq<Snap>)
    requires Collectable(cur, ids, interval, diff, cohortOf)
    ensures |r| <= |ids|
    decreases |ids|
  {
    if |ids| == 0 then []
    else if ids[0].time < cur.dateTime + interval then Collect(cur, ids[1..], interval, diff, cohortOf)
    else
      var c := cohortOf(ids[0].time);
      var files := ApplyHunks(cur.files, diff(cur.last, ids[0].id), c);
      [Snap(ids[0].time, files)] + Collect(Cursor(ids[0].time, Some(ids[0].id), files), ids[1..], interval, diff, cohortOf)
  }

  /**
   * Every sample is dated at least `interval` after the cursor it was taken
   * from: the first after the starting cursor, each later one after the sample before it.
   */
  lemma {:induction false} CollectSpacing(cur: Cursor, ids: seq<Commit>, interval: int,
                                          diff: (Option<nat>, nat) -> seq<HunkEvent>, cohortOf: int -> Cohort)
    requires Collectable(cur, ids, interval, diff, cohortOf)
    ensures var r := Collect(cur, ids, interval, diff, cohortOf);
            (|r| > 0 ==> r[0].dateTime >= cur.dateTime + interval) &&
            forall i | 0 < i < |r| :: r[i].dateTime >= r[i - 1].dateTime + interval
    decreases |ids|
  {
    if |ids| > 0 {
      if ids[0].time < cur.dateTime + interval {
        CollectSpacing(cur, ids[1..], interval, diff, cohortOf);
      } else {
        var c := cohortOf(ids[0].time);
        var files := ApplyHunks(cur.files, diff(cur.last, ids[0].id), c);
        var next := Cursor(ids[0].time, Some(ids[0].id), files);
        CollectSpacing(next, ids[1..], interval, diff, cohortOf);
        var rest := Collect(next, ids[1..], interval, diff, cohortOf);
        var r := Collect(cur, ids, interval, diff, cohortOf);
        assert r == [Snap(ids[0].time, files)] + rest;
        forall i | 0 < i < |r|
          ensures r[i].dateTime >= r[i - 1].dateTime + interval
        {
          assert r[i] == rest[i - 1];
          if i > 1 {
            assert r[i - 1] == rest[i - 2];
          }
        }
      }
    }
  }

  /** The cursor the fold starts from: the first commit's time plus the interval, no tree, no files. */
  function Start(ids: seq<Commit>, interval: int): Cursor
    requires |ids| > 0
  {
    Cursor(ids[0].time + interval, None, map[])
  }

  /** So the first sample is dated at least two intervals after the first commit. */
  lemma FirstSampleAfterTwoIntervals(ids: seq<Commit>, interval: int,
                                     diff: (Option<nat>, nat) -> seq<HunkEvent>, cohortOf: int -> Cohort)
    requires |ids| > 0 && Collectable(Start(ids, interval), ids, interval, diff, cohortOf)
    ensures var r := Collect(Start(ids, interval), ids, interval, diff, cohortOf);
            |r| > 0 ==> r[0].dateTime >= ids[0].time + 2 * interval
  {
    CollectSpacing(Start(ids, interval), ids, interval, diff, cohortOf);
  }

  /** The hunks of one diff applied to a sample in callback order; every callback returns `true`. */
  method ApplyDiff(sample: Sample, events: seq<HunkEvent>, cohort: Cohort)
    requires HunksFit(sample.files, events, cohort)
    modifies sample
    ensures sample.dateTime == old(sample.dateTime)
    ensures sample.files == ApplyHunks(old(sample.files), events, cohort)
  {
    var j := 0;
    while j < |events|
      invariant 0 <= j <= |events|
      invariant sample.dateTime == old(sample.dateTime)
      invariant HunksFit(sample.files, events[j..], cohort)
      invariant ApplyHunks(sample.files, events[j..], cohort) == ApplyHunks(old(sample.files), events, cohort)
    {
      assert events[j..][0] == events[j] && events[j..][1..] == events[j + 1..];
      sample.AddDiffHunk(events[j].delta, events[j].hunk, cohort);
      j := j + 1;
    }
  }

  /**
   * One turn of the fold, for a caller that has produced `done` so far on the way
   * to `all`: a commit before the cursor plus the interval is passed over; any
   * other yields the next sample and becomes the cursor.
   */
  lemma CollectAdvance(done: seq<Snap>, cur: Cursor, ids: seq<Commit>, all: seq<Snap>, interval: int,
                       diff: (Option<nat>, nat) -> seq<HunkEvent>, cohortOf: int -> Cohort)
    requires |ids| > 0 && Collectable(cur, ids, interval, diff, cohortOf)
    requires done + Collect(cur, ids, interval, diff, cohortOf) == all
    ensures ids[0].time < cur.dateTime + interval ==>
              Collectable(cur, ids[1..], interval, diff, cohortOf) &&
              done + Collect(cur, ids[1..], interval, diff, cohortOf) == all
    ensures ids[0].time >= cur.dateTime + interval ==>
              var c := cohortOf(ids[0].time);
              var events := diff(cur.last, ids[0].id);
              HunksFit(cur.files, events, c) &&
              var files := ApplyHunks(cur.files, events, c);
              var next := Cursor(ids[0].time, Some(ids[0].id), files);
              Collectable(next, ids[1..], interval, diff, cohortOf) &&
              done + [Snap(ids[0].time, files)] + Collect(next, ids[1..], interval, diff, cohortOf) == all
  {
    if ids[0].time >= cur.dateTime + interval {
      var files := ApplyHunks(cur.files, diff(cur.last, ids[0].id), cohortOf(ids[0].time));
      var later := Collect(Cursor(ids[0].time, Some(ids[0].id), files), ids[1..], interval, diff, cohortOf);
      assert done + [Snap(ids[0].time, files)] + later == done + ([Snap(ids[0].time, files)] + later);
    }
  }

  /**
   * One processed commit: a sample cloned from the last one (or a new one),
   * dated with the commit's time, with the commit's hunks added; the earlier
   * samples are left alone.
   */
  method NextSample(samples: seq<Sample>, dt: int, events: seq<HunkEvent>, cohort: Cohort) returns (sample: Sample)
    requires HunksFit(if |samples| == 0 then map[] else samples[|samples| - 1].files, events, cohort)
    ensures fresh(sample) && sample.dateTime == dt
    ensures sample.files == ApplyHunks(if |samples| == 0 then map[] else samples[|samples| - 1].files, events, cohort)
  {
    if |samples| > 0 {
      sample := samples[|samples| - 1].CloneAndDate(dt);
    } else {
      sample := new Sample(dt);
    }
    ApplyDiff(sample, events, cohort);
  }

  /** The files of the last sample produced so far, or none before the first. */
  function LastFiles(done: seq<Snap>): Files {
    if |done| == 0 then map[] else done[|done| - 1].files
  }

  /** The sample objects hold, in order, the dates and files of `done`. */
  ghost predicate Mirrors(samples: seq<Sample>, done: seq<Snap>)
    reads samples
  {
    |samples| == |done| &&
    forall j | 0 <= j < |done| :: samples[j].dateTime == done[j].dateTime && samples[j].files == done[j].files
  }

  /** `samples.push(sample)` after `NextSample`: the new sample joins the list and the earlier ones stay as they were. */
  method AppendSample(samples: seq<Sample>, ghost done: seq<Snap>, dt: int, events: seq<HunkEvent>, cohort: Cohort)
    returns (samples': seq<Sample>, ghost done': seq<Snap>)
    requires Mirrors(samples, done) && HunksFit(LastFiles(done), events, cohort)
    ensures |samples'| == |samples| + 1 && samples'[..|samples|] == samples
    ensures Mirrors(samples', done')
    ensures done' == done + [Snap(dt, ApplyHunks(LastFiles(done), events, cohort))]
  {
    assert LastFiles(done) == if |samples| == 0 then map[] else samples[|samples| - 1].files;
    var sample := NextSample(samples, dt, events, cohort);
    assert Mirrors(samples, done);
    samples' := samples + [sample];
    done' := done + [Snap(dt, sample.files)];
    forall j | 0 <= j < |done'|
      ensures samples'[j].dateTime == done'[j].dateTime && samples'[j].files == done'[j].files
    {
      if j < |done| {
        assert samples'[j] == samples[j] && done'[j] == done[j];
      }
    }
  }

  /**
   * `collect_samples`: a commit is processed when its time is at least the
   * cursor plus the interval; it then gets a sample derived from the last one
   * (or from nothing), dated with its own time, and becomes the cursor.
   */
  method CollectSamples(ids: seq<Commit>, interval: int,
                        diff: (Option<nat>, nat) -> seq<HunkEvent>, cohortOf: int -> Cohort)
    returns (samples: seq<Sample>)
    requires |ids| > 0 && Collectable(Start(ids, interval), ids, interval, diff, cohortOf)
    ensures var r := Collect(Start(ids, interval), ids, interval, diff, cohortOf);
            |samples| == |r| &&
            forall i | 0 <= i < |r| :: samples[i].dateTime == r[i].dateTime && samples[i].files == r[i].files
  {
    ghost var all := Collect(Start(ids, interval), ids, interval, diff, cohortOf);
    ghost var done: seq<Snap> := [];
    var cursor := ids[0].time + interval;
    var last: Option<nat> := None;
    samples := [];
    var i := 0;
    while i < |ids|
      invariant 0 <= i <= |ids| && Mirrors(samples, done)
      invariant Collectable(Cursor(cursor, last, LastFiles(done)), ids[i..], interval, diff, cohortOf)
      invariant done + Collect(Cursor(cursor, last, LastFiles(done)), ids[i..], interval, diff, cohortOf) == all
    {
      var commit := ids[i];
      assert ids[i..][0] == commit && ids[i..][1..] == ids[i + 1..];
      CollectAdvance(done, Cursor(cursor, last, LastFiles(done)), ids[i..], all, interval, diff, cohortOf);
      var cohort := cohortOf(commit.time);
      if commit.time >= cursor + interval {
        samples, done := AppendSample(samples, done, commit.time, diff(last, commit.id), cohort);
        cursor := commit.time;
        last := Some(commit.id);
      }
      i := i + 1;
    }
  }
}

/**
 * The line-provenance store that every variant of the engine keeps: a map from
 * file name to the cohort label of each of its lines, and the four positional
 * changes applied to it in order. Also the sums over all files that the
 * aggregation reports, and the insert/remove loops that src/axe/mod.rs,
 * src/axe.rs and src/ax/mod.rs share.
 */
module Store {

  import opened Diff
  import opened Changes

  type Cohort = string
  type Lines = seq<Cohort>
  type Files = map<FileName, Lines>

  /** `vec![cohort; n]`. */
  function Repeat(c: Cohort, n: nat): (r: Lines)
    ensures |r| == n
    ensures forall i | 0 <= i < n :: r[i] == c
  {
    if n == 0 then [] else [c] + Repeat(c, n - 1)
  }

  /** A file's current lines; an absent file reads as empty (`get_lines`, `entry().or_insert`). */
  function LinesOf(files: Files, f: FileName): Lines {
    if f in files then files[f] else []
  }

  /** `length` copies of `c` inserted at `start`; a zero-length insertion leaves the lines alone. */
  function InsertLines(lines: Lines, start: nat, length: nat, c: Cohort): (r: Lines)
    requires length == 0 || start <= |lines|
    ensures |r| == |lines| + length
    ensures length > 0 ==> r[..start] == lines[..start] && r[start + length..] == lines[start..]
    ensures forall i | start <= i < start + length :: r[i] == c
    ensures length == 0 ==> r == lines
  {
    if length == 0 then lines else lines[..start] + Repeat(c, length) + lines[start..]
  }

  /** The lines with `[start, start + length)` taken out; a zero-length removal leaves them alone. */
  function RemoveLines(lines: Lines, start: nat, length: nat): (r: Lines)
    requires length == 0 || start + length <= |lines|
    ensures |r| == |lines| - length
    ensures length > 0 ==> r[..start] == lines[..start] && r[start..] == lines[start + length..]
    ensures length == 0 ==> r == lines
  {
    if length == 0 then lines else lines[..start] + lines[start + length..]
  }

  /**
   * Whether a change can be applied without a panic by the insert/remove loops
   * (`Vec::insert` needs `start <= len`, each `Vec::remove` needs `start < len`);
   * a zero-length change runs no loop iteration and always fits.
   */
  predicate Fits(files: Files, ch: Change) {
    match ch
    case Add(f, s, n) => n == 0 || s <= |LinesOf(files, f)|
    case Delete(f, s, n) => n == 0 || s + n <= |LinesOf(files, f)|
    case _ => true
  }

  /**
   * The stricter demand of `split_off(start)` and `drain(start..start + length)`:
   * the start is within the file even for a zero-length change.
   */
  predicate SpliceFits(files: Files, ch: Change) {
    match ch
    case Add(f, s, n) => s <= |LinesOf(files, f)|
    case Delete(f, s, n) => s + n <= |LinesOf(files, f)|
    case _ => true
  }

  /**
   * The `split_off`/`drain` demand is the stricter one, and the two differ only
   * on a zero-length Add or Delete.
   */
  lemma SpliceFitsStricter(files: Files, ch: Change)
    ensures SpliceFits(files, ch) ==> Fits(files, ch)
    ensures Fits(files, ch) && !SpliceFits(files, ch) ==> (ch.Add? || ch.Delete?) && ch.length == 0
    ensures !ch.Add? && !ch.Delete? ==> Fits(files, ch) && SpliceFits(files, ch)
  {
  }

  /** One change applied to the store with the cohort of the changeset being applied. */
  function ApplyChange(files: Files, ch: Change, c: Cohort): (r: Files)
    requires Fits(files, ch)
    ensures forall g | g != ch.file :: (g in r <==> g in files) && (g in files ==> r[g] == files[g])
    ensures ch.file in r <==> !ch.DeleteFile?
    ensures ch.Add? ==> |r[ch.file]| == |LinesOf(files, ch.file)| + ch.length
    ensures ch.Delete? ==> |r[ch.file]| == |LinesOf(files, ch.file)| - ch.length
    ensures ch.AddFile? ==> r[ch.file] == Repeat(c, ch.length)
    ensures ch.Add? ==> r[ch.file] == InsertLines(LinesOf(files, ch.file), ch.start, ch.length, c)
    ensures ch.Delete? ==> r[ch.file] == RemoveLines(LinesOf(files, ch.file), ch.start, ch.length)
  {
    match ch
    case Add(f, s, n) => files[f := InsertLines(LinesOf(files, f), s, n, c)]
    case Delete(f, s, n) => files[f := RemoveLines(LinesOf(files, f), s, n)]
    case AddFile(f, n) => files[f := Repeat(c, n)]
    case DeleteFile(f) => files - {f}
  }

  /** Every change fits the store as the changes before it have left it. */
  predicate Applicable(files: Files, chs: seq<Change>, c: Cohort)
    decreases |chs|
  {
    |chs| == 0 || (Fits(files, chs[0]) && Applicable(ApplyChange(files, chs[0], c), chs[1..], c))
  }

  /** Every change also meets the splice demand, as the changes before it have left the store. */
  predicate SpliceApplicable(files: Files, chs: seq<Change>, c: Cohort)
    requires Applicable(files, chs, c)
    decreases |chs|
  {
    |chs| == 0 || (SpliceFits(files, chs[0]) && SpliceApplicable(ApplyChange(files, chs[0], c), chs[1..], c))
  }

  /** The changes applied in list order. */
  function ApplyAll(files: Files, chs: seq<Change>, c: Cohort): Files
    requires Applicable(files, chs, c)
    decreases |chs|
  {
    if |chs| == 0 then files else ApplyAll(ApplyChange(files, chs[0], c), chs[1..], c)
  }

  /** Applying a concatenation is applying its two parts one after the other. */
  lemma {:induction false} ApplyAllAppend(files: Files, a: seq<Change>, b: seq<Change>, c: Cohort)
    ensures Applicable(files, a + b, c) <==> Applicable(files, a, c) && Applicable(ApplyAll(files, a, c), b, c)
    ensures Applicable(files, a + b, c) ==> ApplyAll(files, a + b, c) == ApplyAll(ApplyAll(files, a, c), b, c)
    decreases |a|
  {
    if |a| == 0 {
      assert a + b == b;
    } else {
      assert (a + b)[0] == a[0] && (a + b)[1..] == a[1..] + b;
      if Fits(files, a[0]) {
        ApplyAllAppend(ApplyChange(files, a[0], c), a[1..], b, c);
      }
    }
  }

  /** Every file the changes do not name keeps its entry, or its absence. */
  lemma {:induction false} ApplyAllFrame(files: Files, chs: seq<Change>, c: Cohort, g: FileName)
    requires Applicable(files, chs, c)
    requires forall i | 0 <= i < |chs| :: chs[i].file != g
    ensures var r := ApplyAll(files, chs, c); (g in r <==> g in files) && (g in files ==> r[g] == files[g])
    decreases |chs|
  {
    if |chs| > 0 {
      ApplyAllFrame(ApplyChange(files, chs[0], c), chs[1..], c, g);
    }
  }

  // ----- labels -----

  /** Every line of every file carries one of the given labels. */
  ghost predicate LabelsWithin(files: Files, labels: set<Cohort>) {
    forall f | f in files :: forall i | 0 <= i < |files[f]| :: files[f][i] in labels
  }

  /** Inserting lines of `c` leaves every line labelled from `labels` or `c`. */
  lemma InsertLabels(lines: Lines, s: nat, n: nat, c: Cohort, labels: set<Cohort>)
    requires n == 0 || s <= |lines|
    requires forall i | 0 <= i < |lines| :: lines[i] in labels
    ensures var r := InsertLines(lines, s, n, c); forall i | 0 <= i < |r| :: r[i] in labels + {c}
  {
    var r := InsertLines(lines, s, n, c);
    forall i | 0 <= i < |r|
      ensures r[i] in labels + {c}
    {
      if n > 0 && i >= s + n {
        assert r[i] == r[s + n..][i - s - n] == lines[s..][i - s - n];
      } else if n > 0 && i < s {
        assert r[i] == r[..s][i] == lines[..s][i];
      }
    }
  }

  /** Removing lines keeps every remaining line's label. */
  lemma RemoveLabels(lines: Lines, s: nat, n: nat, labels: set<Cohort>)
    requires n == 0 || s + n <= |lines|
    requires forall i | 0 <= i < |lines| :: lines[i] in labels
    ensures var r := RemoveLines(lines, s, n); forall i | 0 <= i < |r| :: r[i] in labels
  {
    var r := RemoveLines(lines, s, n);
    forall i | 0 <= i < |r|
      ensures r[i] in labels
    {
      if n > 0 && i >= s {
        assert r[i] == r[s..][i - s] == lines[s + n..][i - s];
      } else if n > 0 {
        assert r[i] == r[..s][i] == lines[..s][i];
      }
    }
  }

  /** One change only introduces lines labelled with the changeset's cohort. */
  lemma ApplyChangeLabels(files: Files, ch: Change, c: Cohort, labels: set<Cohort>)
    requires Fits(files, ch)
    requires LabelsWithin(files, labels)
    ensures LabelsWithin(ApplyChange(files, ch, c), labels + {c})
  {
    var next := ApplyChange(files, ch, c);
    var f := ch.file;
    var lines := LinesOf(files, f);
    match ch {
      case Add(_, s, n) =>
        InsertLabels(lines, s, n, c, labels);
        assert next == files[f := InsertLines(lines, s, n, c)];
      case Delete(_, s, n) =>
        RemoveLabels(lines, s, n, labels);
        assert next == files[f := RemoveLines(lines, s, n)];
      case AddFile(_, n) =>
      case DeleteFile(_) =>
    }
  }

  /** A changeset only ever introduces lines labelled with its own cohort. */
  lemma {:induction false} ApplyAllLabels(files: Files, chs: seq<Change>, c: Cohort, labels: set<Cohort>)
    requires Applicable(files, chs, c)
    requires LabelsWithin(files, labels)
    ensures LabelsWithin(ApplyAll(files, chs, c), labels + {c})
    decreases |chs|
  {
    if |chs| > 0 {
      ApplyChangeLabels(files, chs[0], c, labels);
      ApplyAllLabels(ApplyChange(files, chs[0], c), chs[1..], c, labels + {c});
      assert labels + {c} + {c} == labels + {c};
    }
  }

  // ----- changeset series -----

  /** A changeset as the accumulator sees it: its date and its changes. */
  datatype Step = Step(dateTime: int, changes: seq<Change>)

  /** The date and the changes of each changeset, in order. */
  ghost function Steps(css: seq<Changeset>): (r: seq<Step>)
    reads css
    ensures |r| == |css|
    ensures forall i | 0 <= i < |css| :: r[i] == Step(css[i].dateTime, css[i].changes)
  {
    seq(|css|, i reads css requires 0 <= i < |css| => Step(css[i].dateTime, css[i].changes))
  }

  /** Every changeset applies, with its own date's cohort, to the store the earlier ones left. */
  predicate Replayable(files: Files, steps: seq<Step>, cohortOf: int -> Cohort)
    decreases |steps|
  {
    |steps| == 0 ||
    (Applicable(files, steps[0].changes, cohortOf(steps[0].dateTime)) &&
     Replayable(ApplyAll(files, steps[0].changes, cohortOf(steps[0].dateTime)), steps[1..], cohortOf))
  }

  /** Replayable, and every changeset also meets the splice demand. */
  predicate SpliceReplayable(files: Files, steps: seq<Step>, cohortOf: int -> Cohort)
    requires Replayable(files, steps, cohortOf)
    decreases |steps|
  {
    |steps| == 0 ||
    (SpliceApplicable(files, steps[0].changes, cohortOf(steps[0].dateTime)) &&
     SpliceReplayable(ApplyAll(files, steps[0].changes, cohortOf(steps[0].dateTime)), steps[1..], cohortOf))
  }

  /** The store after each changeset in turn, starting from `files`. */
  function Series(files: Files, steps: seq<Step>, cohortOf: int -> Cohort): (r: seq<Files>)
    requires Replayable(files, steps, cohortOf)
    ensures |r| == |steps|
    decreases |steps|
  {
    if |steps| == 0 then []
    else
      var next := ApplyAll(files, steps[0].changes, cohortOf(steps[0].dateTime));
      [next] + Series(next, steps[1..], cohortOf)
  }

  /**
   * Snapshot i is changeset i applied, with its own date's cohort, to snapshot
   * i - 1, and the first one to the starting store.
   */
  lemma {:induction false} SeriesStep(files: Files, steps: seq<Step>, cohortOf: int -> Cohort, i: nat)
    requires Replayable(files, steps, cohortOf)
    requires i < |steps|
    ensures var prev := if i == 0 then files else Series(files, steps, cohortOf)[i - 1];
            Applicable(prev, steps[i].changes, cohortOf(steps[i].dateTime)) &&
            Series(files, steps, cohortOf)[i] == ApplyAll(prev, steps[i].changes, cohortOf(steps[i].dateTime))
    decreases i
  {
    if i > 0 {
      var next := ApplyAll(files, steps[0].changes, cohortOf(steps[0].dateTime));
      SeriesStep(next, steps[1..], cohortOf, i - 1);
      assert steps[1..][i - 1] == steps[i];
    }
  }

  /** Under the splice demand, changeset i also meets it on snapshot i - 1. */
  lemma {:induction false} SpliceSeriesStep(files: Files, steps: seq<Step>, cohortOf: int -> Cohort, i: nat)
    requires Replayable(files, steps, cohortOf) && SpliceReplayable(files, steps, cohortOf)
    requires i < |steps|
    ensures var prev := if i == 0 then files else Series(files, steps, cohortOf)[i - 1];
            Applicable(prev, steps[i].changes, cohortOf(steps[i].dateTime)) &&
            SpliceApplicable(prev, steps[i].changes, cohortOf(steps[i].dateTime))
    decreases i
  {
    SeriesStep(files, steps, cohortOf, i);
    if i > 0 {
      var next := ApplyAll(files, steps[0].changes, cohortOf(steps[0].dateTime));
      SpliceSeriesStep(next, steps[1..], cohortOf, i - 1);
      assert steps[1..][i - 1] == steps[i];
    }
  }

  /** The labels of the dates of a list of changesets. */
  ghost function DateLabels(steps: seq<Step>, cohortOf: int -> Cohort): set<Cohort> {
    set j | 0 <= j < |steps| :: cohortOf(steps[j].dateTime)
  }

  /** Every line of snapshot i carries the cohort of one of changesets 0..i (or a cohortOf it started with). */
  lemma {:induction false} SeriesLabels(files: Files, steps: seq<Step>, cohortOf: int -> Cohort, labels: set<Cohort>, i: nat)
    requires Replayable(files, steps, cohortOf)
    requires LabelsWithin(files, labels)
    requires i < |steps|
    ensures LabelsWithin(Series(files, steps, cohortOf)[i], labels + DateLabels(steps[..i + 1], cohortOf))
    decreases i
  {
    var c := cohortOf(steps[0].dateTime);
    var next := ApplyAll(files, steps[0].changes, c);
    ApplyAllLabels(files, steps[0].changes, c, labels);
    assert c in DateLabels(steps[..i + 1], cohortOf) by {
      assert steps[..i + 1][0] == steps[0];
    }
    if i > 0 {
      SeriesLabels(next, steps[1..], cohortOf, labels + {c}, i - 1);
      var tail := DateLabels(steps[1..][..i], cohortOf);
      assert tail <= DateLabels(steps[..i + 1], cohortOf) by {
        forall x | x in tail ensures x in DateLabels(steps[..i + 1], cohortOf) {
          var j :| 0 <= j < i && x == cohortOf(steps[1..][..i][j].dateTime);
          assert steps[..i + 1][j + 1] == steps[1..][..i][j];
        }
      }
    }
  }

  // ----- sums over all files -----

  /** Some key of a non-empty map. */
  ghost function Pick<K, V>(m: map<K, V>): (k: K)
    requires |m| > 0
    ensures k in m
  {
    assert m.Keys != {} by { assert |m.Keys| == |m|; }
    var k :| k in m; k
  }

  /** The sum of `f` over the values of a map. */
  ghost function SumMap<K, V>(m: map<K, V>, f: V -> nat): nat
    decreases |m|
  {
    if |m| == 0 then 0
    else
      var k := Pick(m);
      f(m[k]) + SumMap(m - {k}, f)
  }

  /** The sum does not depend on which key is taken out first. */
  lemma {:induction false} SumMapRemove<K, V>(m: map<K, V>, f: V -> nat, k: K)
    requires k in m
    ensures SumMap(m, f) == f(m[k]) + SumMap(m - {k}, f)
    decreases |m|
  {
    var k' := Pick(m);
    if k' != k {
      var m1 := m - {k'};
      var m2 := m - {k};
      SumMapRemove(m1, f, k);
      SumMapRemove(m2, f, k');
      assert m1 - {k} == m2 - {k'};
    }
  }

  /** Replacing or inserting one entry changes the sum by that entry alone. */
  lemma SumMapUpdate<K, V>(m: map<K, V>, f: V -> nat, k: K, v: V)
    ensures SumMap(m[k := v], f) + (if k in m then f(m[k]) else 0) == SumMap(m, f) + f(v)
  {
    var updated := m[k := v];
    var rest := m - {k};
    assert updated - {k} == rest;
    SumMapRemove(updated, f, k);
    assert SumMap(updated, f) == f(v) + SumMap(rest, f);
    SumMapDelete(m, f, k);
  }

  /** Removing one entry takes exactly that entry out of the sum. */
  lemma SumMapDelete<K, V>(m: map<K, V>, f: V -> nat, k: K)
    ensures SumMap(m - {k}, f) + (if k in m then f(m[k]) else 0) == SumMap(m, f)
  {
    if k in m {
      SumMapRemove(m, f, k);
    } else {
      assert m - {k} == m;
    }
  }

  /** Two maps over the same keys whose entries weigh the same have the same sum. */
  lemma {:induction false} SumMapPointwise<K, V, W>(m1: map<K, V>, f1: V -> nat, m2: map<K, W>, f2: W -> nat)
    requires m1.Keys == m2.Keys
    requires forall k | k in m1 :: f1(m1[k]) == f2(m2[k])
    ensures SumMap(m1, f1) == SumMap(m2, f2)
    decreases |m1|
  {
    if |m1| == 0 {
      assert |m2| == |m2.Keys| == 0;
    } else {
      var k :| k in m1;
      SumMapRemove(m1, f1, k);
      SumMapRemove(m2, f2, k);
      SumMapPointwise(m1 - {k}, f1, m2 - {k}, f2);
    }
  }

  /** How many lines of a file carry the cohortOf `c` (`iter().filter(|v| *v == cohort).count()`). */
  function Occurrences(lines: Lines, c: Cohort): (n: nat)
    ensures n <= |lines|
    ensures n == 0 <==> c !in lines
  {
    if |lines| == 0 then 0 else (if lines[0] == c then 1 else 0) + Occurrences(lines[1..], c)
  }

  lemma {:induction false} OccurrencesAppend(a: Lines, b: Lines, c: Cohort)
    ensures Occurrences(a + b, c) == Occurrences(a, c) + Occurrences(b, c)
  {
    if |a| == 0 {
      assert a + b == b;
    } else {
      assert (a + b)[1..] == a[1..] + b;
      OccurrencesAppend(a[1..], b, c);
    }
  }

  lemma {:induction false} OccurrencesRepeat(c: Cohort, n: nat, d: Cohort)
    ensures Occurrences(Repeat(c, n), d) == if c == d then n else 0
  {
    if n > 0 {
      OccurrencesRepeat(c, n - 1, d);
    }
  }

  function OccurrencesOf(c: Cohort): Lines -> nat {
    (lines: Lines) => Occurrences(lines, c)
  }

  function LineCount(lines: Lines): nat {
    |lines|
  }

  /** The number of lines labelled `c` over all files. */
  ghost function CountCohort(files: Files, c: Cohort): nat {
    SumMap(files, OccurrencesOf(c))
  }

  /** The number of lines over all files. */
  ghost function TotalLines(files: Files): nat {
    SumMap(files, LineCount)
  }

  /** `count_cohort_lines` is at most `total_lines`. */
  lemma {:induction false} CountWithinTotal(files: Files, c: Cohort)
    ensures CountCohort(files, c) <= TotalLines(files)
    decreases |files|
  {
    if |files| > 0 {
      var f :| f in files;
      SumMapRemove(files, OccurrencesOf(c), f);
      SumMapRemove(files, LineCount, f);
      CountWithinTotal(files - {f}, c);
    }
  }

  /** How the line total moves under one change. */
  lemma TotalAfterChange(files: Files, ch: Change, c: Cohort)
    requires Fits(files, ch)
    ensures var before := TotalLines(files) - |LinesOf(files, ch.file)|;
            TotalLines(ApplyChange(files, ch, c)) ==
              match ch
              case Add(_, _, n) => TotalLines(files) + n
              case Delete(_, _, n) => TotalLines(files) - n
              case AddFile(_, n) => before + n
              case DeleteFile(_) => before
  {
    var r := ApplyChange(files, ch, c);
    if ch.DeleteFile? {
      SumMapDelete(files, LineCount, ch.file);
    } else {
      SumMapUpdate(files, LineCount, ch.file, r[ch.file]);
      assert r == files[ch.file := r[ch.file]];
    }
  }

  /** Line conservation: Add and Delete changes move the total by their lengths. */
  lemma {:induction false} TotalAfterAll(files: Files, chs: seq<Change>, c: Cohort)
    requires Applicable(files, chs, c)
    requires forall i | 0 <= i < |chs| :: chs[i].Add? || chs[i].Delete?
    ensures TotalLines(ApplyAll(files, chs, c)) == TotalLines(files) + Inserted(chs) - Removed(chs)
    decreases |chs|
  {
    if |chs| > 0 {
      TotalAfterChange(files, chs[0], c);
      TotalAfterAll(ApplyChange(files, chs[0], c), chs[1..], c);
    }
  }

  /** Inserting `n` lines of `c` into one file raises its count of `c` by `n` and no other count. */
  lemma OccurrencesInsert(lines: Lines, s: nat, n: nat, c: Cohort, d: Cohort)
    requires n == 0 || s <= |lines|
    ensures Occurrences(InsertLines(lines, s, n, c), d) == Occurrences(lines, d) + (if c == d then n else 0)
  {
    if n > 0 {
      assert lines == lines[..s] + lines[s..];
      assert InsertLines(lines, s, n, c) == lines[..s] + Repeat(c, n) + lines[s..];
      OccurrencesAppend(lines[..s], lines[s..], d);
      OccurrencesAppend(lines[..s], Repeat(c, n), d);
      OccurrencesAppend(lines[..s] + Repeat(c, n), lines[s..], d);
      OccurrencesRepeat(c, n, d);
    }
  }

  /** Removing a range from one file lowers each count by that cohort's lines in the range. */
  lemma OccurrencesRemove(lines: Lines, s: nat, n: nat, d: Cohort)
    requires n > 0 && s + n <= |lines|
    ensures Occurrences(RemoveLines(lines, s, n), d) + Occurrences(lines[s..s + n], d) == Occurrences(lines, d)
  {
    assert lines == lines[..s] + lines[s..s + n] + lines[s + n..];
    assert RemoveLines(lines, s, n) == lines[..s] + lines[s + n..];
    OccurrencesAppend(lines[..s], lines[s..s + n], d);
    OccurrencesAppend(lines[..s] + lines[s..s + n], lines[s + n..], d);
    OccurrencesAppend(lines[..s], lines[s + n..], d);
  }

  /** An Add of cohort `c` raises the count of `c` by its length and leaves every other cohort's count. */
  lemma CountAfterAdd(files: Files, f: FileName, s: nat, n: nat, c: Cohort, d: Cohort)
    requires Fits(files, Add(f, s, n))
    ensures CountCohort(ApplyChange(files, Add(f, s, n), c), d) == CountCohort(files, d) + (if c == d then n else 0)
  {
    var inserted := InsertLines(LinesOf(files, f), s, n, c);
    assert ApplyChange(files, Add(f, s, n), c) == files[f := inserted];
    OccurrencesInsert(LinesOf(files, f), s, n, c, d);
    SumMapUpdate(files, OccurrencesOf(d), f, inserted);
  }

  /** A Delete lowers each cohort's count by the lines of that cohort it takes out. */
  lemma CountAfterDelete(files: Files, f: FileName, s: nat, n: nat, d: Cohort)
    requires Fits(files, Delete(f, s, n)) && n > 0
    ensures CountCohort(ApplyChange(files, Delete(f, s, n), d), d) + Occurrences(LinesOf(files, f)[s..s + n], d)
         == CountCohort(files, d)
  {
    var removed := RemoveLines(LinesOf(files, f), s, n);
    assert ApplyChange(files, Delete(f, s, n), d) == files[f := removed];
    OccurrencesRemove(LinesOf(files, f), s, n, d);
    SumMapUpdate(files, OccurrencesOf(d), f, removed);
  }

  // ----- loops shared by the variants -----

  /** `for _ in start..start + length { lines.insert(start, cohort) }`. */
  method InsertRun(lines: Lines, start: nat, length: nat, c: Cohort) returns (r: Lines)
    requires length == 0 || start <= |lines|
    ensures r == InsertLines(lines, start, length, c)
  {
    r := lines;
    var k := 0;
    while k < length
      invariant k <= length
      invariant r == InsertLines(lines, start, k, c)
    {
      assert r[..start] == lines[..start] && r[start..] == Repeat(c, k) + lines[start..];
      r := r[..start] + [c] + r[start..];
      k := k + 1;
    }
  }

  /** `for _ in start..start + length { lines.remove(start); }`. */
  method RemoveRun(lines: Lines, start: nat, length: nat) returns (r: Lines)
    requires length == 0 || start + length <= |lines|
    ensures r == RemoveLines(lines, start, length)
  {
    r := lines;
    var k := 0;
    while k < length
      invariant k <= length
      invariant r == RemoveLines(lines, start, k)
    {
      assert r[..start] == lines[..start] && r[start..] == lines[start + k..];
      r := r[..start] + r[start + 1..];
      k := k + 1;
    }
  }

  /** The fold `values().map(f).fold(0, +)` (or `.sum()`) over the entries of a map. */
  method SumValues<K, V>(m: map<K, V>, f: V -> nat) returns (n: nat)
    ensures n == SumMap(m, f)
  {
    n := 0;
    var rest := m;
    while |rest| > 0
      invariant n + SumMap(rest, f) == SumMap(m, f)
      decreases |rest|
    {
      var k :| k in rest;
      SumMapRemove(rest, f, k);
      n := n + f(rest[k]);
      rest := rest - {k};
    }
  }
}

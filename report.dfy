/**
 * `make_csv`: the column set (the distinct cohort names of the sample dates,
 * sorted), the header line and one line of counts per sample.
 */
module Report {

  import opened Text
  import opened Store
  import opened MetricsSample

  /** Ascending in `String` order, with no repeats. */
  predicate StrictlySorted(s: seq<string>) {
    forall i, j | 0 <= i < j < |s| :: LexLess(s[i], s[j])
  }

  /** `x` placed into a strictly sorted list, unless it is already there. */
  function InsertSorted(s: seq<string>, x: string): seq<string>
    decreases |s|
  {
    if |s| == 0 then [x]
    else if x == s[0] then s
    else if LexLess(x, s[0]) then [x] + s
    else [s[0]] + InsertSorted(s[1..], x)
  }

  lemma {:induction false} InsertSortedProps(s: seq<string>, x: string)
    requires StrictlySorted(s)
    ensures StrictlySorted(InsertSorted(s, x))
    ensures forall y :: y in InsertSorted(s, x) <==> y in s || y == x
    decreases |s|
  {
    if |s| > 0 && x != s[0] {
      if LexLess(x, s[0]) {
        var r := [x] + s;
        forall i, j | 0 <= i < j < |r|
          ensures LexLess(r[i], r[j])
        {
          if i == 0 && j > 1 {
            LexTransitive(x, s[0], s[j - 1]);
          }
        }
      } else {
        LexTotal(x, s[0]);
        InsertSortedProps(s[1..], x);
        var tail := InsertSorted(s[1..], x);
        var r := [s[0]] + tail;
        forall i, j | 0 <= i < j < |r|
          ensures LexLess(r[i], r[j])
        {
          if i == 0 {
            assert r[j] in tail;
            if r[j] != x {
              var k :| 0 <= k < |s[1..]| && s[1..][k] == r[j];
              assert s[k + 1] == r[j];
            }
          }
        }
      }
    }
  }

  /** Two strictly sorted lists with the same elements are the same list. */
  lemma {:induction false} SortedUnique(a: seq<string>, b: seq<string>)
    requires StrictlySorted(a) && StrictlySorted(b)
    requires forall y :: y in a <==> y in b
    ensures a == b
    decreases |a|
  {
    if |a| > 0 {
      assert a[0] in a;
    }
    if |b| > 0 {
      assert b[0] in b;
    }
    if |a| > 0 && |b| > 0 {
      if a[0] != b[0] {
        // b[0] sits after a[0] in a, so a[0] < b[0]; and a[0] sits after b[0] in b
        LexTotal(a[0], b[0]);
        if LexLess(a[0], b[0]) {
          var j :| 0 <= j < |b| && b[j] == a[0];
          LexTransitive(a[0], b[0], b[j]);
          LexIrreflexive(a[0]);
        }
      } else {
        forall y
          ensures y in a[1..] <==> y in b[1..]
        {
          LexIrreflexive(a[0]);
          if y in a[1..] {
            var i :| 0 <= i < |a[1..]| && a[1..][i] == y;
            assert LexLess(a[0], a[i + 1]);
            assert y in b && y != b[0];
            var j :| 0 <= j < |b| && b[j] == y;
            assert b[1..][j - 1] == y;
          }
          if y in b[1..] {
            var i :| 0 <= i < |b[1..]| && b[1..][i] == y;
            assert LexLess(b[0], b[i + 1]);
            assert y in a && y != a[0];
            var j :| 0 <= j < |a| && a[j] == y;
            assert a[1..][j - 1] == y;
          }
        }
        SortedUnique(a[1..], b[1..]);
        assert a == [a[0]] + a[1..] && b == [b[0]] + b[1..];
      }
    }
  }

  /** The cohort names of the given dates. */
  ghost function Labels(dates: seq<int>, cohortOf: int -> Cohort): set<Cohort> {
    set i | 0 <= i < |dates| :: cohortOf(dates[i])
  }

  /** The names of `dates` folded into the sorted list `acc`. */
  function ColumnsFrom(acc: seq<Cohort>, dates: seq<int>, cohortOf: int -> Cohort): seq<Cohort>
    decreases |dates|
  {
    if |dates| == 0 then acc else ColumnsFrom(InsertSorted(acc, cohortOf(dates[0])), dates[1..], cohortOf)
  }

  /** The report's columns for samples with the given dates. */
  function Columns(dates: seq<int>, cohortOf: int -> Cohort): seq<Cohort> {
    ColumnsFrom([], dates, cohortOf)
  }

  lemma {:induction false} ColumnsFromProps(acc: seq<Cohort>, dates: seq<int>, cohortOf: int -> Cohort)
    requires StrictlySorted(acc)
    ensures StrictlySorted(ColumnsFrom(acc, dates, cohortOf))
    ensures forall c :: c in ColumnsFrom(acc, dates, cohortOf) <==> c in acc || c in Labels(dates, cohortOf)
    decreases |dates|
  {
    if |dates| > 0 {
      InsertSortedProps(acc, cohortOf(dates[0]));
      ColumnsFromProps(InsertSorted(acc, cohortOf(dates[0])), dates[1..], cohortOf);
      forall c
        ensures c in Labels(dates, cohortOf) <==> c == cohortOf(dates[0]) || c in Labels(dates[1..], cohortOf)
      {
        if c in Labels(dates, cohortOf) {
          var i :| 0 <= i < |dates| && cohortOf(dates[i]) == c;
          if i > 0 {
            assert dates[1..][i - 1] == dates[i];
          }
        }
        if c in Labels(dates[1..], cohortOf) {
          var i :| 0 <= i < |dates[1..]| && cohortOf(dates[1..][i]) == c;
          assert dates[i + 1] == dates[1..][i];
        }
      }
    }
  }

  /**
   * The columns are exactly the distinct cohort names of the sample dates, in
   * ascending order; being strictly sorted, they are the only such list.
   */
  lemma ColumnsProps(dates: seq<int>, cohortOf: int -> Cohort)
    ensures StrictlySorted(Columns(dates, cohortOf))
    ensures forall c :: c in Columns(dates, cohortOf) <==> c in Labels(dates, cohortOf)
    ensures forall cols: seq<Cohort> | StrictlySorted(cols) && (forall c :: c in cols <==> c in Labels(dates, cohortOf)) ::
              cols == Columns(dates, cohortOf)
  {
    ColumnsFromProps([], dates, cohortOf);
    forall cols: seq<Cohort> | StrictlySorted(cols) && (forall c :: c in cols <==> c in Labels(dates, cohortOf))
      ensures cols == Columns(dates, cohortOf)
    {
      SortedUnique(cols, Columns(dates, cohortOf));
    }
  }

  /** `collect::<HashSet<_>>()` then `sort()`, over the sample dates. */
  method CohortColumns(dates: seq<int>, cohortOf: int -> Cohort) returns (cols: seq<Cohort>)
    ensures cols == Columns(dates, cohortOf)
  {
    cols := [];
    var i := 0;
    while i < |dates|
      invariant 0 <= i <= |dates|
      invariant ColumnsFrom(cols, dates[i..], cohortOf) == Columns(dates, cohortOf)
    {
      assert dates[i..][0] == dates[i] && dates[i..][1..] == dates[i + 1..];
      cols := InsertSorted(cols, cohortOf(dates[i]));
      i := i + 1;
    }
  }

  /** `"DateTime"` followed by `",name"` per column. */
  function Header(cols: seq<Cohort>): string {
    "DateTime" + Prefixed(cols, ',')
  }

  /** Split at commas, the header gives back `DateTime` and the columns, when no name holds a comma. */
  lemma HeaderFields(cols: seq<Cohort>)
    requires forall i | 0 <= i < |cols| :: ',' !in cols[i]
    ensures Split(Header(cols), ',') == ["DateTime"] + cols
  {
    PrefixedIsJoin("DateTime", cols, ',');
    var all := ["DateTime"] + cols;
    forall i | 0 <= i < |all|
      ensures ',' !in all[i]
    {
      if i == 0 {
        assert all[0] == "DateTime";
      } else {
        assert all[i] == cols[i - 1];
      }
    }
    SplitJoin(all, ',');
  }

  /** The decimal text of each count. */
  function Numbers(counts: seq<nat>): (r: seq<string>)
    ensures |r| == |counts| && forall i | 0 <= i < |counts| :: r[i] == NatToString(counts[i])
  {
    seq(|counts|, i requires 0 <= i < |counts| => NatToString(counts[i]))
  }

  /** Every character a decimal digit. */
  predicate AllDigits(s: string) {
    forall k | 0 <= k < |s| :: '0' <= s[k] <= '9'
  }

  /** A row: the date's text followed by `",count"` per column. */
  function Row(dateText: string, counts: seq<nat>): string {
    dateText + Prefixed(Numbers(counts), ',')
  }

  /** Split at commas, a row gives back the date's text and the decimal text of each count. */
  lemma RowSplit(dateText: string, counts: seq<nat>)
    requires ',' !in dateText
    ensures Split(Row(dateText, counts), ',') == [dateText] + Numbers(counts)
  {
    var nums := Numbers(counts);
    PrefixedIsJoin(dateText, nums, ',');
    var all := [dateText] + nums;
    forall i | 0 <= i < |all|
      ensures ',' !in all[i]
    {
      if i > 0 {
        assert all[i] == NatToString(counts[i - 1]);
      }
    }
    SplitJoin(all, ',');
  }

  /** Each count's text is all digits and reads back as that count. */
  lemma NumbersReadBack(counts: seq<nat>)
    ensures forall i | 0 <= i < |counts| :: AllDigits(Numbers(counts)[i]) && ParseNat(Numbers(counts)[i]) == counts[i]
  {
    forall i | 0 <= i < |counts|
      ensures AllDigits(Numbers(counts)[i]) && ParseNat(Numbers(counts)[i]) == counts[i]
    {
      ParseNatToString(counts[i]);
    }
  }

  /** The count of each column's cohort in a store. */
  ghost function Counts(files: Files, cols: seq<Cohort>): (r: seq<nat>)
    ensures |r| == |cols|
  {
    seq(|cols|, i requires 0 <= i < |cols| => CountCohort(files, cols[i]))
  }

  /** One sample's counts, column by column. */
  method RowCounts(s: Sample, cols: seq<Cohort>) returns (counts: seq<nat>)
    ensures counts == Counts(s.files, cols)
  {
    counts := [];
    var i := 0;
    while i < |cols|
      invariant 0 <= i <= |cols| && |counts| == i
      invariant forall j | 0 <= j < i :: counts[j] == CountCohort(s.files, cols[j])
    {
      var n := s.CountCohortLines(cols[i]);
      counts := counts + [n];
      i := i + 1;
    }
  }

  /** One sample's line: its date's text, then its count for each column. */
  method CsvRow(s: Sample, cols: seq<Cohort>, showDate: int -> string) returns (line: string)
    ensures line == Row(showDate(s.dateTime), Counts(s.files, cols))
  {
    var counts := RowCounts(s, cols);
    line := Row(showDate(s.dateTime), counts);
  }

  /** The dates of the samples, in order. */
  ghost function Dates(samples: seq<Sample>): (r: seq<int>)
    reads samples
    ensures |r| == |samples| && forall i | 0 <= i < |samples| :: r[i] == samples[i].dateTime
  {
    seq(|samples|, i reads samples requires 0 <= i < |samples| => samples[i].dateTime)
  }

  /**
   * `make_csv`'s lines: the header over the sorted cohort names of the sample
   * dates, then per sample its date's text and its count for each column.
   */
  method MakeCsv(samples: seq<Sample>, cohortOf: int -> Cohort, showDate: int -> string) returns (lines: seq<string>)
    ensures |lines| == |samples| + 1
    ensures lines[0] == Header(Columns(Dates(samples), cohortOf))
    ensures forall i | 0 <= i < |samples| ::
              lines[i + 1] == Row(showDate(samples[i].dateTime), Counts(samples[i].files, Columns(Dates(samples), cohortOf)))
  {
    var dates := seq(|samples|, i requires 0 <= i < |samples| reads samples => samples[i].dateTime);
    assert dates == Dates(samples);
    var cols := CohortColumns(dates, cohortOf);
    lines := [Header(cols)];
    var i := 0;
    while i < |samples|
      invariant 0 <= i <= |samples| && |lines| == i + 1 && lines[0] == Header(cols)
      invariant forall j | 0 <= j < i :: lines[j + 1] == Row(showDate(samples[j].dateTime), Counts(samples[j].files, cols))
    {
      var line := CsvRow(samples[i], cols, showDate);
      lines := lines + [line];
      i := i + 1;
    }
  }
}

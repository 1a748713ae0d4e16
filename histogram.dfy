/**
 * The per-file fold of src/axe.rs's `from_acc`: how many lines each cohort owns
 * in one file.
 */
module LineHistogram {

  import opened Store

  type CohortMap = map<Cohort, nat>

  /** `*entry(label).or_insert(0) += 1`. */
  function Bump(h: CohortMap, c: Cohort): CohortMap {
    h[c := (if c in h then h[c] else 0) + 1]
  }

  /** The `Bump` fold over a file's lines, from the counts `h`. */
  function HistFrom(h: CohortMap, lines: Lines): CohortMap
    decreases |lines|
  {
    if |lines| == 0 then h else HistFrom(Bump(h, lines[0]), lines[1..])
  }

  /** The histogram of a file's labels. */
  function Histogram(lines: Lines): CohortMap {
    HistFrom(map[], lines)
  }

  lemma {:induction false} HistFromCounts(h: CohortMap, lines: Lines, c: Cohort)
    ensures c in HistFrom(h, lines) <==> c in h || c in lines
    ensures c in HistFrom(h, lines) ==>
              HistFrom(h, lines)[c] == (if c in h then h[c] else 0) + Occurrences(lines, c)
    decreases |lines|
  {
    if |lines| > 0 {
      var d := lines[0];
      HistFromCounts(Bump(h, d), lines[1..], c);
      assert c in lines <==> c == d || c in lines[1..] by {
        assert lines == [d] + lines[1..];
      }
    }
  }

  /**
   * A file's histogram has exactly its distinct labels as keys, each counted as
   * often as it occurs, so every count is at least one.
   */
  lemma HistogramCounts(lines: Lines)
    ensures forall c :: c in Histogram(lines) <==> c in lines
    ensures forall c | c in Histogram(lines) :: Histogram(lines)[c] == Occurrences(lines, c) >= 1
  {
    forall c
      ensures c in Histogram(lines) <==> c in lines
      ensures c in Histogram(lines) ==> Histogram(lines)[c] == Occurrences(lines, c)
    {
      HistFromCounts(map[], lines, c);
    }
  }

  /** A count read as itself, for summing a histogram. */
  function CountValue(n: nat): nat {
    n
  }

  /** One bump adds one to the histogram's total. */
  lemma BumpSum(h: CohortMap, c: Cohort)
    ensures SumMap(Bump(h, c), CountValue) == SumMap(h, CountValue) + 1
  {
    SumMapUpdate(h, CountValue, c, (if c in h then h[c] else 0) + 1);
  }

  /** Counting more lines from `h` raises its total by their number. */
  lemma {:induction false} HistFromSum(h: CohortMap, lines: Lines)
    ensures SumMap(HistFrom(h, lines), CountValue) == SumMap(h, CountValue) + |lines|
    decreases |lines|
  {
    if |lines| != 0 {
      HistFromSum(Bump(h, lines[0]), lines[1..]);
      BumpSum(h, lines[0]);
    }
  }

  /** A file's histogram counts add up to its number of lines. */
  lemma HistogramSum(lines: Lines)
    ensures SumMap(Histogram(lines), CountValue) == |lines|
  {
    HistFromSum(map[], lines);
  }
}

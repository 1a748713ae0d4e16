/**
 * String building used by the option parser and the CSV report: joining with a
 * separator (`intersperse` + `collect`), the inverse split, Rust's ordering on
 * `String`, and decimal rendering of counts (`format!("{}", n)`).
 */
module Text {

  /** `values.intersperse(sep).collect::<String>()`: the values in order, `sep` between consecutive ones. */
  function Join(values: seq<string>, sep: char): string
    decreases |values|
  {
    if |values| == 0 then ""
    else if |values| == 1 then values[0]
    else values[0] + [sep] + Join(values[1..], sep)
  }

  /** Cuts `s` at every occurrence of `sep`; the pieces never contain `sep`. */
  function Split(s: string, sep: char): (pieces: seq<string>)
    ensures |pieces| >= 1
    ensures forall i | 0 <= i < |pieces| :: sep !in pieces[i]
  {
    if |s| == 0 then [""]
    else
      var rest := Split(s[1..], sep);
      if s[0] == sep then [""] + rest
      else [[s[0]] + rest[0]] + rest[1..]
  }

  /** A separator-free prefix glues onto the first piece of what follows it. */
  lemma {:induction false} SplitGlue(a: string, t: string, sep: char)
    requires sep !in a
    ensures Split(a + t, sep) == [a + Split(t, sep)[0]] + Split(t, sep)[1..]
  {
    if |a| == 0 {
      var pieces := Split(t, sep);
      assert a + t == t && a + pieces[0] == pieces[0];
      assert pieces == [pieces[0]] + pieces[1..];
    } else {
      SplitGlue(a[1..], t, sep);
      assert (a + t)[1..] == a[1..] + t;
      assert [a[0]] + (a[1..] + Split(t, sep)[0]) == a + Split(t, sep)[0];
    }
  }

  /** Splitting undoes joining when no value contains the separator. */
  lemma {:induction false} SplitJoin(values: seq<string>, sep: char)
    requires |values| >= 1
    requires forall i | 0 <= i < |values| :: sep !in values[i]
    ensures Split(Join(values, sep), sep) == values
  {
    if |values| == 1 {
      SplitGlue(values[0], "", sep);
      assert values[0] + "" == values[0];
    } else {
      var tail := Join(values[1..], sep);
      SplitJoin(values[1..], sep);
      assert Join(values, sep) == values[0] + ([sep] + tail);
      SplitGlue(values[0], [sep] + tail, sep);
      assert ([sep] + tail)[1..] == tail;
      assert Split([sep] + tail, sep) == [""] + values[1..];
      assert values[0] + "" == values[0];
    }
  }

  /** `values.iter().map(|v| format!(",{}", v)).collect::<String>()` with `sep` for the comma. */
  function Prefixed(values: seq<string>, sep: char): string
    decreases |values|
  {
    if |values| == 0 then "" else [sep] + values[0] + Prefixed(values[1..], sep)
  }

  /** A head followed by separator-prefixed values is the join of the head and the values. */
  lemma {:induction false} PrefixedIsJoin(head: string, values: seq<string>, sep: char)
    ensures head + Prefixed(values, sep) == Join([head] + values, sep)
    decreases |values|
  {
    if |values| == 0 {
      assert [head] + values == [head];
      assert head + "" == head;
    } else {
      PrefixedIsJoin(values[0], values[1..], sep);
      assert [values[0]] + values[1..] == values;
      assert ([head] + values)[1..] == values;
      assert head + Prefixed(values, sep)
          == head + [sep] + (values[0] + Prefixed(values[1..], sep));
    }
  }

  /** Rust's `Ord` on `String`: lexicographic by character, a proper prefix first. */
  predicate LexLess(a: string, b: string)
    decreases |a|
  {
    if |b| == 0 then false
    else if |a| == 0 then true
    else if a[0] != b[0] then a[0] < b[0]
    else LexLess(a[1..], b[1..])
  }

  lemma {:induction false} LexIrreflexive(a: string)
    ensures !LexLess(a, a)
  {
    if |a| > 0 {
      LexIrreflexive(a[1..]);
    }
  }

  lemma {:induction false} LexTransitive(a: string, b: string, c: string)
    requires LexLess(a, b) && LexLess(b, c)
    ensures LexLess(a, c)
  {
    if |a| > 0 && a[0] == b[0] && b[0] == c[0] {
      LexTransitive(a[1..], b[1..], c[1..]);
    }
  }

  lemma {:induction false} LexTotal(a: string, b: string)
    requires a != b
    ensures LexLess(a, b) || LexLess(b, a)
  {
    if |a| > 0 && |b| > 0 && a[0] == b[0] {
      assert a == [a[0]] + a[1..] && b == [b[0]] + b[1..];
      LexTotal(a[1..], b[1..]);
    }
  }

  function DigitChar(d: nat): (ch: char)
    requires d < 10
    ensures '0' <= ch <= '9' && ch as int - '0' as int == d
  {
    (('0' as int) + d) as char
  }

  /** Decimal rendering of a count, as `format!("{}", n)` prints it. */
  function NatToString(n: nat): (s: string)
    ensures |s| >= 1
    ensures forall i | 0 <= i < |s| :: '0' <= s[i] <= '9'
  {
    if n < 10 then [DigitChar(n)] else NatToString(n / 10) + [DigitChar(n % 10)]
  }

  /** Reads a string of decimal digits back as a number. */
  function ParseNat(s: string): nat
    requires forall i | 0 <= i < |s| :: '0' <= s[i] <= '9'
    decreases |s|
  {
    if |s| == 0 then 0
    else ParseNat(s[..|s| - 1]) * 10 + (s[|s| - 1] as int - '0' as int)
  }

  /** Rendering a count in decimal loses nothing. */
  lemma {:induction false} ParseNatToString(n: nat)
    ensures ParseNat(NatToString(n)) == n
  {
    if n >= 10 {
      var s := NatToString(n);
      ParseNatToString(n / 10);
      assert s[..|s| - 1] == NatToString(n / 10);
    }
  }
}

/** Journal numbers (axioms/double_entry.py, generate_journal_number). */
module Numbering {

  // ----- Printing and reading numbers

  function Digit(n: nat): char
    requires n < 10
  {
    ('0' as int + n) as char
  }

  predicate IsDigit(d: char) {
    '0' <= d <= '9'
  }

  predicate IsNumeral(s: string) {
    forall i :: 0 <= i < |s| ==> IsDigit(s[i])
  }

  /** `str(n)` */
  function Decimal(n: nat): (s: string)
    ensures s != "" && IsNumeral(s)
  {
    if n < 10 then [Digit(n)] else Decimal(n / 10) + [Digit(n % 10)]
  }

  /** `f"{n:0{width}d}"`: zeros are added on the left, never digits dropped. */
  function Padded(n: nat, width: nat): (s: string)
    ensures IsNumeral(s) && |s| >= width
  {
    var s := Decimal(n);
    Zeros(if |s| < width then width - |s| else 0) + s
  }

  function Zeros(k: nat): (s: string)
    ensures |s| == k && IsNumeral(s)
  {
    if k == 0 then "" else Zeros(k - 1) + "0"
  }

  /** The number a text of digits denotes. */
  function Value(s: string): nat
    requires IsNumeral(s)
  {
    if s == "" then 0 else 10 * Value(s[..|s| - 1]) + (s[|s| - 1] as int - '0' as int)
  }

  lemma {:induction false} ValueOfDecimal(n: nat)
    ensures Value(Decimal(n)) == n
  {
    if n < 10 {
      assert Decimal(n)[..0] == "";
    } else {
      ValueOfDecimal(n / 10);
      assert Decimal(n)[..|Decimal(n)| - 1] == Decimal(n / 10);
    }
  }

  function Pow10(k: nat): (p: nat)
    ensures p > 0
  {
    if k == 0 then 1 else 10 * Pow10(k - 1)
  }

  lemma {:induction false} ValueOfConcat(a: string, b: string)
    requires IsNumeral(a) && IsNumeral(b)
    ensures IsNumeral(a + b)
    ensures Value(a + b) == Value(a) * Pow10(|b|) + Value(b)
    decreases |b|
  {
    if b == "" {
      assert a + b == a;
    } else {
      var b' := b[..|b| - 1];
      ValueOfConcat(a, b');
      assert (a + b)[..|a + b| - 1] == a + b';
      Distribute(Value(a), Pow10(|b'|));
    }
  }

  lemma Distribute(x: nat, p: nat)
    ensures 10 * (x * p) == x * (10 * p)
  {
  }

  lemma {:induction false} ValueOfZeros(k: nat)
    ensures Value(Zeros(k)) == 0
  {
    if k > 0 {
      ValueOfZeros(k - 1);
      assert Zeros(k)[..k - 1] == Zeros(k - 1);
    }
  }

  /** Padding never changes what is read back, however many digits the number has. */
  lemma ValueOfPadded(n: nat, width: nat)
    ensures Value(Padded(n, width)) == n
  {
    var s := Decimal(n);
    var k := if |s| < width then width - |s| else 0;
    ValueOfZeros(k);
    ValueOfConcat(Zeros(k), s);
    ValueOfDecimal(n);
  }

  lemma {:induction false} DecimalLength(n: nat, k: nat)
    requires k > 0
    ensures |Decimal(n)| <= k <==> n < Pow10(k)
    decreases k
  {
    if k == 1 {
      assert Pow10(1) == 10;
    } else if n >= 10 {
      DecimalLength(n / 10, k - 1);
    }
  }

  // ----- Journal numbers

  const DEFAULT_PREFIX := "JRN"

  /** `f"{year}{month:02d}"` */
  function Stamp(year: nat, month: nat): (s: string)
    ensures IsNumeral(s)
  {
    Decimal(year) + Padded(month, 2)
  }

  /** `f"{prefix}-{year}{month:02d}-{seq:06d}"` */
  function Number(prefix: string, year: nat, month: nat, n: nat): string {
    prefix + "-" + Stamp(year, month) + "-" + Padded(n, 6)
  }

  /** The text before and after the last dash. */
  function SplitLast(s: string): (r: (string, string))
    requires '-' in s
    decreases |s|
  {
    if s[|s| - 1] == '-' then (s[..|s| - 1], "")
    else
      assert s == s[..|s| - 1] + [s[|s| - 1]];
      var (before, after) := SplitLast(s[..|s| - 1]);
      (before, after + [s[|s| - 1]])
  }

  lemma {:induction false} SplitAtNumeral(before: string, t: string)
    requires IsNumeral(t)
    ensures '-' in before + "-" + t
    ensures SplitLast(before + "-" + t) == (before, t)
    decreases |t|
  {
    var s := before + "-" + t;
    assert s[|before|] == '-';
    if t == "" {
      assert s[..|s| - 1] == before;
    } else {
      var t' := t[..|t| - 1];
      SplitAtNumeral(before, t');
      assert s[..|s| - 1] == before + "-" + t';
      assert t == t' + [t[|t| - 1]];
    }
  }

  /** Splitting at the last two dashes recovers the prefix, the month and the counter. */
  lemma NumberReadsBack(prefix: string, year: nat, month: nat, n: nat)
    ensures '-' in Number(prefix, year, month, n)
    ensures SplitLast(Number(prefix, year, month, n)) == (prefix + "-" + Stamp(year, month), Padded(n, 6))
    ensures '-' in prefix + "-" + Stamp(year, month)
    ensures SplitLast(prefix + "-" + Stamp(year, month)) == (prefix, Stamp(year, month))
    ensures Value(Padded(n, 6)) == n
    ensures month < 100 ==> Value(Stamp(year, month)) == year * 100 + month
  {
    SplitAtNumeral(prefix + "-" + Stamp(year, month), Padded(n, 6));
    SplitAtNumeral(prefix, Stamp(year, month));
    ValueOfPadded(n, 6);
    if month < 100 {
      TwoDigits(month);
      ValueOfConcat(Decimal(year), Padded(month, 2));
      ValueOfDecimal(year);
      ValueOfPadded(month, 2);
    }
  }

  lemma TwoDigits(month: nat)
    requires month < 100
    ensures |Padded(month, 2)| == 2 && Pow10(2) == 100
  {
    assert Pow10(2) == 10 * Pow10(1) == 100;
    DecimalLength(month, 2);
  }

  /** Journal numbers are equal exactly when prefix, month and counter all are. */
  lemma NumberInjective(p: string, y: nat, m: nat, n: nat, p': string, y': nat, m': nat, n': nat)
    requires m < 100 && m' < 100
    ensures Number(p, y, m, n) == Number(p', y', m', n') <==> p == p' && y == y' && m == m' && n == n'
  {
    var s, t := Number(p, y, m, n), Number(p', y', m', n');
    NumberReadsBack(p, y, m, n);
    NumberReadsBack(p', y', m', n');
    if s == t {
      assert SplitLast(s) == SplitLast(t);
      assert Stamp(y, m) == Stamp(y', m') && Padded(n, 6) == Padded(n', 6);
    }
  }

  // ----- Runs of the generator

  type Counters = map<string, nat>

  function Count(counters: Counters, prefix: string): nat {
    if prefix in counters then counters[prefix] else 0
  }

  function AfterDraw(counters: Counters, prefix: string): Counters {
    counters[prefix := Count(counters, prefix) + 1]
  }

  /** One call: the prefix asked for and what the clock shows. */
  datatype Draw = Draw(prefix: string, year: nat, month: nat)

  function CountersAfter(counters: Counters, draws: seq<Draw>): Counters {
    if draws == [] then counters
    else AfterDraw(CountersAfter(counters, draws[..|draws| - 1]), draws[|draws| - 1].prefix)
  }

  lemma CountersAfterOneMore(counters: Counters, draws: seq<Draw>, d: Draw)
    ensures CountersAfter(counters, draws + [d]) == AfterDraw(CountersAfter(counters, draws), d.prefix)
  {
    assert (draws + [d])[..|draws|] == draws;
  }

  /** The number the `i`-th call returns. */
  function Issued(counters: Counters, draws: seq<Draw>, i: nat): string
    requires i < |draws|
  {
    var d := draws[i];
    Number(d.prefix, d.year, d.month, Count(CountersAfter(counters, draws[..i + 1]), d.prefix))
  }

  /** How many of the calls ask for `prefix`. */
  function Occurrences(draws: seq<Draw>, prefix: string): nat {
    if draws == [] then 0
    else Occurrences(draws[..|draws| - 1], prefix) + if draws[|draws| - 1].prefix == prefix then 1 else 0
  }

  lemma {:induction false} CounterCountsCalls(counters: Counters, draws: seq<Draw>, prefix: string)
    ensures Count(CountersAfter(counters, draws), prefix) == Count(counters, prefix) + Occurrences(draws, prefix)
    decreases |draws|
  {
    if draws != [] {
      CounterCountsCalls(counters, draws[..|draws| - 1], prefix);
    }
  }

  lemma {:induction false} OccurrencesGrow(draws: seq<Draw>, prefix: string, i: nat, j: nat)
    requires i <= j <= |draws|
    ensures Occurrences(draws[..i], prefix) <= Occurrences(draws[..j], prefix)
    decreases j
  {
    if i < j {
      OccurrencesGrow(draws, prefix, i, j - 1);
      assert draws[..j][..j - 1] == draws[..j - 1];
    }
  }

  lemma LaterCountIsMore(draws: seq<Draw>, prefix: string, i: nat, j: nat)
    requires i < j <= |draws| && draws[i].prefix == prefix
    ensures Occurrences(draws[..i], prefix) < Occurrences(draws[..j], prefix)
  {
    OccurrencesGrow(draws, prefix, i + 1, j);
    assert draws[..i + 1][..i] == draws[..i];
  }

  function CounterAt(counters: Counters, draws: seq<Draw>, i: nat): nat
    requires i < |draws|
  {
    Count(counters, draws[i].prefix) + Occurrences(draws[..i], draws[i].prefix) + 1
  }

  /** The counter printed for a call is the number of calls so far with its prefix. */
  lemma IssuedInOrder(counters: Counters, draws: seq<Draw>, i: nat)
    requires i < |draws|
    ensures Issued(counters, draws, i)
         == Number(draws[i].prefix, draws[i].year, draws[i].month, CounterAt(counters, draws, i))
  {
    CounterCountsCalls(counters, draws[..i + 1], draws[i].prefix);
    assert draws[..i + 1][..i] == draws[..i];
  }

  ghost predicate Calendar(draws: seq<Draw>) {
    forall i :: 0 <= i < |draws| ==> draws[i].month < 100
  }

  /** No number is issued twice, whatever the prefixes, dates and order of the calls. */
  lemma IssuedNumbersAreDistinct(counters: Counters, draws: seq<Draw>, i: nat, j: nat)
    requires i < j < |draws| && Calendar(draws)
    ensures Issued(counters, draws, i) != Issued(counters, draws, j)
  {
    var m, n := CounterAt(counters, draws, i), CounterAt(counters, draws, j);
    IssuedInOrder(counters, draws, i);
    IssuedInOrder(counters, draws, j);
    if draws[i].prefix == draws[j].prefix {
      LaterCountIsMore(draws, draws[i].prefix, i, j);
    }
    OtherNumber(draws[i], m, draws[j], n, Issued(counters, draws, i), Issued(counters, draws, j));
  }

  lemma OtherNumber(d: Draw, m: nat, e: Draw, n: nat, s: string, t: string)
    requires d.month < 100 && e.month < 100 && (d.prefix == e.prefix ==> m != n)
    requires s == Number(d.prefix, d.year, d.month, m) && t == Number(e.prefix, e.year, e.month, n)
    ensures s != t
  {
    NumberInjective(d.prefix, d.year, d.month, m, e.prefix, e.year, e.month, n);
  }

  /** After `reset` a number repeats exactly when prefix, month and place in the prefix's order repeat. */
  lemma ResetRepeatsNumbers(before: seq<Draw>, after: seq<Draw>, i: nat, j: nat)
    requires i < |before| && j < |after| && Calendar(before) && Calendar(after)
    ensures Issued(map[], before, i) == Issued(map[], after, j) <==>
            before[i] == after[j] &&
            Occurrences(before[..i], before[i].prefix) == Occurrences(after[..j], after[j].prefix)
  {
    var d, e := before[i], after[j];
    IssuedInOrder(map[], before, i);
    IssuedInOrder(map[], after, j);
    NumberInjective(d.prefix, d.year, d.month, Occurrences(before[..i], d.prefix) + 1,
                    e.prefix, e.year, e.month, Occurrences(after[..j], e.prefix) + 1);
  }
}

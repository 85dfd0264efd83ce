/** parse_number_from_name: the last number in the name of a device. */
module NameNumbers {

  predicate IsDigit(c: char) {
    '0' <= c <= '9'
  }

  function Digit(c: char): (d: nat)
    requires IsDigit(c)
    ensures d < 10
  {
    c as int - '0' as int
  }

  predicate AllDigits(s: string) {
    forall c :: c in s ==> IsDigit(c)
  }

  function Pow10(n: nat): (p: nat)
    ensures p > 0
  {
    if n == 0 then 1 else 10 * Pow10(n - 1)
  }

  /** The value of a run of decimal digits. */
  function Value(run: string): nat
    requires AllDigits(run)
  {
    if run == "" then 0 else 10 * Value(run[..|run| - 1]) + Digit(run[|run| - 1])
  }

  /** Where the digits that end the name begin. */
  function RunStart(name: string): (start: nat)
    ensures start <= |name| && AllDigits(name[start..])
    ensures start > 0 ==> !IsDigit(name[start - 1])
  {
    if name == "" || !IsDigit(name[|name| - 1]) then |name|
    else
      var start := RunStart(name[..|name| - 1]);
      assert name[start..] == name[..|name| - 1][start..] + [name[|name| - 1]];
      start
  }

  function NumberIn(name: string): int {
    if name == "" then -1
    else if IsDigit(name[|name| - 1]) then Value(name[RunStart(name)..])
    else NumberIn(name[..|name| - 1])
  }

  lemma TimesTen(p: nat, d: nat)
    ensures (10 * p) * d == 10 * (p * d)
  {
  }

  lemma {:induction false} ValuePrepend(c: char, run: string)
    requires IsDigit(c) && AllDigits(run)
    ensures AllDigits([c] + run) && Value([c] + run) == Pow10(|run|) * Digit(c) + Value(run)
  {
    if run != "" {
      var n := |run| - 1;
      ValuePrepend(c, run[..n]);
      assert ([c] + run)[..n + 1] == [c] + run[..n];
      TimesTen(Pow10(n), Digit(c));
    }
  }

  /** Up to nine digits, neither the result nor the weight leaves the range of an int. */
  lemma {:induction false} FitsInInt(run: string)
    requires AllDigits(run)
    ensures Value(run) < Pow10(|run|)
    ensures |run| <= 9 ==> Pow10(|run|) <= 1_000_000_000
    decreases |run|
  {
    if run != "" {
      FitsInInt(run[..|run| - 1]);
    }
    PowersUpTo9(|run|);
  }

  lemma PowersUpTo9(n: nat)
    ensures n <= 9 ==> Pow10(n) <= 1_000_000_000
    decreases 9 - n
  {
    if n < 9 {
      PowersUpTo9(n + 1);
    }
  }

  method ParseNumberFromName(name: string) returns (result: int)
    ensures result == NumberIn(name)
  {
    var pos := |name| - 1;
    assert name[..|name|] == name;
    while pos >= 0
      invariant -1 <= pos < |name|
      invariant NumberIn(name[..pos + 1]) == NumberIn(name)
    {
      if IsDigit(name[pos]) {
        result := ParseRun(name, pos);
        return;
      }
      assert name[..pos + 1][..pos] == name[..pos];
      pos := pos - 1;
    }
    return -1;
  }

  /** The inner loop: the digits up to `last`, from the last one to the first. */
  method ParseRun(name: string, last: nat) returns (result: nat)
    requires last < |name| && IsDigit(name[last])
    ensures result == NumberIn(name[..last + 1])
  {
    ghost var number := name[..last + 1];
    var pos := last;
    result := Digit(name[pos]);
    var weight := 10;
    while pos != 0
      invariant pos <= last && AllDigits(number[pos..])
      invariant result == Value(number[pos..]) && weight == Pow10(last + 1 - pos)
    {
      pos := pos - 1;
      if IsDigit(name[pos]) {
        ValuePrepend(name[pos], number[pos + 1..]);
        assert number[pos..] == [name[pos]] + number[pos + 1..];
        result := result + weight * Digit(name[pos]);
        weight := weight * 10;
      } else {
        RunStartsAt(number, pos + 1);
        return;
      }
    }
    RunStartsAt(number, 0);
  }

  lemma {:induction false} RunStartsAt(name: string, start: nat)
    requires start <= |name| && AllDigits(name[start..]) && (start > 0 ==> !IsDigit(name[start - 1]))
    ensures RunStart(name) == start
  {
    if start < |name| {
      assert IsDigit(name[start..][|name| - 1 - start]);
      assert name[..|name| - 1][start..] == name[start..][..|name| - 1 - start];
      RunStartsAt(name[..|name| - 1], start);
    }
  }

  /** The number is the value of the last run of digits, whatever stands around it. */
  lemma {:induction false} LastRunCounts(prefix: string, run: string, suffix: string)
    requires prefix != "" ==> !IsDigit(prefix[|prefix| - 1])
    requires run != "" && AllDigits(run) && forall c :: c in suffix ==> !IsDigit(c)
    ensures NumberIn(prefix + run + suffix) == Value(run)
  {
    var name := prefix + run + suffix;
    if suffix == "" {
      assert name[|prefix|..] == run;
      RunStartsAt(name, |prefix|);
    } else {
      assert name[..|name| - 1] == prefix + run + suffix[..|suffix| - 1];
      assert name[|name| - 1] == suffix[|suffix| - 1];
      LastRunCounts(prefix, run, suffix[..|suffix| - 1]);
    }
  }

  /** -1 means exactly that there is no digit. */
  lemma {:induction false} NoDigitNoNumber(name: string)
    ensures NumberIn(name) == -1 <==> forall c :: c in name ==> !IsDigit(c)
  {
    if name != "" {
      var n := |name| - 1;
      NoDigitNoNumber(name[..n]);
      assert name == name[..n] + [name[n]];
    }
  }

  // ---- round trip ----

  function Decimal(n: nat): (s: string)
    ensures s != "" && AllDigits(s)
  {
    var last := ('0' as int + n % 10) as char;
    if n < 10 then [last] else Decimal(n / 10) + [last]
  }

  lemma {:induction false} DecimalValue(n: nat)
    ensures Value(Decimal(n)) == n
  {
    if n >= 10 {
      DecimalValue(n / 10);
      assert Decimal(n)[..|Decimal(n)| - 1] == Decimal(n / 10);
    }
  }

  /** A number printed between other characters is found again. */
  lemma NumberRoundTrip(prefix: string, n: nat, suffix: string)
    requires prefix != "" ==> !IsDigit(prefix[|prefix| - 1])
    requires forall c :: c in suffix ==> !IsDigit(c)
    ensures NumberIn(prefix + Decimal(n) + suffix) == n
  {
    DecimalValue(n);
    LastRunCounts(prefix, Decimal(n), suffix);
  }
}

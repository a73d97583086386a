/** Microsecond counts printed as seconds by the exporter and read back by the profile tool. */
module DecimalSeconds {
  import opened Basics
  import opened Decimals

  const MICROS: nat := 1_000_000

  function Power10(n: nat): (p: nat)
    ensures p > 0
  {
    if n == 0 then 1 else 10 * Power10(n - 1)
  }

  lemma ScaleUp(v: nat, n: nat)
    ensures 10 * (v * Power10(n)) == v * Power10(n + 1)
  {
    assert 10 * (v * Power10(n)) == v * (10 * Power10(n));
  }

  lemma {:induction false} PowersGrow(a: nat, b: nat)
    requires a <= b
    ensures Power10(a) <= Power10(b)
  {
    if a < b {
      PowersGrow(a, b - 1);
    }
  }

  // ---- printing ----

  /** The last n decimal digits. */
  function Padded(f: nat, n: nat): (s: string)
    ensures |s| == n
  {
    if n == 0 then "" else Padded(f / 10, n - 1) + [Digit(f % 10)]
  }

  function TrimZeros(s: string): string {
    if s != "" && s[|s| - 1] == '0' then TrimZeros(s[..|s| - 1]) else s
  }

  function SecondsText(us: nat): string {
    Decimal(us / MICROS) + if us % MICROS == 0 then "" else "." + TrimZeros(Padded(us % MICROS, 6))
  }

  lemma {:induction false} PaddedValue(f: nat, n: nat)
    requires f < Power10(n)
    ensures AllDigits(Padded(f, n)) && ValueOf(Padded(f, n)) == f
  {
    if n > 0 {
      PaddedValue(f / 10, n - 1);
      assert Padded(f, n)[..n - 1] == Padded(f / 10, n - 1);
    }
  }

  /** Trailing zeros of a fraction carry nothing: putting them back by multiplying gives the same digits. */
  lemma {:induction false} TrimmedValue(s: string)
    requires AllDigits(s)
    ensures var t := TrimZeros(s);
            && |t| <= |s| && AllDigits(t)
            && ValueOf(s) == ValueOf(t) * Power10(|s| - |t|)
            && (ValueOf(s) > 0 ==> t != "")
  {
    if s != "" && s[|s| - 1] == '0' {
      var r := s[..|s| - 1];
      TrimmedValue(r);
      var t := TrimZeros(r);
      assert ValueOf(s) == 10 * ValueOf(r);
      ScaleUp(ValueOf(t), |r| - |t|);
    }
  }

  /** Fills an array from the right with decimal digits. */
  method FillDigits(digits: array<char>, f: nat)
    modifies digits
    ensures digits[..] == Padded(f, digits.Length)
  {
    var rest := f;
    var i := digits.Length;
    while i != 0
      invariant 0 <= i <= digits.Length && Padded(f, digits.Length) == Padded(rest, i) + digits[i..]
      decreases i
    {
      ghost var tail := digits[i..];
      digits[i - 1] := Digit(rest % 10);
      assert digits[i - 1..] == [Digit(rest % 10)] + tail;
      rest := rest / 10;
      i := i - 1;
    }
    assert digits[0..] == digits[..];
  }

  /** How many digits are left without the trailing zeros. */
  method TrimLength(digits: array<char>) returns (last: nat)
    ensures last <= digits.Length && digits[..last] == TrimZeros(digits[..])
  {
    last := digits.Length;
    assert digits[..last] == digits[..];
    while last != 0 && digits[last - 1] == '0'
      invariant 0 <= last <= digits.Length && TrimZeros(digits[..last]) == TrimZeros(digits[..])
      decreases last
    {
      assert digits[..last][..last - 1] == digits[..last - 1];
      last := last - 1;
    }
  }

  /** Prints whole seconds and, if there is a fraction, its digits without trailing zeros. */
  method AppendMicrosecondsAsSeconds(before: string, microseconds: nat) returns (out: string)
    ensures out == before + SecondsText(microseconds)
  {
    out := before + Decimal(microseconds / MICROS);
    if microseconds % MICROS == 0 {
      return;
    }
    var digits := new char[6];
    FillDigits(digits, microseconds % MICROS);
    var last := TrimLength(digits);
    out := out + "." + digits[..last];
  }

  // ---- parsing ----

  /** What the standard library reads as an unsigned 64-bit number, all of the text. */
  function Uint64Of(s: string): Option<nat> {
    if s == "" || !AllDigits(s) || ValueOf(s) > U64_MAX then None else Some(ValueOf(s))
  }

  function BeforeDot(s: string): string {
    if s == "" || s[0] == '.' then "" else [s[0]] + BeforeDot(s[1..])
  }

  lemma {:induction false} DotSplits(s: string)
    ensures var n := |BeforeDot(s)|;
            && n <= |s| && BeforeDot(s) == s[..n] && '.' !in s[..n] && (n < |s| ==> s[n] == '.')
  {
    if s != "" && s[0] != '.' {
      DotSplits(s[1..]);
      var n := |BeforeDot(s[1..])|;
      assert s[..n + 1] == [s[0]] + s[1..][..n];
    }
  }

  /** The microseconds a fraction of at most six digits stands for. */
  function FractionMicros(s: string): Option<nat> {
    if s == "" || |s| > 6 || Uint64Of(s).None? then None else Some(Uint64Of(s).value * Power10(6 - |s|))
  }

  /** The value of whole seconds and of a fraction's microseconds, if there are any and they fit. */
  function Combined(whole: Option<nat>, fraction: Option<nat>): Option<nat> {
    if whole.None? || fraction.None? || whole.value * MICROS + fraction.value > U64_MAX then None
    else Some(whole.value * MICROS + fraction.value)
  }

  /** The microseconds a text stands for, unless it is malformed or they do not fit 64 bits. */
  function SecondsValue(s: string): Option<nat> {
    DotSplits(s);
    var n := |BeforeDot(s)|;
    var whole := Uint64Of(s[..n]);
    var fraction := if n == |s| then Some(0) else FractionMicros(s[n + 1..]);
    Combined(whole, fraction)
  }

  /** The guard before multiplying refuses exactly what would not fit. */
  lemma GuardIsExact(whole: nat, fraction: nat)
    requires fraction <= U64_MAX
    ensures whole > (U64_MAX - fraction) / MICROS <==> whole * MICROS + fraction > U64_MAX
  {
  }

  lemma {:induction false} FractionIsSmall(s: string)
    requires AllDigits(s)
    ensures ValueOf(s) < Power10(|s|)
  {
    if s != "" {
      FractionIsSmall(s[..|s| - 1]);
    }
  }

  lemma {:induction false} PowersMultiply(a: nat, b: nat)
    ensures Power10(a) * Power10(b) == Power10(a + b)
  {
    if a > 0 {
      PowersMultiply(a - 1, b);
      assert 10 * (Power10(a - 1) * Power10(b)) == (10 * Power10(a - 1)) * Power10(b);
    }
  }

  lemma FractionFits(s: string)
    requires FractionMicros(s).Some?
    ensures FractionMicros(s).value < MICROS
  {
    FractionIsSmall(s);
    PowersMultiply(|s|, 6 - |s|);
    assert Power10(6) == MICROS;
    var v, p, q := ValueOf(s), Power10(|s|), Power10(6 - |s|);
    assert v * q < p * q;
  }

  method ParseSecondsAsMicroseconds(value: string) returns (r: Option<nat>)
    ensures r == SecondsValue(value)
  {
    DotSplits(value);
    var dot := 0;
    while dot < |value| && value[dot] != '.'
      invariant 0 <= dot <= |BeforeDot(value)| && '.' !in value[..dot]
    {
      dot := dot + 1;
    }
    assert dot == |BeforeDot(value)|;
    var whole := Uint64Of(value[..dot]);
    if whole.None? {
      return None;
    }
    var fractional := 0;
    if dot != |value| {
      var text := value[dot + 1..];
      if text == "" || |text| > 6 {
        return None;
      }
      var parsed := Uint64Of(text);
      if parsed.None? {
        return None;
      }
      fractional := parsed.value;
      var index := |text|;
      assert fractional == parsed.value * Power10(0);
      while index < 6
        invariant |text| <= index <= 6 && fractional == parsed.value * Power10(index - |text|)
      {
        ScaleUp(parsed.value, index - |text|);
        fractional := fractional * 10;
        index := index + 1;
      }
      FractionFits(text);
    }
    GuardIsExact(whole.value, fractional);
    if whole.value > (U64_MAX - fractional) / MICROS {
      return None;
    }
    r := Some(whole.value * MICROS + fractional);
  }

  // ---- both ----

  lemma NoDotInDigits(s: string, tail: string)
    requires AllDigits(s) && (tail == "" || tail[0] == '.')
    ensures BeforeDot(s + tail) == s
  {
    if s == "" {
      assert s + tail == tail;
    } else {
      NoDotInDigits(s[1..], tail);
      assert (s + tail)[1..] == s[1..] + tail;
    }
  }

  lemma FractionReadsBack(f: nat)
    requires 0 < f < MICROS
    ensures FractionMicros(TrimZeros(Padded(f, 6))) == Some(f)
  {
    assert Power10(6) == MICROS;
    PaddedValue(f, 6);
    TrimmedValue(Padded(f, 6));
    FractionIsSmall(TrimZeros(Padded(f, 6)));
    PowersGrow(|TrimZeros(Padded(f, 6))|, 6);
  }

  lemma WithoutPoint(whole: string)
    requires AllDigits(whole)
    ensures SecondsValue(whole) == Combined(Uint64Of(whole), Some(0))
  {
    NoDotInDigits(whole, "");
    assert whole + "" == whole && whole[..|whole|] == whole;
  }

  lemma WithPoint(whole: string, fraction: string)
    requires AllDigits(whole)
    ensures SecondsValue(whole + "." + fraction) == Combined(Uint64Of(whole), FractionMicros(fraction))
  {
    var tail := "." + fraction;
    NoDotInDigits(whole, tail);
    var s := whole + tail;
    assert s == whole + "." + fraction;
    assert s[..|whole|] == whole && s[|whole| + 1..] == fraction;
  }

  lemma WholeReadsBack(whole: nat)
    requires whole * MICROS <= U64_MAX
    ensures SecondsValue(Decimal(whole)) == Some(whole * MICROS)
  {
    DecimalRoundTrip(whole);
    WithoutPoint(Decimal(whole));
  }

  lemma PartsReadBack(whole: nat, fraction: string, f: nat)
    requires FractionMicros(fraction) == Some(f) && whole * MICROS + f <= U64_MAX
    ensures SecondsValue(Decimal(whole) + "." + fraction) == Some(whole * MICROS + f)
  {
    DecimalRoundTrip(whole);
    WithPoint(Decimal(whole), fraction);
  }

  lemma PrintedParts(us: nat, fraction: string)
    requires us % MICROS != 0 && fraction == TrimZeros(Padded(us % MICROS, 6))
    ensures SecondsText(us) == Decimal(us / MICROS) + "." + fraction
  {
    assert Decimal(us / MICROS) + ("." + fraction) == Decimal(us / MICROS) + "." + fraction;
  }

  /** Every 64-bit microsecond count is read back from its printed seconds; the guard refuses none of them. */
  lemma SecondsRoundTrip(us: nat)
    requires us <= U64_MAX
    ensures SecondsValue(SecondsText(us)) == Some(us)
  {
    var whole, f := us / MICROS, us % MICROS;
    assert whole * MICROS + f == us;
    if f == 0 {
      WholeReadsBack(whole);
      assert Decimal(whole) + "" == Decimal(whole);
    } else {
      var fraction := TrimZeros(Padded(f, 6));
      FractionReadsBack(f);
      PartsReadBack(whole, fraction, f);
      PrintedParts(us, fraction);
    }
  }

  // ---- what the texts mean ----

  /** The text is a decimal number of seconds that makes exactly these microseconds: digits, and maybe a point and one
      to six more. */
  ghost predicate MeansSeconds(s: string, us: nat) {
    || (s != "" && AllDigits(s) && us == ValueOf(s) * 1_000_000)
    || exists n: nat :: PointAt(s, n) && us * Power10(|s| - n - 1) == ValueOf(s[..n] + s[n + 1..]) * 1_000_000
  }

  /** There is a point behind n digits, and one to six digits follow it. */
  predicate PointAt(s: string, n: nat) {
    0 < n < |s| && s[n] == '.' && 1 <= |s| - n - 1 <= 6 && AllDigits(s[..n]) && AllDigits(s[n + 1..])
  }

  lemma {:induction false} JoinedValue(a: string, b: string)
    requires AllDigits(a) && AllDigits(b)
    ensures AllDigits(a + b) && ValueOf(a + b) == ValueOf(a) * Power10(|b|) + ValueOf(b)
  {
    if b == "" {
      assert a + b == a;
    } else {
      var front := b[..|b| - 1];
      JoinedValue(a, front);
      assert (a + b)[..|a + b| - 1] == a + front;
      ScaleUp(ValueOf(a), |front|);
    }
  }

  /** Whole seconds and a fraction of k digits, as one number. */
  lemma FractionMeans(whole: string, fraction: string, us: nat)
    requires AllDigits(whole) && AllDigits(fraction) && 1 <= |fraction| <= 6
    ensures us == ValueOf(whole) * MICROS + ValueOf(fraction) * Power10(6 - |fraction|)
            <==> us * Power10(|fraction|) == ValueOf(whole + fraction) * 1_000_000
  {
    JoinedValue(whole, fraction);
    PowersMultiply(|fraction|, 6 - |fraction|);
    assert Power10(6) == 1_000_000;
    SameOnBothScales(us, ValueOf(whole), ValueOf(fraction), Power10(|fraction|), Power10(6 - |fraction|), 1_000_000);
  }

  lemma SameOnBothScales(us: nat, w: nat, f: nat, p: nat, q: nat, m: nat)
    requires p > 0 && p * q == m
    ensures us == w * m + f * q <==> us * p == (w * p + f) * m
  {
    var fine, coarse := w * m + f * q, w * p + f;
    assert fine * p == coarse * m by {
      Distributes(w * m, f * q, p);
      Distributes(w * p, f, m);
      Regroups(w, m, p);
      Regroups(f, q, p);
    }
    Cancels(us, fine, p);
  }

  lemma Distributes(a: nat, b: nat, c: nat)
    ensures (a + b) * c == a * c + b * c
  {
  }

  lemma Regroups(a: nat, b: nat, c: nat)
    ensures a * b * c == a * c * b == a * (c * b)
  {
  }

  lemma Cancels(a: nat, b: nat, p: nat)
    requires p > 0
    ensures a == b <==> a * p == b * p
  {
  }

  lemma OnlyPoint(s: string, n: nat)
    requires PointAt(s, n)
    ensures |BeforeDot(s)| == n && !AllDigits(s)
  {
    assert s == s[..n] + s[n..];
    NoDotInDigits(s[..n], s[n..]);
    assert !IsDigit(s[n]);
  }

  lemma ExactWithoutPoint(s: string, us: nat)
    requires BeforeDot(s) == s
    ensures SecondsValue(s) == Some(us) <==> MeansSeconds(s, us) && us <= U64_MAX
  {
    assert s[..|s|] == s;
    forall n: nat | PointAt(s, n) ensures false {
      OnlyPoint(s, n);
    }
  }

  lemma ExactWithPoint(s: string, n: nat, us: nat)
    requires n == |BeforeDot(s)| < |s| && PointAt(s, n)
    ensures SecondsValue(s) == Some(us) <==> us * Power10(|s| - n - 1) == ValueOf(s[..n] + s[n + 1..]) * 1_000_000
                                             && us <= U64_MAX
  {
    var whole, fraction := s[..n], s[n + 1..];
    assert s == whole + "." + fraction;
    WithPoint(whole, fraction);
    FractionMeans(whole, fraction, us);
    FractionIsRead(fraction);
  }

  lemma FractionIsRead(fraction: string)
    requires AllDigits(fraction) && 1 <= |fraction| <= 6
    ensures FractionMicros(fraction) == Some(ValueOf(fraction) * Power10(6 - |fraction|))
  {
    FractionIsSmall(fraction);
    PowersGrow(|fraction|, 6);
    assert Power10(6) == MICROS;
  }

  /** The parser reads exactly the decimal numbers of seconds that make whole microseconds within 64 bits. */
  lemma SecondsValueIsExact(s: string, us: nat)
    ensures SecondsValue(s) == Some(us) <==> MeansSeconds(s, us) && us <= U64_MAX
  {
    DotSplits(s);
    var n := |BeforeDot(s)|;
    if n == |s| {
      ExactWithoutPoint(s, us);
    } else {
      assert !IsDigit(s[n]);
      forall k: nat | PointAt(s, k) ensures k == n {
        OnlyPoint(s, k);
      }
      if PointAt(s, n) {
        ExactWithPoint(s, n, us);
      } else {
        NotRead(s, n);
      }
    }
  }

  lemma NotRead(s: string, n: nat)
    requires n == |BeforeDot(s)| < |s| && s[n] == '.' && !PointAt(s, n)
    ensures SecondsValue(s).None?
  {
    DotSplits(s);
    assert BeforeDot(s) == s[..n];
    if n > 0 && AllDigits(s[..n]) {
      assert FractionMicros(s[n + 1..]).None?;
    } else {
      assert Uint64Of(s[..n]).None?;
    }
  }

  lemma {:induction false} TrimmedEndsInDigit(s: string)
    ensures var t := TrimZeros(s); t != "" ==> t[|t| - 1] != '0'
  {
    if s != "" && s[|s| - 1] == '0' {
      TrimmedEndsInDigit(s[..|s| - 1]);
    }
  }

  /** What is printed means the count, and a fraction has no needless zero at its end. */
  lemma PrintedMeansSeconds(us: nat)
    requires us <= U64_MAX
    ensures MeansSeconds(SecondsText(us), us)
    ensures var s := SecondsText(us); s != "" && (AllDigits(s) || s[|s| - 1] != '0')
  {
    SecondsRoundTrip(us);
    SecondsValueIsExact(SecondsText(us), us);
    DecimalRoundTrip(us / MICROS);
    if us % MICROS != 0 {
      FractionReadsBack(us % MICROS);
      TrimmedEndsInDigit(Padded(us % MICROS, 6));
    }
  }
}

/** JSON numbers as section 6 of RFC 8259 writes them, and what the parser makes of them. */
module JsonNumerals {
  import opened Basics
  import opened Decimals
  import opened JsonValues
  import opened JsonGrammar

  datatype Power = Power(mark: char, sign: string, digits: string)

  datatype Numeral = Numeral(minus: bool, whole: string, fraction: Option<string>, power: Option<Power>)

  predicate SomeDigits(s: string) {
    s != [] && AllDigits(s)
  }

  /** No needless zero in front, digits after a point, digits after an exponent mark and its sign. */
  predicate NumeralOk(n: Numeral) {
    && SomeDigits(n.whole) && (n.whole[0] == '0' ==> |n.whole| == 1)
    && (n.fraction.Some? ==> SomeDigits(n.fraction.value))
    && (n.power.Some? ==>
          && (n.power.value.mark == 'e' || n.power.value.mark == 'E')
          && (n.power.value.sign == "" || n.power.value.sign == "+" || n.power.value.sign == "-")
          && SomeDigits(n.power.value.digits))
  }

  function SignText(n: Numeral): string {
    if n.minus then "-" else ""
  }

  function FractionText(n: Numeral): string {
    if n.fraction.None? then "" else "." + n.fraction.value
  }

  function PowerText(n: Numeral): string {
    if n.power.None? then "" else [n.power.value.mark] + n.power.value.sign + n.power.value.digits
  }

  function NumeralText(n: Numeral): string {
    SignText(n) + n.whole + FractionText(n) + PowerText(n)
  }

  predicate IsWhole(n: Numeral) {
    n.fraction.None? && n.power.None?
  }

  function WholeValue(n: Numeral): int {
    if n.minus then -(ValueOf(n.whole) as int) else ValueOf(n.whole)
  }

  /** A whole number is a signed 64-bit integer if it fits, an unsigned one if it fits that and has no minus; every
      other number is the double that the library reads from its text, if it reads one. */
  function NumeralMeaning(f: Floats, n: Numeral): Option<Value> {
    var i := WholeValue(n);
    if IsWhole(n) && -0x8000_0000_0000_0000 <= i < 0x8000_0000_0000_0000 then Some(Int(i))
    else if IsWhole(n) && !n.minus && i < 0x1_0000_0000_0000_0000 then Some(UInt(i))
    else
      var d := f.read(NumeralText(n));
      if d.None? then None else Some(Double(d.value))
  }

  /** Nothing that would go on with a number. */
  predicate Stops(rest: string) {
    rest == [] || (!IsDigit(rest[0]) && rest[0] != '.' && rest[0] != 'e' && rest[0] != 'E')
  }

  // ---- every numeral is read ----

  lemma WholeIsRead(n: Numeral, tail: string)
    requires NumeralOk(n) && (tail == [] || !IsDigit(tail[0]))
    ensures IntegerPart(SignText(n) + n.whole + tail) == Some(|SignText(n)| + |n.whole|)
  {
    var s := SignText(n) + n.whole + tail;
    var sign := |SignText(n)|;
    assert s[sign..] == n.whole + tail;
    assert s[sign] == n.whole[0];
    LeadingDigitsStop(n.whole, tail);
  }

  lemma FractionIsRead(n: Numeral, tail: string)
    requires NumeralOk(n) && (tail == [] || (!IsDigit(tail[0]) && tail[0] != '.'))
    ensures Fraction(FractionText(n) + tail) == Some(|FractionText(n)|)
  {
    var s := FractionText(n) + tail;
    if n.fraction.Some? {
      assert s[1..] == n.fraction.value + tail;
      LeadingDigitsStop(n.fraction.value, tail);
    } else {
      assert s == tail;
    }
  }

  lemma BarePowerIsRead(mark: char, digits: string, rest: string)
    requires (mark == 'e' || mark == 'E') && SomeDigits(digits) && (rest == [] || !IsDigit(rest[0]))
    ensures Exponent([mark] + (digits + rest)) == Some(1 + |digits|)
  {
    var s := [mark] + (digits + rest);
    LeadingDigitsStop(digits, rest);
    assert s[1..] == digits + rest && s[1] == digits[0];
  }

  lemma SignedPowerIsRead(mark: char, sign: char, digits: string, rest: string)
    requires (mark == 'e' || mark == 'E') && (sign == '+' || sign == '-')
    requires SomeDigits(digits) && (rest == [] || !IsDigit(rest[0]))
    ensures Exponent([mark, sign] + (digits + rest)) == Some(2 + |digits|)
  {
    var s := [mark, sign] + (digits + rest);
    LeadingDigitsStop(digits, rest);
    assert s[2..] == digits + rest;
  }

  lemma PowerIsRead(n: Numeral, rest: string)
    requires NumeralOk(n) && Stops(rest)
    ensures Exponent(PowerText(n) + rest) == Some(|PowerText(n)|)
  {
    if n.power.None? {
      assert PowerText(n) + rest == rest;
    } else {
      var p := n.power.value;
      if p.sign == "" {
        BarePowerIsRead(p.mark, p.digits, rest);
        assert PowerText(n) + rest == [p.mark] + (p.digits + rest);
      } else {
        SignedPowerIsRead(p.mark, p.sign[0], p.digits, rest);
        assert PowerText(n) + rest == [p.mark, p.sign[0]] + (p.digits + rest);
      }
    }
  }

  lemma SpanOfParts(a: string, b: string, c: string, k: nat)
    requires a != [] && IntegerPart(a + (b + c)) == Some(|a|)
    requires Fraction(b + c) == Some(|b|) && Exponent(c) == Some(k)
    ensures NumberSpan(a + (b + c)) == Some((|a| + |b| + k, |b| + k == 0))
  {
    var s := a + (b + c);
    assert s[|a|..] == b + c && s[|a| + |b|..] == c;
  }

  lemma TextInParts(n: Numeral, rest: string)
    ensures NumeralText(n) + rest == (SignText(n) + n.whole) + (FractionText(n) + (PowerText(n) + rest))
  {
  }

  lemma SpanIsRead(n: Numeral, rest: string)
    requires NumeralOk(n) && Stops(rest)
    ensures NumberSpan(NumeralText(n) + rest) == Some((|NumeralText(n)|, IsWhole(n)))
  {
    var front, fraction, tail := SignText(n) + n.whole, FractionText(n), PowerText(n) + rest;
    assert IntegerPart(front + (fraction + tail)) == Some(|front|) by {
      WholeIsRead(n, fraction + tail);
    }
    assert Fraction(fraction + tail) == Some(|fraction|) by {
      FractionIsRead(n, tail);
    }
    assert Exponent(tail) == Some(|PowerText(n)|) by {
      PowerIsRead(n, rest);
    }
    TextInParts(n, rest);
    SpanOfParts(front, fraction, tail, |PowerText(n)|);
  }

  lemma WholeMeaning(f: Floats, n: Numeral)
    requires NumeralOk(n)
    ensures NumberOf(f, NumeralText(n), IsWhole(n)) == NumeralMeaning(f, n)
  {
    var t := NumeralText(n);
    if IsWhole(n) {
      assert t == SignText(n) + n.whole;
      if n.minus {
        assert t[0] == '-' && t[1..] == n.whole;
      } else {
        assert t == n.whole && IsDigit(t[0]);
      }
    } else if n.minus {
      assert t[0] == '-';
    } else {
      assert t[0] == n.whole[0];
    }
  }

  /** Whatever follows it, unless that would go on with the number, a numeral is read as what it means. */
  lemma NumeralIsRead(f: Floats, n: Numeral, rest: string)
    requires NumeralOk(n) && Stops(rest)
    ensures var v := NumeralMeaning(f, n);
            Number(f, NumeralText(n) + rest) == if v.None? then None else Some((v.value, rest))
  {
    var s := NumeralText(n) + rest;
    SpanIsRead(n, rest);
    WholeMeaning(f, n);
    assert s[..|NumeralText(n)|] == NumeralText(n) && s[|NumeralText(n)|..] == rest;
  }

  lemma NumeralStart(n: Numeral)
    requires NumeralOk(n)
    ensures NumeralText(n) != [] && (NumeralText(n)[0] == '-' || IsDigit(NumeralText(n)[0]))
  {
    assert NumeralText(n)[0] == if n.minus then '-' else n.whole[0];
  }

  // ---- whatever is read is a numeral ----

  lemma WholeOf(s: string) returns (whole: string)
    requires s != [] && IntegerPart(s).Some?
    ensures SomeDigits(whole) && (whole[0] == '0' ==> |whole| == 1)
    ensures (if s[0] == '-' then "-" else "") + whole == s[..IntegerPart(s).value]
  {
    var i := IntegerPart(s).value;
    var sign := if s[0] == '-' then 1 else 0;
    LeadingDigitsOf(s[sign..]);
    whole := s[sign..][..i - sign];
    assert s[..sign] == if s[0] == '-' then "-" else "";
    assert s[..sign] + whole == s[..i];
  }

  lemma Joined(s: string, i: nat, j: nat, k: nat)
    requires i + j + k <= |s|
    ensures s[..i] + s[i..][..j] + s[i + j..][..k] == s[..i + j + k]
  {
  }

  lemma SpanInParts(s: string) returns (i: nat, j: nat, k: nat)
    requires s != [] && NumberSpan(s).Some?
    ensures i + j + k <= |s|
    ensures IntegerPart(s) == Some(i) && Fraction(s[i..]) == Some(j) && Exponent(s[i + j..]) == Some(k)
    ensures NumberSpan(s) == Some((i + j + k, j + k == 0))
  {
    i := IntegerPart(s).value;
    j := Fraction(s[i..]).value;
    k := Exponent(s[i + j..]).value;
  }

  /** What the span of a number covers. */
  lemma SpanIsNumeral(s: string) returns (n: Numeral)
    requires s != [] && NumberSpan(s).Some?
    ensures NumeralOk(n) && NumeralText(n) == s[..NumberSpan(s).value.0] && IsWhole(n) == NumberSpan(s).value.1
  {
    var i, j, k := SpanInParts(s);
    var whole := WholeOf(s);
    var fraction := FractionOf(s[i..]);
    var power := PowerOf(s[i + j..]);
    n := Assembled(s[0] == '-', whole, fraction, power);
    Joined(s, i, j, k);
  }

  lemma Assembled(minus: bool, whole: string, fraction: Option<string>, power: Option<Power>) returns (n: Numeral)
    requires NumeralOk(Numeral(false, "0", None, power))
    requires SomeDigits(whole) && (whole[0] == '0' ==> |whole| == 1)
    requires fraction.Some? ==> SomeDigits(fraction.value)
    ensures NumeralOk(n) && IsWhole(n) == (fraction.None? && power.None?)
    ensures NumeralText(n) == (if minus then "-" else "") + whole + (if fraction.None? then "" else "." + fraction.value)
                              + PowerText(Numeral(false, "0", None, power))
  {
    n := Numeral(minus, whole, fraction, power);
    assert PowerText(n) == PowerText(Numeral(false, "0", None, power));
  }

  lemma FractionOf(s: string) returns (fraction: Option<string>)
    requires Fraction(s).Some?
    ensures fraction.Some? ==> SomeDigits(fraction.value)
    ensures (if fraction.None? then "" else "." + fraction.value) == s[..Fraction(s).value]
    ensures fraction.None? <==> Fraction(s).value == 0
  {
    if s == [] || s[0] != '.' {
      fraction := None;
    } else {
      LeadingDigitsOf(s[1..]);
      var n := LeadingDigits(s[1..]);
      fraction := Some(s[1..][..n]);
      assert "." + s[1..][..n] == s[..1 + n];
    }
  }

  lemma PowerOf(s: string) returns (power: Option<Power>)
    requires Exponent(s).Some?
    ensures var n := Numeral(false, "0", None, power); NumeralOk(n) && PowerText(n) == s[..Exponent(s).value]
    ensures power.None? <==> Exponent(s).value == 0
  {
    if s == [] || (s[0] != 'e' && s[0] != 'E') {
      power := None;
    } else {
      var sign := if |s| > 1 && (s[1] == '+' || s[1] == '-') then 2 else 1;
      LeadingDigitsOf(s[sign..]);
      var n := LeadingDigits(s[sign..]);
      power := Some(Power(s[0], s[1..sign], s[sign..][..n]));
      assert s[1..sign] == if sign == 2 then [s[1]] else "";
      assert [s[0]] + s[1..sign] + s[sign..][..n] == s[..sign + n];
    }
  }

  /** Every number the parser accepts is a numeral, and is read as what that means. */
  lemma ReadIsNumeral(f: Floats, s: string) returns (n: Numeral)
    requires s != [] && Number(f, s).Some?
    ensures NumeralOk(n) && NumeralMeaning(f, n) == Some(Number(f, s).value.0)
    ensures s == NumeralText(n) + Number(f, s).value.1
  {
    n := SpanIsNumeral(s);
    WholeMeaning(f, n);
  }
}

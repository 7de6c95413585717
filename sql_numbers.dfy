/**
 * How MySQL reads a string that is compared with an integer column: both
 * sides become numbers, and the string is read as a decimal numeral after
 * leading blanks, with an optional sign, a fraction and an exponent; the
 * text after the numeral is ignored, and a string with no numeral reads
 * as 0. The value is kept exact here, as `mantissa * 10^scale`.
 */
module SqlNumbers {
  import opened Common
  import opened Text

  /** The characters skipped before the numeral. */
  predicate SqlBlank(c: char) {
    c == ' ' || c == '\t'
  }

  function DropBlanks(s: string): (r: string)
    ensures |r| <= |s| && r == s[|s| - |r|..]
    ensures r == [] || !SqlBlank(r[0])
  {
    if s != [] && SqlBlank(s[0]) then DropBlanks(s[1..]) else s
  }

  function Pow10(k: nat): (p: nat)
    ensures p >= 1
  {
    if k == 0 then 1 else 10 * Pow10(k - 1)
  }

  /** A numeral as read: its value is `(-1)^negative * mantissa * 10^scale`. */
  datatype Numeral = Numeral(negative: bool, mantissa: nat, scale: int)

  /** The optional `e`/`E` exponent at the head of `s`; 0 when it has no digits. */
  function Exponent(s: string): int {
    if s != [] && (s[0] == 'e' || s[0] == 'E') then
      var t := s[1..];
      var u := if t != [] && (t[0] == '-' || t[0] == '+') then t[1..] else t;
      var d: int := DecimalValue(LeadingDigits(u));
      if t != [] && t[0] == '-' then -d else d
    else 0
  }

  /** The numeral at the head of `param`, after leading blanks. */
  function Read(param: string): Numeral {
    ReadSigned(DropBlanks(param))
  }

  /** An optional sign, then the unsigned numeral. */
  function ReadSigned(s: string): Numeral {
    if s != [] && s[0] == '-' then ReadUnsigned(s[1..]).(negative := true)
    else if s != [] && s[0] == '+' then ReadUnsigned(s[1..])
    else ReadUnsigned(s)
  }

  /** The integer digits, then what follows them. */
  function ReadUnsigned(t: string): (v: Numeral)
    ensures !v.negative
  {
    var whole := LeadingDigits(t);
    ReadAfterWhole(whole, t[|whole|..])
  }

  /** An optional `.` and fraction digits after the integer digits `whole`, then an optional exponent. */
  function ReadAfterWhole(whole: string, rest: string): (v: Numeral)
    requires AllDigits(whole)
    ensures !v.negative
  {
    if rest != [] && rest[0] == '.' then
      var frac := LeadingDigits(rest[1..]);
      Numeral(false, DecimalValue(whole + frac), Exponent(rest[1 + |frac|..]) - |frac|)
    else Numeral(false, DecimalValue(whole), Exponent(rest))
  }

  /**
   * The row id an `id = ?` comparison with `param` can hold for: the
   * value MySQL reads from `param` when that value is a non-negative
   * integer; none when it is negative or has a fractional part.
   */
  function SqlId(param: string): (id: Option<nat>)
    ensures param != [] && AllDigits(param) ==> id == Some(DecimalValue(param))
  {
    ReadOfDigits(param);
    IntegerValue(Read(param))
  }

  /** The value of a numeral when it is a non-negative integer. */
  function IntegerValue(v: Numeral): (n: Option<nat>)
    ensures v.mantissa == 0 ==> n == Some(0)
    ensures !v.negative && v.scale == 0 ==> n == Some(v.mantissa)
    ensures v.negative && v.mantissa != 0 ==> n == None
  {
    if v.mantissa == 0 then Some(0)
    else if v.negative then None
    else if v.scale >= 0 then Some(v.mantissa * Pow10(v.scale))
    else if v.mantissa % Pow10(-v.scale) == 0 then Some(v.mantissa / Pow10(-v.scale))
    else None
  }

  /** A digit string reads as itself. */
  lemma ReadOfDigits(d: string)
    ensures d != [] && AllDigits(d) ==> Read(d) == Numeral(false, DecimalValue(d), 0)
  {
    if d != [] && AllDigits(d) {
      assert d + [] == d;
      ReadOfDigitsThen(d, []);
    }
  }

  // ---------------------------------------------------------------- the forms an id parameter can take

  /** Leading blanks are skipped: `' 7'` reads as `'7'`. */
  lemma {:induction false} SqlIdSkipsBlanks(s: string)
    ensures SqlId(" " + s) == SqlId(s)
    ensures SqlId("\t" + s) == SqlId(s)
  {
    assert DropBlanks(" " + s) == DropBlanks(s) by {
      assert (" " + s)[1..] == s;
    }
    assert DropBlanks("\t" + s) == DropBlanks(s) by {
      assert ("\t" + s)[1..] == s;
    }
  }

  /** A sign is read: `'+7'` reads as 7, and `'-7'` is negative and matches no id. */
  lemma {:induction false} SqlIdSigned(d: string)
    requires d != [] && AllDigits(d)
    ensures SqlId("+" + d) == Some(DecimalValue(d))
    ensures DecimalValue(d) != 0 ==> SqlId("-" + d) == None
  {
    ReadOfDigits(d);
    assert Read("+" + d) == Read(d) by {
      assert DropBlanks("+" + d) == "+" + d;
      assert ("+" + d)[1..] == d;
      assert DropBlanks(d) == d;
    }
    assert Read("-" + d) == Read(d).(negative := true) by {
      assert DropBlanks("-" + d) == "-" + d;
      assert ("-" + d)[1..] == d;
      assert DropBlanks(d) == d;
    }
  }

  /** A fraction is read: `d.f` is an integer, and so matches an id, only when the digits of `f` are all zeros. */
  lemma {:induction false} SqlIdFraction(d: string, f: string)
    requires d != [] && AllDigits(d) && AllDigits(f)
    ensures SqlId(d + "." + f) == if DecimalValue(f) == 0 then Some(DecimalValue(d)) else None
  {
    assert d + "." + f == d + ("." + f);
    ReadOfDigitsThen(d, "." + f);
    FractionRead(d, f);
    DecimalValueConcat(d, f);
    DecimalValueBound(f);
    ScaledDownValue(DecimalValue(d), DecimalValue(f), |f|, DecimalValue(d + f));
  }

  /** An exponent is read: `'1e1'` reads as 10. */
  lemma {:induction false} SqlIdExponent(d: string, e: string)
    requires d != [] && AllDigits(d) && e != [] && AllDigits(e)
    ensures SqlId(d + "e" + e) == Some(DecimalValue(d) * Pow10(DecimalValue(e)))
  {
    assert d + "e" + e == d + ("e" + e);
    ReadOfDigitsThen(d, "e" + e);
    ExponentRead(e);
    assert ReadAfterWhole(d, "e" + e) == Numeral(false, DecimalValue(d), DecimalValue(e));
  }

  /** Text after the numeral is ignored: `'7abc'` reads as 7. */
  lemma {:induction false} SqlIdIgnoresTail(d: string, rest: string)
    requires d != [] && AllDigits(d)
    requires rest != [] && !IsDigit(rest[0]) && rest[0] != '.' && rest[0] != 'e' && rest[0] != 'E'
    ensures SqlId(d + rest) == Some(DecimalValue(d))
  {
    var s := d + rest;
    assert Read(s) == Numeral(false, DecimalValue(d), 0) by {
      ReadOfDigitsThen(d, rest);
    }
  }

  /** A string that does not open with a numeral reads as 0. */
  lemma {:induction false} SqlIdOfText(s: string)
    requires s != [] && !IsDigit(s[0]) && !SqlBlank(s[0])
    requires s[0] != '+' && s[0] != '-' && s[0] != '.'
    ensures SqlId(s) == Some(0)
  {
    assert DropBlanks(s) == s && ReadSigned(s) == ReadUnsigned(s);
    assert LeadingDigits(s) == [];
  }

  /** `'1.5'` matches no id. */
  lemma FractionExample()
    ensures SqlId("1.5") == None
  {
    assert DecimalValue("5") == 5;
    assert "1.5" == "1" + "." + "5";
    SqlIdFraction("1", "5");
  }

  /** `' 7'` matches id 7. */
  lemma BlankExample()
    ensures SqlId(" 7") == Some(7)
  {
    assert DecimalValue("7") == 7;
    assert " 7" == " " + "7";
    SqlIdSkipsBlanks("7");
  }

  /** `'+7'` matches id 7. */
  lemma SignExample()
    ensures SqlId("+7") == Some(7)
  {
    assert DecimalValue("7") == 7;
    assert "+7" == "+" + "7";
    SqlIdSigned("7");
  }

  /** `'7abc'` matches id 7. */
  lemma TailExample()
    ensures SqlId("7abc") == Some(7)
  {
    assert DecimalValue("7") == 7;
    assert "7abc" == "7" + "abc";
    SqlIdIgnoresTail("7", "abc");
  }

  /** `'1e1'` matches id 10. */
  lemma ExponentExample()
    ensures SqlId("1e1") == Some(10)
  {
    assert DecimalValue("1") == 1;
    assert "1e1" == "1" + "e" + "1";
    SqlIdExponent("1", "1");
  }

  // ---------------------------------------------------------------- digit arithmetic

  lemma FractionRead(d: string, f: string)
    requires AllDigits(d) && AllDigits(f)
    ensures ReadAfterWhole(d, "." + f) == Numeral(false, DecimalValue(d + f), -|f|)
  {
    assert ("." + f)[1..] == f;
    LeadingDigitsOfDigits(f);
    assert ("." + f)[1 + |f|..] == [];
  }

  lemma ExponentRead(e: string)
    requires e != [] && AllDigits(e)
    ensures Exponent("e" + e) == DecimalValue(e)
  {
    assert ("e" + e)[1..] == e;
    LeadingDigitsOfDigits(e);
  }

  /** A string opening with digits is read from what follows them. */
  lemma ReadOfDigitsThen(d: string, rest: string)
    requires d != [] && AllDigits(d)
    requires rest == [] || !IsDigit(rest[0])
    ensures Read(d + rest) == ReadAfterWhole(d, rest)
  {
    var s := d + rest;
    assert s[0] == d[0];
    assert DropBlanks(s) == s;
    assert ReadSigned(s) == ReadUnsigned(s);
    LeadingDigitsStop(d, rest);
    assert s[|d|..] == rest;
  }

  lemma {:induction false} LeadingDigitsStop(d: string, rest: string)
    requires AllDigits(d)
    requires rest == [] || !IsDigit(rest[0])
    ensures LeadingDigits(d + rest) == d
  {
    if d != [] {
      assert (d + rest)[1..] == d[1..] + rest;
      LeadingDigitsStop(d[1..], rest);
    } else {
      assert d + rest == rest;
    }
  }

  lemma {:induction false} DecimalValueConcat(a: string, b: string)
    requires AllDigits(a) && AllDigits(b)
    ensures AllDigits(a + b)
    ensures DecimalValue(a + b) == DecimalValue(a) * Pow10(|b|) + DecimalValue(b)
    decreases |b|
  {
    if b == [] {
      assert a + b == a;
    } else {
      var b' := b[..|b| - 1];
      assert (a + b)[..|a + b| - 1] == a + b';
      assert (a + b)[|a + b| - 1] == b[|b| - 1];
      DecimalValueConcat(a, b');
      ShiftDigit(DecimalValue(a), Pow10(|b'|), DecimalValue(b'), DigitValue(b[|b| - 1]));
    }
  }

  lemma ShiftDigit(x: int, p: int, y: int, c: int)
    ensures (x * p + y) * 10 + c == x * (10 * p) + (y * 10 + c)
  {
  }

  lemma {:induction false} DecimalValueBound(f: string)
    requires AllDigits(f)
    ensures DecimalValue(f) < Pow10(|f|)
    decreases |f|
  {
    if f != [] {
      DecimalValueBound(f[..|f| - 1]);
    }
  }

  /** `q.r` with `k` fraction digits of value `r` is an integer exactly when `r` is 0. */
  lemma ScaledDownValue(q: nat, r: nat, k: nat, m: nat)
    requires r < Pow10(k) && m == q * Pow10(k) + r
    ensures IntegerValue(Numeral(false, m, -(k as int))) == if r == 0 then Some(q) else None
  {
    if k == 0 {
      assert r == 0 && m == q;
    } else {
      DivModOf(q, r, Pow10(k));
      if m == 0 && q != 0 {
        MulAtLeast(q, Pow10(k));
      }
    }
  }

  lemma DivModOf(q: nat, r: nat, p: nat)
    requires r < p
    ensures (q * p + r) % p == r && (q * p + r) / p == q
  {
    var m := q * p + r;
    var q', r' := m / p, m % p;
    assert m == q' * p + r' && 0 <= r' < p;
    assert (q' - q) * p == r - r';
    if q' > q {
      MulAtLeast(q' - q, p);
    } else if q' < q {
      MulAtLeast(q - q', p);
    }
  }

  lemma MulAtLeast(k: int, p: int)
    requires k >= 1 && p >= 0
    ensures k * p >= p
  {
  }
}

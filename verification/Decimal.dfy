/** The decimal text that the daemon keeps in its configuration: what "%d", "%ld" and "%u"
    print, and what strtol and strtoul read back. */
module Decimal {

  const TWO_31: int := 0x8000_0000
  const TWO_32: int := 0x1_0000_0000
  const TWO_63: int := 0x8000_0000_0000_0000
  const TWO_64: int := 0x1_0000_0000_0000_0000

  predicate IsDigit(c: char) {
    '0' <= c <= '9'
  }

  function DigitValue(c: char): nat
    requires IsDigit(c)
  {
    c as int - '0' as int
  }

  predicate AllDigits(s: string) {
    forall i :: 0 <= i < |s| ==> IsDigit(s[i])
  }

  // ----- printing

  function Digits(n: nat): (s: string)
    ensures s != [] && AllDigits(s)
  {
    var last := [('0' as int + n % 10) as char];
    if n < 10 then last else Digits(n / 10) + last
  }

  /** "%d" and "%ld". */
  function Print(i: int): string {
    if i < 0 then "-" + Digits(-i) else Digits(i)
  }

  /** What a buffer of `size` bytes keeps of a text. */
  function Truncated(s: string, size: nat): string
    requires size > 0
  {
    if |s| < size then s else s[..size - 1]
  }

  // ----- parsing

  function Magnitude(s: string): nat
    requires AllDigits(s)
  {
    if s == [] then 0 else 10 * Magnitude(s[..|s| - 1]) + DigitValue(s[|s| - 1])
  }

  predicate IsBlank(c: char) {
    c == ' ' || '\t' <= c <= '\r'
  }

  function SkipBlanks(s: string): string {
    if s != [] && IsBlank(s[0]) then SkipBlanks(s[1..]) else s
  }

  function LeadingDigits(s: string): (d: string)
    ensures AllDigits(d)
  {
    if s != [] && IsDigit(s[0]) then [s[0]] + LeadingDigits(s[1..]) else []
  }

  datatype Numeral = Numeral(negative: bool, magnitude: nat)

  function ReadNumeral(s: string): Numeral {
    var t := SkipBlanks(s);
    if t != [] && t[0] == '-' then Numeral(true, Magnitude(LeadingDigits(t[1..])))
    else if t != [] && t[0] == '+' then Numeral(false, Magnitude(LeadingDigits(t[1..])))
    else Numeral(false, Magnitude(LeadingDigits(t)))
  }

  /** strtol(s, NULL, 10) on a word of `word` values: out of range saturates. */
  function StrToL(s: string, word: int := TWO_64): int {
    var n := ReadNumeral(s);
    var v := if n.negative then 0 - n.magnitude else n.magnitude;
    if v < -(word / 2) then -(word / 2) else if v >= word / 2 then word / 2 - 1 else v
  }

  /** strtoul(s, NULL, 10): a '-' negates modulo the word, out of range saturates. */
  function StrToUL(s: string, word: int := TWO_64): int
    requires word > 0
  {
    var n := ReadNumeral(s);
    if n.magnitude >= word then word - 1
    else if n.negative && n.magnitude > 0 then word - n.magnitude else n.magnitude
  }

  /** Conversion of an unsigned 32-bit value to int. */
  function ToInt32(u: int): (i: int)
    requires 0 <= u < TWO_32
    ensures -TWO_31 <= i < TWO_31 && i % TWO_32 == u
  {
    if u < TWO_31 then u else u - TWO_32
  }

  // ----- round trips

  lemma {:induction false} LeadingDigitsAll(s: string)
    requires AllDigits(s)
    ensures LeadingDigits(s) == s
  {
    if s == [] {
    } else {
      LeadingDigitsAll(s[1..]);
    }
  }

  lemma {:induction false} MagnitudeDigits(n: nat)
    ensures Magnitude(Digits(n)) == n
  {
    var s := Digits(n);
    if n < 10 {
      assert s[..|s| - 1] == [];
    } else {
      MagnitudeDigits(n / 10);
      assert s[..|s| - 1] == Digits(n / 10);
    }
  }

  lemma ReadPrinted(i: int)
    ensures ReadNumeral(Print(i)) == Numeral(i < 0, if i < 0 then -i else i)
  {
    var d := Digits(if i < 0 then -i else i);
    LeadingDigitsAll(d);
    MagnitudeDigits(if i < 0 then -i else i);
    assert IsDigit(d[0]);
    if i < 0 {
      assert Print(i)[0] == '-';
      assert Print(i)[1..] == d;
    }
  }

  /** Printing and reading back is the identity on every value that fits the word. */
  lemma LongRoundTrip(i: int, word: int)
    requires -(word / 2) <= i < word / 2
    ensures StrToL(Print(i), word) == i
  {
    ReadPrinted(i);
  }

  lemma ModuloWord(i: int, word: int)
    requires -word < i < word
    ensures i % word == if i < 0 then i + word else i
  {
    var q := i / word;
    assert i == q * word + i % word;
    assert q >= 1 ==> q * word >= word;
    assert q <= -2 ==> q * word <= -2 * word;
  }

  /** strtoul undoes "%d" modulo the word, whatever the sign. */
  lemma UnsignedRoundTrip(i: int, word: int)
    requires -word < i < word
    ensures StrToUL(Print(i), word) == i % word
  {
    ReadPrinted(i);
    ModuloWord(i, word);
  }

  datatype Sign = NoSign | Minus | Plus

  function SignText(sign: Sign): string {
    match sign
    case NoSign => ""
    case Minus => "-"
    case Plus => "+"
  }

  function Signed(sign: Sign, n: int): int {
    if sign == Minus then -n else n
  }

  /** A numeral as text: blanks, an optional sign, digits, and whatever does not go on with a digit. */
  function NumeralText(blanks: string, sign: Sign, n: nat, rest: string): string {
    blanks + (SignText(sign) + (Digits(n) + rest))
  }

  lemma ReadsNumeral(blanks: string, sign: Sign, n: nat, rest: string)
    requires (forall i :: 0 <= i < |blanks| ==> IsBlank(blanks[i])) && (rest != "" ==> !IsDigit(rest[0]))
    ensures ReadNumeral(NumeralText(blanks, sign, n, rest)) == Numeral(sign == Minus, n)
  {
    var digits := Digits(n) + rest;
    var t := SignText(sign) + digits;
    assert IsDigit(digits[0]) by { assert digits[0] == Digits(n)[0]; }
    assert t[0] == if sign == NoSign then digits[0] else SignText(sign)[0];
    SkipsBlanks(blanks, t);
    LeadingDigitsUpTo(Digits(n), rest);
    MagnitudeDigits(n);
    SignedNumeral(blanks + t, sign, digits, n);
  }

  lemma SignedNumeral(s: string, sign: Sign, digits: string, n: nat)
    requires digits != "" && IsDigit(digits[0]) && Magnitude(LeadingDigits(digits)) == n
    requires SkipBlanks(s) == SignText(sign) + digits
    ensures ReadNumeral(s) == Numeral(sign == Minus, n)
  {
    var t := SkipBlanks(s);
    if sign == NoSign {
      assert t == digits;
    } else {
      assert t[1..] == digits;
    }
  }

  /** strtol and strtoul read a numeral up to its last digit and saturate beyond the word; strtoul negates modulo the
      word. */
  lemma ReadsAndSaturates(blanks: string, sign: Sign, n: nat, rest: string, half: int)
    requires (forall i :: 0 <= i < |blanks| ==> IsBlank(blanks[i])) && (rest != "" ==> !IsDigit(rest[0])) && half > 0
    ensures var text := NumeralText(blanks, sign, n, rest);
            var v := Signed(sign, n);
            && StrToL(text, 2 * half) == (if v < -half then -half else if v >= half then half - 1 else v)
            && StrToUL(text, 2 * half)
               == if n >= 2 * half then 2 * half - 1 else if sign == Minus && n > 0 then 2 * half - n else n
  {
    ReadsNumeral(blanks, sign, n, rest);
  }

  lemma {:induction false} SkipsBlanks(blanks: string, t: string)
    requires (forall i :: 0 <= i < |blanks| ==> IsBlank(blanks[i])) && t != "" && !IsBlank(t[0])
    ensures SkipBlanks(blanks + t) == t
  {
    if blanks == [] {
      assert blanks + t == t;
    } else {
      assert (blanks + t)[0] == blanks[0] && (blanks + t)[1..] == blanks[1..] + t;
      SkipsBlanks(blanks[1..], t);
    }
  }

  lemma {:induction false} LeadingDigitsUpTo(d: string, rest: string)
    requires AllDigits(d) && (rest != "" ==> !IsDigit(rest[0]))
    ensures LeadingDigits(d + rest) == d
  {
    if d == [] {
      assert d + rest == rest;
    } else {
      assert (d + rest)[0] == d[0] && (d + rest)[1..] == d[1..] + rest;
      LeadingDigitsUpTo(d[1..], rest);
    }
  }

  lemma PrintInjective(i: int, j: int)
    requires Print(i) == Print(j)
    ensures i == j
  {
    ReadPrinted(i);
    ReadPrinted(j);
  }

  // ----- how long the text is

  function Pow10(k: nat): (p: int)
    ensures p >= 1
  {
    if k == 0 then 1 else 10 * Pow10(k - 1)
  }

  lemma {:induction false} DigitsLength(n: nat, k: nat)
    requires k >= 1
    ensures |Digits(n)| <= k <==> n < Pow10(k)
  {
    assert Pow10(k) == 10 * Pow10(k - 1);
    if n < 10 {
    } else if k == 1 {
      assert Pow10(0) == 1;
    } else {
      DigitsLength(n / 10, k - 1);
    }
  }

  /** A proper prefix of a numeral has lost at least one decimal place. */
  lemma {:induction false} PrefixMagnitude(n: nat, k: nat)
    requires k < |Digits(n)|
    ensures Magnitude(Digits(n)[..k]) <= n / 10
  {
    var s := Digits(n);
    if n < 10 {
      assert s[..k] == [];
    } else {
      var t := Digits(n / 10);
      assert s[..|s| - 1] == t;
      assert s[..k] == t[..k];
      if k == |t| {
        MagnitudeDigits(n / 10);
        assert t[..k] == t;
      } else {
        PrefixMagnitude(n / 10, k);
      }
    }
  }

  /** A value written with "%ld" and read back through a buffer of `size` bytes survives
      exactly when its text fits the buffer. */
  lemma TruncatedRoundTrip(i: int, size: nat)
    requires -TWO_63 <= i < TWO_63 && size > 2
    ensures StrToL(Truncated(Print(i), size)) == i <==> |Print(i)| < size
  {
    if |Print(i)| < size {
      LongRoundTrip(i, TWO_64);
    } else {
      var m := if i < 0 then -i else i;
      var k := if i < 0 then size - 2 else size - 1;
      var d := Digits(m)[..k];
      PrefixMagnitude(m, k);
      LeadingDigitsAll(d);
      var t := Truncated(Print(i), size);
      assert IsDigit(d[0]) by { assert d[0] == Digits(m)[0]; }
      if i < 0 {
        assert t[0] == '-' && t[1..] == d;
        assert SkipBlanks(t) == t;
      } else {
        assert t == d;
        assert SkipBlanks(t) == t;
      }
      assert ReadNumeral(t) == Numeral(i < 0, Magnitude(d));
    }
  }

  /** The 16-byte buffers of the loaders keep 15 characters. */
  lemma FitsFifteen(i: int)
    ensures |Print(i)| < 16 <==> -100_000_000_000_000 < i < 1_000_000_000_000_000
  {
    DigitsLength(if i < 0 then -i else i, if i < 0 then 14 else 15);
    assert Pow10(2) == 100;
    assert Pow10(4) == 10000;
    assert Pow10(6) == 1_000_000;
    assert Pow10(8) == 100_000_000;
    assert Pow10(10) == 10_000_000_000;
    assert Pow10(12) == 1_000_000_000_000;
    assert Pow10(14) == 100_000_000_000_000;
  }
}

/** Java's 32-bit integers as they cross the text boundary: Integer.parseInt
    on captured groups, and the %d, %02d and %4d conversions of
    String.format / PrintWriter.format on the way out. */
module Numbers {
  import opened Wrappers

  const MinInt32: int := -0x8000_0000
  const MaxInt32: int := 0x7FFF_FFFF

  predicate IsInt32(n: int) {
    MinInt32 <= n <= MaxInt32
  }

  /** Java's int arithmetic: n wrapped into 32 bits, two's complement. */
  function Wrap32(n: int): (r: int)
    ensures IsInt32(r)
    ensures (r - n) % 0x1_0000_0000 == 0
    ensures IsInt32(n) ==> r == n
  {
    (n - MinInt32) % 0x1_0000_0000 + MinInt32
  }

  predicate IsDigit(c: char) {
    '0' <= c <= '9'
  }

  predicate AllDigits(s: string) {
    forall i :: 0 <= i < |s| ==> IsDigit(s[i])
  }

  /** Text made only of what number formatting produces: digits, a minus
      sign and padding spaces. */
  predicate NumericText(s: string) {
    forall i :: 0 <= i < |s| ==> IsDigit(s[i]) || s[i] == '-' || s[i] == ' '
  }

  function DigitChar(d: nat): (c: char)
    requires d < 10
    ensures IsDigit(c) && c as int - '0' as int == d
  {
    ('0' as int + d) as char
  }

  /** The value of a string of decimal digits, most significant first. */
  function DigitsValue(s: string): nat
    requires AllDigits(s)
  {
    if s == [] then 0
    else DigitsValue(s[..|s| - 1]) * 10 + (s[|s| - 1] as int - '0' as int)
  }

  /** The decimal digits of n, most significant first. */
  function Digits(n: nat): string {
    if n < 10 then [DigitChar(n)] else Digits(n / 10) + [DigitChar(n % 10)]
  }

  /** Digits writes at least one digit, no leading zero, and the value it
      was given. */
  lemma {:induction false} DigitsRead(n: nat)
    ensures var s := Digits(n);
      && |s| >= 1 && AllDigits(s)
      && (|s| > 1 ==> s[0] != '0')
      && DigitsValue(s) == n
  {
    if n >= 10 {
      DigitsRead(n / 10);
      var s := Digits(n);
      assert s[..|s| - 1] == Digits(n / 10);
    }
  }

  /** %d: an optional minus sign followed by the digits of the magnitude. */
  function Decimal(n: int): (s: string)
    ensures |s| >= 1 && NumericText(s)
    ensures s[0] == '-' <==> n < 0
  {
    DigitsRead(if n < 0 then -n else n);
    if n < 0 then "-" + Digits(-n) else Digits(n)
  }

  lemma DecimalText(n: int)
    ensures |Decimal(n)| >= 1 && NumericText(Decimal(n))
    ensures n < 0 <==> Decimal(n)[0] == '-'
    ensures (n < 0 || n >= 10) ==> |Decimal(n)| >= 2
  {
    DigitsRead(if n < 0 then -n else n);
    if n >= 10 {
      DigitsRead(n / 10);
    }
  }

  /** Integer.parseInt(s): an optional '-' or '+' and at least one digit,
      whose value must fit in 32 bits; anything else throws
      NumberFormatException, which is None here. */
  function ParseInt(s: string): (r: Option<int>)
    ensures r.Some? ==> IsInt32(r.value)
  {
    if s == [] then None
    else
      var digits := if s[0] == '-' || s[0] == '+' then s[1..] else s;
      if digits == [] || !AllDigits(digits) then None
      else
        var magnitude: int := DigitsValue(digits);
        var v := if s[0] == '-' then -magnitude else magnitude;
        if IsInt32(v) then Some(v) else None
  }

  lemma ParseUnsigned(d: string)
    requires |d| >= 1 && AllDigits(d) && IsInt32(DigitsValue(d))
    ensures ParseInt(d) == Some(DigitsValue(d))
  {
    assert IsDigit(d[0]);
  }

  lemma ParseNegative(d: string)
    requires |d| >= 1 && AllDigits(d) && DigitsValue(d) <= -MinInt32
    ensures ParseInt("-" + d) == Some(-(DigitsValue(d) as int))
  {
    var s := "-" + d;
    assert s[0] == '-' && s[1..] == d;
  }

  /** Integer.parseInt reads back every 32-bit value that %d writes. */
  lemma ParseDecimal(n: int)
    requires IsInt32(n)
    ensures ParseInt(Decimal(n)) == Some(n)
  {
    if n < 0 {
      DigitsRead(-n);
      ParseNegative(Digits(-n));
    } else {
      DigitsRead(n);
      ParseUnsigned(Digits(n));
    }
  }

  /** A leading zero does not change the value of a digit string. */
  lemma {:induction false} LeadingZero(s: string)
    requires AllDigits(s)
    ensures AllDigits("0" + s) && DigitsValue("0" + s) == DigitsValue(s)
  {
    if s != [] {
      var t := "0" + s;
      assert t[..|t| - 1] == "0" + s[..|s| - 1];
      LeadingZero(s[..|s| - 1]);
    }
  }

  /** Right-justify s in a field of width w, filling on the left with c:
      the width and '0' flags of Formatter applied to a converted number. */
  function PadLeft(s: string, w: nat, c: char): string
    decreases w - |s|
  {
    if |s| >= w then s else PadLeft([c] + s, w, c)
  }

  /** Padding keeps s at the right end of a field at least w wide, with
      only the fill character before it. */
  lemma {:induction false} PadLeftShape(s: string, w: nat, c: char)
    ensures var p := PadLeft(s, w, c);
      && |p| == (if |s| < w then w else |s|)
      && p[|p| - |s|..] == s
      && forall i :: 0 <= i < |p| - |s| ==> p[i] == c
    decreases w - |s|
  {
    if |s| < w {
      var t := [c] + s;
      PadLeftShape(t, w, c);
      var p := PadLeft(s, w, c);
      assert p == PadLeft(t, w, c);
      assert p[|p| - |t|..] == t;
      assert p[|p| - |s|..] == t[1..];
      assert p[|p| - |t|] == c;
    }
  }

  /** %02d: zero-padded on the left to two characters. A negative value
      already has two characters, so it is written as %d writes it. */
  function ZeroPad2(n: int): (s: string)
    ensures |s| == if |Decimal(n)| < 2 then 2 else |Decimal(n)|
    ensures s[|s| - |Decimal(n)|..] == Decimal(n)
    ensures forall i :: 0 <= i < |s| - |Decimal(n)| ==> s[i] == '0'
  {
    PadLeftShape(Decimal(n), 2, '0');
    PadLeft(Decimal(n), 2, '0')
  }

  /** %02d writes at least two characters, and Integer.parseInt reads the
      value back. */
  lemma ZeroPad2Reads(n: int)
    ensures |ZeroPad2(n)| >= 2 && NumericText(ZeroPad2(n))
    ensures IsInt32(n) ==> ParseInt(ZeroPad2(n)) == Some(n)
  {
    var d := Decimal(n);
    var p := ZeroPad2(n);
    DecimalText(n);
    PadLeftShape(d, 2, '0');
    if 0 <= n < 10 {
      DigitsRead(n);
      assert p == "0" + d;
      LeadingZero(d);
      ParseUnsigned(p);
    } else {
      assert p == d;
      if IsInt32(n) {
        ParseDecimal(n);
      }
    }
  }

  /** %02d of a number that is not negative writes digits only. */
  lemma ZeroPad2Digits(n: int)
    requires n >= 0
    ensures AllDigits(ZeroPad2(n))
  {
    var d, p := Decimal(n), ZeroPad2(n);
    DigitsRead(n);
    forall i | 0 <= i < |p|
      ensures IsDigit(p[i])
    {
      if i >= |p| - |d| {
        assert p[i] == d[i - (|p| - |d|)];
      }
    }
  }

  /** %4d: right-justified in a field of four, padded with spaces. */
  function SpacePad4(n: int): (s: string)
    ensures |s| == if |Decimal(n)| < 4 then 4 else |Decimal(n)|
    ensures s[|s| - |Decimal(n)|..] == Decimal(n)
    ensures forall i :: 0 <= i < |s| - |Decimal(n)| ==> s[i] == ' '
  {
    PadLeftShape(Decimal(n), 4, ' ');
    PadLeft(Decimal(n), 4, ' ')
  }

  /** %4d writes the digits of n at the right end of at least four
      characters, with only spaces before them. */
  lemma SpacePad4Shape(n: int)
    ensures var s, d := SpacePad4(n), Decimal(n);
      && |s| == (if |d| < 4 then 4 else |d|)
      && s[|s| - |d|..] == d
      && (forall i :: 0 <= i < |s| - |d| ==> s[i] == ' ')
      && NumericText(s)
  {
    var s, d := SpacePad4(n), Decimal(n);
    DecimalText(n);
    PadLeftShape(d, 4, ' ');
    forall i | 0 <= i < |s|
      ensures IsDigit(s[i]) || s[i] == '-' || s[i] == ' '
    {
      if i >= |s| - |d| {
        assert s[i] == d[i - (|s| - |d|)];
      }
    }
  }

  /** A year of four digits or more fills the %4d field: no padding, and
      nothing but digits. */
  lemma SpacePad4Wide(n: int)
    requires n >= 1000
    ensures SpacePad4(n) == Decimal(n) && AllDigits(SpacePad4(n))
  {
    DigitsRead(n);
    var a: nat := n / 10;
    var b: nat := a / 10;
    var c: nat := b / 10;
    assert a >= 100 && b >= 10 && c >= 1;
    assert |Digits(n)| == |Digits(a)| + 1;
    assert |Digits(a)| == |Digits(b)| + 1;
    assert |Digits(b)| == |Digits(c)| + 1;
    DigitsRead(c);
    PadLeftShape(Decimal(n), 4, ' ');
  }
}

/** The libc-free number printer of the kbase probe (tools/kbase_probe/kbase_probe.c).

    What it prints is compared with the value of a numeral: the digits of the number in its
    base, most significant first, without leading zeros. There is one such numeral for each
    number, and it fits the buffer on the stack. The decoder's numbers are numerals too, see
    TraceNames. */
module NumberPrinter {
  const DIGITS: string := "0123456789abcdef"
  const BUFFER_SIZE: nat := 24

  function DigitValue(c: char): nat {
    if '0' <= c <= '9' then (c - '0') as nat else if 'a' <= c <= 'f' then 10 + (c - 'a') as nat else 16
  }

  /** A canonical numeral: digits of the base, no leading zero except in "0" itself. */
  predicate IsNumeral(t: string, base: nat) {
    && |t| > 0
    && (forall i | 0 <= i < |t| :: DigitValue(t[i]) < base)
    && (t[0] == '0' ==> |t| == 1)
  }

  function NumeralValue(t: string, base: nat): nat {
    if t == "" then 0 else base * NumeralValue(t[..|t| - 1], base) + DigitValue(t[|t| - 1])
  }

  function Power(base: nat, n: nat): nat {
    if n == 0 then 1 else base * Power(base, n - 1)
  }

  function Digit(d: nat): (c: char)
    requires d < 16
    ensures DigitValue(c) == d && (c == '0' <==> d == 0)
  {
    DIGITS[d]
  }

  lemma {:induction false} Prepend(c: char, t: string, base: nat)
    ensures NumeralValue([c] + t, base) == DigitValue(c) * Power(base, |t|) + NumeralValue(t, base)
  {
    if t == "" {
      assert [c] + t == [c] && [c][..0] == "";
    } else {
      var last := |t| - 1;
      Prepend(c, t[..last], base);
      assert ([c] + t)[..|t|] == [c] + t[..last];
      Distribute(base, DigitValue(c), Power(base, last), NumeralValue(t[..last], base));
    }
  }

  lemma Distribute(b: nat, d: nat, p: nat, v: nat)
    ensures b * (d * p + v) == d * (b * p) + b * v
  {
  }

  lemma {:induction false} PowerGrows(base: nat, n: nat)
    requires base >= 10
    ensures Power(base, n) >= Power(10, n) > 0
  {
    if n > 0 {
      PowerGrows(base, n - 1);
      Scale(10, base, Power(10, n - 1), Power(base, n - 1));
    }
  }

  lemma {:induction false} Scale(a: nat, b: nat, x: nat, y: nat)
    requires a <= b && x <= y
    ensures a * x <= b * y
  {
    assert b * y == a * x + a * (y - x) + (b - a) * y;
  }

  /** Twenty decimal digits already exceed every 64-bit value. */
  lemma {:induction false} TwentyDigitsSuffice(base: nat, n: nat)
    requires base >= 10 && Power(base, n) < 0x1_0000_0000_0000_0000
    ensures n < 20
  {
    if n >= 20 {
      PowerGrows(base, n);
      TenTo(n);
    }
  }

  lemma {:induction false} TenTo(n: nat)
    requires n >= 20
    ensures Power(10, n) >= 100_000_000_000_000_000_000
  {
    if n == 20 {
      assert Power(10, 5) == 100_000;
      assert Power(10, 10) == 10_000_000_000;
      assert Power(10, 15) == 1_000_000_000_000_000;
    } else {
      TenTo(n - 1);
    }
  }

  lemma {:induction false} DivStep(v: nat, base: nat, p: nat)
    requires base > 0
    ensures v * p == v / base * (base * p) + v % base * p
  {
    var q, r := v / base, v % base;
    assert v == base * q + r;
    assert (base * q + r) * p == base * q * p + r * p;
    assert base * q * p == q * (base * p);
  }

  /** The digits `t` written so far and the rest `v` make up the value. */
  predicate Represents(value: nat, v: nat, base: nat, t: string) {
    && (forall i | 0 <= i < |t| :: DigitValue(t[i]) < base)
    && value == v * Power(base, |t|) + NumeralValue(t, base)
  }

  /** Writing the lowest digit of `v` in front of `t` keeps the value represented. */
  lemma {:induction false} PushDigit(value: nat, v: nat, base: nat, t: string)
    requires 10 <= base <= 16 && value < 0x1_0000_0000_0000_0000
    requires Represents(value, v, base, t)
    ensures Represents(value, v / base, base, [Digit(v % base)] + t)
    ensures v > 0 ==> |t| < 20
  {
    var p := Power(base, |t|);
    Prepend(Digit(v % base), t, base);
    DivStep(v, base, p);
    if v > 0 {
      Scale(1, v, p, p);
      TwentyDigitsSuffice(base, |t|);
    }
  }

  /** Digits are written from the end of a fixed buffer; the text is what precedes the
      terminator. */
  method PutU64(value: nat, hex: bool) returns (text: string)
    requires value < 0x1_0000_0000_0000_0000
    ensures var base := if hex then 16 else 10;
      IsNumeral(text, base) && NumeralValue(text, base) == value
  {
    var base := if hex then 16 else 10;
    var b := new char[BUFFER_SIZE];
    var n := BUFFER_SIZE - 1;
    b[n] := '\0';
    var v: nat := value;
    var first := true;
    assert Represents(value, v, base, b[n..BUFFER_SIZE - 1]);
    hide Represents, DigitValue, Digit, IsNumeral;
    while first || v != 0
      invariant 0 <= n < BUFFER_SIZE && (first <==> n == BUFFER_SIZE - 1)
      invariant first ==> v == value
      invariant Represents(value, v, base, b[n..BUFFER_SIZE - 1])
      invariant !first && v == 0 && b[n] == '0' ==> n == BUFFER_SIZE - 2
      decreases first, v
    {
      ghost var t := b[n..BUFFER_SIZE - 1];
      PushDigit(value, v, base, t);
      n := n - 1;
      b[n] := Digit(v % base);
      assert b[n..BUFFER_SIZE - 1] == [b[n]] + b[n + 1..BUFFER_SIZE - 1];
      assert b[n + 1..BUFFER_SIZE - 1] == t;
      v := v / base;
      first := false;
    }
    text := b[n..BUFFER_SIZE - 1];
    AllDigitsWritten(value, base, text);
  }

  lemma AllDigitsWritten(value: nat, base: nat, t: string)
    requires Represents(value, 0, base, t) && |t| > 0 && (t[0] == '0' ==> |t| == 1)
    ensures IsNumeral(t, base) && NumeralValue(t, base) == value
  {
  }

  lemma {:induction false} LeadingDigitCounts(t: string, base: nat)
    requires t != "" && t[0] != '0' && base > 0 && DigitValue(t[0]) < base
    ensures NumeralValue(t, base) > 0
  {
    var last := |t| - 1;
    if last > 0 {
      LeadingDigitCounts(t[..last], base);
      Scale(1, base, 1, NumeralValue(t[..last], base));
    }
  }

  /** Canonical numerals are unique, so the printer's output is the only one possible. */
  lemma {:induction false} NumeralUnique(t: string, u: string, base: nat)
    requires 0 < base <= 16 && IsNumeral(t, base) && IsNumeral(u, base)
    requires NumeralValue(t, base) == NumeralValue(u, base)
    ensures t == u
  {
    var i, j := |t| - 1, |u| - 1;
    SplitLast(base, NumeralValue(t[..i], base), DigitValue(t[i]), NumeralValue(u[..j], base), DigitValue(u[j]));
    SameDigit(t[i], u[j]);
    if i > 0 { LeadingDigitCounts(t[..i], base); }
    if j > 0 { LeadingDigitCounts(u[..j], base); }
    if i > 0 && j > 0 { NumeralUnique(t[..i], u[..j], base); }
    assert t == t[..i] + [t[i]] && u == u[..j] + [u[j]];
  }

  lemma {:induction false} SplitLast(base: nat, p: nat, d: nat, q: nat, e: nat)
    requires d < base && e < base && base * p + d == base * q + e
    ensures p == q && d == e
  {
    if p < q { Scale(base, base, p + 1, q); }
    if q < p { Scale(base, base, q + 1, p); }
  }

  lemma SameDigit(c: char, d: char)
    requires DigitValue(c) == DigitValue(d) < 16
    ensures c == d
  {
  }
}

/** The names under which the decoder counts events (tools/mali_trace/decode.py).

    Events of a known type are counted under the name of the wrapped function, others under
    their number. Ioctls are counted under a name made of the type byte, the number and the
    size of the request. Different types, and different ioctls, have different names, so the
    counts of the report are counts of types and of ioctls. */
module TraceNames {
  import opened LittleEndian
  import opened NumberPrinter

  const KNOWN_TYPES: nat := 10

  /** An ioctl as the decoder looks it up: the low byte of aux0, number and size. */
  datatype IoctlKey = IoctlKey(magic: byte, nr: nat, size: nat)

  function Decimal(n: nat): (t: string)
    ensures |t| > 0
    ensures forall i | 0 <= i < |t| :: '0' <= t[i] <= '9'
  {
    if n < 10 then [DIGITS[n]] else Decimal(n / 10) + [DIGITS[n % 10]]
  }

  function Hex2(b: byte): (t: string)
    ensures |t| == 2
  {
    [Digit(b as int / 16), Digit(b as int % 16)]
  }

  /** A type outside the table is shown by its number. */
  function TypeName(kind: nat): string {
    match kind
    case 1 => "open"
    case 2 => "openat"
    case 3 => "close"
    case 4 => "ioctl"
    case 5 => "mmap"
    case 6 => "munmap"
    case 7 => "poll"
    case 8 => "ppoll"
    case 9 => "read"
    case 10 => "write"
    case _ => "type_" + Decimal(kind)
  }

  /** The table of ioctl names has pairs for keys and is asked for triples, so the name is
      always the one made from the numbers. */
  function IoctlName(k: IoctlKey): string {
    "type0x" + Hex2(k.magic) + "/nr" + Decimal(k.nr) + "/size" + Decimal(k.size)
  }

  lemma {:induction false} DecimalValue(n: nat)
    ensures NumeralValue(Decimal(n), 10) == n
  {
    var t := Decimal(n);
    if n < 10 {
      assert t[..0] == "";
      assert NumeralValue("", 10) == 0;
    } else {
      DecimalValue(n / 10);
      assert t[..|t| - 1] == Decimal(n / 10);
    }
  }

  lemma {:induction false} DecimalInjective(m: nat, n: nat)
    requires Decimal(m) == Decimal(n)
    ensures m == n
  {
    DecimalValue(m);
    DecimalValue(n);
  }

  lemma HexInjective(a: byte, b: byte)
    requires Hex2(a) == Hex2(b)
    ensures a == b
  {
    assert Hex2(a)[0] == Hex2(b)[0] && Hex2(a)[1] == Hex2(b)[1];
  }

  /** The known names differ in first letter or length, and none begins like the others. */
  lemma KnownName(kind: nat)
    ensures 1 <= kind <= KNOWN_TYPES ==>
      && |TypeName(kind)| == [4, 6, 5, 5, 4, 6, 4, 5, 4, 5][kind - 1]
      && TypeName(kind)[0] == ['o', 'o', 'c', 'i', 'm', 'm', 'p', 'p', 'r', 'w'][kind - 1]
    ensures !(1 <= kind <= KNOWN_TYPES) ==> TypeName(kind) == "type_" + Decimal(kind) && TypeName(kind)[0] == 't'
  {
  }

  /** Different types have different names. */
  lemma {:induction false} TypeNameInjective(a: nat, b: nat)
    requires TypeName(a) == TypeName(b)
    ensures a == b
  {
    KnownName(a);
    KnownName(b);
    hide TypeName, Decimal;
    if !(1 <= a <= KNOWN_TYPES) && !(1 <= b <= KNOWN_TYPES) {
      assert ("type_" + Decimal(a))[5..] == Decimal(a);
      assert ("type_" + Decimal(b))[5..] == Decimal(b);
      DecimalInjective(a, b);
    }
  }

  /** The text before the first slash cannot be longer on one side. */
  lemma NoLonger(s: string, x: string, t: string, y: string)
    requires s + x == t + y && x != "" && x[0] == '/' && '/' !in t
    ensures |t| <= |s|
  {
    assert (s + x)[|s|] == '/';
    assert forall i | 0 <= i < |t| :: (t + y)[i] == t[i];
  }

  /** A numeral ends at the first slash. */
  lemma {:induction false} NumeralBefore(m: nat, n: nat, x: string, y: string)
    requires Decimal(m) + x == Decimal(n) + y
    requires x != "" && y != "" && x[0] == y[0] == '/'
    ensures (m, x) == (n, y)
  {
    hide Decimal;
    NoLonger(Decimal(m), x, Decimal(n), y);
    NoLonger(Decimal(n), y, Decimal(m), x);
    TailOf(Decimal(m), x, Decimal(n), y);
    DecimalInjective(m, n);
  }

  lemma TailOf(a: string, b: string, c: string, d: string)
    requires a + b == c + d && |a| == |c|
    ensures (a, b) == (c, d)
  {
    assert (a + b)[..|a|] == a && (c + d)[..|a|] == c;
    assert (a + b)[|a|..] == b && (c + d)[|a|..] == d;
  }

  function NrAndSize(k: IoctlKey): string { Decimal(k.nr) + ("/size" + Decimal(k.size)) }

  lemma IoctlNameParts(k: IoctlKey)
    ensures IoctlName(k) == "type0x" + (Hex2(k.magic) + ("/nr" + NrAndSize(k)))
  {
    hide Hex2, Decimal;
  }

  /** Different keys have different names. */
  lemma {:induction false} IoctlNameInjective(a: IoctlKey, b: IoctlKey)
    requires IoctlName(a) == IoctlName(b)
    ensures a == b
  {
    IoctlNameParts(a);
    IoctlNameParts(b);
    hide IoctlName, Hex2, Decimal;
    var x, y := "/nr" + NrAndSize(a), "/nr" + NrAndSize(b);
    TailOf("type0x", Hex2(a.magic) + x, "type0x", Hex2(b.magic) + y);
    TailOf(Hex2(a.magic), x, Hex2(b.magic), y);
    HexInjective(a.magic, b.magic);
    TailOf("/nr", NrAndSize(a), "/nr", NrAndSize(b));
    NumeralBefore(a.nr, b.nr, "/size" + Decimal(a.size), "/size" + Decimal(b.size));
    TailOf("/size", Decimal(a.size), "/size", Decimal(b.size));
    DecimalInjective(a.size, b.size);
  }
}

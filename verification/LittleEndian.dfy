/** Unsigned and two's-complement little-endian integers as byte sequences.

    An unsigned integer of n bytes is below 256 to the n, its least significant byte comes
    first, and encoding and decoding are inverses in both directions. A signed integer is
    stored as the unsigned one that is congruent to it, so it lies between minus half and
    half of that power. */
module LittleEndian {
  type byte = x: int | 0 <= x < 256

  function Pow256(n: nat): (p: nat)
    ensures p > 0
  {
    if n == 0 then 1 else 256 * Pow256(n - 1)
  }

  function Encode(n: nat, v: nat): (s: seq<byte>)
    ensures |s| == n
  {
    if n == 0 then [] else [v % 256] + Encode(n - 1, v / 256)
  }

  function Decode(s: seq<byte>): (v: nat)
    ensures v < Pow256(|s|)
  {
    if s == [] then 0 else s[0] + 256 * Decode(s[1..])
  }

  lemma {:induction false} DecodeEncode(n: nat, v: nat)
    requires v < Pow256(n)
    ensures Decode(Encode(n, v)) == v
  {
    if n > 0 {
      DecodeEncode(n - 1, v / 256);
      assert Encode(n, v)[1..] == Encode(n - 1, v / 256);
    }
  }

  lemma {:induction false} EncodeDecode(s: seq<byte>)
    ensures Encode(|s|, Decode(s)) == s
  {
    if s != [] {
      EncodeDecode(s[1..]);
      assert s == [s[0]] + s[1..];
    }
  }

  lemma Associate(a: nat, b: nat, c: nat)
    ensures a * b * c == a * (b * c)
  {
  }

  /** The value of a field that spans two adjacent fields. */
  lemma {:induction false} DecodeConcat(s: seq<byte>, t: seq<byte>)
    ensures Decode(s + t) == Decode(s) + Pow256(|s|) * Decode(t)
  {
    if s == [] {
      assert s + t == t;
    } else {
      DecodeConcat(s[1..], t);
      assert (s + t)[1..] == s[1..] + t;
      Associate(256, Pow256(|s| - 1), Decode(t));
    }
  }

  // ------------------------------------------------------------- two's complement

  predicate InSigned(n: nat, v: int) {
    -(Pow256(n) as int) <= 2 * v < Pow256(n)
  }

  function ToUnsigned(n: nat, v: int): (u: nat)
    requires InSigned(n, v)
    ensures u < Pow256(n)
  {
    if v < 0 then v + Pow256(n) else v
  }

  function ToSigned(n: nat, u: nat): (v: int)
    requires u < Pow256(n)
    ensures InSigned(n, v)
  {
    if 2 * u < Pow256(n) then u else u - Pow256(n)
  }

  lemma SignedRoundTrip(n: nat, v: int)
    requires InSigned(n, v)
    ensures ToSigned(n, ToUnsigned(n, v)) == v
  {
  }
}

/** Fixed little-endian record layouts, as Python's struct module reads them with "<".

    A layout is a list of fields, each of a width in bytes and signed or not. Packing puts
    the values of the fields one after another, without padding; unpacking is the inverse,
    and each field is found at the end of those before it. Padding and constant bytes are
    added by the users of this module. */
module PackedRecord {
  import opened LittleEndian

  datatype Field = Field(width: nat, signed: bool)

  function Size(l: seq<Field>): nat {
    if l == [] then 0 else l[0].width + Size(l[1..])
  }

  lemma {:induction false} SizeConcat(l: seq<Field>, m: seq<Field>)
    ensures Size(l + m) == Size(l) + Size(m)
  {
    if l == [] {
      assert l + m == m;
    } else {
      SizeConcat(l[1..], m);
      assert (l + m)[1..] == l[1..] + m;
    }
  }

  lemma SizeOfFour(a: Field, b: Field, c: Field, d: Field)
    ensures Size([a, b, c, d]) == a.width + b.width + c.width + d.width
  {
    assert [d][1..] == [] && Size([d]) == d.width;
    assert [c, d][1..] == [d] && Size([c, d]) == c.width + d.width;
    assert [b, c, d][1..] == [c, d] && Size([b, c, d]) == b.width + c.width + d.width;
    assert [a, b, c, d][1..] == [b, c, d];
  }

  predicate FitsOne(f: Field, v: int) {
    if f.signed then InSigned(f.width, v) else 0 <= v < Pow256(f.width)
  }

  ghost predicate Fits(l: seq<Field>, v: seq<int>) {
    |v| == |l| && forall i | 0 <= i < |l| :: FitsOne(l[i], v[i])
  }

  function PackOne(f: Field, v: int): (s: seq<byte>)
    requires FitsOne(f, v)
    ensures |s| == f.width
  {
    Encode(f.width, if f.signed then ToUnsigned(f.width, v) else v)
  }

  function UnpackOne(f: Field, s: seq<byte>): (v: int)
    requires |s| == f.width
    ensures FitsOne(f, v)
  {
    if f.signed then ToSigned(f.width, Decode(s)) else Decode(s)
  }

  function Pack(l: seq<Field>, v: seq<int>): (s: seq<byte>)
    requires Fits(l, v)
    ensures |s| == Size(l)
  {
    if l == [] then [] else PackOne(l[0], v[0]) + Pack(l[1..], v[1..])
  }

  function Unpack(l: seq<Field>, s: seq<byte>): (v: seq<int>)
    requires |s| == Size(l)
    ensures Fits(l, v)
  {
    if l == [] then [] else [UnpackOne(l[0], s[..l[0].width])] + Unpack(l[1..], s[l[0].width..])
  }

  lemma {:induction false} UnpackPackOne(f: Field, v: int)
    requires FitsOne(f, v)
    ensures UnpackOne(f, PackOne(f, v)) == v
  {
    DecodeEncode(f.width, if f.signed then ToUnsigned(f.width, v) else v);
  }

  lemma {:induction false} PackUnpackOne(f: Field, s: seq<byte>)
    requires |s| == f.width
    ensures PackOne(f, UnpackOne(f, s)) == s
  {
    EncodeDecode(s);
  }

  /** Every record of fitting values is read back. */
  lemma {:induction false} UnpackPack(l: seq<Field>, v: seq<int>)
    requires Fits(l, v)
    ensures Unpack(l, Pack(l, v)) == v
  {
    hide PackOne, UnpackOne, FitsOne;
    if l != [] {
      var s := Pack(l, v);
      UnpackPackOne(l[0], v[0]);
      UnpackPack(l[1..], v[1..]);
      assert s[..l[0].width] == PackOne(l[0], v[0]);
      assert s[l[0].width..] == Pack(l[1..], v[1..]);
      assert v == [v[0]] + v[1..];
    }
  }

  /** Every byte string of the right size is the record of what is read from it. */
  lemma {:induction false} PackUnpack(l: seq<Field>, s: seq<byte>)
    requires |s| == Size(l)
    ensures Pack(l, Unpack(l, s)) == s
  {
    hide PackOne, UnpackOne, FitsOne;
    if l != [] {
      PackUnpackOne(l[0], s[..l[0].width]);
      PackUnpack(l[1..], s[l[0].width..]);
      assert Unpack(l, s)[1..] == Unpack(l[1..], s[l[0].width..]);
      assert s == s[..l[0].width] + s[l[0].width..];
    }
  }

  /** Each field is at the end of those before it. */
  lemma {:induction false} FieldAt(l: seq<Field>, v: seq<int>, i: nat)
    requires Fits(l, v) && i < |l|
    ensures var offset := Size(l[..i]);
      offset + l[i].width <= Size(l) && UnpackOne(l[i], Pack(l, v)[offset..offset + l[i].width]) == v[i]
  {
    hide PackOne, UnpackOne, FitsOne;
    var first, rest := PackOne(l[0], v[0]), Pack(l[1..], v[1..]);
    if i == 0 {
      UnpackPackOne(l[0], v[0]);
      assert (first + rest)[..|first|] == first;
    } else {
      FieldAt(l[1..], v[1..], i - 1);
      assert l[..i][1..] == l[1..][..i - 1];
      var offset := Size(l[1..][..i - 1]);
      assert (first + rest)[|first| + offset..|first| + offset + l[i].width] == rest[offset..offset + l[i].width];
    }
  }
}

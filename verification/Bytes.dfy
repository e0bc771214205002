/** Bytes, fixed-width unsigned integers, big-endian fields and the growable
    byte vector that the encoders append to. */
module Bytes {

  datatype Option<+T> = None | Some(value: T)

  datatype Result<+T, +E> = Ok(value: T) | Err(error: E)

  type Byte = x: int | 0 <= x < 0x100

  type U16 = x: int | 0 <= x < 0x1_0000

  type U64 = x: int | 0 <= x < 0x1_0000_0000_0000_0000

  const U64_MAX: int := 0xFFFF_FFFF_FFFF_FFFF

  /** A byte vector passed by mutable reference. */
  class ByteVec {
    var data: seq<Byte>

    constructor ()
      ensures data == []
    {
      data := [];
    }
  }

  lemma AppendAssociates<T>(a: seq<T>, b: seq<T>, c: seq<T>)
    ensures (a + b) + c == a + (b + c)
  {
  }

  function Pow256(n: nat): (p: nat)
    ensures p >= 1
  {
    if n == 0 then 1 else 256 * Pow256(n - 1)
  }

  /** The low `width` bytes of `v`, most significant first; what does not fit is
      cut off, as an unsigned cast does. */
  function ToBe(v: nat, width: nat): (s: seq<Byte>)
    ensures |s| == width
  {
    if width == 0 then [] else ToBe(v / 256, width - 1) + [v % 256]
  }

  function FromBe(s: seq<Byte>): (v: nat)
    ensures v < Pow256(|s|)
  {
    if s == [] then 0 else FromBe(s[..|s| - 1]) * 256 + s[|s| - 1]
  }

  /** Reading a field back gives the value that was written, when it fits. */
  lemma {:induction false} FromBeToBe(v: nat, width: nat)
    requires v < Pow256(width)
    ensures FromBe(ToBe(v, width)) == v
  {
    if width > 0 {
      FromBeToBe(v / 256, width - 1);
      var s := ToBe(v, width);
      assert s[..|s| - 1] == ToBe(v / 256, width - 1);
    }
  }

  /** Writing a field that was read gives the same bytes: the form is unique. */
  lemma {:induction false} ToBeFromBe(s: seq<Byte>)
    ensures ToBe(FromBe(s), |s|) == s
  {
    if s != [] {
      var init, last := s[..|s| - 1], s[|s| - 1];
      ToBeFromBe(init);
      assert FromBe(s) / 256 == FromBe(init) && FromBe(s) % 256 == last;
      assert s == init + [last];
    }
  }

  /** The most significant byte comes first. */
  lemma {:induction false} FirstWeighsMost(s: seq<Byte>)
    requires s != []
    ensures FromBe(s) == s[0] * Pow256(|s| - 1) + FromBe(s[1..])
  {
    if |s| > 1 {
      var n := |s| - 1;
      FirstWeighsMost(s[..n]);
      assert s[..n][1..] == s[1..][..n - 1];
      assert s[0] * Pow256(n - 1) * 256 == s[0] * Pow256(n);
    }
  }

  lemma TwoBytes(v: U16)
    ensures ToBe(v, 2) == [v / 256, v % 256] && FromBe([v / 256, v % 256]) == v
  {
    assert ToBe(v / 256, 1) == ToBe(0, 0) + [v / 256];
    PowersOf256();
    FromBeToBe(v, 2);
  }

  lemma PowersOf256()
    ensures Pow256(2) == 0x1_0000
    ensures Pow256(4) == 0x1_0000_0000
    ensures Pow256(8) == 0x1_0000_0000_0000_0000
  {
  }

  function ReadU16(s: seq<Byte>): (v: U16)
    requires |s| == 2
  {
    PowersOf256();
    FromBe(s)
  }

  function ReadU64(s: seq<Byte>): (v: U64)
    requires |s| == 8
  {
    PowersOf256();
    FromBe(s)
  }
}

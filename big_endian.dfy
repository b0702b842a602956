/**
 * Fixed-width, unsigned, big-endian integers, as `struct` packs and unpacks
 * the `B`, `I` and `Q` fields of a format string that starts with `>`.
 */
module BigEndian {

  /** One octet of a datagram. */
  type Byte = b: int | 0 <= b < 256

  /** 256 to the power `n`: one more than the largest value `n` bytes hold. */
  function Pow256(n: nat): (r: nat)
    ensures r >= 1
  {
    if n == 0 then 1 else 256 * Pow256(n - 1)
  }

  /** The three widths the wire header uses. */
  lemma FieldLimits()
    ensures Pow256(1) == 0x100
    ensures Pow256(4) == 0x1_0000_0000
    ensures Pow256(8) == 0x1_0000_0000_0000_0000
  {
  }

  lemma DivideByBase(x: nat, n: nat)
    requires x < Pow256(n + 1)
    ensures x / 256 < Pow256(n)
  {
  }

  /** The `width` bytes of `x`, most significant first. */
  function Encode(x: nat, width: nat): (r: seq<Byte>)
    requires x < Pow256(width)
    ensures |r| == width
    decreases width
  {
    if width == 0 then []
    else
      DivideByBase(x, width - 1);
      Encode(x / 256, width - 1) + [x % 256]
  }

  /** The unsigned value of `s`, read most significant byte first. */
  function Decode(s: seq<Byte>): (r: nat)
    ensures r < Pow256(|s|)
    decreases |s|
  {
    if s == [] then 0
    else
      var high := Decode(s[..|s| - 1]);
      assert high <= Pow256(|s| - 1) - 1;
      high * 256 + s[|s| - 1]
  }

  /** Decoding what was encoded gives the value back. */
  lemma {:induction false} DecodeEncode(x: nat, width: nat)
    requires x < Pow256(width)
    ensures Decode(Encode(x, width)) == x
    decreases width
  {
    if width > 0 {
      var s := Encode(x, width);
      DivideByBase(x, width - 1);
      assert s[..width - 1] == Encode(x / 256, width - 1);
      DecodeEncode(x / 256, width - 1);
    }
  }

  /** Every byte string is the encoding of its own value: the encoding is onto. */
  lemma {:induction false} EncodeDecode(s: seq<Byte>)
    ensures Encode(Decode(s), |s|) == s
    decreases |s|
  {
    if s != [] {
      var init := s[..|s| - 1];
      var x := Decode(s);
      assert x / 256 == Decode(init) && x % 256 == s[|s| - 1];
      EncodeDecode(init);
      assert s == init + [s[|s| - 1]];
    }
  }

  /** A one-byte field is the byte itself. */
  lemma EncodeByte(b: Byte)
    ensures Pow256(1) == 256 && Encode(b, 1) == [b]
  {
    assert Pow256(1) == 256;
  }
}

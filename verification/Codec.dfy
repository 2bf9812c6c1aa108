/** Little-endian numbers inside byte strings, and overwriting part of a byte string. */
module Codec {
  import opened Bits

  function Pow256(n: nat): (p: nat)
    ensures p > 0
  {
    if n == 0 then 1 else 256 * Pow256(n - 1)
  }

  // The number in bytes [off, off + width).
  function Field(s: seq<byte>, off: nat, width: nat): (v: nat)
    requires off + width <= |s|
    ensures v < Pow256(width)
    decreases width
  {
    if width == 0 then 0 else s[off] + 256 * Field(s, off + 1, width - 1)
  }

  // The number its bytes are, the least significant first.
  function Number2(b: seq<byte>): nat
    requires |b| == 2
  {
    b[0] as nat + 0x100 * (b[1] as nat)
  }

  function Number4(b: seq<byte>): nat
    requires |b| == 4
  {
    b[0] as nat + 0x100 * (b[1] as nat) + 0x1_0000 * (b[2] as nat) + 0x100_0000 * (b[3] as nat)
  }

  function Number8(b: seq<byte>): nat
    requires |b| == 8
  {
    Number4(b[..4]) + 0x1_0000_0000 * Number4(b[4..])
  }

  /** A field is the number its bytes are, least significant byte first. */
  lemma FieldNumber(s: seq<byte>, o: nat)
    ensures o + 2 <= |s| ==> Field(s, o, 2) == Number2(s[o..o + 2])
    ensures o + 4 <= |s| ==> Field(s, o, 4) == Number4(s[o..o + 4])
    ensures o + 8 <= |s| ==> Field(s, o, 8) == Number8(s[o..o + 8])
  {
    if o + 2 <= |s| {
      LowBytes2(s, o);
    }
    if o + 4 <= |s| {
      LowBytes4(s, o);
    }
    if o + 8 <= |s| {
      LowBytes4(s, o + 4);
      assert Field(s, o, 8) == s[o] + 256 * Field(s, o + 1, 7);
      assert Field(s, o + 1, 7) == s[o + 1] + 256 * Field(s, o + 2, 6);
      assert Field(s, o + 2, 6) == s[o + 2] + 256 * Field(s, o + 3, 5);
      assert Field(s, o + 3, 5) == s[o + 3] + 256 * Field(s, o + 4, 4);
      assert s[o..o + 8][..4] == s[o..o + 4] && s[o..o + 8][4..] == s[o + 4..o + 8];
    }
  }

  lemma LowBytes2(s: seq<byte>, o: nat)
    requires o + 2 <= |s|
    ensures Field(s, o, 2) == Number2(s[o..o + 2])
  {
    assert Field(s, o + 2, 0) == 0;
    assert Field(s, o + 1, 1) == s[o + 1];
  }

  lemma LowBytes4(s: seq<byte>, o: nat)
    requires o + 4 <= |s|
    ensures Field(s, o, 4) == Number4(s[o..o + 4])
  {
    LowBytes2(s, o + 2);
    assert Field(s, o, 4) == s[o] + 256 * Field(s, o + 1, 3);
    assert Field(s, o + 1, 3) == s[o + 1] + 256 * Field(s, o + 2, 2);
  }

  function Encode(v: nat, width: nat): (s: seq<byte>)
    ensures |s| == width
  {
    if width == 0 then [] else [v % 256] + Encode(v / 256, width - 1)
  }

  function Splice<T>(s: seq<T>, off: nat, t: seq<T>): (r: seq<T>)
    requires off + |t| <= |s|
    ensures |r| == |s|
    ensures forall k :: 0 <= k < |s| ==> r[k] == if off <= k < off + |t| then t[k - off] else s[k]
  {
    s[..off] + t + s[off + |t|..]
  }

  // A field depends on its own bytes only.
  lemma {:induction false} FieldFrom(s: seq<byte>, off: nat, t: seq<byte>, off': nat, width: nat)
    requires off + width <= |s| && off' + width <= |t|
    requires s[off..off + width] == t[off'..off' + width]
    ensures Field(s, off, width) == Field(t, off', width)
    decreases width
  {
    if width > 0 {
      assert s[off..off + width][0] == t[off'..off' + width][0];
      assert s[off + 1..off + width] == s[off..off + width][1..];
      assert t[off' + 1..off' + width] == t[off'..off' + width][1..];
      FieldFrom(s, off + 1, t, off' + 1, width - 1);
    }
  }

  lemma {:induction false} DecodeEncode(v: nat, width: nat)
    requires v < Pow256(width)
    ensures Field(Encode(v, width), 0, width) == v
  {
    if width > 0 {
      DecodeEncode(v / 256, width - 1);
      FieldFrom(Encode(v, width), 1, Encode(v / 256, width - 1), 0, width - 1);
    }
  }

  lemma {:induction false} ZeroField(s: seq<byte>, off: nat, width: nat)
    requires off + width <= |s| && forall k :: off <= k < off + width ==> s[k] == 0
    ensures Field(s, off, width) == 0
    decreases width
  {
    if width > 0 {
      ZeroField(s, off + 1, width - 1);
    }
  }
}

/** A frame seen as 4096 bytes: byte k is byte k % 8 of word k / 8, least significant first. */
module FrameBytes {
  import opened Bits
  import opened Codec
  import opened PageTables

  function ByteOf(w: nat, p: nat): byte {
    if p == 0 then w % 256 else ByteOf(w / 256, p - 1)
  }

  function WithByte(w: nat, p: nat, b: byte): nat {
    if p == 0 then w - w % 256 + b else 256 * WithByte(w / 256, p - 1, b) + w % 256
  }

  lemma {:induction false} OneByte(w: nat, p: nat, b: byte, q: nat)
    ensures ByteOf(WithByte(w, p, b), q) == if q == p then b else ByteOf(w, q)
  {
    if p > 0 && q > 0 {
      OneByte(w / 256, p - 1, b, q - 1);
    }
  }

  lemma {:induction false} ByteKeepsWidth(w: nat, p: nat, b: byte, n: nat)
    requires p < n && w < Pow256(n)
    ensures WithByte(w, p, b) < Pow256(n)
  {
    if p > 0 {
      ByteKeepsWidth(w / 256, p - 1, b, n - 1);
    }
  }

  function WordWithByte(w: u64, p: nat, b: byte): u64
    requires p < 8
  {
    assert Pow256(8) == 0x1_0000_0000_0000_0000;
    ByteKeepsWidth(w, p, b, 8);
    WithByte(w, p, b)
  }

  function Load(t: Table, k: nat): byte
    requires k < 4096
  {
    ByteOf(t[k / 8], k % 8)
  }

  /** A word of the frame is the number its eight bytes are, as file contents and page-table entries
      share frames. */
  lemma WordOfBytes(t: Table, i: nat, b: seq<byte>)
    requires i < 512 && |b| == 8 && forall p :: 0 <= p < 8 ==> b[p] == Load(t, 8 * i + p)
    ensures t[i] == Number8(b)
  {
    hide ByteOf, Number8, Field;
    forall p | 0 <= p < 8
      ensures b[p] == ByteOf(t[i], p)
    {
      assert (8 * i + p) / 8 == i && (8 * i + p) % 8 == p;
    }
    assert Pow256(8) == 0x1_0000_0000_0000_0000;
    BytesMakeWord(t[i], b, 0);
    FieldNumber(b, 0);
    assert b[0..8] == b;
  }

  lemma {:induction false} BytesMakeWord(w: nat, b: seq<byte>, o: nat)
    requires o <= |b| && w < Pow256(|b| - o)
    requires forall p :: 0 <= p < |b| - o ==> b[o + p] == ByteOf(w, p)
    ensures Field(b, o, |b| - o) == w
    decreases |b| - o
  {
    if o < |b| {
      assert b[o + 0] == ByteOf(w, 0);
      forall p | 0 <= p < |b| - (o + 1)
        ensures b[o + 1 + p] == ByteOf(w / 256, p)
      {
        assert b[o + (p + 1)] == ByteOf(w, p + 1);
      }
      BytesMakeWord(w / 256, b, o + 1);
    }
  }

  function Store(t: Table, k: nat, b: byte): Table
    requires k < 4096
  {
    t[k / 8 := WordWithByte(t[k / 8], k % 8, b)]
  }

  lemma LoadAfterStore(t: Table, k: nat, b: byte, j: nat)
    requires k < 4096 && j < 4096
    ensures Load(Store(t, k, b), j) == if j == k then b else Load(t, j)
  {
    OneByte(t[k / 8], k % 8, b, j % 8);
  }

  predicate Holds(t: Table, bytes: seq<byte>)
    requires |bytes| == 4096
  {
    forall k :: 0 <= k < 4096 ==> Load(t, k) == bytes[k]
  }
}

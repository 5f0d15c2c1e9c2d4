/** The bytes of a disk block: memmove to and from bp->data. */
module ByteView {
  import opened Blocks

  const BYTES := 512

  type byte = x: int | 0 <= x < 256 witness 0

  /** Byte r (0 is the least significant) of a 32-bit word. */
  function ByteOf(w: uint32, r: nat): byte
    requires r < 4
  {
    var w1 := w / 0x100;
    var w2 := w1 / 0x100;
    if r == 0 then w % 0x100 else if r == 1 then w1 % 0x100 else if r == 2 then w2 % 0x100 else w2 / 0x100
  }

  function WordOf(b0: byte, b1: byte, b2: byte, b3: byte): (w: uint32) {
    var u0: int, u1: int, u2: int, u3: int := b0, b1, b2, b3;
    u0 + 0x100 * (u1 + 0x100 * (u2 + 0x100 * u3))
  }

  lemma WordBytes(b0: byte, b1: byte, b2: byte, b3: byte)
    ensures var w := WordOf(b0, b1, b2, b3);
            ByteOf(w, 0) == b0 && ByteOf(w, 1) == b1 && ByteOf(w, 2) == b2 && ByteOf(w, 3) == b3
  {
  }

  /** The least significant byte of a word comes first. */
  lemma LittleEndian(b: Block, i: nat)
    requires i < WORDS
    ensures var s := ToBytes(b); var b0: int, b1: int, b2: int, b3: int := s[4 * i], s[4 * i + 1], s[4 * i + 2], s[4 * i + 3];
      b[i] == b0 + 0x100 * b1 + 0x1_0000 * b2 + 0x100_0000 * b3
  {
  }

  function ToBytes(b: Block): (s: seq<byte>)
    ensures |s| == BYTES
  {
    seq(BYTES, k requires 0 <= k < BYTES => ByteOf(b[k / 4], k % 4))
  }

  function OfBytes(s: seq<byte>): (b: Block)
    requires |s| == BYTES
  {
    seq(WORDS, i requires 0 <= i < WORDS => WordOf(s[4 * i], s[4 * i + 1], s[4 * i + 2], s[4 * i + 3]))
  }

  lemma BytesRoundTrip(s: seq<byte>)
    requires |s| == BYTES
    ensures ToBytes(OfBytes(s)) == s
  {
    forall k | 0 <= k < BYTES ensures ToBytes(OfBytes(s))[k] == s[k] {
      var i := k / 4;
      WordBytes(s[4 * i], s[4 * i + 1], s[4 * i + 2], s[4 * i + 3]);
    }
  }

  /** memmove(bp->data + o, src, m) */
  function Store(b: Block, o: nat, src: seq<byte>): (r: Block)
    requires o + |src| <= BYTES
  {
    OfBytes(ToBytes(b)[..o] + src + ToBytes(b)[o + |src|..])
  }

  lemma StoreBytes(b: Block, o: nat, src: seq<byte>)
    requires o + |src| <= BYTES
    ensures ToBytes(Store(b, o, src)) == ToBytes(b)[..o] + src + ToBytes(b)[o + |src|..]
  {
    BytesRoundTrip(ToBytes(b)[..o] + src + ToBytes(b)[o + |src|..]);
  }

  lemma SplicedAt(t: seq<byte>, o: nat, src: seq<byte>, r: nat)
    requires o + |src| <= |t| && r < |t|
    ensures (t[..o] + src + t[o + |src|..])[r] == if o <= r < o + |src| then src[r - o] else t[r]
  {
  }

  lemma StoredByte(b: Block, o: nat, src: seq<byte>, r: nat)
    requires o + |src| <= BYTES && r < BYTES
    ensures ToBytes(Store(b, o, src))[r] == if o <= r < o + |src| then src[r - o] else ToBytes(b)[r]
  {
    StoreBytes(b, o, src);
    SplicedAt(ToBytes(b), o, src, r);
    hide *;
  }
}

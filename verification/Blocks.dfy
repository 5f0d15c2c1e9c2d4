/** Disk blocks. A block of BSIZE = 512 bytes is kept as its 128 words, which is how the kernel
    overlays struct logheader on one; whole blocks are copied otherwise. */
module Blocks {

  const WORDS := 128         // BSIZE / sizeof(uint)
  const MAXOPBLOCKS := 10    // the most blocks a file system operation writes
  const LOGSIZE := 30        // the most blocks a transaction may log

  type uint32 = x: int | 0 <= x < 0x1_0000_0000 witness 0
  type Block = b: seq<uint32> | |b| == 128 witness seq(128, _ => 0)
  type Image = seq<Block>

  function ZeroBlock(): (b: Block)
    ensures forall i :: 0 <= i < WORDS ==> b[i] == 0
  {
    seq(WORDS, _ => 0)
  }
}

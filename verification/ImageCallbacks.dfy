/** The two callbacks that take image data: FpgaImageFileWriter, which writes it to a file, and
    HardwareProgrammer, which pads it to whole 64-bit words for a DMA node. */
module ImageCallbacks {
  import opened Bytes
  import opened ImageFormats

  const ICAP_NOP_INSTRUCTION: nat := 0x2000_0000

  lemma RoundUp(length: nat)
    requires length % 8 != 0
    ensures (length + 7) / 8 * 8 == length - length % 8 + 8
  {
  }

  /** The same, as stored by a little-endian processor. */
  const NOP: seq<Byte> := [0, 0, 0, 0x20]

  /** `block` is `data` padded to a multiple of 8 bytes; a NOP instruction fills the last four of
      them if those hold no data. */
  predicate Padded(block: seq<Byte>, data: seq<Byte>) {
    && data <= block && |block| % 8 == 0 && |block| < |data| + 8
    && (1 <= |data| % 8 <= 4 ==> |block| >= 4 && block[|block| - 4..] == NOP)
  }

  class Callback {
    const dma: bool               // HardwareProgrammer; otherwise FpgaImageFileWriter
    const block: array<Byte>      // the memory handed out by beginProcessData
    var emitted: seq<seq<Byte>>   // the pieces written, or the blocks enqueued

    ghost predicate Valid() {
      block.Length % 4 == 0 && (dma ==> block.Length % 8 == 0) && block.Length >= ALIGN_SIZE
    }

    function Output(): seq<Byte>
      reads this
    {
      Concat(emitted)
    }

    constructor (dma: bool, chunk: nat)
      requires chunk % 4 == 0 && (dma ==> chunk % 8 == 0) && chunk >= ALIGN_SIZE
      ensures Valid() && this.dma == dma && block.Length == chunk && emitted == [] && fresh(block)
    {
      this.dma, emitted := dma, [];
      block := new Byte[chunk](_ => 0);
    }

    method BeginProcessData(bytesRemaining: nat) returns (n: nat)
      ensures n == Min(bytesRemaining, block.Length)
    {
      return if bytesRemaining > block.Length then block.Length else bytesRemaining;
    }

    /** The workaround for DMA nodes that only take 64-bit words: the length to enqueue. */
    method Pad(length: nat) returns (used: nat)
      requires Valid() && dma && length <= block.Length
      modifies block
      ensures used <= block.Length && Padded(block[..used], old(block[..length]))
    {
      used := length;
      if used % 8 != 0 {
        ghost var before := block[..length];
        if used % 8 <= 4 {
          StoreNop(used - used % 8 + 4);
          assert block[..length] == block[..used - used % 8 + 4][..length];
        }
        used := (used + 7) / 8 * 8;
        RoundUp(length);
        assert block[..used][..length] == before;
        assert block[..used][used - 4..] == block[used - 4..used];
      }
    }

    method StoreNop(at: nat)
      requires at + 4 <= block.Length
      modifies block
      ensures block[at..at + 4] == NOP && block[..at] == old(block[..at])
    {
      Store(block, at, ICAP_NOP_INSTRUCTION);
    }

    /** Writes the first `length` bytes of the block, or enqueues it padded. */
    method EndProcessData(length: nat) returns (n: nat, ghost piece: seq<Byte>)
      requires Valid() && length <= block.Length
      modifies this`emitted, block
      ensures n == length && emitted == old(emitted) + [piece] && Output() == old(Output()) + piece
      ensures if dma then Padded(piece, old(block[..length])) else piece == old(block[..length])
    {
      var used := length;
      if dma {
        used := Pad(length);
      }
      piece := block[..used];
      emitted := emitted + [block[..used]];
      ConcatOneMore(old(emitted), piece);
      return length, piece;
    }
  }
}

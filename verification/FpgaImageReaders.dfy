/** FpgaImageReader::processFile: the image in a file is sent to a callback, through a buffer. */
module FpgaImageReaders {
  import opened Bytes
  import opened ImageFiles
  import opened ImageFormats
  import opened ImageCallbacks
  import opened Multiples
  import opened Sequences

  /** A number of bytes, or why processFile ends here. */
  datatype Step = Amount(n: nat) | Stop(reason: Result)

  class FpgaImageReader {
    const file: ImageFile
    const callback: Callback
    const buffer: array<Byte>
    const checks: Checks

    ghost predicate Valid()
      reads this, file
    {
      file.Valid() && callback.Valid() && buffer.Length == BUFFER_SIZE && buffer != callback.block
    }

    constructor (file: ImageFile, callback: Callback, checks: Checks)
      requires file.Valid() && callback.Valid()
      ensures Valid() && fresh(buffer) && this.file == file && this.callback == callback && this.checks == checks
      ensures forall i :: 0 <= i < BUFFER_SIZE ==> buffer[i] == 0
    {
      this.file, this.callback, this.checks := file, callback, checks;
      buffer := new Byte[BUFFER_SIZE](_ => 0);
    }

    /** The buffer holds the first read, of `bytes` bytes, and zeros behind it. */
    ghost predicate HoldsFirstRead(bytes: nat)
      reads this, buffer
    {
      && buffer.Length == BUFFER_SIZE && bytes <= FirstReadSize(file.content)
      && buffer[..bytes] == file.content[..bytes]
      && forall i :: bytes <= i < BUFFER_SIZE ==> buffer[i] == 0
    }

    lemma FirstReadAt(bytes: nat, from: nat, to: nat)
      requires HoldsFirstRead(bytes) && from <= to <= bytes
      ensures buffer[from..to] == file.content[from..to] == file.content[..bytes][from..to]
    {
      assert forall i :: from <= i < to ==> buffer[i] == buffer[..bytes][i];
    }

    /** The loop over the tags. */
    method FindData(bytes: nat) returns (w: Walk)
      requires Valid() && HoldsFirstRead(bytes) && bytes >= 64
      ensures w == WalkTags(file.content[..bytes], 13, checks.tag)
    {
      ghost var head := file.content[..bytes];
      var data := 13;
      while buffer[data] != 'e' as nat
        invariant 13 <= data < bytes
        invariant WalkTags(head, data, checks.tag) == WalkTags(head, 13, checks.tag)
        decreases bytes - data
      {
        var tag := buffer[data];
        assert tag == head[data];
        data := data + 1;
        if data >= bytes { return CutShort; }
        var length := U16(buffer[data], buffer[data + 1]);
        assert buffer[data] == head[data] && buffer[data + 1] == At(head, data + 1);
        var value := data + 2;
        data := value + length;
        if data >= bytes { return CutShort; }
        if tag == 'a' as nat {
          FirstReadAt(bytes, value, data);
          if !checks.tag(buffer[value..data]) { return Mismatch; }
        }
      }
      assert head[data] == buffer[data];
      return DataAt(data);
    }

    /** Sends the first `total` bytes of the buffer: those `data` with the bytes of each word
        reversed, padded if the callback is a DMA node. */
    method SendBlock(total: nat) returns (ghost piece: seq<Byte>, ghost data: seq<Byte>)
      requires Valid() && total <= BUFFER_SIZE && total <= callback.block.Length
      modifies callback`emitted, callback.block
      ensures Swapped(data, buffer[..total]) && Rendered(callback.dma, piece, data)
      ensures callback.Output() == old(callback.Output()) + piece
      ensures callback.dma && old(WholeDmaWords(callback.emitted)) ==> WholeDmaWords(callback.emitted)
    {
      var words := total / 4;
      SwapBufferAligned(callback.block, buffer, words);
      WholeWords(buffer[..total], 4 * words);
      assert buffer[..total][..4 * words] == buffer[..4 * words];
      assert callback.block[..total][..4 * words] == callback.block[..4 * words];
      data := callback.block[..total];
      SwappedExact(data, buffer[..total]);
      piece := Emit(total);
    }

    /** memmove */
    method MoveToStart(start: nat, bytes: nat)
      requires Valid() && HoldsFirstRead(bytes) && start <= bytes
      modifies buffer
      ensures buffer[..bytes - start] == file.content[start..bytes]
    {
      FirstReadAt(bytes, start, bytes);
      ghost var moved := buffer[start..bytes];
      forall i | 0 <= i < bytes - start { buffer[i] := buffer[start + i]; }
      assert buffer[..bytes - start] == moved;
    }

    /** read_all of `count` bytes, and the check that it got them. */
    method ReadExactly(at: nat, count: nat) returns (r: Step)
      requires Valid() && at + count <= buffer.Length
      modifies file, buffer
      ensures Valid() && (old(file.ErrorFree()) ==> file.ErrorFree()) && r != Stop(Overrun)
      ensures r.Amount? ==> r.n == count && file.position == old(file.position) + count
      ensures r.Amount? ==> buffer[at..at + count] == file.content[old(file.position)..file.position]
      ensures r.Stop? ==> Excused(r.reason, old(file.position) + count > |file.content|, old(file.ErrorFree()))
      ensures buffer[..at] == old(buffer[..at])
    {
      var n := file.ReadAll(buffer, at, count);
      return if n < 0 then Stop(IoError) else if n < count then Stop(TruncatedFile) else Amount(count);
    }

    /** The start of the payload moves to the start of the buffer; unless it is all there, the
        buffer is filled up to ALIGN_SIZE. The result is the number of bytes to send. */
    method AlignPayload(start: nat, size: nat, bytes: nat) returns (r: Step)
      requires Valid() && HoldsFirstRead(bytes) && start < bytes && file.position == bytes
      modifies file, buffer
      ensures Valid() && (old(file.ErrorFree()) ==> file.ErrorFree()) && r != Stop(Overrun)
      ensures r.Amount? ==> r.n == (if size <= bytes - start then size else ALIGN_SIZE)
      ensures r.Stop? ==>
        size > bytes - start && Excused(r.reason, start + ALIGN_SIZE > |file.content|, old(file.ErrorFree()))
      ensures r.Amount? ==> start + r.n <= |file.content|
      ensures r.Amount? ==> buffer[..r.n] == file.content[start..start + r.n]
      ensures r.Amount? && r.n < size ==> file.position == start + r.n
    {
      var totalBytes := bytes - start;
      MoveToStart(start, bytes);
      if totalBytes >= size {
        Prefixes(buffer, file.content, start, totalBytes, size);
        return Amount(size);
      }
      AlignOf(totalBytes);
      var align := totalBytes % ALIGN_SIZE;
      if align != 0 {
        align := ALIGN_SIZE - align; // what is missing to a full ALIGN_SIZE
        r := ReadExactly(totalBytes, align);
        if r.Stop? { return; }
        JoinSlices(file.content, start, bytes, start + ALIGN_SIZE);
        JoinParts(buffer, 0, totalBytes, ALIGN_SIZE);
        assert buffer[0..totalBytes] == buffer[..totalBytes] && buffer[0..ALIGN_SIZE] == buffer[..ALIGN_SIZE];
        totalBytes := totalBytes + align;
      }
      r := Amount(totalBytes);
    }

    /** Reads and sends the next block of a payload of which `remaining` bytes are left. */
    method SendNext(remaining: nat) returns (r: Step, ghost piece: seq<Byte>, ghost data: seq<Byte>)
      requires Valid()
      modifies file, buffer, callback`emitted, callback.block
      ensures Valid() && callback.Output() == old(callback.Output()) + piece
      ensures old(file.ErrorFree()) ==> file.ErrorFree()
      ensures r.Amount? ==> r.n == Min(remaining, callback.block.Length) <= BUFFER_SIZE
      ensures r.Amount? ==> file.position == old(file.position) + r.n
      ensures r.Amount? ==> Delivers(callback.dma, file.content, old(file.position), file.position, piece, data)
      ensures r.Stop? ==> MayStop(r.reason, remaining, callback.block.Length,
          old(file.position) + remaining > |file.content|, old(file.ErrorFree()))
      ensures callback.dma && old(WholeDmaWords(callback.emitted)) ==> WholeDmaWords(callback.emitted)
    {
      piece, data := [], [];
      var toRead := callback.BeginProcessData(remaining);
      if toRead > BUFFER_SIZE { return Stop(Overrun), piece, data; } // the source reads regardless
      r := ReadExactly(0, toRead);
      if r.Stop? { return; }
      assert buffer[..toRead] == buffer[0..toRead];
      piece, data := SendBlock(toRead);
    }

    /** One iteration of SendRest. */
    method SendOnto(ghost start: nat, ghost sent: seq<Byte>, ghost data: seq<Byte>, done: nat, remaining: nat)
      returns (r: Step, ghost piece: seq<Byte>, ghost more: seq<Byte>)
      requires Valid() && done < remaining && WholeUnits(callback.dma, done) && file.position == start + done
      requires Delivers(callback.dma, file.content, start, start + done, sent, data)
      modifies file, buffer, callback`emitted, callback.block
      ensures Valid() && callback.Output() == old(callback.Output()) + piece
      ensures old(file.ErrorFree()) ==> file.ErrorFree()
      ensures r.Stop? ==> MayStop(r.reason, remaining - done, callback.block.Length,
          start + remaining > |file.content|, old(file.ErrorFree()))
      ensures r.Amount? ==> Min(remaining - done, callback.block.Length) <= BUFFER_SIZE
      ensures r.Amount? ==> 0 < r.n <= remaining - done && file.position == start + done + r.n
      ensures r.Amount? ==> Delivers(callback.dma, file.content, start, start + done + r.n, sent + piece, data + more)
      ensures r.Amount? && done + r.n < remaining ==> WholeUnits(callback.dma, done + r.n)
      ensures callback.dma && old(WholeDmaWords(callback.emitted)) ==> WholeDmaWords(callback.emitted)
    {
      r, piece, more := SendNext(remaining - done);
      if r.Amount? {
        DeliversMore(callback.dma, file.content, start, start + done, start + done + r.n, sent, data, piece, more);
        WholeBlocks(callback.dma, done, remaining, callback.block.Length);
      }
    }

    /** Reads and sends the `remaining` bytes of a payload, block by block. */
    method SendRest(remaining: nat) returns (r: Step, ghost sent: seq<Byte>, ghost data: seq<Byte>)
      requires Valid() && remaining > 0
      modifies file, buffer, callback`emitted, callback.block
      ensures Valid() && callback.Output() == old(callback.Output()) + sent
      ensures r.Stop? ==> MayStop(r.reason, remaining, callback.block.Length,
          old(file.position) + remaining > |file.content|, old(file.ErrorFree()))
      ensures r.Amount? ==> Min(remaining, callback.block.Length) <= BUFFER_SIZE
      ensures r.Amount? ==>
        Delivers(callback.dma, file.content, old(file.position), old(file.position) + remaining, sent, data)
      ensures callback.dma && old(WholeDmaWords(callback.emitted)) ==> WholeDmaWords(callback.emitted)
    {
      sent, data := [], [];
      ghost var start, output := file.position, callback.Output();
      ghost var errorFree, whole := file.ErrorFree(), callback.dma && WholeDmaWords(callback.emitted);
      DeliversNothing(callback.dma, file.content, start);
      assert WholeUnits(callback.dma, 0);
      hide Delivers, WholeUnits, Excused, Concat;
      var done := 0;
      r := Amount(0);
      while r.Amount? && done < remaining
        invariant Valid() && callback.Output() == output + sent && done <= remaining
        invariant errorFree ==> file.ErrorFree()
        invariant whole ==> WholeDmaWords(callback.emitted)
        invariant r.Amount? ==> file.position == start + done
        invariant r.Amount? ==> Delivers(callback.dma, file.content, start, start + done, sent, data)
        invariant r.Amount? && done < remaining ==> WholeUnits(callback.dma, done)
        invariant done > 0 ==> Min(remaining, callback.block.Length) <= BUFFER_SIZE
        invariant r.Stop? ==>
          MayStop(r.reason, remaining, callback.block.Length, start + remaining > |file.content|, errorFree)
        decreases r.Amount?, remaining - done
      {
        ghost var piece, more;
        r, piece, more := SendOnto(start, sent, data, done, remaining);
        Associative(output, sent, piece);
        sent, data := sent + piece, data + more;
        if r.Amount? { done := done + r.n; }
      }
    }

    /** Sends the payload, or its first ALIGN_SIZE bytes. */
    method SendFirst(start: nat, size: nat, bytes: nat) returns (r: Step, ghost sent: seq<Byte>, ghost data: seq<Byte>)
      requires Valid() && HoldsFirstRead(bytes) && start < bytes && file.position == bytes
      modifies file, buffer, callback`emitted, callback.block
      ensures Valid() && callback.Output() == old(callback.Output()) + sent
      ensures (old(file.ErrorFree()) ==> file.ErrorFree()) && r != Stop(Overrun)
      ensures r.Amount? ==> r.n == (if size <= bytes - start then size else ALIGN_SIZE)
      ensures r.Amount? ==> Delivers(callback.dma, file.content, start, start + r.n, sent, data)
      ensures r.Amount? && r.n < size ==> file.position == start + r.n
      ensures r.Stop? ==>
        size > bytes - start && Excused(r.reason, start + ALIGN_SIZE > |file.content|, old(file.ErrorFree()))
      ensures callback.dma && old(WholeDmaWords(callback.emitted)) ==> WholeDmaWords(callback.emitted)
    {
      sent, data := [], [];
      r := AlignPayload(start, size, bytes);
      if r.Stop? { return; }
      var totalBytes := callback.BeginProcessData(r.n);
      sent, data := SendBlock(totalBytes);
    }

    /** Sends the payload block by block. */
    method SendPayload(start: nat, size: nat, bytes: nat)
      returns (r: Result, ghost sent: seq<Byte>, ghost data: seq<Byte>)
      requires Valid() && HoldsFirstRead(bytes) && start < bytes && file.position == bytes
      modifies file, buffer, callback`emitted, callback.block
      ensures callback.Output() == old(callback.Output()) + sent
      ensures !r.IdMismatch? && !r.UnrecognizedFormat?
      ensures var p := PayloadPlan(file.content, bytes, start, size, callback.block.Length);
        && (r == ResultOf(p) || (!old(file.ErrorFree()) && ReadFault(r)))
        && (r.Processed? ==> p.Send? && Delivers(callback.dma, file.content, p.start, p.start + p.total, sent, data))
      ensures callback.dma && old(WholeDmaWords(callback.emitted)) ==> WholeDmaWords(callback.emitted)
    {
      hide Swapped, Rendered, WholeUnits, Concat;
      ghost var output := callback.Output();
      ghost var p := PlanCases(file.content, bytes, start, size, callback.block.Length);
      var total;
      total, sent, data := SendFirst(start, size, bytes);
      if total.Stop? { return total.reason, sent, data; }
      if total.n >= size { return Processed(size), sent, data; }
      var rest;
      ghost var moreSent, more;
      rest, moreSent, more := SendRest(size - total.n);
      Associative(output, sent, moreSent);
      if rest.Amount? {
        WholeUnitsExact(callback.dma, ALIGN_SIZE);
        DeliversMore(callback.dma, file.content, start, start + ALIGN_SIZE, start + size, sent, data, moreSent, more);
      }
      sent, data := sent + moreSent, data + more;
      r := if rest.Stop? then rest.reason else Processed(size);
    }

    method SizeAt(data: nat, bytes: nat) returns (size: nat)
      requires HoldsFirstRead(bytes) && data + 4 <= bytes
      ensures size == U32(file.content[data], file.content[data + 1], file.content[data + 2], file.content[data + 3])
    {
      size := U32(buffer[data], buffer[data + 1], buffer[data + 2], buffer[data + 3]);
      assert forall i :: 0 <= i < bytes ==> buffer[i] == buffer[..bytes][i] == file.content[..bytes][i];
    }

    /** A .bit file: the payload, with the bytes of each word reversed. */
    method ProcessBit(bytes: nat) returns (r: Result, ghost sent: seq<Byte>, ghost data: seq<Byte>)
      requires Valid() && HoldsFirstRead(bytes) && bytes >= 64 && file.position == bytes
      modifies file, buffer, callback`emitted, callback.block
      ensures callback.Output() == old(callback.Output()) + sent
      ensures !r.UnrecognizedFormat? && (r.IdMismatch? ==> sent == [])
      ensures var p := BitPlan(file.content, bytes, checks.tag, callback.block.Length);
        && (r == ResultOf(p) || (!old(file.ErrorFree()) && ReadFault(r)))
        && (r.Processed? ==> p.Send? && Delivers(callback.dma, file.content, p.start, p.start + p.total, sent, data))
      ensures callback.dma && old(WholeDmaWords(callback.emitted)) ==> WholeDmaWords(callback.emitted)
    {
      hide Delivers, WalkTags, PayloadPlan, U16, U32, Concat;
      sent, data := [], [];
      var w := FindData(bytes);
      match w
      case CutShort => return TruncatedFile, sent, data;
      case Mismatch => return IdMismatch, sent, data;
      case DataAt(e) =>
        var at := e + 1;
        if at + 4 >= bytes { return TruncatedFile, sent, data; }
        var size := SizeAt(at, bytes);
        r, sent, data := SendPayload(at + 4, size, bytes);
    }

    /** A .bin or .partial file: as it is, padded at the end if the callback is a DMA node. `sound`
        means that no read has failed or will. */
    method ProcessBin(bytes: nat, ghost sound: bool) returns (r: Result, ghost sent: seq<Byte>)
      requires Valid() && HoldsFirstRead(bytes) && bytes >= 64 && file.position == bytes
      requires sound ==> file.ErrorFree() && bytes == FirstReadSize(file.content)
      modifies file, callback`emitted, callback.block
      ensures callback.Output() == old(callback.Output()) + sent
      ensures r == BinResult(file.content, checks.id, callback.block.Length) || (!sound && ReadFault(r))
      ensures r.IdMismatch? || r.UnrecognizedFormat? ==> sent == []
      ensures r.Processed? && (sound || !callback.dma) ==> Rendered(callback.dma, sent, file.content)
      ensures callback.dma && old(WholeDmaWords(callback.emitted)) ==> WholeDmaWords(callback.emitted)
    {
      sent := [];
      FirstReadAt(bytes, 0, 4);
      FirstReadAt(bytes, 4, 8);
      FirstReadAt(bytes, 0, 8);
      assert file.content[..4] == file.content[0..4];
      assert forall i :: 0 <= i < 8 ==> buffer[i] == buffer[0..8][i] == file.content[0..8][i];
      if AllOnes(buffer[0..4]) {
        // the format of .bin files
      } else if buffer[0] == 0 && AllOnes(buffer[4..8]) {
        // the format of .partial files
        if !checks.id(U16(buffer[2], buffer[3])) { return IdMismatch, sent; }
      } else {
        return UnrecognizedFormat, sent;
      }
      r, sent := SendRaw(bytes, sound);
    }

    /** Hands over the first `length` bytes of the callback's block. */
    method Emit(length: nat) returns (ghost piece: seq<Byte>)
      requires Valid() && length <= callback.block.Length
      modifies callback`emitted, callback.block
      ensures callback.Output() == old(callback.Output()) + piece
      ensures Rendered(callback.dma, piece, old(callback.block[..length]))
      ensures callback.dma && old(WholeDmaWords(callback.emitted)) ==> WholeDmaWords(callback.emitted)
    {
      var n;
      n, piece := callback.EndProcessData(length);
    }

    /** Reads the next block into the callback's own memory and hands it over, if there is one. The
        result is negative if the read threw. */
    method SendNextRaw() returns (n: int, ghost piece: seq<Byte>)
      requires Valid() && callback.block.Length >= BUFFER_SIZE
      modifies file, callback`emitted, callback.block
      ensures Valid() && (old(file.ErrorFree()) ==> file.ErrorFree())
      ensures old(file.ErrorFree()) ==> n == Min(BUFFER_SIZE, |file.content| - old(file.position))
      ensures n >= 0 ==> file.position == old(file.position) + n
      ensures n == 0 ==> file.position == |file.content|
      ensures callback.Output() == old(callback.Output()) + piece
      ensures n >= 0 ==> Rendered(callback.dma, piece, file.content[old(file.position)..file.position])
      ensures callback.dma && old(WholeDmaWords(callback.emitted)) ==> WholeDmaWords(callback.emitted)
    {
      piece := [];
      var granted := callback.BeginProcessData(BUFFER_SIZE);
      n := file.ReadAll(callback.block, 0, BUFFER_SIZE);
      if n > 0 {
        assert callback.block[..n] == callback.block[0..n];
        piece := Emit(n);
      }
    }

    /** The first block is copied from the buffer. */
    method SendFirstRaw(bytes: nat) returns (ghost piece: seq<Byte>)
      requires Valid() && HoldsFirstRead(bytes)
      modifies callback`emitted, callback.block
      ensures callback.Output() == old(callback.Output()) + piece
      ensures Rendered(callback.dma, piece, file.content[..bytes])
      ensures callback.dma && old(WholeDmaWords(callback.emitted)) ==> WholeDmaWords(callback.emitted)
    {
      var granted := callback.BeginProcessData(bytes);
      forall i | 0 <= i < granted { callback.block[i] := buffer[i]; }
      assert callback.block[..bytes] == buffer[..bytes];
      piece := Emit(bytes);
    }

    /** Sends the whole file as it is. */
    method SendRaw(bytes: nat, ghost sound: bool) returns (r: Result, ghost sent: seq<Byte>)
      requires Valid() && HoldsFirstRead(bytes) && file.position == bytes
      requires sound ==> file.ErrorFree() && bytes == FirstReadSize(file.content)
      modifies file, callback`emitted, callback.block
      ensures callback.Output() == old(callback.Output()) + sent
      ensures r == (if callback.block.Length < BUFFER_SIZE then Overrun else Processed(|file.content|))
           || (!sound && r.IoError?)
      ensures r.Processed? && (sound || !callback.dma) ==> Rendered(callback.dma, sent, file.content)
      ensures callback.dma && old(WholeDmaWords(callback.emitted)) ==> WholeDmaWords(callback.emitted)
    {
      ghost var output, dma, held := callback.Output(), callback.dma, sound || !callback.dma;
      hide Padded, Concat;
      sent := SendFirstRaw(bytes);
      if callback.block.Length < BUFFER_SIZE { return Overrun, sent; } // the source reads regardless
      var total, n: int := bytes, 1;
      while n > 0
        invariant Valid() && (n >= 0 ==> total == file.position) && (n == 0 ==> total == |file.content|)
        invariant sound ==> file.ErrorFree() && n >= 0 && (total < |file.content| ==> total % 8 == 0)
        invariant n >= 0 && held ==> Rendered(dma, sent, file.content[..total])
        invariant callback.Output() == output + sent
        invariant dma && old(WholeDmaWords(callback.emitted)) ==> WholeDmaWords(callback.emitted)
        decreases n > 0, |file.content| - total
      {
        ghost var piece;
        n, piece := SendNextRaw();
        Associative(output, sent, piece);
        if n > 0 {
          if held { RenderedJoin(dma, sent, piece, file.content, total, total + n); }
        } else if n == 0 {
          RenderedNothing(dma, piece);
          Emptied(sent, piece);
        }
        sent := sent + piece;
        if n >= 0 { total := total + n; }
      }
      if n < 0 { return IoError, sent; }
      assert file.content[..total] == file.content;
      r := Processed(total);
    }

    /** The test for the format of .bit files. */
    method LooksLikeBit(bytes: nat) returns (bit: bool)
      requires HoldsFirstRead(bytes) && bytes >= 64
      ensures bit == IsBit(file.content[..bytes])
    {
      assert forall i :: 0 <= i < 14 ==> buffer[i] == buffer[..bytes][i] == file.content[..bytes][i];
      return U16(buffer[0], buffer[1]) == 9 && U16(buffer[11], buffer[12]) == 1 && buffer[13] == 'a' as nat;
    }

    /** processFile. What it sends is `sent`, which renders `data`. If a read fails it throws, or it
        goes by a shorter first read, of `bytes` bytes. */
    method ProcessFile() returns (r: Result, ghost sent: seq<Byte>, ghost data: seq<Byte>, ghost bytes: nat)
      requires Valid() && file.position == 0 && forall i :: 0 <= i < buffer.Length ==> buffer[i] == 0
      modifies file, buffer, callback`emitted, callback.block
      ensures callback.Output() == old(callback.Output()) + sent
      ensures bytes <= FirstReadSize(file.content)
      ensures old(file.ErrorFree()) ==> bytes == FirstReadSize(file.content)
      ensures r == Expected(file.content, bytes, checks, callback.block.Length)
           || (!old(file.ErrorFree()) && ReadFault(r))
      ensures r.IdMismatch? || r.UnrecognizedFormat? ==> sent == []
      ensures |file.content| < 64 && old(file.ErrorFree()) ==> r == TruncatedFile && sent == []
      ensures r.Processed? ==> bytes >= 64 && Carries(data, file.content, bytes, checks, callback.block.Length)
      ensures r.Processed? && (old(file.ErrorFree()) || !callback.dma || IsBit(file.content[..bytes])) ==>
        Rendered(callback.dma, sent, data)
      ensures callback.dma && old(WholeDmaWords(callback.emitted)) ==> WholeDmaWords(callback.emitted)
    {
      hide BitPlan, BinResult, Rendered, WholeDmaWords, SwappedRange, Concat;
      sent, data, bytes := [], [], 0;
      var first := file.ReadAll(buffer, 0, ALIGN_SIZE);
      if first < 0 { return IoError, sent, data, bytes; }
      bytes := first;
      if first < 64 { return TruncatedFile, sent, data, bytes; }
      assert buffer[..first] == buffer[0..first];
      var bit := LooksLikeBit(first);
      if bit {
        r, sent, data := ProcessBit(first);
      } else {
        r, sent := ProcessBin(first, old(file.ErrorFree()));
        data := file.content;
      }
    }
  }

  /** Why a read can end processFile: the file is too short, or a read has failed. */
  predicate Excused(reason: Result, tooShort: bool, errorFree: bool) {
    (tooShort && reason.TruncatedFile?) || (!errorFree && ReadFault(reason))
  }

  /** Why a payload of which `remaining` bytes are left is not sent to its end. */
  predicate MayStop(reason: Result, remaining: nat, block: nat, tooShort: bool, errorFree: bool) {
    if Min(remaining, block) > BUFFER_SIZE then reason.Overrun? else Excused(reason, tooShort, errorFree)
  }

  predicate ReadFault(r: Result) {
    r.IoError? || r.TruncatedFile?
  }

  /** What a processed file has to deliver. */
  ghost predicate Carries(data: seq<Byte>, content: seq<Byte>, m: nat, checks: Checks, block: nat)
    requires 64 <= m <= |content|
  {
    if IsBit(content[..m]) then
      var p := BitPlan(content, m, checks.tag, block);
      p.Send? && SwappedRange(data, content, p.start, p.start + p.total)
    else data == content
  }

  predicate Rendered(dma: bool, sent: seq<Byte>, data: seq<Byte>) {
    if dma then Padded(sent, data) else sent == data
  }

  /** Every block is a whole number of 64-bit words. */
  predicate WholeDmaWords(blocks: seq<seq<Byte>>) {
    forall b :: b in blocks ==> |b| % 8 == 0
  }

  lemma RenderedNothing(dma: bool, sent: seq<Byte>)
    requires Rendered(dma, sent, [])
    ensures sent == []
  {
  }

  lemma PaddedWhole(sent: seq<Byte>, data: seq<Byte>)
    requires Padded(sent, data) && |data| % 8 == 0
    ensures sent == data
  {
  }

  lemma WordsMore(x: nat, y: nat)
    requires x % 8 == 0
    ensures (x + y) % 8 == y % 8
  {
  }

  lemma PaddedJoin(a: seq<Byte>, piece: seq<Byte>, b: seq<Byte>)
    requires |a| % 8 == 0 && Padded(piece, b)
    ensures Padded(a + piece, a + b)
  {
    WordsMore(|a|, |b|);
    WordsMore(|a|, |piece|);
    if |piece| >= 4 {
      assert (a + piece)[|a + piece| - 4..] == piece[|piece| - 4..];
    }
  }

  /** All blocks but the last are whole 64-bit words, so only the end is padded. */
  lemma RenderedMore(dma: bool, sent: seq<Byte>, piece: seq<Byte>, data: seq<Byte>, more: seq<Byte>)
    requires Rendered(dma, sent, data) && Rendered(dma, piece, more) && (dma ==> |data| % 8 == 0)
    ensures Rendered(dma, sent + piece, data + more)
  {
    if dma {
      PaddedWhole(sent, data);
      PaddedJoin(data, piece, more);
    }
  }

  lemma RenderedJoin(dma: bool, sent: seq<Byte>, piece: seq<Byte>, content: seq<Byte>, middle: nat, to: nat)
    requires middle <= to <= |content| && (dma ==> middle % 8 == 0)
    requires Rendered(dma, sent, content[..middle]) && Rendered(dma, piece, content[middle..to])
    ensures Rendered(dma, sent + piece, content[..to])
  {
    JoinSlices(content, 0, middle, to);
    assert content[0..middle] == content[..middle] && content[0..to] == content[..to];
    RenderedMore(dma, sent, piece, content[..middle], content[middle..to]);
  }

  lemma AlignOf(n: nat)
    requires n <= ALIGN_SIZE
    ensures n % ALIGN_SIZE == if n == ALIGN_SIZE then 0 else n
  {
  }

  lemma PlanCases(content: seq<Byte>, m: nat, start: nat, size: nat, block: nat) returns (p: Plan)
    requires start < m <= FirstReadSize(content)
    ensures p == PayloadPlan(content, m, start, size, block)
    ensures p == if size <= m - start then Send(start, size, size)
                 else if start + ALIGN_SIZE > |content| then Reject(TruncatedFile)
                 else if size <= ALIGN_SIZE then Send(start, size, ALIGN_SIZE)
                 else if Min(size - ALIGN_SIZE, block) > BUFFER_SIZE then Reject(Overrun)
                 else if start + size > |content| then Reject(TruncatedFile)
                 else Send(start, size, size)
  {
    p := PayloadPlan(content, m, start, size, block);
  }

  /** `sent` renders `data`, and that is this part of the file, swapped. */
  predicate Delivers(dma: bool, content: seq<Byte>, from: nat, to: nat, sent: seq<Byte>, data: seq<Byte>) {
    SwappedRange(data, content, from, to) && Rendered(dma, sent, data)
  }

  lemma DeliversNothing(dma: bool, content: seq<Byte>, at: nat)
    requires at <= |content|
    ensures Delivers(dma, content, at, at, [], [])
  {
  }

  lemma DeliversMore(dma: bool, content: seq<Byte>, from: nat, middle: nat, to: nat,
      sent: seq<Byte>, data: seq<Byte>, piece: seq<Byte>, more: seq<Byte>)
    requires Delivers(dma, content, from, middle, sent, data) && Delivers(dma, content, middle, to, piece, more)
    requires WholeUnits(dma, middle - from)
    ensures Delivers(dma, content, from, to, sent + piece, data + more)
  {
    WholeUnitsExact(dma, middle - from);
    SwappedExact(data, content[from..middle]);
    MoreSwapped(data, more, content, from, middle, to);
    RenderedMore(dma, sent, piece, data, more);
  }

  /** Whole words, or whole 64-bit words for a DMA node. */
  predicate WholeUnits(dma: bool, n: nat) {
    IsMultiple(n, if dma then 8 else 4)
  }

  lemma WholeUnitsExact(dma: bool, n: nat)
    ensures WholeUnits(dma, n) <==> n % (if dma then 8 else 4) == 0
    ensures WholeUnits(dma, n) ==> IsMultiple(n, 4)
  {
    IsMultipleExact(n, 4);
    IsMultipleExact(n, 8);
  }

  /** Only a last block can be less than whole units. */
  lemma WholeBlocks(dma: bool, done: nat, remaining: nat, chunk: nat)
    requires chunk % 4 == 0 && (dma ==> chunk % 8 == 0) && done <= remaining && WholeUnits(dma, done)
    ensures var n := Min(remaining - done, chunk); done + n < remaining ==> WholeUnits(dma, done + n)
  {
    WholeUnitsExact(dma, done);
    WholeUnitsExact(dma, done + chunk);
  }

  lemma Prefixes(buffer: array<Byte>, content: seq<Byte>, start: nat, n: nat, m: nat)
    requires m <= n <= buffer.Length && start + n <= |content| && buffer[..n] == content[start..start + n]
    ensures buffer[..m] == content[start..start + m]
  {
    assert buffer[..m] == buffer[..n][..m];
  }

  /** `sent` is `data` with the bytes of every whole word reversed. */
  predicate Swapped(sent: seq<Byte>, data: seq<Byte>) {
    if |data| < 4 then |sent| == |data|
    else |sent| >= 4 && sent[..4] == [data[3], data[2], data[1], data[0]] && Swapped(sent[4..], data[4..])
  }

  lemma {:induction false} SwappedExact(sent: seq<Byte>, data: seq<Byte>)
    ensures Swapped(sent, data) <==> |sent| == |data| && sent[..|sent| - |sent| % 4] == SwapWords(data)
  {
    if |data| >= 4 && |sent| >= 4 {
      var whole := |sent| - |sent| % 4;
      SwappedExact(sent[4..], data[4..]);
      assert sent[..whole] == sent[..4] + sent[4..][..whole - 4];
      if sent[..whole] == SwapWords(data) {
        assert sent[..4] == sent[..whole][..4] && sent[4..][..whole - 4] == sent[..whole][4..];
      }
    }
  }

  /** `sent` is that part of the file, swapped. */
  predicate SwappedRange(sent: seq<Byte>, content: seq<Byte>, from: nat, to: nat) {
    from <= to <= |content| && Swapped(sent, content[from..to])
  }

  lemma {:induction false} SwappedJoin(sent: seq<Byte>, piece: seq<Byte>, a: seq<Byte>, b: seq<Byte>)
    requires IsMultiple(|a|, 4) && Swapped(sent, a) && Swapped(piece, b)
    ensures Swapped(sent + piece, a + b)
    decreases |a|
  {
    if a == [] {
      assert sent + piece == piece && a + b == b;
    } else {
      SwappedJoin(sent[4..], piece, a[4..], b);
      assert (sent + piece)[4..] == sent[4..] + piece && (a + b)[4..] == a[4..] + b;
      assert (sent + piece)[..4] == sent[..4];
    }
  }

  lemma MoreSwapped(sent: seq<Byte>, piece: seq<Byte>, content: seq<Byte>, from: nat, middle: nat, to: nat)
    requires SwappedRange(sent, content, from, middle) && SwappedRange(piece, content, middle, to)
    requires from <= middle && IsMultiple(middle - from, 4)
    ensures SwappedRange(sent + piece, content, from, to)
  {
    SwappedJoin(sent, piece, content[from..middle], content[middle..to]);
    JoinSlices(content, from, middle, to);
  }

  /** Bytes behind the last whole word are not swapped. */
  lemma WholeWords(s: seq<Byte>, whole: nat)
    requires whole <= |s| < whole + 4 && whole % 4 == 0
    ensures SwapWords(s) == SwapWords(s[..whole])
  {
    SplitAt(s, whole);
    TooShort(s[..whole], s[whole..]);
  }

  lemma SplitAt(s: seq<Byte>, n: nat)
    requires n <= |s|
    ensures s == s[..n] + s[n..]
  {
  }

  lemma TooShort(words: seq<Byte>, rest: seq<Byte>)
    requires |words| % 4 == 0 && |rest| < 4
    ensures SwapWords(words + rest) == SwapWords(words)
  {
    SwapWordsAppend(words, rest);
    Emptied(SwapWords(words), SwapWords(rest));
  }

  lemma Emptied(a: seq<Byte>, b: seq<Byte>)
    requires b == []
    ensures a + b == a
  {
  }

  // ---- what arrives ----

  /** Whatever the chunk size and however the file was read: a readable .bit file of whole words
      whose reads fit delivers its payload with the bytes of each word reversed, and reversing them
      again gives the payload back. */
  lemma BitDelivers(file: seq<Byte>, preamble: seq<Byte>, tags: seq<Tag>, payload: seq<Byte>, trailer: seq<Byte>,
      checks: Checks, block: nat, data: seq<Byte>)
    requires PreambleOk(preamble) && tags != [] && tags[0].id == 'a' as nat
    requires forall t :: t in tags ==> TagOk(t, checks.tag)
    requires |payload| < 0x1_0000_0000 && file == EncodeBit(preamble, tags, payload) + trailer && |file| >= 64
    requires |payload| % 4 == 0 && Fits(|payload|, block)
    requires Readable(|file| - |payload + trailer|, |payload|, |file|)
    ensures Expected(file, FirstReadSize(file), checks, block) == Processed(|payload|)
    ensures var part := (payload + trailer)[..SentFor(|file| - |payload + trailer|, |payload|)];
      && (Carries(data, file, FirstReadSize(file), checks, block) <==> data == SwapWords(part))
      && SwapWords(SwapWords(part)) == part
  {
    hide BitPlan, Swapped, SwapWords, TagOk, EncodeBit, EncodeTags;
    BitRoundTrip(file, preamble, tags, payload, trailer, checks.tag, block);
    var header := |file| - |payload + trailer|;
    CarriedAsPlanned(file, header, |payload|, SentFor(header, |payload|), checks, block, data);
    SliceOf(file, header, SentFor(header, |payload|));
    SwappedWhole(data, (payload + trailer)[..SentFor(header, |payload|)]);
    SwapWordsInverts((payload + trailer)[..SentFor(header, |payload|)]);
  }

  lemma SliceOf(s: seq<Byte>, from: nat, n: nat)
    requires from + n <= |s|
    ensures s[from..][..n] == s[from..from + n]
  {
  }

  lemma CarriedAsPlanned(file: seq<Byte>, start: nat, size: nat, total: nat, checks: Checks, block: nat,
      data: seq<Byte>)
    requires |file| >= 64 && start + total <= |file| && IsBit(file[..FirstReadSize(file)])
    requires BitPlan(file, FirstReadSize(file), checks.tag, block) == Plan.Send(start, size, total)
    ensures Expected(file, FirstReadSize(file), checks, block) == Processed(size)
    ensures Carries(data, file, FirstReadSize(file), checks, block) <==> Swapped(data, file[start..start + total])
  {
    hide BitPlan, Swapped;
  }

  /** Not so with the blocks of a HardwareProgrammer for a DMA node: a payload that does not fit in
      the reader's own buffer behind its first 4096 bytes overruns that buffer. */
  lemma LargeBlocksOverrun(checks: Checks) returns (file: seq<Byte>)
    requires checks.tag([])
    ensures |file| == 13 + 3 + 5 + 20481 && IsBit(file[..FirstReadSize(file)])
    ensures Expected(file, FirstReadSize(file), checks, 65536) == Overrun
  {
    var preamble, payload: seq<Byte> := [0, 9, 0, 0, 0, 0, 0, 0, 0, 0, 0, 0, 1], seq(20481, _ => 0);
    var tags := [Tag('a' as nat, [])];
    file := EncodeBit(preamble, tags, payload);
    assert EncodeTags(tags) == EncodeTag(tags[0]) + EncodeTags([]);
    BitRoundTrip(file, preamble, tags, payload, [], checks.tag, 65536);
  }

  /** A payload that is neither all in the first 4096 bytes of the file nor as long as that. */
  lemma ShortPayloadTruncated(checks: Checks, block: nat) returns (file: seq<Byte>)
    requires checks.tag([])
    ensures |file| == 13 + 3 + 5 + 4080 && IsBit(file[..FirstReadSize(file)])
    ensures Expected(file, FirstReadSize(file), checks, block) == TruncatedFile
  {
    var preamble, payload: seq<Byte> := [0, 9, 0, 0, 0, 0, 0, 0, 0, 0, 0, 0, 1], seq(4080, _ => 0);
    var tags := [Tag('a' as nat, [])];
    file := EncodeBit(preamble, tags, payload);
    assert EncodeTags(tags) == EncodeTag(tags[0]) + EncodeTags([]);
    BitRoundTrip(file, preamble, tags, payload, [], checks.tag, block);
  }

  /** What becomes of a file in the .bit format. */
  lemma BitOutcome(file: seq<Byte>, preamble: seq<Byte>, tags: seq<Tag>, payload: seq<Byte>, trailer: seq<Byte>,
      checks: Checks, block: nat, data: seq<Byte>)
    requires PreambleOk(preamble) && tags != [] && tags[0].id == 'a' as nat
    requires forall t :: t in tags ==> TagOk(t, checks.tag)
    requires |payload| < 0x1_0000_0000 && file == EncodeBit(preamble, tags, payload) + trailer && |file| >= 64
    requires |payload| % 4 == 0
    ensures var header := |file| - |payload + trailer|;
      && Expected(file, FirstReadSize(file), checks, block)
         == (if !Readable(header, |payload|, |file|) then TruncatedFile
             else if !Fits(|payload|, block) then Overrun else Processed(|payload|))
      && (Readable(header, |payload|, |file|) && Fits(|payload|, block)
           && Carries(data, file, FirstReadSize(file), checks, block) ==>
           data == SwapWords((payload + trailer)[..SentFor(header, |payload|)]))
  {
    BitRoundTrip(file, preamble, tags, payload, trailer, checks.tag, block);
    if Readable(|file| - |payload + trailer|, |payload|, |file|) && Fits(|payload|, block) {
      BitDelivers(file, preamble, tags, payload, trailer, checks, block, data);
    }
  }

  lemma SwappedWhole(sent: seq<Byte>, data: seq<Byte>)
    requires |data| % 4 == 0
    ensures Swapped(sent, data) <==> sent == SwapWords(data)
  {
    SwappedExact(sent, data);
    assert sent[..|sent|] == sent;
  }

  /** Whole words reach the DMA node verbatim, with one NOP instruction behind them exactly if their
      length is not a multiple of 8. */
  lemma BinDelivers(content: seq<Byte>, sent: seq<Byte>)
    requires |content| % 4 == 0
    ensures Rendered(true, sent, content) <==> sent == content + (if |content| % 8 == 0 then [] else NOP)
  {
    if |content| % 8 == 0 {
      assert content + [] == content;
      if Rendered(true, sent, content) { PaddedWhole(sent, content); }
    } else {
      HalfWord(|content|);
      NopAdded(content, sent);
    }
  }

  lemma HalfWord(n: nat)
    requires n % 4 == 0 && n % 8 != 0
    ensures n % 8 == 4
  {
  }

  lemma NextWord(n: nat, m: nat)
    requires n % 8 == 4 && n <= m < n + 8
    ensures m % 8 == 0 <==> m == n + 4
  {
  }

  lemma NopAdded(content: seq<Byte>, sent: seq<Byte>)
    requires |content| % 8 == 4
    ensures Padded(sent, content) <==> sent == content + NOP
  {
    if |content| <= |sent| < |content| + 8 {
      NextWord(|content|, |sent|);
      if |sent| == |content| + 4 {
        assert sent == sent[..|content|] + sent[|content|..];
      }
    }
  }

  /** A file is processed, from its start, for every split of its reads. */
  method ProcessContent(content: seq<Byte>, checks: Checks, dma: bool, chunk: nat, transfers: seq<Transfer>)
    returns (r: Result, c: Callback, ghost data: seq<Byte>)
    requires Fails !in transfers && chunk % 4 == 0 && (dma ==> chunk % 8 == 0) && chunk >= ALIGN_SIZE
    ensures r == Expected(content, FirstReadSize(content), checks, chunk) && c.dma == dma
    ensures r.Processed? ==> |content| >= 64 && Carries(data, content, FirstReadSize(content), checks, chunk)
    ensures r.Processed? && |data| % 4 == 0 ==> c.Output() == data + (if dma && |data| % 8 != 0 then NOP else [])
    ensures r.IdMismatch? || r.UnrecognizedFormat? ==> c.Output() == []
  {
    var file := new ImageFile(content, transfers);
    c := new Callback(dma, chunk);
    var reader := new FpgaImageReader(file, c, checks);
    ghost var sent, bytes;
    r, sent, data, bytes := reader.ProcessFile();
    if |data| % 4 == 0 { BinDelivers(data, sent); }
  }

  /** From the payload to the callback: a file is encoded and processed. It is cut short if header,
      length and a byte more are not in the first 4096 bytes, or if the payload is neither all in them
      nor that long nor followed by enough. A payload of more than 20480 bytes overruns the buffer
      with blocks of more than 16384. Otherwise the payload arrives with the bytes of each word
      reversed, a short one that is not all in the first 4096 bytes with some of what follows it. */
  method SendEncoded(preamble: seq<Byte>, tags: seq<Tag>, payload: seq<Byte>, trailer: seq<Byte>, checks: Checks,
      dma: bool, chunk: nat, transfers: seq<Transfer>)
    returns (r: Result, c: Callback)
    requires PreambleOk(preamble) && tags != [] && tags[0].id == 'a' as nat
    requires forall t :: t in tags ==> TagOk(t, checks.tag)
    requires |payload| % 4 == 0 && |payload| < 0x1_0000_0000 && Fails !in transfers
    requires chunk % 4 == 0 && (dma ==> chunk % 8 == 0) && chunk >= ALIGN_SIZE
    requires |EncodeBit(preamble, tags, payload) + trailer| >= 64
    ensures c.dma == dma
    ensures var header, size, length := 13 + |EncodeTags(tags)| + 5, |payload|, |payload| + |trailer|;
      r == if header >= 4096 || length == 0 then TruncatedFile
           else if header + size > 4096 && size < 4096 && length < 4096 then TruncatedFile
           else if size > 20480 && chunk > 16384 then Overrun
           else Processed(size)
    ensures var header, size := 13 + |EncodeTags(tags)| + 5, |payload|;
      r.Processed? && (header + size <= 4096 || size >= 4096) ==>
        c.Output() == SwapWords(payload) + (if dma && size % 8 != 0 then [0, 0, 0, 0x20] else [])
    ensures var header, size := 13 + |EncodeTags(tags)| + 5, |payload|;
      r.Processed? && header + size > 4096 && size < 4096 ==>
        |trailer| >= 4096 - size && c.Output() == SwapWords(payload + trailer[..4096 - size])
  {
    hide Carries, Expected, BitPlan, EncodeTags, SwapWords, TagOk, Concat;
    var content := EncodeBit(preamble, tags, payload) + trailer;
    assert |EncodeBit(preamble, tags, payload)| == 13 + |EncodeTags(tags)| + 5 + |payload|;
    ghost var data;
    r, c, data := ProcessContent(content, checks, dma, chunk, transfers);
    BitOutcome(content, preamble, tags, payload, trailer, checks, chunk, data);
    ghost var total := SentFor(13 + |EncodeTags(tags)| + 5, |payload|);
    if r.Processed? { PartSent(payload, trailer, total); }
  }

  lemma PartSent(payload: seq<Byte>, trailer: seq<Byte>, n: nat)
    requires |payload| <= n <= |payload + trailer|
    ensures (payload + trailer)[..n] == payload + trailer[..n - |payload|]
    ensures n == |payload| ==> (payload + trailer)[..n] == payload
  {
  }

  /** Nothing is sent of a .bit file with a description that the callback refuses. */
  method SendRefused(preamble: seq<Byte>, tags: seq<Tag>, refused: Tag, rest: seq<Byte>, checks: Checks,
      dma: bool, chunk: nat, transfers: seq<Transfer>)
    returns (r: Result, c: Callback)
    requires PreambleOk(preamble) && (tags != [] ==> tags[0].id == 'a' as nat)
    requires forall t :: t in tags ==> TagOk(t, checks.tag)
    requires refused.id == 'a' as nat && !checks.tag(refused.value) && Fails !in transfers
    requires chunk % 4 == 0 && (dma ==> chunk % 8 == 0) && chunk >= ALIGN_SIZE
    requires |rest| >= 64 && 13 + |EncodeTags(tags)| + 3 + |refused.value| < 4096
    ensures r == IdMismatch && c.Output() == []
  {
    hide Carries, BitPlan;
    var content := preamble + (EncodeTags(tags) + (EncodeTag(refused) + rest));
    RefusedPlan(content, preamble, tags, refused, rest, checks.tag, chunk);
    ghost var data;
    r, c, data := ProcessContent(content, checks, dma, chunk, transfers);
  }

  /** A .bin file is sent as it is. */
  method SendBin(rest: seq<Byte>, checks: Checks, dma: bool, chunk: nat, transfers: seq<Transfer>)
    returns (r: Result, c: Callback)
    requires |rest| >= 60 && |rest| % 4 == 0 && Fails !in transfers
    requires chunk % 4 == 0 && (dma ==> chunk % 8 == 0) && chunk >= BUFFER_SIZE
    ensures r == Processed(4 + |rest|) && c.dma == dma
    ensures c.Output()
         == [0xFF, 0xFF, 0xFF, 0xFF] + rest + (if dma && (4 + |rest|) % 8 != 0 then [0, 0, 0, 0x20] else [])
  {
    var content := [0xFF, 0xFF, 0xFF, 0xFF] + rest;
    ghost var data;
    r, c, data := ProcessContent(content, checks, dma, chunk, transfers);
  }

  /** A .partial file looks like a .bit file. */
  predicate Misread(node: Byte, rest: seq<Byte>)
    requires |rest| >= 6
  {
    node == 9 && rest[3] == 0 && rest[4] == 1 && rest[5] == 'a' as nat
  }

  /** A .partial file is sent as it is, with its header, if the static ID in it is accepted, and not at
      all if it is refused. */
  method SendPartial(node: Byte, id: nat, rest: seq<Byte>, checks: Checks, dma: bool, chunk: nat,
      transfers: seq<Transfer>)
    returns (r: Result, c: Callback)
    requires id < 0x1_0000 && |rest| >= 56 && |rest| % 4 == 0 && !Misread(node, rest) && Fails !in transfers
    requires chunk % 4 == 0 && (dma ==> chunk % 8 == 0) && chunk >= BUFFER_SIZE
    ensures r == (if checks.id(id) then Processed(8 + |rest|) else IdMismatch) && c.dma == dma
    ensures var file := [0, node, id / 256, id % 256] + [0xFF, 0xFF, 0xFF, 0xFF] + rest;
      c.Output() == if checks.id(id) then file + (if dma && |rest| % 8 != 0 then [0, 0, 0, 0x20] else []) else []
  {
    var content := [0, node, id / 256, id % 256] + [0xFF, 0xFF, 0xFF, 0xFF] + rest;
    ghost var data;
    r, c, data := ProcessContent(content, checks, dma, chunk, transfers);
  }

  /** That exception is exact: a .partial file that is taken for a .bit file is never sent as a whole. */
  lemma PartialExact(node: Byte, id: nat, rest: seq<Byte>, checks: Checks, block: nat)
    requires id < 0x1_0000 && |rest| >= 56 && checks.id(id) && block >= BUFFER_SIZE
    ensures var file := [0, node, id / 256, id % 256] + [0xFF, 0xFF, 0xFF, 0xFF] + rest;
      Expected(file, FirstReadSize(file), checks, block) == Processed(|file|) <==> !Misread(node, rest)
  {
    hide WalkTags, Fits;
    var file := [0, node, id / 256, id % 256] + [0xFF, 0xFF, 0xFF, 0xFF] + rest;
    FourBytes(file, 0);
    FourBytes(file, 4);
    assert U16(file[0], file[1]) == node && U16(file[2], file[3]) == id;
  }

  /** For example a .partial file for node 9, with an accepted ID, that is taken for a
      .bit file and reported as truncated. */
  lemma PartialMisread(id: nat, checks: Checks, block: nat) returns (rest: seq<Byte>)
    requires id < 0x1_0000 && checks.id(id)
    ensures |rest| == 56 && Misread(9, rest)
    ensures var file := [0, 9, id / 256, id % 256] + [0xFF, 0xFF, 0xFF, 0xFF] + rest;
      Expected(file, FirstReadSize(file), checks, block) == TruncatedFile
  {
    rest := [0, 0, 0, 0, 1, 'a' as nat, 0xFF, 0xFF] + seq(48, _ => 0);
    var file := [0, 9, id / 256, id % 256] + [0xFF, 0xFF, 0xFF, 0xFF] + rest;
    LongTag(file, checks, block);
  }

  /** A first tag that is said to be longer than the first read. */
  lemma LongTag(file: seq<Byte>, checks: Checks, block: nat)
    requires |file| >= 64 && IsBit(file) && file[14] == 0xFF && file[15] == 0xFF
    ensures Expected(file, FirstReadSize(file), checks, block) == TruncatedFile
  {
    var head := file[..FirstReadSize(file)];
    assert WalkTags(head, 13, checks.tag) == CutShort;
  }

  /** Which files processFile does not recognize, among those of at least 64 bytes. */
  lemma Unrecognized(file: seq<Byte>, checks: Checks, block: nat)
    requires |file| >= 64
    ensures Expected(file, FirstReadSize(file), checks, block) == UnrecognizedFormat <==>
      && !(file[0] == 0 && file[1] == 9 && file[11] == 0 && file[12] == 1 && file[13] == 'a' as nat)
      && !(file[0] == 0xFF && file[1] == 0xFF && file[2] == 0xFF && file[3] == 0xFF)
      && !(file[0] == 0 && file[4] == 0xFF && file[5] == 0xFF && file[6] == 0xFF && file[7] == 0xFF)
  {
    hide WalkTags;
    FourBytes(file, 0);
    FourBytes(file, 4);
  }

  lemma FourBytes(s: seq<Byte>, at: nat)
    requires at + 4 <= |s|
    ensures s[at..at + 4] == [s[at], s[at + 1], s[at + 2], s[at + 3]]
  {
  }
}

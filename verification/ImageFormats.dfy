/** The image files that FpgaImageReader understands: what processFile is to make of any file, and
    how that relates to files in the .bit, .bin and .partial formats. */
module ImageFormats {
  import opened Bytes
  import opened Sequences

  const ALIGN_SIZE: nat := 4096
  const BUFFER_SIZE: nat := 16384

  /** A count, or the exception that processFile throws. Overrun stands for no exception: a read is
      told to store more than its buffer holds. */
  datatype Result = Processed(count: nat) | TruncatedFile | UnrecognizedFormat | IdMismatch | IoError | Overrun

  /** What the callback says of a description tag and of a static ID; false stands for an exception. */
  datatype Checks = Checks(tag: seq<Byte> -> bool, id: nat -> bool)

  /** How much of a file the first read gets, if there are no read errors. */
  function FirstReadSize(content: seq<Byte>): nat {
    Min(ALIGN_SIZE, |content|)
  }

  // ---- .bit: tags, each with a length and a value, up to the tag 'e' with the data ----

  datatype Walk = DataAt(at: nat) | CutShort | Mismatch

  /** A byte of the buffer, which is zero behind the bytes read. */
  function At(head: seq<Byte>, i: nat): Byte {
    if i < |head| then head[i] else 0
  }

  /** Browsing through the tags from `at` on for the data tag. */
  function WalkTags(head: seq<Byte>, at: nat, accepts: seq<Byte> -> bool): (w: Walk)
    requires at < |head|
    ensures w.DataAt? ==> at <= w.at < |head|
    decreases |head| - at
  {
    if head[at] == 'e' as nat then DataAt(at)
    else if at + 1 >= |head| then CutShort
    else
      var next := at + 3 + U16(head[at + 1], At(head, at + 2));
      if next >= |head| then CutShort
      else if head[at] == 'a' as nat && !accepts(head[at + 3..next]) then Mismatch
      else WalkTags(head, next, accepts)
  }

  predicate IsBit(head: seq<Byte>)
    requires |head| >= 64
  {
    U16(head[0], head[1]) == 9 && U16(head[11], head[12]) == 1 && head[13] == 'a' as nat
  }

  /** Where the payload starts, the size the file states, and how many bytes are sent. */
  datatype Plan = Send(start: nat, size: nat, total: nat) | Reject(reason: Result)

  /** A payload that is not all in the first read takes at least ALIGN_SIZE bytes. */
  function TotalFor(firstRead: nat, size: nat): nat {
    if size <= firstRead || size >= ALIGN_SIZE then size else ALIGN_SIZE
  }

  /** The reads of a payload fit in the reader's own buffer. */
  predicate Fits(size: nat, block: nat) {
    size <= ALIGN_SIZE + BUFFER_SIZE || block <= BUFFER_SIZE
  }

  /** A file of which the first read got `m` bytes, sent in blocks of `block` bytes. */
  function BitPlan(content: seq<Byte>, m: nat, accepts: seq<Byte> -> bool, block: nat): (p: Plan)
    requires 64 <= m <= |content|
    ensures p.Send? ==> p.start + p.total <= |content|
  {
    PlanFor(content, m, WalkTags(content[..m], 13, accepts), block)
  }

  function PlanFor(content: seq<Byte>, m: nat, w: Walk, block: nat): (p: Plan)
    requires m <= |content|
    ensures p.Send? ==> p.start + p.total <= |content|
  {
    match w
    case CutShort => Reject(TruncatedFile)
    case Mismatch => Reject(IdMismatch)
    case DataAt(e) =>
      if e + 5 >= m then Reject(TruncatedFile)
      else PayloadPlan(content, m, e + 5, U32(content[e + 1], content[e + 2], content[e + 3], content[e + 4]), block)
  }

  function PayloadPlan(content: seq<Byte>, m: nat, start: nat, size: nat, block: nat): (p: Plan)
    requires start < m <= |content|
    ensures p.Send? ==> p.start + p.total <= |content|
  {
    var total := TotalFor(m - start, size);
    if start + Min(total, ALIGN_SIZE) > |content| && size > m - start then Reject(TruncatedFile)
    else if size > m - start && !Fits(size, block) then Reject(Overrun)
    else if start + total > |content| then Reject(TruncatedFile)
    else Send(start, size, total)
  }

  // ---- .bin and .partial: sent as they are ----

  predicate AllOnes(s: seq<Byte>) {
    s == [0xFF, 0xFF, 0xFF, 0xFF]
  }

  function BinResult(content: seq<Byte>, accepts: nat -> bool, block: nat): Result
    requires |content| >= 64
  {
    var done := if block < BUFFER_SIZE then Overrun else Processed(|content|);
    if AllOnes(content[..4]) then done
    else if content[0] == 0 && AllOnes(content[4..8]) then
      if accepts(U16(content[2], content[3])) then done else IdMismatch
    else UnrecognizedFormat
  }

  function ResultOf(p: Plan): Result {
    match p
    case Send(_, size, _) => Processed(size)
    case Reject(reason) => reason
  }

  /** The result for a file of which the first read got `m` bytes, if no other read fails. */
  function Expected(content: seq<Byte>, m: nat, checks: Checks, block: nat): Result
    requires m <= |content|
  {
    if m < 64 then TruncatedFile
    else if IsBit(content[..m]) then ResultOf(BitPlan(content, m, checks.tag, block))
    else BinResult(content, checks.id, block)
  }

  // ---- files written in the .bit format ----

  /** Its length fits in 16 bits. */
  type Value = v: seq<Byte> | |v| < 0x1_0000

  datatype Tag = Tag(id: Byte, value: Value)

  predicate TagOk(t: Tag, accepts: seq<Byte> -> bool) {
    t.id != 'e' as nat && (t.id == 'a' as nat ==> accepts(t.value))
  }

  function EncodeTag(t: Tag): seq<Byte>
  {
    [t.id] + EncodeU16(|t.value|) + t.value
  }

  function EncodeTags(tags: seq<Tag>): seq<Byte>
  {
    if tags == [] then [] else EncodeTag(tags[0]) + EncodeTags(tags[1..])
  }

  function DataPart(payload: seq<Byte>): seq<Byte>
    requires |payload| < 0x1_0000_0000
  {
    ['e' as nat] + (EncodeU32(|payload|) + payload)
  }

  function EncodeBit(preamble: seq<Byte>, tags: seq<Tag>, payload: seq<Byte>): seq<Byte>
    requires |payload| < 0x1_0000_0000
  {
    preamble + (EncodeTags(tags) + DataPart(payload))
  }

  predicate PreambleOk(preamble: seq<Byte>) {
    |preamble| == 13 && U16(preamble[0], preamble[1]) == 9 && U16(preamble[11], preamble[12]) == 1
  }

  /** `s` holds the tag at `at`. */
  predicate TagAt(s: seq<Byte>, at: nat, t: Tag) {
    && at + 3 + |t.value| <= |s|
    && s[at] == t.id && U16(s[at + 1], s[at + 2]) == |t.value|
    && s[at + 3..at + 3 + |t.value|] == t.value
  }

  lemma FirstTag(before: seq<Byte>, t: Tag, after: seq<Byte>)
    ensures TagAt(before + (EncodeTag(t) + after), |before|, t)
    ensures |EncodeTag(t)| == 3 + |t.value|
  {
    var e := EncodeTag(t);
    assert e[3..] == t.value;
    var s, at := before + (e + after), |before|;
    assert s[at..at + |e|] == e;
    assert s[at + 3..at + |e|] == s[at..at + |e|][3..];
    assert e[1] == |t.value| / 256 && e[2] == |t.value| % 256;
    assert s[at + 1] == e[1] && s[at + 2] == e[2];
  }

  /** `s` holds the tags from `at` up to `end`, where something else follows. */
  predicate TagsAt(s: seq<Byte>, at: nat, tags: seq<Tag>, end: nat)
    decreases |tags|
  {
    if tags == [] then at == end < |s|
    else TagAt(s, at, tags[0]) && TagsAt(s, at + 3 + |tags[0].value|, tags[1..], end)
  }

  lemma {:induction false} TagsAtEnd(s: seq<Byte>, at: nat, tags: seq<Tag>, end: nat)
    requires TagsAt(s, at, tags, end)
    ensures at <= end < |s|
    decreases |tags|
  {
    if tags != [] {
      TagsAtEnd(s, at + 3 + |tags[0].value|, tags[1..], end);
    }
  }

  lemma FirstOfTags(s: seq<Byte>, before: seq<Byte>, tags: seq<Tag>, rest: seq<Byte>)
    requires tags != [] && s == before + (EncodeTags(tags) + rest)
    ensures TagAt(s, |before|, tags[0])
    ensures s == (before + EncodeTag(tags[0])) + (EncodeTags(tags[1..]) + rest)
    ensures |EncodeTags(tags)| == 3 + |tags[0].value| + |EncodeTags(tags[1..])|
  {
    var t, after := tags[0], EncodeTags(tags[1..]) + rest;
    Associative(EncodeTag(t), EncodeTags(tags[1..]), rest);
    FirstTag(before, t, after);
    Associative(before, EncodeTag(t), after);
  }

  lemma {:induction false} EncodedTagsAt(s: seq<Byte>, before: seq<Byte>, tags: seq<Tag>, rest: seq<Byte>, end: nat)
    requires rest != [] && end == |before| + |EncodeTags(tags)|
    requires s == before + (EncodeTags(tags) + rest)
    ensures TagsAt(s, |before|, tags, end) && s[end..] == rest
    decreases |tags|
  {
    if tags != [] {
      FirstOfTags(s, before, tags, rest);
      EncodedTagsAt(s, before + EncodeTag(tags[0]), tags[1..], rest, end);
    }
  }

  /** One turn of the walk over a file `s` of which the first `m` bytes were read. */
  lemma StepOver(s: seq<Byte>, m: nat, at: nat, t: Tag, accepts: seq<Byte> -> bool)
    requires TagOk(t, accepts) && at < m <= |s| && TagAt(s, at, t)
    ensures var next := at + 3 + |t.value|;
      WalkTags(s[..m], at, accepts) == if next >= m then CutShort else WalkTags(s[..m], next, accepts)
  {
    var head, next := s[..m], at + 3 + |t.value|;
    if next < m {
      assert head[at + 3..next] == t.value;
    }
  }

  /** Walking over tags finds the data tag, if it lies in what was read, and reports a truncated
      file otherwise. */
  lemma {:induction false} WalkFinds(s: seq<Byte>, m: nat, at: nat, tags: seq<Tag>, end: nat,
      accepts: seq<Byte> -> bool)
    requires forall t :: t in tags ==> TagOk(t, accepts)
    requires TagsAt(s, at, tags, end) && end < |s| && s[end] == 'e' as nat && at < m <= |s|
    ensures WalkTags(s[..m], at, accepts) == if end < m then DataAt(end) else CutShort
    decreases |tags|
  {
    if tags != [] {
      var next := at + 3 + |tags[0].value|;
      assert TagOk(tags[0], accepts);
      StepOver(s, m, at, tags[0], accepts);
      TagsAtEnd(s, next, tags[1..], end);
      if next < m {
        WalkFinds(s, m, next, tags[1..], end, accepts);
      }
    }
  }

  // ---- round trip ----

  /** Whether the header, the length word and a byte behind it lie in the first read, and the payload
      either does so too, or takes at least that much, or enough follows it in the file. */
  predicate Readable(header: nat, payload: nat, length: nat) {
    && header < ALIGN_SIZE && header < length
    && (header + payload <= ALIGN_SIZE || payload >= ALIGN_SIZE || header + ALIGN_SIZE <= length)
  }

  /** How many bytes are sent from the start of the payload on. */
  function SentFor(header: nat, payload: nat): nat {
    if header + payload <= ALIGN_SIZE || payload >= ALIGN_SIZE then payload else ALIGN_SIZE
  }

  lemma DataPartAt(before: seq<Byte>, payload: seq<Byte>, trailer: seq<Byte>)
    requires |payload| < 0x1_0000_0000
    ensures var s, e := before + (DataPart(payload) + trailer), |before|;
      && s[e] == 'e' as nat && U32(s[e + 1], s[e + 2], s[e + 3], s[e + 4]) == |payload|
      && |s| == e + 5 + |payload| + |trailer| && s[e + 5..] == payload + trailer
  {
    U32RoundTrip(|payload|);
    var s, e := before + (DataPart(payload) + trailer), |before|;
    assert s[e..] == DataPart(payload) + trailer;
    assert s[e..][1..5] == EncodeU32(|payload|);
    assert forall i :: 0 <= i < 4 ==> s[e + 1 + i] == s[e..][1..5][i];
  }

  lemma PlanFromWalk(file: seq<Byte>, e: nat, payload: nat, accepts: seq<Byte> -> bool, block: nat)
    requires |file| >= 64 && |file| >= e + 5 + payload
    requires U32(file[e + 1], file[e + 2], file[e + 3], file[e + 4]) == payload
    requires var m := FirstReadSize(file);
      WalkTags(file[..m], 13, accepts) == if e < m then DataAt(e) else CutShort
    ensures BitPlan(file, FirstReadSize(file), accepts, block)
         == if !Readable(e + 5, payload, |file|) then Reject(TruncatedFile)
            else if !Fits(payload, block) then Reject(Overrun)
            else Send(e + 5, payload, SentFor(e + 5, payload))
  {
  }

  lemma PreambleAt(file: seq<Byte>, preamble: seq<Byte>)
    requires PreambleOk(preamble) && |file| >= 64 && preamble <= file && file[13] == 'a' as nat
    ensures IsBit(file[..FirstReadSize(file)])
  {
  }

  /** A file written in the .bit format, whatever follows it in the file, is sent exactly, with the
      size it states, if it is readable in this sense and its reads fit; if it is not readable
      processFile reports a truncated file. Only a short payload that is not all in the first read is
      sent with some of what follows it. */
  lemma BitRoundTrip(file: seq<Byte>, preamble: seq<Byte>, tags: seq<Tag>, payload: seq<Byte>, trailer: seq<Byte>,
      accepts: seq<Byte> -> bool, block: nat)
    requires PreambleOk(preamble) && tags != [] && tags[0].id == 'a' as nat
    requires forall t :: t in tags ==> TagOk(t, accepts)
    requires |payload| < 0x1_0000_0000 && file == EncodeBit(preamble, tags, payload) + trailer && |file| >= 64
    ensures var header := |file| - |payload + trailer|;
      && IsBit(file[..FirstReadSize(file)]) && file[header..] == payload + trailer
      && BitPlan(file, FirstReadSize(file), accepts, block)
         == if !Readable(header, |payload|, |file|) then Reject(TruncatedFile)
            else if !Fits(|payload|, block) then Reject(Overrun)
            else Send(header, |payload|, SentFor(header, |payload|))
  {
    var e := 13 + |EncodeTags(tags)|;
    var data := DataPart(payload) + trailer;
    Associative(EncodeTags(tags), DataPart(payload), trailer);
    Associative(preamble, EncodeTags(tags) + DataPart(payload), trailer);
    EncodedTagsAt(file, preamble, tags, data, e);
    PreambleAt(file, preamble);
    assert file[e..][0] == data[0];
    WalkFinds(file, FirstReadSize(file), 13, tags, e, accepts);
    Associative(preamble, EncodeTags(tags), data);
    DataPartAt(preamble + EncodeTags(tags), payload, trailer);
    PlanFromWalk(file, e, |payload|, accepts, block);
  }

  /** A description tag that the callback refuses ends processFile, if it lies in the first read;
      without such a tag the file would have been cut short. */
  lemma {:induction false} RefusedTag(s: seq<Byte>, m: nat, at: nat, tags: seq<Tag>, accepts: seq<Byte> -> bool,
      end: nat, refused: Tag)
    requires forall t :: t in tags ==> TagOk(t, accepts)
    requires refused.id == 'a' as nat && !accepts(refused.value)
    requires at < m <= |s| && TagsAt(s, at, tags, end) && TagAt(s, end, refused)
    ensures WalkTags(s[..m], at, accepts) == if end + 3 + |refused.value| < m then Mismatch else CutShort
    decreases |tags|
  {
    if tags == [] {
      RefusedHere(s, m, at, refused, accepts);
    } else {
      var next := at + 3 + |tags[0].value|;
      assert TagOk(tags[0], accepts);
      StepOver(s, m, at, tags[0], accepts);
      TagsAtEnd(s, next, tags[1..], end);
      if next < m { RefusedTag(s, m, next, tags[1..], accepts, end, refused); }
    }
  }

  lemma RefusedHere(s: seq<Byte>, m: nat, at: nat, refused: Tag, accepts: seq<Byte> -> bool)
    requires refused.id == 'a' as nat && !accepts(refused.value) && at < m <= |s| && TagAt(s, at, refused)
    ensures WalkTags(s[..m], at, accepts) == if at + 3 + |refused.value| < m then Mismatch else CutShort
  {
    var next := at + 3 + |refused.value|;
    if next < m { assert s[..m][at + 3..next] == refused.value; }
  }

  /** A file with a description tag that the callback refuses, behind tags that it accepts. */
  lemma RefusedPlan(file: seq<Byte>, preamble: seq<Byte>, tags: seq<Tag>, refused: Tag, rest: seq<Byte>,
      accepts: seq<Byte> -> bool, block: nat)
    requires PreambleOk(preamble) && (tags != [] ==> tags[0].id == 'a' as nat)
    requires forall t :: t in tags ==> TagOk(t, accepts)
    requires refused.id == 'a' as nat && !accepts(refused.value)
    requires file == preamble + (EncodeTags(tags) + (EncodeTag(refused) + rest)) && |file| >= 64
    ensures IsBit(file[..FirstReadSize(file)])
    ensures BitPlan(file, FirstReadSize(file), accepts, block)
         == Reject(if |file| - |rest| < FirstReadSize(file) then IdMismatch else TruncatedFile)
  {
    hide WalkTags, TagsAt, TagOk, U16, U32;
    var e := 13 + |EncodeTags(tags)|;
    EncodedTagsAt(file, preamble, tags, EncodeTag(refused) + rest, e);
    Associative(preamble, EncodeTags(tags), EncodeTag(refused) + rest);
    FirstTag(preamble + EncodeTags(tags), refused, rest);
    if tags != [] { FirstOfTags(file, preamble, tags, EncodeTag(refused) + rest); }
    PreambleAt(file, preamble);
    RefusedTag(file, FirstReadSize(file), 13, tags, accepts, e, refused);
  }
}

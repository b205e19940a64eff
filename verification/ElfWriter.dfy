/** The ELF writer of build.rs, and the theorem that the kernel's parser inverts it. */
module ElfWriter {
  import opened Base
  import opened LittleEndian
  import opened ElfFormat

  datatype Segment = Segment(vaddr: nat, flags: nat, memsz: nat, data: seq<byte>)

  function Align(v: nat): (r: nat)
    ensures r % PAGE_SIZE == 0 && v <= r < v + PAGE_SIZE
  {
    AlignDown(v + PAGE_SIZE - 1)
  }

  /** Length of the file once the first `k` segments are placed. */
  function FileEnd(segments: seq<Segment>, k: nat): nat
    requires k <= |segments|
  {
    if k == 0 then Align(ELF_HEADER_SIZE + PROGRAM_HEADER_SIZE * |segments|)
    else if segments[k - 1].data == [] then FileEnd(segments, k - 1)
    else Align(FileEnd(segments, k - 1)) + |segments[k - 1].data|
  }

  /** Where the data of segment `k` goes; 0 if it has none. */
  function OffsetOf(segments: seq<Segment>, k: nat): nat
    requires k < |segments|
  {
    if segments[k].data == [] then 0 else Align(FileEnd(segments, k))
  }

  /** Every number fits the width it is written with, and the file its length. */
  ghost predicate Fits(entry: nat, segments: seq<Segment>) {
    && entry < U64 && |segments| < U16
    && (forall i | 0 <= i < |segments| :: segments[i].vaddr < U64 && segments[i].flags < U32 && segments[i].memsz < U64)
    && FileEnd(segments, |segments|) < U64
  }

  // ----- byte buffers -----

  function Overwrite(b: seq<byte>, offset: nat, chunk: seq<byte>): (r: seq<byte>)
    ensures |r| == |b|
  {
    if offset + |chunk| <= |b| then b[..offset] + chunk + b[offset + |chunk|..] else b
  }

  lemma OverwriteSlices(b: seq<byte>, offset: nat, chunk: seq<byte>, at: nat, data: seq<byte>)
    requires offset + |chunk| <= |b|
    ensures SliceAt(Overwrite(b, offset, chunk), offset, chunk)
    ensures SliceAt(b, at, data) && (at + |data| <= offset || offset + |chunk| <= at) ==>
              SliceAt(Overwrite(b, offset, chunk), at, data)
  {
    if SliceAt(b, at, data) && (at + |data| <= offset || offset + |chunk| <= at) {
      assert Overwrite(b, offset, chunk)[at..at + |data|] == b[at..at + |data|];
    }
  }

  lemma OverwriteNothing(b: seq<byte>, offset: nat)
    ensures Overwrite(b, offset, []) == b
    ensures SliceAt(b, 0, [])
  {
  }

  lemma OverwriteNext(b: seq<byte>, offset: nat, x: seq<byte>, y: seq<byte>)
    requires offset + |x| + |y| <= |b|
    ensures Overwrite(Overwrite(b, offset, x), offset + |x|, y) == Overwrite(b, offset, x + y)
  {
  }

  // ----- the file -----

  /** Bytes 0 to 7, 16 to 40 and 52 to 58 of the ELF header. The count is truncated
      to 16 bits. */
  function Ident(): seq<byte> {
    MAGIC + [2, 1, 1]
  }

  function HeaderStart(entry: nat): (r: seq<byte>)
    ensures |r| == 24
  {
    Encode(2, 2) + Encode(0x3e, 2) + Encode(1, 4) + Encode(entry, 8) + Encode(ELF_HEADER_SIZE, 8)
  }

  function HeaderSizes(count: nat): (r: seq<byte>)
    ensures |r| == 6
  {
    Encode(ELF_HEADER_SIZE, 2) + Encode(PROGRAM_HEADER_SIZE, 2) + Encode(count % U16, 2)
  }

  function ProgramHeader(s: Segment, offset: nat): (r: seq<byte>)
    ensures |r| == PROGRAM_HEADER_SIZE
  {
    Encode(1, 4) + Encode(s.flags, 4) + Encode(offset, 8) + Encode(s.vaddr, 8) + Encode(s.vaddr, 8)
    + Encode(|s.data|, 8) + Encode(s.memsz, 8) + Encode(PAGE_SIZE, 8)
  }

  function WithHeader(b: seq<byte>, entry: nat, count: nat): (r: seq<byte>)
    ensures |r| == |b|
  {
    Overwrite(Overwrite(Overwrite(b, 0, Ident()), 16, HeaderStart(entry)), 52, HeaderSizes(count))
  }

  function WithSegment(b: seq<byte>, segments: seq<Segment>, k: nat): (r: seq<byte>)
    requires k < |segments|
    ensures |r| == |b|
  {
    Overwrite(
      Overwrite(b, ELF_HEADER_SIZE + k * PROGRAM_HEADER_SIZE, ProgramHeader(segments[k], OffsetOf(segments, k))),
      OffsetOf(segments, k), segments[k].data)
  }

  function WithSegments(b: seq<byte>, segments: seq<Segment>, k: nat): (r: seq<byte>)
    requires k <= |segments|
    ensures |r| == |b|
  {
    if k == 0 then b else WithSegment(WithSegments(b, segments, k - 1), segments, k - 1)
  }

  /** The file: a zero buffer, the ELF header, then each program header and its data. */
  function Image(entry: nat, segments: seq<Segment>): seq<byte> {
    WithSegments(WithHeader(Zeros(FileEnd(segments, |segments|)), entry, |segments|), segments, |segments|)
  }

  /** `put_u16`, `put_u32` and `put_u64`, by width */
  method Put(bytes: array<byte>, offset: nat, v: nat, width: nat)
    requires offset + width <= bytes.Length
    modifies bytes
    ensures bytes[..] == Overwrite(old(bytes[..]), offset, Encode(v, width))
  {
    Copy(bytes, offset, Encode(v, width));
  }

  /** `copy_from_slice` into `bytes[offset..offset + data.len()]` */
  method Copy(bytes: array<byte>, offset: nat, data: seq<byte>)
    requires offset + |data| <= bytes.Length
    modifies bytes
    ensures bytes[..] == Overwrite(old(bytes[..]), offset, data)
  {
    var i := 0;
    while i < |data|
      invariant 0 <= i <= |data|
      invariant forall j | 0 <= j < bytes.Length ::
                  bytes[j] == if offset <= j < offset + i then data[j - offset] else old(bytes[j])
    {
      bytes[offset + i] := data[i];
      i := i + 1;
    }
    var result := Overwrite(old(bytes[..]), offset, data);
    assert forall j | 0 <= j < bytes.Length :: bytes[j] == result[j];
  }

  method PutHeader(bytes: array<byte>, entry: nat, count: nat)
    requires bytes.Length >= ELF_HEADER_SIZE
    modifies bytes
    ensures bytes[..] == WithHeader(old(bytes[..]), entry, count)
  {
    ghost var b0 := bytes[..];
    Copy(bytes, 0, MAGIC);
    bytes[4], bytes[5], bytes[6] := 2, 1, 1;
    assert bytes[..] == Overwrite(b0, 0, Ident());
    ghost var b1 := bytes[..];
    Put(bytes, 16, 2, 2);
    Put(bytes, 18, 0x3e, 2);
    OverwriteNext(b1, 16, Encode(2, 2), Encode(0x3e, 2));
    Put(bytes, 20, 1, 4);
    OverwriteNext(b1, 16, Encode(2, 2) + Encode(0x3e, 2), Encode(1, 4));
    Put(bytes, 24, entry, 8);
    OverwriteNext(b1, 16, Encode(2, 2) + Encode(0x3e, 2) + Encode(1, 4), Encode(entry, 8));
    Put(bytes, 32, ELF_HEADER_SIZE, 8);
    OverwriteNext(b1, 16, Encode(2, 2) + Encode(0x3e, 2) + Encode(1, 4) + Encode(entry, 8), Encode(ELF_HEADER_SIZE, 8));
    ghost var b2 := bytes[..];
    Put(bytes, 52, ELF_HEADER_SIZE, 2);
    Put(bytes, 54, PROGRAM_HEADER_SIZE, 2);
    OverwriteNext(b2, 52, Encode(ELF_HEADER_SIZE, 2), Encode(PROGRAM_HEADER_SIZE, 2));
    Put(bytes, 56, count % U16, 2);
    OverwriteNext(b2, 52, Encode(ELF_HEADER_SIZE, 2) + Encode(PROGRAM_HEADER_SIZE, 2), Encode(count % U16, 2));
  }

  method PutProgramHeader(bytes: array<byte>, ph: nat, s: Segment, offset: nat)
    requires ph + PROGRAM_HEADER_SIZE <= bytes.Length
    modifies bytes
    ensures bytes[..] == Overwrite(old(bytes[..]), ph, ProgramHeader(s, offset))
  {
    ghost var b := bytes[..];
    ghost var run := Encode(1, 4);
    Put(bytes, ph, 1, 4);
    Put(bytes, ph + 4, s.flags, 4);
    OverwriteNext(b, ph, run, Encode(s.flags, 4));
    run := run + Encode(s.flags, 4);
    Put(bytes, ph + 8, offset, 8);
    OverwriteNext(b, ph, run, Encode(offset, 8));
    run := run + Encode(offset, 8);
    Put(bytes, ph + 16, s.vaddr, 8);
    OverwriteNext(b, ph, run, Encode(s.vaddr, 8));
    run := run + Encode(s.vaddr, 8);
    Put(bytes, ph + 24, s.vaddr, 8);
    OverwriteNext(b, ph, run, Encode(s.vaddr, 8));
    run := run + Encode(s.vaddr, 8);
    Put(bytes, ph + 32, |s.data|, 8);
    OverwriteNext(b, ph, run, Encode(|s.data|, 8));
    run := run + Encode(|s.data|, 8);
    Put(bytes, ph + 40, s.memsz, 8);
    OverwriteNext(b, ph, run, Encode(s.memsz, 8));
    run := run + Encode(s.memsz, 8);
    Put(bytes, ph + 48, PAGE_SIZE, 8);
    OverwriteNext(b, ph, run, Encode(PAGE_SIZE, 8));
  }

  /** The first loop of `elf`: place the data of each segment. */
  method Place(segments: seq<Segment>) returns (offsets: array<nat>, fileLen: nat)
    ensures fresh(offsets) && offsets.Length == |segments|
    ensures fileLen == FileEnd(segments, |segments|)
    ensures forall i | 0 <= i < |segments| :: offsets[i] == OffsetOf(segments, i)
  {
    offsets := new nat[|segments|](_ => 0);
    fileLen := Align(ELF_HEADER_SIZE + PROGRAM_HEADER_SIZE * |segments|);
    var index := 0;
    while index < |segments|
      invariant 0 <= index <= |segments|
      invariant fileLen == FileEnd(segments, index)
      invariant forall i | 0 <= i < |segments| :: offsets[i] == if i < index then OffsetOf(segments, i) else 0
    {
      if segments[index].data != [] {
        fileLen := Align(fileLen);
        offsets[index] := fileLen;
        fileLen := fileLen + |segments[index].data|;
      }
      index := index + 1;
    }
  }

  /** The body of the second loop of `elf`. */
  method PutSegment(bytes: array<byte>, segments: seq<Segment>, index: nat, offset: nat)
    requires index < |segments| && offset == OffsetOf(segments, index)
    requires bytes.Length == FileEnd(segments, |segments|)
    modifies bytes
    ensures bytes[..] == WithSegment(old(bytes[..]), segments, index)
  {
    hide Overwrite, ProgramHeader;
    FileEndGrows(segments, index + 1, |segments|);
    PutProgramHeader(bytes, ELF_HEADER_SIZE + index * PROGRAM_HEADER_SIZE, segments[index], offset);
    ghost var b := bytes[..];
    if segments[index].data != [] {
      Copy(bytes, offset, segments[index].data);
    } else {
      OverwriteNothing(b, 0);
    }
  }

  /** `elf`: place the data, then fill a zero buffer. */
  method Elf(entry: nat, segments: seq<Segment>) returns (bytes: array<byte>)
    requires Fits(entry, segments)
    ensures fresh(bytes) && bytes[..] == Image(entry, segments)
  {
    hide WithHeader, WithSegment, FileEnd, OffsetOf;
    var offsets, fileLen := Place(segments);
    bytes := new byte[fileLen](_ => 0);
    assert bytes[..] == Zeros(fileLen);
    FileEndGrows(segments, 0, |segments|);
    PutHeader(bytes, entry, |segments|);
    ghost var start := bytes[..];
    var index := 0;
    while index < |segments|
      invariant 0 <= index <= |segments|
      invariant bytes[..] == WithSegments(start, segments, index)
      invariant forall i | 0 <= i < |segments| :: offsets[i] == OffsetOf(segments, i)
    {
      PutSegment(bytes, segments, index, offsets[index]);
      index := index + 1;
    }
  }

  lemma {:induction false} FileEndGrows(segments: seq<Segment>, j: nat, k: nat)
    requires j <= k <= |segments|
    ensures ELF_HEADER_SIZE + PROGRAM_HEADER_SIZE * |segments| <= FileEnd(segments, j) <= FileEnd(segments, k)
    decreases k
  {
    if j < k {
      FileEndGrows(segments, j, k - 1);
    } else if k > 0 {
      FileEndGrows(segments, k - 1, k - 1);
    }
  }

  /** Program headers come first, then the data in order; data offsets are
      page-aligned. */
  lemma PlaceFacts(segments: seq<Segment>, k: nat)
    requires k < |segments|
    ensures ELF_HEADER_SIZE + PROGRAM_HEADER_SIZE * |segments| <= FileEnd(segments, k)
    ensures FileEnd(segments, k) <= FileEnd(segments, k + 1) <= FileEnd(segments, |segments|)
    ensures Aligned(OffsetOf(segments, k))
    ensures if segments[k].data == [] then OffsetOf(segments, k) == 0
            else FileEnd(segments, k) <= OffsetOf(segments, k)
                 && OffsetOf(segments, k) + |segments[k].data| == FileEnd(segments, k + 1)
  {
    FileEndGrows(segments, k, k + 1);
    FileEndGrows(segments, k + 1, |segments|);
  }

  // ----- what the file holds -----

  /** The header, and the program headers and data of the first `k` segments. */
  ghost predicate HoldsFile(b: seq<byte>, entry: nat, segments: seq<Segment>, k: nat)
    requires k <= |segments|
  {
    && |b| == FileEnd(segments, |segments|)
    && SliceAt(b, 0, Ident()) && SliceAt(b, 16, HeaderStart(entry)) && SliceAt(b, 52, HeaderSizes(|segments|))
    && forall i | 0 <= i < k :: HoldsSegment(b, segments, i)
  }

  ghost predicate HoldsSegment(b: seq<byte>, segments: seq<Segment>, i: nat)
    requires i < |segments|
  {
    && SliceAt(b, ELF_HEADER_SIZE + i * PROGRAM_HEADER_SIZE, ProgramHeader(segments[i], OffsetOf(segments, i)))
    && SliceAt(b, OffsetOf(segments, i), segments[i].data)
  }

  lemma HeaderHeld(b: seq<byte>, entry: nat, segments: seq<Segment>)
    requires |b| == FileEnd(segments, |segments|)
    ensures HoldsFile(WithHeader(b, entry, |segments|), entry, segments, 0)
  {
    FileEndGrows(segments, 0, |segments|);
    var b1 := Overwrite(b, 0, Ident());
    var b2 := Overwrite(b1, 16, HeaderStart(entry));
    OverwriteSlices(b, 0, Ident(), 0, []);
    OverwriteSlices(b1, 16, HeaderStart(entry), 0, Ident());
    OverwriteSlices(b2, 52, HeaderSizes(|segments|), 0, Ident());
    OverwriteSlices(b2, 52, HeaderSizes(|segments|), 16, HeaderStart(entry));
  }

  /** A slice that neither the program header nor the data of segment `k` touches
      survives writing them. */
  lemma SegmentFrame(b: seq<byte>, segments: seq<Segment>, k: nat, at: nat, data: seq<byte>)
    requires k < |segments| && |b| == FileEnd(segments, |segments|) && SliceAt(b, at, data)
    requires at + |data| <= ELF_HEADER_SIZE + k * PROGRAM_HEADER_SIZE
             || (ELF_HEADER_SIZE + (k + 1) * PROGRAM_HEADER_SIZE <= at && at + |data| <= FileEnd(segments, k))
    ensures SliceAt(WithSegment(b, segments, k), at, data)
  {
    hide ProgramHeader, Overwrite, SliceAt, FileEnd, OffsetOf;
    PlaceFacts(segments, k);
    var ph := ELF_HEADER_SIZE + k * PROGRAM_HEADER_SIZE;
    var header := ProgramHeader(segments[k], OffsetOf(segments, k));
    OverwriteSlices(b, ph, header, at, data);
    if segments[k].data == [] {
      OverwriteNothing(Overwrite(b, ph, header), 0);
    } else {
      OverwriteSlices(Overwrite(b, ph, header), OffsetOf(segments, k), segments[k].data, at, data);
    }
  }

  lemma SegmentHeld(b: seq<byte>, segments: seq<Segment>, k: nat)
    requires k < |segments| && |b| == FileEnd(segments, |segments|)
    ensures HoldsSegment(WithSegment(b, segments, k), segments, k)
  {
    hide ProgramHeader, Overwrite, SliceAt, FileEnd, OffsetOf;
    PlaceFacts(segments, k);
    var ph := ELF_HEADER_SIZE + k * PROGRAM_HEADER_SIZE;
    var header := ProgramHeader(segments[k], OffsetOf(segments, k));
    OverwriteSlices(b, ph, header, 0, []);
    if segments[k].data == [] {
      OverwriteNothing(Overwrite(b, ph, header), 0);
    } else {
      OverwriteSlices(Overwrite(b, ph, header), OffsetOf(segments, k), segments[k].data, ph, header);
    }
  }

  lemma {:induction false} SegmentsHeld(b: seq<byte>, entry: nat, segments: seq<Segment>, k: nat)
    requires k <= |segments| && HoldsFile(b, entry, segments, 0)
    ensures HoldsFile(WithSegments(b, segments, k), entry, segments, k)
  {
    hide HoldsSegment, WithSegment, SliceAt, FileEnd;
    if k > 0 {
      SegmentsHeld(b, entry, segments, k - 1);
      var c := WithSegments(b, segments, k - 1);
      SegmentFrame(c, segments, k - 1, 0, Ident());
      SegmentFrame(c, segments, k - 1, 16, HeaderStart(entry));
      SegmentFrame(c, segments, k - 1, 52, HeaderSizes(|segments|));
      var d := WithSegment(c, segments, k - 1);
      forall i | 0 <= i < k ensures HoldsSegment(d, segments, i) {
        if i == k - 1 {
          SegmentHeld(c, segments, k - 1);
        } else {
          SegmentKept(c, segments, k - 1, i);
        }
      }
    }
  }

  lemma SegmentKept(b: seq<byte>, segments: seq<Segment>, k: nat, i: nat)
    requires i < k < |segments| && |b| == FileEnd(segments, |segments|) && HoldsSegment(b, segments, i)
    ensures HoldsSegment(WithSegment(b, segments, k), segments, i)
  {
    hide ProgramHeader, WithSegment, SliceAt, FileEnd, OffsetOf;
    PlaceFacts(segments, i);
    PlaceFacts(segments, k);
    SegmentFrame(b, segments, k, ELF_HEADER_SIZE + i * PROGRAM_HEADER_SIZE, ProgramHeader(segments[i], OffsetOf(segments, i)));
    if segments[i].data == [] {
      OverwriteNothing(WithSegment(b, segments, k), 0);
    } else {
      FileEndGrows(segments, i + 1, k);
      SegmentFrame(b, segments, k, OffsetOf(segments, i), segments[i].data);
    }
  }

  // ----- reading it back -----

  lemma SliceOfSlice(b: seq<byte>, lo: nat, hi: nat, x: nat, y: nat)
    requires x <= y <= hi - lo && lo <= hi <= |b|
    ensures b[lo..hi][x..y] == b[lo + x..lo + y]
  {
    var u, v := b[lo..hi][x..y], b[lo + x..lo + y];
    forall i | 0 <= i < |u| ensures u[i] == v[i] {
      assert u[i] == b[lo..hi][x + i];
    }
  }

  lemma FieldInRun(b: seq<byte>, base: nat, run: seq<byte>, at: nat, v: nat, width: nat)
    requires SliceAt(b, base, run) && at + width <= |run|
    requires run[at..at + width] == Encode(v, width) && v < Power256(width)
    ensures Field(b, base + at, width) == Ok(v)
  {
    DecodeEncode(v, width);
    SliceOfSlice(b, base, base + |run|, at, at + width);
  }

  lemma HeaderRuns(entry: nat, count: nat)
    ensures HeaderStart(entry)[0..2] == Encode(2, 2)
    ensures HeaderStart(entry)[2..4] == Encode(0x3e, 2)
    ensures HeaderStart(entry)[4..8] == Encode(1, 4)
    ensures HeaderStart(entry)[8..16] == Encode(entry, 8)
    ensures HeaderStart(entry)[16..24] == Encode(ELF_HEADER_SIZE, 8)
    ensures HeaderSizes(count)[0..2] == Encode(ELF_HEADER_SIZE, 2)
    ensures HeaderSizes(count)[2..4] == Encode(PROGRAM_HEADER_SIZE, 2)
    ensures HeaderSizes(count)[4..6] == Encode(count % U16, 2)
  {
    hide Encode;
    var first := Encode(2, 2) + Encode(0x3e, 2) + Encode(1, 4) + Encode(entry, 8);
    assert HeaderStart(entry) == first + Encode(ELF_HEADER_SIZE, 8);
  }

  lemma IdentReadBack(b: seq<byte>)
    requires SliceAt(b, 0, Ident())
    ensures b[0..4] == MAGIC && b[4] == 2 && b[5] == 1 && b[6] == 1
  {
    assert forall j | 0 <= j < 7 :: b[0..7][j] == b[j];
  }

  lemma HeaderReadBack(b: seq<byte>, entry: nat, segments: seq<Segment>)
    requires Fits(entry, segments) && HoldsFile(b, entry, segments, 0)
    ensures ParseHeader(b) == if segments == [] then Err(MalformedHeader) else Ok((entry, ELF_HEADER_SIZE, |segments|))
  {
    hide Encode, HeaderStart, HeaderSizes, Ident, SliceAt, Field, FileEnd;
    Widths();
    FileEndGrows(segments, 0, |segments|);
    IdentReadBack(b);
    HeaderRuns(entry, |segments|);
    var start, sizes := HeaderStart(entry), HeaderSizes(|segments|);
    FieldInRun(b, 16, start, 0, 2, 2);
    FieldInRun(b, 16, start, 2, 0x3e, 2);
    FieldInRun(b, 16, start, 4, 1, 4);
    FieldInRun(b, 16, start, 8, entry, 8);
    FieldInRun(b, 16, start, 16, ELF_HEADER_SIZE, 8);
    FieldInRun(b, 52, sizes, 0, ELF_HEADER_SIZE, 2);
    FieldInRun(b, 52, sizes, 2, PROGRAM_HEADER_SIZE, 2);
    FieldInRun(b, 52, sizes, 4, |segments|, 2);
  }

  lemma ProgramHeaderRuns(s: Segment, offset: nat)
    ensures
      var run := ProgramHeader(s, offset);
      && run[0..4] == Encode(1, 4) && run[4..8] == Encode(s.flags, 4)
      && run[8..16] == Encode(offset, 8) && run[16..24] == Encode(s.vaddr, 8)
      && run[32..40] == Encode(|s.data|, 8) && run[40..48] == Encode(s.memsz, 8)
      && run[48..56] == Encode(PAGE_SIZE, 8)
  {
    hide Encode;
    var first := Encode(1, 4) + Encode(s.flags, 4) + Encode(offset, 8) + Encode(s.vaddr, 8) + Encode(s.vaddr, 8);
    var next := first + Encode(|s.data|, 8) + Encode(s.memsz, 8);
    assert |next| == 48 && ProgramHeader(s, offset) == next + Encode(PAGE_SIZE, 8);
  }

  lemma ProgramHeaderReadBack(b: seq<byte>, entry: nat, segments: seq<Segment>, k: nat)
    requires Fits(entry, segments) && k < |segments| && |b| == FileEnd(segments, |segments|) && HoldsSegment(b, segments, k)
    ensures ParseProgramHeader(b, ELF_HEADER_SIZE + k * PROGRAM_HEADER_SIZE) ==
              var s := segments[k];
              if s.flags >= 8 then Err(MalformedProgramHeader)
              else CheckSegment(b, s.flags, OffsetOf(segments, k), s.vaddr, |s.data|, s.memsz, PAGE_SIZE)
  {
    hide CheckSegment, Encode, ProgramHeader, SliceAt, Field, FileEnd, OffsetOf;
    Widths();
    PlaceFacts(segments, k);
    var s, ph, offset := segments[k], ELF_HEADER_SIZE + k * PROGRAM_HEADER_SIZE, OffsetOf(segments, k);
    var run := ProgramHeader(s, offset);
    ProgramHeaderRuns(s, offset);
    FieldInRun(b, ph, run, 0, 1, 4);
    FieldInRun(b, ph, run, 4, s.flags, 4);
    FieldInRun(b, ph, run, 8, offset, 8);
    FieldInRun(b, ph, run, 16, s.vaddr, 8);
    FieldInRun(b, ph, run, 32, |s.data|, 8);
    FieldInRun(b, ph, run, 40, s.memsz, 8);
    FieldInRun(b, ph, run, 48, PAGE_SIZE, 8);
  }

  // ----- the round trip -----

  /** The segment as the kernel would load it. */
  function Loaded(s: Segment): LoadSegment {
    LoadSegment(s.vaddr, |s.data|, s.memsz, s.flags, s.data, s.vaddr, Align(s.vaddr + s.memsz))
  }

  /** Legal flags, at least one byte, no more data than memory, page-aligned and
      inside the load range. */
  predicate SegmentLoadable(s: Segment) {
    && s.flags < 8 && 1 <= s.memsz && |s.data| <= s.memsz && Aligned(s.vaddr)
    && AlignUp(s.vaddr + s.memsz).Some?
    && USER_ELF_LOAD_START <= s.vaddr && AlignUp(s.vaddr + s.memsz).value <= USER_ELF_LOAD_END
  }

  function LoadedAll(segments: seq<Segment>): (r: seq<LoadSegment>)
    ensures |r| == |segments|
    ensures forall i | 0 <= i < |segments| :: r[i] == Loaded(segments[i])
  {
    seq(|segments|, i requires 0 <= i < |segments| => Loaded(segments[i]))
  }

  ghost predicate Loadable(entry: nat, segments: seq<Segment>) {
    && segments != []
    && (forall i | 0 <= i < |segments| :: SegmentLoadable(segments[i]))
    && Disjoint(LoadedAll(segments))
    && HasEntry(LoadedAll(segments), entry)
  }

  lemma CheckLoadable(b: seq<byte>, segments: seq<Segment>, k: nat)
    requires k < |segments| && |b| == FileEnd(segments, |segments|) && |b| < U64
    requires SliceAt(b, OffsetOf(segments, k), segments[k].data)
    requires segments[k].flags < 8
    ensures
      var s := segments[k];
      var r := CheckSegment(b, s.flags, OffsetOf(segments, k), s.vaddr, |s.data|, s.memsz, PAGE_SIZE);
      && (r.Ok? <==> SegmentLoadable(s))
      && (r.Ok? ==> r.value == Loaded(s))
  {
    hide FileEnd, OffsetOf;
    PlaceFacts(segments, k);
  }

  ghost predicate LoadableUpTo(segments: seq<Segment>, k: nat)
    requires k <= |segments|
  {
    && (forall i | 0 <= i < k :: SegmentLoadable(segments[i]))
    && Disjoint(LoadedAll(segments[..k]))
  }

  lemma LoadableOneMore(segments: seq<Segment>, k: nat)
    requires k < |segments|
    ensures LoadedAll(segments[..k + 1]) == LoadedAll(segments[..k]) + [Loaded(segments[k])]
    ensures LoadableUpTo(segments, k + 1) <==>
              LoadableUpTo(segments, k) && SegmentLoadable(segments[k]) && Clear(LoadedAll(segments[..k]), Loaded(segments[k]))
  {
    hide SegmentLoadable, Disjoint, Clear;
    assert segments[..k + 1] == segments[..k] + [segments[k]];
    DisjointOneMore(LoadedAll(segments[..k]), Loaded(segments[k]));
  }

  /** The first `k` segments read back exactly when they are loadable and disjoint. */
  lemma {:induction false} SegmentsReadBack(b: seq<byte>, entry: nat, segments: seq<Segment>, k: nat)
    requires Fits(entry, segments) && HoldsFile(b, entry, segments, |segments|) && k <= |segments|
    ensures
      var r := ParseSegments(b, ELF_HEADER_SIZE, k);
      && (r.Ok? <==> LoadableUpTo(segments, k))
      && (r.Ok? ==> r.value == LoadedAll(segments[..k]))
  {
    hide ParseProgramHeader, SegmentLoadable, Clear, Loaded, LoadedAll, HoldsFile, Fits;
    if k > 0 {
      hide LoadableUpTo;
      SegmentsReadBack(b, entry, segments, k - 1);
      SegmentReadBack(b, entry, segments, k - 1);
      LoadableOneMore(segments, k - 1);
    }
  }

  lemma SegmentReadBack(b: seq<byte>, entry: nat, segments: seq<Segment>, k: nat)
    requires Fits(entry, segments) && HoldsFile(b, entry, segments, |segments|) && k < |segments|
    ensures
      var r := ParseProgramHeader(b, ELF_HEADER_SIZE + k * PROGRAM_HEADER_SIZE);
      && (r.Ok? <==> SegmentLoadable(segments[k]))
      && (r.Ok? ==> r.value == Loaded(segments[k]))
  {
    assert HoldsSegment(b, segments, k);
    ProgramHeaderReadBack(b, entry, segments, k);
    if segments[k].flags < 8 {
      CheckLoadable(b, segments, k);
    }
  }

  /** Round trip: the parser accepts a written file exactly when its segments are
      loadable, and then returns the very entry point and segments that were
      written, empty data included. */
  lemma RoundTrip(entry: nat, segments: seq<Segment>)
    requires Fits(entry, segments)
    ensures Parse(Image(entry, segments)).Ok? <==> Loadable(entry, segments)
    ensures Loadable(entry, segments) ==>
              Parse(Image(entry, segments)) == Ok(ParsedElf(entry, LoadedAll(segments)))
  {
    hide ParseHeader, SegmentLoadable, FileEnd, WithHeader, Fits, HoldsSegment, SliceAt, Disjoint, Loaded, HasEntry;
    var b := WithHeader(Zeros(FileEnd(segments, |segments|)), entry, |segments|);
    HeaderHeld(Zeros(FileEnd(segments, |segments|)), entry, segments);
    SegmentsHeld(b, entry, segments, |segments|);
    var image := Image(entry, segments);
    HeaderReadBack(image, entry, segments);
    SegmentsReadBack(image, entry, segments, |segments|);
    assert segments[..|segments|] == segments;
  }

  lemma {:induction false} FileEndBound(segments: seq<Segment>, k: nat)
    requires k <= |segments| < U16 && forall i | 0 <= i < k :: SegmentLoadable(segments[i])
    ensures FileEnd(segments, k) <= 0x40_0000 + k * 0x30_1000
    decreases k
  {
    if k > 0 {
      FileEndBound(segments, k - 1);
      assert SegmentLoadable(segments[k - 1]);
    }
  }

  /** Every loadable program survives being written and parsed; no further
      assumption about sizes is needed. */
  lemma LoadableRoundTrip(entry: nat, segments: seq<Segment>)
    requires Loadable(entry, segments) && |segments| < U16
    ensures Parse(Image(entry, segments)) == Ok(ParsedElf(entry, LoadedAll(segments)))
  {
    FileEndBound(segments, |segments|);
    var i :| 0 <= i < |segments| && LoadedAll(segments)[i].ContainsEntry(entry);
    assert SegmentLoadable(segments[i]);
    RoundTrip(entry, segments);
  }
}

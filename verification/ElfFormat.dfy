/** The ELF64 executables the kernel accepts: the parser of elf.rs (System V gABI,
    chapter 4 "ELF Header" and chapter 5 "Program Header"). */
module ElfFormat {
  import opened Base
  import opened LittleEndian

  const ELF_HEADER_SIZE: nat := 64
  const PROGRAM_HEADER_SIZE: nat := 56
  const MAGIC: seq<byte> := [0x7f, 0x45, 0x4c, 0x46]

  datatype ElfLoadError =
    | BadMagic | UnsupportedClass | UnsupportedEndian | UnsupportedType | UnsupportedMachine
    | MalformedHeader | MalformedProgramHeader
    | SegmentOutsideUserRange | SegmentMemSizeLessThanFileSize | SegmentOverlap | UnalignedSegment
    | EntryNotExecutable | NoHeapRange | OutOfFrames | MapFailed | UserCopyFailed

  datatype LoadSegment = LoadSegment(
    vaddr: nat, filesz: nat, memsz: nat, flags: nat, data: seq<byte>, mapStart: nat, mapEnd: nat)
  {
    predicate Writable() { flags / 2 % 2 == 1 }

    predicate Executable() { flags % 2 == 1 }

    predicate ContainsEntry(entry: nat) {
      Executable() && vaddr <= entry < vaddr + memsz
    }

    predicate Overlaps(other: LoadSegment) {
      mapStart < other.mapEnd && other.mapStart < mapEnd
    }
  }

  datatype ParsedElf = ParsedElf(entry: nat, segments: seq<LoadSegment>)

  /** `read_u16`, `read_u32` and `read_u64`, by width */
  function Field(bytes: seq<byte>, offset: nat, width: nat): Result<nat, ElfLoadError> {
    if offset + width <= |bytes| then Ok(Decode(bytes[offset..offset + width])) else Err(MalformedHeader)
  }

  /** The checks of `parse_program_header` on the fields it has read. */
  function CheckSegment(bytes: seq<byte>, flags: nat, fileOffset: nat, vaddr: nat, filesz: nat, memsz: nat, align: nat)
    : Result<LoadSegment, ElfLoadError>
  {
    if memsz < filesz then Err(SegmentMemSizeLessThanFileSize)
    else if memsz == 0 then Err(MalformedProgramHeader)
    else if align != PAGE_SIZE || vaddr % PAGE_SIZE != 0 || fileOffset % PAGE_SIZE != 0 then Err(UnalignedSegment)
    else if CheckedAdd(fileOffset, filesz).None? || fileOffset + filesz > |bytes| then Err(MalformedProgramHeader)
    else if CheckedAdd(vaddr, memsz).None? || AlignUp(vaddr + memsz).None? then Err(MalformedProgramHeader)
    else
      var mapEnd := AlignUp(vaddr + memsz).value;
      if AlignDown(vaddr) < USER_ELF_LOAD_START || mapEnd > USER_ELF_LOAD_END || AlignDown(vaddr) >= mapEnd
      then Err(SegmentOutsideUserRange)
      else Ok(LoadSegment(vaddr, filesz, memsz, flags, bytes[fileOffset..fileOffset + filesz], AlignDown(vaddr), mapEnd))
  }

  /** `parse_program_header` */
  function ParseProgramHeader(bytes: seq<byte>, offset: nat): Result<LoadSegment, ElfLoadError> {
    var kind :- Field(bytes, offset, 4);
    if kind != 1 then Err(MalformedProgramHeader)
    else
      var flags :- Field(bytes, offset + 4, 4);
      if flags >= 8 then Err(MalformedProgramHeader)
      else
        var fileOffset :- Field(bytes, offset + 8, 8);
        var vaddr :- Field(bytes, offset + 16, 8);
        var filesz :- Field(bytes, offset + 32, 8);
        var memsz :- Field(bytes, offset + 40, 8);
        var align :- Field(bytes, offset + 48, 8);
        CheckSegment(bytes, flags, fileOffset, vaddr, filesz, memsz, align)
  }

  /** `check_segment_overlap` */
  predicate Clear(existing: seq<LoadSegment>, segment: LoadSegment) {
    forall i | 0 <= i < |existing| :: !segment.Overlaps(existing[i])
  }

  /** The first `n` program headers from `base`, in order. */
  function ParseSegments(bytes: seq<byte>, base: nat, n: nat): Result<seq<LoadSegment>, ElfLoadError> {
    if n == 0 then Ok([])
    else
      var before :- ParseSegments(bytes, base, n - 1);
      var segment :- ParseProgramHeader(bytes, base + (n - 1) * PROGRAM_HEADER_SIZE);
      if Clear(before, segment) then Ok(before + [segment]) else Err(SegmentOverlap)
  }

  /** The checks on the ELF header, giving entry point, program header offset and
      count. */
  function ParseHeader(bytes: seq<byte>): Result<(nat, nat, nat), ElfLoadError> {
    if |bytes| < 4 then Err(MalformedHeader)
    else if bytes[0..4] != MAGIC then Err(BadMagic)
    else if |bytes| < ELF_HEADER_SIZE then Err(MalformedHeader)
    else if bytes[4] != 2 then Err(UnsupportedClass)
    else if bytes[5] != 1 then Err(UnsupportedEndian)
    else
      var version :- Field(bytes, 20, 4);
      if bytes[6] != 1 || version != 1 then Err(MalformedHeader)
      else
        var kind :- Field(bytes, 16, 2);
        if kind != 2 then Err(UnsupportedType)
        else
          var machine :- Field(bytes, 18, 2);
          if machine != 0x3e then Err(UnsupportedMachine)
          else
            var headerSize :- Field(bytes, 52, 2);
            if headerSize != ELF_HEADER_SIZE then Err(MalformedHeader)
            else
              var programHeaderSize :- Field(bytes, 54, 2);
              if programHeaderSize != PROGRAM_HEADER_SIZE then Err(MalformedProgramHeader)
              else
                var entry :- Field(bytes, 24, 8);
                var offset :- Field(bytes, 32, 8);
                var count :- Field(bytes, 56, 2);
                if count == 0 then Err(MalformedHeader)
                else if CheckedAdd(offset, PROGRAM_HEADER_SIZE * count).None? then Err(MalformedProgramHeader)
                else if offset + PROGRAM_HEADER_SIZE * count > |bytes| then Err(MalformedProgramHeader)
                else Ok((entry, offset, count))
  }

  predicate HasEntry(segments: seq<LoadSegment>, entry: nat) {
    exists i :: 0 <= i < |segments| && segments[i].ContainsEntry(entry)
  }

  function Parse(bytes: seq<byte>): Result<ParsedElf, ElfLoadError> {
    var (entry, offset, count) :- ParseHeader(bytes);
    var segments :- ParseSegments(bytes, offset, count);
    if HasEntry(segments, entry) then Ok(ParsedElf(entry, segments)) else Err(EntryNotExecutable)
  }

  /** `parse_elf`: the loop over program headers stops at the first bad one. */
  method ParseElf(bytes: seq<byte>) returns (r: Result<ParsedElf, ElfLoadError>)
    ensures r == Parse(bytes)
  {
    var header := ParseHeader(bytes);
    if header.Err? {
      return Err(header.error);
    }
    var (entry, offset, count) := header.value;
    var segments := [];
    var index := 0;
    while index < count
      invariant 0 <= index <= count
      invariant ParseSegments(bytes, offset, index) == Ok(segments)
    {
      var segment := ParseProgramHeader(bytes, offset + index * PROGRAM_HEADER_SIZE);
      if segment.Err? {
        ParseFailsFrom(bytes, offset, index + 1, count, segment.error);
        return Err(segment.error);
      }
      var overlap := CheckSegmentOverlap(segments, segment.value);
      if overlap {
        ParseFailsFrom(bytes, offset, index + 1, count, SegmentOverlap);
        return Err(SegmentOverlap);
      }
      segments := segments + [segment.value];
      index := index + 1;
    }
    var found := AnyContainsEntry(segments, entry);
    r := if found then Ok(ParsedElf(entry, segments)) else Err(EntryNotExecutable);
  }

  method CheckSegmentOverlap(existing: seq<LoadSegment>, segment: LoadSegment) returns (overlap: bool)
    ensures overlap <==> !Clear(existing, segment)
  {
    var i := 0;
    while i < |existing|
      invariant 0 <= i <= |existing|
      invariant forall j | 0 <= j < i :: !segment.Overlaps(existing[j])
    {
      if segment.Overlaps(existing[i]) {
        return true;
      }
      i := i + 1;
    }
    overlap := false;
  }

  method AnyContainsEntry(segments: seq<LoadSegment>, entry: nat) returns (found: bool)
    ensures found <==> HasEntry(segments, entry)
  {
    var i := 0;
    while i < |segments|
      invariant 0 <= i <= |segments|
      invariant forall j | 0 <= j < i :: !segments[j].ContainsEntry(entry)
    {
      if segments[i].ContainsEntry(entry) {
        return true;
      }
      i := i + 1;
    }
    found := false;
  }

  lemma {:induction false} ParseFailsFrom(bytes: seq<byte>, base: nat, k: nat, n: nat, error: ElfLoadError)
    requires k <= n && ParseSegments(bytes, base, k) == Err(error)
    ensures ParseSegments(bytes, base, n) == Err(error)
    decreases n
  {
    hide ParseProgramHeader, Clear;
    if k < n {
      ParseFailsFrom(bytes, base, k, n - 1, error);
    }
  }

  // ----- soundness on arbitrary bytes -----

  predicate SliceAt(bytes: seq<byte>, offset: nat, data: seq<byte>) {
    offset + |data| <= |bytes| && bytes[offset..offset + |data|] == data
  }

  ghost predicate SegmentSound(s: LoadSegment, bytes: seq<byte>) {
    && Aligned(s.vaddr) && s.mapStart == s.vaddr && s.flags < 8
    && 0 < s.memsz && s.filesz <= s.memsz && |s.data| == s.filesz
    && AlignUp(s.vaddr + s.memsz) == Some(s.mapEnd)
    && USER_ELF_LOAD_START <= s.mapStart < s.mapEnd <= USER_ELF_LOAD_END
    && exists offset :: SliceAt(bytes, offset, s.data)
  }

  ghost predicate Disjoint(segments: seq<LoadSegment>) {
    forall i, j | 0 <= i < j < |segments| ::
      segments[i].mapEnd <= segments[j].mapStart || segments[j].mapEnd <= segments[i].mapStart
  }

  lemma DisjointOneMore(before: seq<LoadSegment>, s: LoadSegment)
    ensures Disjoint(before + [s]) <==> Disjoint(before) && Clear(before, s)
  {
    var all := before + [s];
    if Disjoint(all) {
      assert forall i, j | 0 <= i < j < |before| :: before[i] == all[i] && before[j] == all[j];
      forall i | 0 <= i < |before| ensures !s.Overlaps(before[i]) {
        assert all[i] == before[i] && all[|before|] == s;
      }
    }
  }

  ghost predicate ImageSound(elf: ParsedElf, bytes: seq<byte>) {
    && 0 < |elf.segments|
    && (forall i | 0 <= i < |elf.segments| :: SegmentSound(elf.segments[i], bytes))
    && Disjoint(elf.segments)
    && HasEntry(elf.segments, elf.entry)
  }

  lemma HeaderSegmentSound(bytes: seq<byte>, offset: nat)
    requires ParseProgramHeader(bytes, offset).Ok?
    ensures SegmentSound(ParseProgramHeader(bytes, offset).value, bytes)
  {
    assert SliceAt(bytes, Field(bytes, offset + 8, 8).value, ParseProgramHeader(bytes, offset).value.data);
  }

  lemma {:induction false} SegmentsSound(bytes: seq<byte>, base: nat, n: nat)
    requires ParseSegments(bytes, base, n).Ok?
    ensures
      var segments := ParseSegments(bytes, base, n).value;
      |segments| == n && (forall i | 0 <= i < n :: SegmentSound(segments[i], bytes)) && Disjoint(segments)
  {
    hide ParseProgramHeader, SegmentSound;
    if n > 0 {
      SegmentsSound(bytes, base, n - 1);
      HeaderSegmentSound(bytes, base + (n - 1) * PROGRAM_HEADER_SIZE);
    }
  }

  /** Every program header that the loop reads lies in the file, and no offset overflows. */
  ghost predicate HeadersInFile(bytes: seq<byte>) {
    && ParseHeader(bytes).Ok?
    && var (_, offset, count) := ParseHeader(bytes).value;
       && count > 0 && offset + count * PROGRAM_HEADER_SIZE < U64
       && forall i | 0 <= i < count :: offset + i * PROGRAM_HEADER_SIZE + PROGRAM_HEADER_SIZE <= |bytes|
  }

  lemma HeaderSound(bytes: seq<byte>)
    requires ParseHeader(bytes).Ok?
    ensures HeadersInFile(bytes)
  {
    var (_, offset, count) := ParseHeader(bytes).value;
    forall i | 0 <= i < count ensures offset + i * PROGRAM_HEADER_SIZE + PROGRAM_HEADER_SIZE <= |bytes| {
      assert count - i >= 1;
    }
  }

  /** Whatever bytes are offered, an accepted image consists of page-disjoint
      segments inside the load range, backed by slices of the file, with the entry
      point inside an executable one, and only the file itself was read. */
  lemma ParseSound(bytes: seq<byte>)
    requires Parse(bytes).Ok?
    ensures ImageSound(Parse(bytes).value, bytes) && HeadersInFile(bytes)
  {
    HeaderSound(bytes);
    var (_, offset, count) := ParseHeader(bytes).value;
    SegmentsSound(bytes, offset, count);
  }
}

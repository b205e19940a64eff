/** Exactly which files the parser accepts, in terms of the bytes at fixed offsets, and
    what it reads from them. */
module ElfAcceptance {
  import opened Base
  import opened LittleEndian
  import opened ElfFormat

  /** The little-endian number of `n` bytes at `o`. */
  function Word(bytes: seq<byte>, o: nat, n: nat): nat
    requires o + n <= |bytes|
  {
    Decode(bytes[o..o + n])
  }

  /** An ELF64 little-endian x86-64 executable of version 1 whose program headers, at
      least one, lie in the file. */
  predicate GoodHeader(bytes: seq<byte>) {
    && |bytes| >= 64 && bytes[0..4] == [0x7f, 0x45, 0x4c, 0x46]
    && bytes[4] == 2 && bytes[5] == 1 && bytes[6] == 1 && Word(bytes, 20, 4) == 1
    && Word(bytes, 16, 2) == 2 && Word(bytes, 18, 2) == 0x3e
    && Word(bytes, 52, 2) == 64 && Word(bytes, 54, 2) == 56 && Word(bytes, 56, 2) > 0
    && Word(bytes, 32, 8) + 56 * Word(bytes, 56, 2) < U64
    && Word(bytes, 32, 8) + 56 * Word(bytes, 56, 2) <= |bytes|
  }

  /** The program header at `o` describes a loadable segment: legal flags, page-aligned,
      data in the file, memory in the load range. */
  predicate GoodEntry(bytes: seq<byte>, o: nat)
    requires o + 56 <= |bytes|
  {
    var offset, vaddr, filesz, memsz := Word(bytes, o + 8, 8), Word(bytes, o + 16, 8), Word(bytes, o + 32, 8), Word(bytes, o + 40, 8);
    && Word(bytes, o, 4) == 1 && Word(bytes, o + 4, 4) < 8 && Word(bytes, o + 48, 8) == 4096
    && offset % 4096 == 0 && vaddr % 4096 == 0
    && 0 < memsz && filesz <= memsz && offset + filesz <= |bytes| && offset + filesz < U64
    && USER_ELF_LOAD_START <= vaddr && vaddr + memsz <= USER_ELF_LOAD_END
  }

  function RoundUp(v: nat): nat {
    (v + 4095) / 4096 * 4096
  }

  /** The segment it describes. */
  function EntrySegment(bytes: seq<byte>, o: nat): LoadSegment
    requires o + 56 <= |bytes| && GoodEntry(bytes, o)
  {
    var offset, vaddr, filesz, memsz := Word(bytes, o + 8, 8), Word(bytes, o + 16, 8), Word(bytes, o + 32, 8), Word(bytes, o + 40, 8);
    LoadSegment(vaddr, filesz, memsz, Word(bytes, o + 4, 4), bytes[offset..offset + filesz], vaddr, RoundUp(vaddr + memsz))
  }

  predicate GoodEntries(bytes: seq<byte>, base: nat, n: nat)
    requires base + 56 * n <= |bytes|
  {
    forall i | 0 <= i < n :: base + 56 * i + 56 <= |bytes| && GoodEntry(bytes, base + 56 * i)
  }

  function EntrySegments(bytes: seq<byte>, base: nat, n: nat): (r: seq<LoadSegment>)
    requires base + 56 * n <= |bytes| && GoodEntries(bytes, base, n)
    ensures |r| == n && forall i | 0 <= i < n :: r[i] == EntrySegment(bytes, base + 56 * i)
  {
    seq(n, i requires 0 <= i < n => EntrySegment(bytes, base + 56 * i))
  }

  // ----- one header, one entry -----

  lemma HeaderExact(bytes: seq<byte>)
    ensures ParseHeader(bytes).Ok? <==> GoodHeader(bytes)
    ensures GoodHeader(bytes) ==> ParseHeader(bytes).value == (Word(bytes, 24, 8), Word(bytes, 32, 8), Word(bytes, 56, 2))
  {
    hide Decode;
  }

  lemma RoundUpExact(v: nat)
    requires v < U64
    ensures AlignUp(v).Some? && AlignUp(v).value <= USER_ELF_LOAD_END <==> v <= USER_ELF_LOAD_END
    ensures v <= USER_ELF_LOAD_END ==> AlignUp(v) == Some(RoundUp(v))
  {
  }

  lemma EntryExact(bytes: seq<byte>, o: nat)
    requires o + 56 <= |bytes|
    ensures ParseProgramHeader(bytes, o).Ok? <==> GoodEntry(bytes, o)
    ensures GoodEntry(bytes, o) ==> ParseProgramHeader(bytes, o).value == EntrySegment(bytes, o)
  {
    hide Decode, AlignUp, RoundUp;
    var end := Word(bytes, o + 16, 8) + Word(bytes, o + 40, 8);
    if end < U64 {
      RoundUpExact(end);
    }
    if end <= USER_ELF_LOAD_END {
      RoundUpAbove(end);
    }
  }

  lemma RoundUpAbove(v: nat)
    ensures v <= RoundUp(v)
  {
  }

  // ----- all of them -----

  lemma {:induction false} SegmentsExact(bytes: seq<byte>, base: nat, n: nat)
    requires base + 56 * n <= |bytes|
    ensures ParseSegments(bytes, base, n).Ok? <==> GoodEntries(bytes, base, n) && Disjoint(EntrySegments(bytes, base, n))
    ensures ParseSegments(bytes, base, n).Ok? ==> ParseSegments(bytes, base, n).value == EntrySegments(bytes, base, n)
  {
    hide ParseProgramHeader, GoodEntry, Clear, Disjoint, EntrySegment;
    if n == 0 {
      assert Disjoint([]) by { NoSegments(); }
    } else {
      SegmentsExact(bytes, base, n - 1);
      EntryExact(bytes, base + 56 * (n - 1));
      if GoodEntries(bytes, base, n - 1) && GoodEntry(bytes, base + 56 * (n - 1)) {
        var before, last := EntrySegments(bytes, base, n - 1), EntrySegment(bytes, base + 56 * (n - 1));
        assert EntrySegments(bytes, base, n) == before + [last];
        DisjointOneMore(before, last);
      }
    }
  }

  lemma NoSegments()
    ensures Disjoint([])
  {
  }

  /** The parser accepts a file if and only if its header is good, every program header is
      good, no two segments share a page, and the entry point is in an executable one; it
      returns the entry point and the segments exactly as the headers give them. */
  lemma AcceptsExactly(bytes: seq<byte>)
    ensures Parse(bytes).Ok? <==>
              && GoodHeader(bytes)
              && var base, count := Word(bytes, 32, 8), Word(bytes, 56, 2);
                 && GoodEntries(bytes, base, count)
                 && Disjoint(EntrySegments(bytes, base, count))
                 && HasEntry(EntrySegments(bytes, base, count), Word(bytes, 24, 8))
    ensures Parse(bytes).Ok? ==>
              Parse(bytes).value == ParsedElf(Word(bytes, 24, 8), EntrySegments(bytes, Word(bytes, 32, 8), Word(bytes, 56, 2)))
  {
    hide ParseHeader, ParseSegments, Disjoint, HasEntry, Decode;
    HeaderExact(bytes);
    if GoodHeader(bytes) {
      SegmentsExact(bytes, Word(bytes, 32, 8), Word(bytes, 56, 2));
    }
  }
}

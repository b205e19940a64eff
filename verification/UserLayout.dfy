/** The brk heap of a process and its place in the user layout. */
module UserLayout {
  import opened Base
  import opened UserSpaces
  import opened ElfFormat

  datatype UserHeap = UserHeap(start: nat, brk: nat, limit: nat, mappedEnd: nat)

  /** `UserHeap::new` */
  function NewHeap(start: nat, limit: nat): Option<UserHeap> {
    if start >= limit || !Aligned(start) || !Aligned(limit) then None
    else Some(UserHeap(start, start, limit, start))
  }

  /** `heap_for_loaded_image` */
  function HeapForLoadedImage(maxSegmentEnd: nat): Option<UserHeap> {
    match AlignUp(maxSegmentEnd)
    case None => None
    case Some(start) =>
      if start < USER_ELF_LOAD_START || start > USER_HEAP_LIMIT then None else NewHeap(start, USER_HEAP_LIMIT)
  }

  /** `default_builtin_heap` */
  function DefaultBuiltinHeap(): Option<UserHeap> {
    NewHeap(USER_DATA_BASE + PAGE_SIZE, USER_HEAP_LIMIT)
  }

  /** What `UserTaskInit` carries, apart from the address space itself. */
  datatype UserInit = UserInit(root: nat, entry: nat, stackTop: nat, heap: UserHeap, arg0: nat)

  /** The bounds of a heap: page-aligned ends, the break inside, and exactly the
      whole pages up to the break mapped. */
  ghost predicate HeapOk(h: UserHeap) {
    && Aligned(h.start) && Aligned(h.limit)
    && USER_BASE < h.start <= h.brk <= h.mappedEnd <= h.limit <= USER_STACK_TOP
    && AlignUp(h.brk) == Some(h.mappedEnd)
  }

  /** The heap window `[start, limit)` holds exactly the pages up to `mappedEnd`, all
      of them writable. */
  ghost predicate HeapMapped(s: UserSpace, h: UserHeap) {
    forall p: nat | h.start / PAGE_SIZE <= p < h.limit / PAGE_SIZE ::
      && (p in s <==> p < h.mappedEnd / PAGE_SIZE)
      && (p in s ==> s[p].writable)
  }

  /** A program as loaders hand it over: a heap with nothing mapped in its window. */
  ghost predicate FreshLayout(heap: UserHeap, space: UserSpace) {
    HeapOk(heap) && heap.brk == heap.start && HeapMapped(space, heap)
  }

  /** `max_segment_end` */
  function MaxSegmentEnd(segments: seq<LoadSegment>): (m: nat)
    requires segments != []
    ensures forall i | 0 <= i < |segments| :: segments[i].vaddr + segments[i].memsz <= m
    ensures exists i :: 0 <= i < |segments| && m == segments[i].vaddr + segments[i].memsz
  {
    var last := segments[|segments| - 1].vaddr + segments[|segments| - 1].memsz;
    if |segments| == 1 then last
    else
      var rest := MaxSegmentEnd(segments[..|segments| - 1]);
      assert forall i | 0 <= i < |segments| - 1 :: segments[..|segments| - 1][i] == segments[i];
      if rest <= last then last else rest
  }

  ghost predicate FillsLoadRange(segments: seq<LoadSegment>) {
    exists i :: 0 <= i < |segments| && segments[i].mapEnd == USER_ELF_LOAD_END
  }

  lemma AlignedFixed(a: nat)
    requires Aligned(a) && a + PAGE_SIZE <= U64
    ensures AlignUp(a) == Some(a)
  {
  }

  lemma MapEndOf(s: LoadSegment, bytes: seq<byte>)
    requires SegmentSound(s, bytes)
    ensures AlignUp(s.vaddr + s.memsz) == Some(s.mapEnd)
    ensures Aligned(s.mapEnd) && USER_ELF_LOAD_START < s.mapEnd <= USER_ELF_LOAD_END
  {
  }

  /** The highest segment end, rounded up, is the highest map end. */
  lemma HighestSegment(elf: ParsedElf, bytes: seq<byte>) returns (k: nat)
    requires ImageSound(elf, bytes)
    ensures k < |elf.segments| && AlignUp(MaxSegmentEnd(elf.segments)) == Some(elf.segments[k].mapEnd)
    ensures Aligned(elf.segments[k].mapEnd) && USER_ELF_LOAD_START < elf.segments[k].mapEnd <= USER_ELF_LOAD_END
    ensures forall i | 0 <= i < |elf.segments| :: elf.segments[i].mapEnd <= elf.segments[k].mapEnd
  {
    hide AlignUp, MaxSegmentEnd, SegmentSound, Disjoint, HasEntry;
    var m := MaxSegmentEnd(elf.segments);
    k :| 0 <= k < |elf.segments| && m == elf.segments[k].vaddr + elf.segments[k].memsz;
    MapEndOf(elf.segments[k], bytes);
    forall i | 0 <= i < |elf.segments| ensures elf.segments[i].mapEnd <= elf.segments[k].mapEnd {
      MapEndOf(elf.segments[i], bytes);
      AlignUpMonotone(elf.segments[i].vaddr + elf.segments[i].memsz, m);
    }
  }

  /** The heap starts where the highest mapped segment ends; there is no room for one
      exactly when a segment reaches the end of the load range. */
  lemma HeapAboveImage(elf: ParsedElf, bytes: seq<byte>)
    requires ImageSound(elf, bytes)
    ensures
      var heap := HeapForLoadedImage(MaxSegmentEnd(elf.segments));
      && (heap.None? <==> FillsLoadRange(elf.segments))
      && (heap.Some? ==>
            && HeapOk(heap.value) && heap.value.limit == USER_HEAP_LIMIT && heap.value.brk == heap.value.start
            && (forall i | 0 <= i < |elf.segments| :: elf.segments[i].mapEnd <= heap.value.start)
            && (exists i :: 0 <= i < |elf.segments| && elf.segments[i].mapEnd == heap.value.start))
  {
    hide AlignUp, MaxSegmentEnd, SegmentSound, Disjoint, HasEntry;
    var k := HighestSegment(elf, bytes);
    AlignedFixed(elf.segments[k].mapEnd);
  }
}

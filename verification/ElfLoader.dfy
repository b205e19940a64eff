/** `load_user_elf`: from the bytes of an ELF file to a fresh address space whose
    every byte is accounted for. */
module ElfLoader {
  import opened Base
  import opened UserSpaces
  import opened PageTables
  import opened FrameAllocation
  import opened Memory
  import opened ElfFormat
  import opened UserLayout

  // ----- what a loaded image looks like -----

  ghost predicate SegmentPage(s: LoadSegment, page: nat) {
    s.mapStart <= page * PAGE_SIZE < s.mapEnd
  }

  predicate StackPage(page: nat) {
    STACK_BOTTOM <= page * PAGE_SIZE < USER_STACK_TOP
  }

  /** File data first, zero up to the end of the last page (the rule for
      p_memsz > p_filesz), writable exactly when PF_W is set. */
  ghost predicate SegmentLoaded(view: UserSpace, s: LoadSegment) {
    && (forall p: nat | SegmentPage(s, p) :: p in view && view[p].writable == s.Writable())
    && (forall a: nat | s.vaddr <= a < s.mapEnd ::
          IsMapped(view, a) && Peek(view, a) == if a - s.vaddr < |s.data| then s.data[a - s.vaddr] else 0)
  }

  ghost predicate Covered(segments: seq<LoadSegment>, page: nat) {
    exists i :: 0 <= i < |segments| && SegmentPage(segments[i], page)
  }

  ghost predicate ImageLoaded(view: UserSpace, segments: seq<LoadSegment>) {
    && (forall i | 0 <= i < |segments| :: SegmentLoaded(view, segments[i]))
    && (forall p: nat :: p in view <==> Covered(segments, p))
  }

  /** The whole user image: the segments, a zero-filled writable stack, and nothing
      else. */
  ghost predicate ProgramLoaded(view: UserSpace, segments: seq<LoadSegment>) {
    && (forall i | 0 <= i < |segments| :: SegmentLoaded(view, segments[i]))
    && (forall p: nat | StackPage(p) :: p in view && view[p] == ZeroPage(true))
    && (forall p: nat :: p in view <==> Covered(segments, p) || StackPage(p))
  }

  // ----- loading one segment -----

  ghost predicate SegmentShape(s: LoadSegment) {
    && Aligned(s.vaddr) && s.mapStart == s.vaddr && Aligned(s.mapEnd)
    && s.filesz <= s.memsz && |s.data| == s.filesz && s.vaddr + s.memsz <= s.mapEnd
    && USER_ELF_LOAD_START <= s.mapStart < s.mapEnd <= USER_ELF_LOAD_END
  }

  lemma SoundShape(s: LoadSegment, bytes: seq<byte>)
    requires SegmentSound(s, bytes)
    ensures SegmentShape(s)
  {
  }

  ghost predicate SamePagesOutside(v: UserSpace, w: UserSpace, lo: nat, hi: nat) {
    forall p: nat | !(lo <= p < hi) :: (p in w <==> p in v) && (p in w ==> w[p] == v[p])
  }

  /** Copying into a run of mapped pages succeeds and leaves other pages alone. */
  lemma CopyIntoRun(v: UserSpace, a: nat, bytes: seq<byte>, lo: nat, hi: nat)
    requires forall p: nat | lo <= p < hi :: p in v
    requires lo * PAGE_SIZE <= a && a + |bytes| <= hi * PAGE_SIZE
    ensures
      var (w, error) := CopyOut(v, a, bytes, Load);
      && error.None? && SameShape(v, w) && SamePagesOutside(v, w, lo, hi)
      && (forall x: nat | IsMapped(v, x) ::
            Peek(w, x) == if a <= x < a + |bytes| then bytes[x - a] else Peek(v, x))
  {
    CopyOutExact(v, a, bytes, Load);
    assert RangeOk(v, a, |bytes|, Load) by {
      forall i | a <= i < a + |bytes| ensures ByteOk(v, i, Load) {
        assert lo <= i / PAGE_SIZE < hi;
      }
    }
    var w := CopyOut(v, a, bytes, Load).0;
    forall p: nat | !(lo <= p < hi) && p in w ensures w[p] == v[p] {
      SamePage(v, w, p, a, |bytes|);
    }
  }

  lemma SamePage(v: UserSpace, w: UserSpace, p: nat, a: nat, n: nat)
    requires p in v && p in w && v[p].writable == w[p].writable
    requires forall x: nat | IsMapped(v, x) && !(a <= x < a + n) :: IsMapped(w, x) && Peek(w, x) == Peek(v, x)
    requires (p + 1) * PAGE_SIZE <= a || a + n <= p * PAGE_SIZE
    ensures w[p] == v[p]
  {
    forall j | 0 <= j < PAGE_SIZE ensures w[p].bytes[j] == v[p].bytes[j] {
      var x := p * PAGE_SIZE + j;
      assert x / PAGE_SIZE == p && x % PAGE_SIZE == j;
      assert IsMapped(v, x);
      assert Peek(w, x) == Peek(v, x);
    }
    assert w[p].bytes == v[p].bytes;
  }

  /** The address space after one pass of the loader's loop. */
  function LoadOne(v: UserSpace, s: LoadSegment): UserSpace {
    var mapped := ZeroPages(v, s.mapStart / PAGE_SIZE, s.mapEnd / PAGE_SIZE, s.Writable());
    var copied := CopyOut(mapped, s.vaddr, s.data, Load).0;
    if s.memsz > s.filesz
    then CopyOut(copied, s.vaddr + s.filesz, Zeros(s.memsz - s.filesz), Load).0
    else copied
  }

  lemma LoadOneExact(v: UserSpace, s: LoadSegment)
    requires SegmentShape(s) && NoneMapped(v, s.mapStart / PAGE_SIZE, s.mapEnd / PAGE_SIZE)
    ensures SegmentLoaded(LoadOne(v, s), s)
    ensures SamePagesOutside(v, LoadOne(v, s), s.mapStart / PAGE_SIZE, s.mapEnd / PAGE_SIZE)
    ensures
      var mapped := ZeroPages(v, s.mapStart / PAGE_SIZE, s.mapEnd / PAGE_SIZE, s.Writable());
      var (copied, error) := CopyOut(mapped, s.vaddr, s.data, Load);
      && error.None?
      && CopyOut(copied, s.vaddr + s.filesz, Zeros(s.memsz - s.filesz), Load).1.None?
  {
    hide CopyOut, ZeroPages;
    var lo, hi := s.mapStart / PAGE_SIZE, s.mapEnd / PAGE_SIZE;
    var mapped := ZeroPages(v, lo, hi, s.Writable());
    CopyIntoRun(mapped, s.vaddr, s.data, lo, hi);
    var copied := CopyOut(mapped, s.vaddr, s.data, Load).0;
    CopyIntoRun(copied, s.vaddr + s.filesz, Zeros(s.memsz - s.filesz), lo, hi);
    var w := LoadOne(v, s);
    forall a: nat | s.vaddr <= a < s.mapEnd
      ensures IsMapped(w, a) && Peek(w, a) == if a - s.vaddr < |s.data| then s.data[a - s.vaddr] else 0
    {
      assert lo <= a / PAGE_SIZE < hi;
      assert IsMapped(mapped, a) && Peek(mapped, a) == 0;
    }
  }

  // ----- loading them all -----

  lemma SegmentLoadedKept(v: UserSpace, w: UserSpace, s: LoadSegment, lo: nat, hi: nat)
    requires SegmentLoaded(v, s) && SegmentShape(s) && SamePagesOutside(v, w, lo, hi)
    requires s.mapEnd <= lo * PAGE_SIZE || hi * PAGE_SIZE <= s.mapStart
    ensures SegmentLoaded(w, s)
  {
    forall a: nat | s.vaddr <= a < s.mapEnd
      ensures IsMapped(w, a) && Peek(w, a) == if a - s.vaddr < |s.data| then s.data[a - s.vaddr] else 0
    {
      assert IsMapped(v, a);
    }
  }

  lemma NotYetMapped(v: UserSpace, segments: seq<LoadSegment>, k: nat)
    requires k < |segments| && Disjoint(segments) && ImageLoaded(v, segments[..k])
    requires forall i | 0 <= i < |segments| :: SegmentShape(segments[i])
    ensures NoneMapped(v, segments[k].mapStart / PAGE_SIZE, segments[k].mapEnd / PAGE_SIZE)
  {
    var before := segments[..k];
    assert SegmentShape(segments[k]);
    forall p: nat | segments[k].mapStart / PAGE_SIZE <= p < segments[k].mapEnd / PAGE_SIZE ensures !Covered(before, p) {
      assert SegmentPage(segments[k], p);
      forall i | 0 <= i < k ensures !SegmentPage(before[i], p) {
        assert before[i] == segments[i] && SegmentShape(segments[i]);
      }
    }
  }

  /** Loading the next segment disturbs none of the earlier ones. */
  lemma LoadNext(v: UserSpace, segments: seq<LoadSegment>, k: nat)
    requires k < |segments| && Disjoint(segments) && ImageLoaded(v, segments[..k])
    requires forall i | 0 <= i < |segments| :: SegmentShape(segments[i])
    ensures ImageLoaded(LoadOne(v, segments[k]), segments[..k + 1])
  {
    hide LoadOne, SegmentLoaded;
    var s, w := segments[k], LoadOne(v, segments[k]);
    NotYetMapped(v, segments, k);
    assert SegmentShape(s);
    LoadOneExact(v, s);
    var lo, hi := s.mapStart / PAGE_SIZE, s.mapEnd / PAGE_SIZE;
    var all := segments[..k + 1];
    forall i | 0 <= i < |all| ensures SegmentLoaded(w, all[i]) {
      if i < k {
        assert segments[..k][i] == segments[i] && SegmentShape(segments[i]);
        SegmentLoadedKept(v, w, segments[i], lo, hi);
      }
    }
    forall p: nat ensures p in w <==> Covered(segments[..k + 1], p) {
      CoveredOneMore(segments, k, p);
      if SegmentPage(s, p) {
        PageLoaded(w, s, p);
      }
    }
  }

  lemma PageLoaded(view: UserSpace, s: LoadSegment, p: nat)
    requires SegmentLoaded(view, s) && SegmentPage(s, p)
    ensures p in view
  {
  }

  lemma CoveredOneMore(segments: seq<LoadSegment>, k: nat, p: nat)
    requires k < |segments|
    ensures Covered(segments[..k + 1], p) <==> Covered(segments[..k], p) || SegmentPage(segments[k], p)
  {
    var before, all := segments[..k], segments[..k + 1];
    if i :| 0 <= i < |before| && SegmentPage(before[i], p) {
      assert all[i] == before[i];
    }
    if SegmentPage(segments[k], p) {
      assert all[k] == segments[k];
    }
    if i :| 0 <= i < |all| && SegmentPage(all[i], p) && i < k {
      assert before[i] == all[i];
    }
  }

  lemma StackOnTop(v: UserSpace, segments: seq<LoadSegment>)
    requires ImageLoaded(v, segments)
    requires forall i | 0 <= i < |segments| :: SegmentShape(segments[i])
    ensures NoneMapped(v, STACK_BOTTOM / PAGE_SIZE, USER_STACK_TOP / PAGE_SIZE)
    ensures ProgramLoaded(ZeroPages(v, STACK_BOTTOM / PAGE_SIZE, USER_STACK_TOP / PAGE_SIZE, true), segments)
  {
    var lo, hi := STACK_BOTTOM / PAGE_SIZE, USER_STACK_TOP / PAGE_SIZE;
    var w := ZeroPages(v, lo, hi, true);
    forall p: nat | lo <= p < hi ensures !Covered(segments, p) {
      forall i | 0 <= i < |segments| ensures !SegmentPage(segments[i], p) {
        assert SegmentShape(segments[i]);
      }
    }
    forall i | 0 <= i < |segments| ensures SegmentLoaded(w, segments[i]) {
      assert SegmentShape(segments[i]);
      SegmentLoadedKept(v, w, segments[i], lo, hi);
    }
  }

  // ----- the loader -----

  function MapAddressSpaceError(e: AddressSpaceError): ElfLoadError {
    if e == FrameAllocationFailed then OutOfFrames else MapFailed
  }

  /** Every address space that existed before is exactly as it was; the only new one, if
      any, hangs on the level-4 table `made`. */
  ghost predicate Kept(before: map<nat, UserSpace>, after: map<nat, UserSpace>, made: Option<nat>, kernelRoot: nat) {
    match made
    case None => after == before
    case Some(root) => root !in before && root != kernelRoot && root in after && after == before[root := after[root]]
  }

  /** One pass of the loop of `load_user_elf`. Once the pages are mapped, neither
      copying nor zeroing can fail. */
  method LoadSegmentInto(mem: MemoryState, root: nat, s: LoadSegment) returns (r: Result<Done, ElfLoadError>)
    requires mem.Valid() && root in mem.spaces && SegmentShape(s)
    requires NoneMapped(mem.spaces[root], s.mapStart / PAGE_SIZE, s.mapEnd / PAGE_SIZE)
    modifies mem
    ensures mem.Valid() && mem.next >= old(mem.next) && root in mem.spaces
    ensures mem.spaces == old(mem.spaces)[root := mem.spaces[root]]
    ensures r.Ok? ==> mem.spaces[root] == LoadOne(old(mem.spaces)[root], s)
    ensures r.Err? ==> mem.Exhausted() && (r.error == OutOfFrames || r.error == MapFailed)
  {
    hide mem.Valid, CopyOut, SegmentLoaded;
    ghost var view := mem.spaces[root];
    LoadOneExact(view, s);
    var mapped, hi := mem.MapUserRegion(root, s.mapStart, s.mapEnd - s.mapStart, s.Writable());
    if mapped.Err? {
      return Err(MapAddressSpaceError(mapped.error));
    }
    assert hi == s.mapEnd / PAGE_SIZE;
    var copied := mem.CopyToMapped(root, s.vaddr, s.data);
    assert copied.None?;
    if s.memsz > s.filesz {
      var zeroed := mem.ZeroUserRange(root, s.vaddr + s.filesz, s.memsz - s.filesz);
      assert zeroed.None?;
    }
    r := Ok(Done);
  }

  /** The loop of `load_user_elf`. */
  method LoadSegments(mem: MemoryState, root: nat, segments: seq<LoadSegment>) returns (r: Result<Done, ElfLoadError>)
    requires mem.Valid() && root in mem.spaces && mem.spaces[root] == map[]
    requires Disjoint(segments) && forall i | 0 <= i < |segments| :: SegmentShape(segments[i])
    modifies mem
    ensures mem.Valid() && mem.next >= old(mem.next) && root in mem.spaces
    ensures mem.spaces == old(mem.spaces)[root := mem.spaces[root]]
    ensures r.Ok? ==> ImageLoaded(mem.spaces[root], segments)
    ensures r.Err? ==> mem.Exhausted() && (r.error == OutOfFrames || r.error == MapFailed)
  {
    hide mem.Valid, LoadOne, SegmentLoaded, Disjoint, ImageLoaded;
    EmptyImage();
    var k := 0;
    assert segments[..0] == [];
    while k < |segments|
      invariant 0 <= k <= |segments|
      invariant mem.Valid() && mem.next >= old(mem.next) && root in mem.spaces
      invariant mem.spaces == old(mem.spaces)[root := mem.spaces[root]]
      invariant ImageLoaded(mem.spaces[root], segments[..k])
    {
      ghost var view := mem.spaces[root];
      NotYetMapped(view, segments, k);
      r := LoadSegmentInto(mem, root, segments[k]);
      if r.Err? {
        return;
      }
      LoadNext(view, segments, k);
      k := k + 1;
    }
    assert segments[..|segments|] == segments;
    r := Ok(Done);
  }

  lemma EmptyImage()
    ensures ImageLoaded(map[], [])
  {
  }

  /** `map_user_stack` */
  method MapUserStack(mem: MemoryState, root: nat) returns (r: Result<Done, AddressSpaceError>)
    requires mem.Valid() && root in mem.spaces
    requires NoneMapped(mem.spaces[root], STACK_BOTTOM / PAGE_SIZE, USER_STACK_TOP / PAGE_SIZE)
    modifies mem
    ensures mem.Valid() && mem.next >= old(mem.next) && root in mem.spaces
    ensures mem.spaces == old(mem.spaces)[root := mem.spaces[root]]
    ensures r.Ok? ==>
              mem.spaces[root] == ZeroPages(old(mem.spaces)[root], STACK_BOTTOM / PAGE_SIZE, USER_STACK_TOP / PAGE_SIZE, true)
    ensures r.Err? ==> mem.Exhausted() && MapAddressSpaceError(r.error) in {OutOfFrames, MapFailed}
  {
    hide mem.Valid;
    var mapped, hi := mem.MapUserRegion(root, STACK_BOTTOM, USER_STACK_PAGES * PAGE_SIZE, true);
    r := mapped;
  }

  /** The address-space part of `load_user_elf`. */
  method BuildSpace(mem: MemoryState, segments: seq<LoadSegment>) returns (r: Result<nat, ElfLoadError>, ghost made: Option<nat>)
    requires mem.Valid()
    requires Disjoint(segments) && forall i | 0 <= i < |segments| :: SegmentShape(segments[i])
    modifies mem
    ensures mem.Valid() && Kept(old(mem.spaces), mem.spaces, made, mem.kernelRoot)
    ensures r.Ok? ==> made == Some(r.value) && ProgramLoaded(mem.spaces[r.value], segments)
    ensures r.Err? ==> r.error == OutOfFrames || r.error == MapFailed
    ensures r.Err? ==> mem.Exhausted() || !old(mem.UserSlotFree())
  {
    hide ImageLoaded, ProgramLoaded, Disjoint, SegmentShape, NoneMapped, ZeroPages, Views, TreeOk, Distinct;
    var space := mem.NewUser();
    if space.Err? {
      return Err(MapAddressSpaceError(space.error)), None;
    }
    var root := space.value;
    made := Some(root);
    var loaded := LoadSegments(mem, root, segments);
    if loaded.Err? {
      return Err(loaded.error), made;
    }
    StackOnTop(mem.spaces[root], segments);
    var stack := MapUserStack(mem, root);
    if stack.Err? {
      return Err(MapAddressSpaceError(stack.error)), made;
    }
    r := Ok(root);
  }

  /** The program in `elf`, its heap and its entry point, as handed to the scheduler. */
  ghost predicate LoadedAs(init: UserInit, view: UserSpace, elf: ParsedElf) {
    && elf.segments != []
    && ProgramLoaded(view, elf.segments)
    && HeapForLoadedImage(MaxSegmentEnd(elf.segments)) == Some(init.heap)
    && init.entry == elf.entry
    && init.stackTop == USER_STACK_TOP
  }

  /** `load_user_elf`. On success the new address space holds exactly the program;
      it fails only for a bad file, a file that leaves no room for a heap, a kernel
      that uses the user slot, or when frames run out. In every case all existing
      address spaces are untouched. */
  method LoadUserElf(mem: MemoryState, bytes: seq<byte>, arg0: nat)
    returns (r: Result<UserInit, ElfLoadError>, ghost made: Option<nat>)
    requires mem.Valid()
    modifies mem
    ensures mem.Valid() && Kept(old(mem.spaces), mem.spaces, made, mem.kernelRoot)
    ensures Parse(bytes).Err? ==> r == Err(Parse(bytes).error) && made.None?
    ensures r == Err(NoHeapRange) <==> Parse(bytes).Ok? && FillsLoadRange(Parse(bytes).value.segments)
    ensures Parse(bytes).Ok? && r.Err? && r.error != NoHeapRange ==>
              (r.error == OutOfFrames || r.error == MapFailed) && (mem.Exhausted() || !old(mem.UserSlotFree()))
    ensures r.Ok? ==>
              && Parse(bytes).Ok? && r.value.arg0 == arg0 && made == Some(r.value.root)
              && LoadedAs(r.value, mem.spaces[r.value.root], Parse(bytes).value)
  {
    var parsed := ParseElf(bytes);
    hide Parse, ProgramLoaded, SegmentSound, MaxSegmentEnd, HeapForLoadedImage, FillsLoadRange, HasEntry, Disjoint,
         SegmentShape;
    if parsed.Err? {
      ParseErrors(bytes);
      return Err(parsed.error), None;
    }
    var elf := parsed.value;
    ParseSound(bytes);
    HeapAboveImage(elf, bytes);
    var heap := HeapForLoadedImage(MaxSegmentEnd(elf.segments));
    if heap.None? {
      return Err(NoHeapRange), None;
    }
    forall i | 0 <= i < |elf.segments| ensures SegmentShape(elf.segments[i]) {
      SoundShape(elf.segments[i], bytes);
    }
    var space, root := BuildSpace(mem, elf.segments);
    made := root;
    if space.Err? {
      return Err(space.error), made;
    }
    r := Ok(UserInit(space.value, elf.entry, USER_STACK_TOP, heap.value, arg0));
  }

  lemma ParseErrors(bytes: seq<byte>)
    requires Parse(bytes).Err?
    ensures Parse(bytes).error != NoHeapRange
  {
    var header := ParseHeader(bytes);
    if header.Ok? {
      SegmentsErrors(bytes, header.value.1, header.value.2);
    }
  }

  lemma CheckErrors(bytes: seq<byte>, offset: nat)
    ensures ParseProgramHeader(bytes, offset).Err? ==> ParseProgramHeader(bytes, offset).error != NoHeapRange
  {
  }

  lemma {:induction false} SegmentsErrors(bytes: seq<byte>, base: nat, n: nat)
    ensures ParseSegments(bytes, base, n).Err? ==> ParseSegments(bytes, base, n).error != NoHeapRange
  {
    hide Clear, CheckSegment;
    if n > 0 {
      CheckErrors(bytes, base + (n - 1) * PROGRAM_HEADER_SIZE);
      hide ParseProgramHeader;
      SegmentsErrors(bytes, base, n - 1);
    }
  }

  lemma WindowUnmapped(view: UserSpace, segments: seq<LoadSegment>, heap: UserHeap)
    requires ProgramLoaded(view, segments) && Aligned(heap.start) && heap.limit == USER_HEAP_LIMIT
    requires forall i | 0 <= i < |segments| :: segments[i].mapEnd <= heap.start
    ensures forall p: nat | heap.start / PAGE_SIZE <= p < heap.limit / PAGE_SIZE :: p !in view
  {
    hide SegmentLoaded;
    forall p: nat | heap.start / PAGE_SIZE <= p < heap.limit / PAGE_SIZE ensures p !in view {
      assert !StackPage(p);
      forall i | 0 <= i < |segments| ensures !SegmentPage(segments[i], p) {
      }
    }
  }

  /** A loaded program has an empty heap in an unmapped window above its image and below
      its stack. */
  lemma LoadedIsFresh(init: UserInit, view: UserSpace, bytes: seq<byte>)
    requires Parse(bytes).Ok? && LoadedAs(init, view, Parse(bytes).value)
    ensures FreshLayout(init.heap, view)
  {
    hide Parse, HeapForLoadedImage, MaxSegmentEnd, AlignUp, ProgramLoaded, ImageSound;
    var elf := Parse(bytes).value;
    ParseSound(bytes);
    HeapAboveImage(elf, bytes);
    WindowUnmapped(view, elf.segments, init.heap);
  }
}

/** From the file written at build time to the running process: what the writer, the
    parser, the loader and the kernel promise together. */
module Programs {
  import opened Base
  import opened UserSpaces
  import opened UserLayout
  import opened ElfFormat
  import opened ElfWriter
  import opened ElfLoader
  import opened Kernel
  import opened Invariants
  import opened Runs
  import opened Transitions
  import opened Layouts
  import SpawnSteps

  /** Events `a` and `a + 1` of the run load the program in a written file and spawn it
      with success, as process `p`. */
  ghost predicate SpawnsFile(ks: seq<Kernel>, es: seq<Event>, a: nat, p: nat, entry: nat, segments: seq<Segment>)
    requires |ks| == |es| + 1 && a + 1 < |es|
  {
    && es[a].MakeSpace? && es[a + 1].Spawn? && es[a + 1].init.root == es[a].newRoot
    && Parse(Image(entry, segments)).Ok?
    && LoadedAs(es[a + 1].init, es[a].view, Parse(Image(entry, segments)).value)
    && p == ks[a + 1].nextPid && p in ks[a + 2].procs
  }

  /** The process starts in the address space that was loaded, with its heap above it. */
  lemma StartsAsLoaded(ks: seq<Kernel>, es: seq<Event>, a: nat, p: nat, entry: nat, segments: seq<Segment>)
    requires FromBoot(ks, es) && a + 1 < |es| && SpawnsFile(ks, es, a, p, entry, segments)
    ensures ks[a + 2].procs[p].root == es[a].newRoot && ks[a + 2].procs[p].heap == es[a + 1].init.heap
    ensures es[a].newRoot in ks[a + 2].spaces && ks[a + 2].spaces[es[a].newRoot] == es[a].view
  {
    hide Inv, LoadedAs, Parse, Image, Leaves, ProcStep;
    BootRunInv(ks, es, a + 1);
    var k, e, k' := ks[a + 1], es[a + 1], ks[a + 2];
    assert Next(ks[a], es[a], k) && Next(k, e, k');
    SpawnSteps.PidsBelow(k);
    StepProcs(k, e, k');
    hide SpawnProcess, FreshLayout, ProcsStep;
  }

  /** The parser gives the loader what the writer was given. */
  lemma LoadsWhatWasWritten(init: UserInit, view: UserSpace, entry: nat, segments: seq<Segment>)
    requires Fits(entry, segments) && Parse(Image(entry, segments)).Ok?
    requires LoadedAs(init, view, Parse(Image(entry, segments)).value)
    ensures init.entry == entry && ProgramLoaded(view, LoadedAll(segments))
    ensures init.heap.limit == USER_HEAP_LIMIT
    ensures forall i | 0 <= i < |segments| :: Loaded(segments[i]).mapEnd <= init.heap.start
  {
    hide Parse, Image, ProgramLoaded, Loaded, HeapForLoadedImage, MaxSegmentEnd, ImageSound, FillsLoadRange, HeadersInFile, Fits;
    RoundTrip(entry, segments);
    ParseSound(Image(entry, segments));
    HeapAboveImage(ParsedElf(entry, LoadedAll(segments)), Image(entry, segments));
  }

  /** Byte `x` of a segment, read-only and as written: data, then zeros. */
  ghost predicate ByteAsWritten(s: UserSpace, segment: Segment, x: nat) {
    && IsMapped(s, x) && !s[x / PAGE_SIZE].writable
    && Peek(s, x) == if segment.vaddr <= x < segment.vaddr + |segment.data| then segment.data[x - segment.vaddr] else 0
  }

  lemma ReadOnlyAsWritten(view: UserSpace, segments: seq<Segment>, i: nat, x: nat)
    requires ProgramLoaded(view, LoadedAll(segments)) && i < |segments| && !Loaded(segments[i]).Writable()
    requires segments[i].vaddr <= x < segments[i].vaddr + segments[i].memsz && Aligned(segments[i].vaddr)
    ensures ByteAsWritten(view, segments[i], x)
  {
    assert SegmentLoaded(view, LoadedAll(segments)[i]);
    assert SegmentPage(Loaded(segments[i]), x / PAGE_SIZE);
  }

  /** End to end: as long as a process spawned from a written file is in the table, every
      byte of its read-only segments is the one that was written, whatever it or any other
      process has done since. */
  lemma WrittenForever(ks: seq<Kernel>, es: seq<Event>, a: nat, b: nat, p: nat, entry: nat, segments: seq<Segment>, i: nat, x: nat)
    requires FromBoot(ks, es) && a + 1 < |es| && a + 2 <= b < |ks| && Fits(entry, segments)
    requires SpawnsFile(ks, es, a, p, entry, segments) && p in ks[b].procs
    requires i < |segments| && !Loaded(segments[i]).Writable()
    requires segments[i].vaddr <= x < segments[i].vaddr + segments[i].memsz
    ensures es[a + 1].init.entry == entry
    ensures ks[b].procs[p].root in ks[b].spaces && ByteAsWritten(ks[b].spaces[ks[b].procs[p].root], segments[i], x)
  {
    hide Parse, Image, ProgramLoaded, Fits, LoadedAs, Loaded, Inv, Next;
    StartsAsLoaded(ks, es, a, p, entry, segments);
    LoadsWhatWasWritten(es[a + 1].init, es[a].view, entry, segments);
    WrittenAligned(entry, segments, i);
    ReadOnlyAsWritten(es[a].view, segments, i, x);
    ReadOnlyForever(ks, es, a + 2, b, p, x / PAGE_SIZE);
  }

  lemma WrittenAligned(entry: nat, segments: seq<Segment>, i: nat)
    requires Fits(entry, segments) && Parse(Image(entry, segments)).Ok? && i < |segments|
    ensures Aligned(segments[i].vaddr)
  {
    hide Parse, Image, Fits;
    RoundTrip(entry, segments);
    assert SegmentLoadable(segments[i]);
  }

  /** And its pages are exactly the segments written, with their permissions, its stack
      and its heap. */
  lemma WrittenLayout(ks: seq<Kernel>, es: seq<Event>, a: nat, b: nat, p: nat, entry: nat, segments: seq<Segment>)
    requires FromBoot(ks, es) && a + 1 < |es| && a + 2 <= b < |ks| && Fits(entry, segments)
    requires SpawnsFile(ks, es, a, p, entry, segments) && p in ks[b].procs
    ensures ks[b].procs[p].root in ks[b].spaces
    ensures
      var h, s := ks[b].procs[p].heap, ks[b].spaces[ks[b].procs[p].root];
      && (forall page: nat :: page in s <==>
            || Covered(LoadedAll(segments), page) || StackPage(page)
            || h.start / PAGE_SIZE <= page < h.mappedEnd / PAGE_SIZE)
      && (forall i: nat, page: nat | i < |segments| && SegmentPage(Loaded(segments[i]), page) ::
            page in s && s[page].writable == Loaded(segments[i]).Writable())
  {
    hide Parse, Image, ProgramLoaded, Fits, LoadedAs, Loaded, Inv, Next, Covered, StackPage, SegmentPage;
    StartsAsLoaded(ks, es, a, p, entry, segments);
    LoadsWhatWasWritten(es[a + 1].init, es[a].view, entry, segments);
    ProgramForever(ks, es, a + 2, b, p, LoadedAll(segments));
    var s := ks[b].spaces[ks[b].procs[p].root];
    forall i: nat, page: nat | i < |segments| && SegmentPage(Loaded(segments[i]), page)
      ensures page in s && s[page].writable == Loaded(segments[i]).Writable()
    {
      assert SegmentPage(LoadedAll(segments)[i], page);
    }
  }
}

/** The boot memory map as a sequence of usable 4 KiB frames. */
module FrameAllocation {
  import opened Base

  /** A region of the boot memory map, in byte addresses. */
  datatype Region = Region(start: nat, end: nat, usable: bool)

  function RegionFrames(start: nat, end: nat): seq<nat>
    decreases end - start
  {
    if start >= end then [] else [start / PAGE_SIZE] + RegionFrames(start + PAGE_SIZE, end)
  }

  /** `usable_frames`: the frames of the usable regions, in map order. */
  function UsableFrames(regions: seq<Region>): seq<nat> {
    if regions == [] then []
    else
      (if regions[0].usable then RegionFrames(regions[0].start, regions[0].end) else [])
      + UsableFrames(regions[1..])
  }

  ghost predicate Distinct(s: seq<nat>) {
    forall i, j | 0 <= i < j < |s| :: s[i] != s[j]
  }

  ghost predicate RegionsOk(regions: seq<Region>) {
    && (forall i | 0 <= i < |regions| :: Aligned(regions[i].start) && Aligned(regions[i].end))
    && (forall i, j | 0 <= i < j < |regions| && regions[i].usable && regions[j].usable ::
          regions[i].end <= regions[j].start || regions[j].end <= regions[i].start)
  }

  ghost predicate Covers(r: Region, frame: nat) {
    r.usable && r.start <= frame * PAGE_SIZE < r.end
  }

  lemma {:induction false} RegionFramesExact(start: nat, end: nat, frame: nat)
    requires Aligned(start)
    ensures frame in RegionFrames(start, end) <==> start <= frame * PAGE_SIZE < end
    decreases end - start
  {
    if start < end {
      RegionFramesExact(start + PAGE_SIZE, end, frame);
    }
  }

  lemma {:induction false} RegionFramesDistinct(start: nat, end: nat)
    requires Aligned(start)
    ensures Distinct(RegionFrames(start, end))
    decreases end - start
  {
    if start < end {
      RegionFramesDistinct(start + PAGE_SIZE, end);
      RegionFramesExact(start + PAGE_SIZE, end, start / PAGE_SIZE);
    }
  }

  /** The allocator hands out exactly the frames inside usable regions, ... */
  lemma {:induction false} UsableFramesExact(regions: seq<Region>, frame: nat)
    requires RegionsOk(regions)
    ensures frame in UsableFrames(regions) <==> exists i :: 0 <= i < |regions| && Covers(regions[i], frame)
  {
    if regions != [] {
      var rest := regions[1..];
      UsableFramesExact(rest, frame);
      RegionFramesExact(regions[0].start, regions[0].end, frame);
      if frame in UsableFrames(rest) {
        var i :| 0 <= i < |rest| && Covers(rest[i], frame);
        assert Covers(regions[i + 1], frame);
      }
      if i :| 0 <= i < |regions| && Covers(regions[i], frame) && i > 0 {
        assert Covers(rest[i - 1], frame);
      }
    }
  }

  /** ... and never the same frame twice. */
  lemma {:induction false} UsableFramesDistinct(regions: seq<Region>)
    requires RegionsOk(regions)
    ensures Distinct(UsableFrames(regions))
  {
    if regions != [] {
      var rest := regions[1..];
      UsableFramesDistinct(rest);
      if regions[0].usable {
        var first := RegionFrames(regions[0].start, regions[0].end);
        RegionFramesDistinct(regions[0].start, regions[0].end);
        forall i, j | 0 <= i < |first| && 0 <= j < |UsableFrames(rest)| ensures first[i] != UsableFrames(rest)[j] {
          RegionFramesExact(regions[0].start, regions[0].end, first[i]);
          UsableFramesExact(rest, first[i]);
          assert forall k | 0 <= k < |rest| :: rest[k] == regions[k + 1];
        }
      }
    }
  }
}

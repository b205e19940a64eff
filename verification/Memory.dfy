/** The kernel's memory state and the operations on user address spaces.

    Every contract is stated over `spaces`: the map from each level-4 table to
    everything user mode can see through it, which `Valid()` ties to the bits of
    the tables and data frames. "Nothing else changed" is therefore
    isolation, at the level of translations and bytes. */
module Memory {
  import opened Base
  import opened UserSpaces
  import opened PageTables
  import opened TableUpdates
  import opened FrameAllocation

  datatype MapToError = PageAlreadyMapped | NoFrameForTable

  datatype AddressSpaceError =
    | FrameAllocationFailed
    | KernelUserSlotInUse
    | RangeOverflow
    | MapTo(error: MapToError)
    | UnmapPageNotMapped

  datatype Done = Done

  /** Pages of slot 1 of the level-4 table. */
  predicate UserPageNumber(page: nat) {
    USER_BASE <= page * PAGE_SIZE < 2 * USER_BASE
  }

  /** The flags of a user page (`UserMapFlags::page_table_flags`). */
  function PageFlags(writable: bool): Flags {
    Flags(true, writable, true, false)
  }

  /** A kernel entry as copied into a user level-4 table. */
  function Supervisor(e: Entry): Entry {
    match e
    case Unused => Unused
    case Used(frame, flags) => Used(frame, flags.(user := false))
  }

  /** Outside the user slot, level-4 table `r` is the kernel's, stripped of user access. */
  ghost predicate SharesKernel(phys: Phys, kernelRoot: nat, r: nat)
    requires kernelRoot in phys && phys[kernelRoot].Table?
  {
    && r in phys && phys[r].Table?
    && forall i | 0 <= i < 512 && i != USER_P4_INDEX :: phys[r].entries[i] == Supervisor(phys[kernelRoot].entries[i])
  }

  ghost predicate AllShareKernel(phys: Phys, owner: Owner, kernelRoot: nat) {
    && kernelRoot in phys && phys[kernelRoot].Table?
    && forall r {:trigger SharesKernel(phys, kernelRoot, r)} | r in Roots(owner) :: SharesKernel(phys, kernelRoot, r)
  }

  /** Changing one frame keeps this if it is not the kernel's table, and changes nothing but
      the user slot if it is the level-4 table of an address space. */
  lemma UpdateKeepsShared(phys: Phys, owner: Owner, kernelRoot: nat, f: nat, content: Content, owner': Owner)
    requires AllShareKernel(phys, owner, kernelRoot) && f != kernelRoot && Roots(owner') <= Roots(owner)
    requires f in Roots(owner) ==>
               content.Table? && f in phys && phys[f].Table?
               && forall i | 0 <= i < 512 && i != USER_P4_INDEX :: content.entries[i] == phys[f].entries[i]
    ensures AllShareKernel(phys[f := content], owner', kernelRoot)
  {
    var phys' := phys[f := content];
    forall r | r in Roots(owner') ensures SharesKernel(phys', kernelRoot, r) {
      assert SharesKernel(phys, kernelRoot, r);
    }
  }

  lemma EntryKeepsShared(phys: Phys, owner: Owner, kernelRoot: nat, f: nat, i: nat, e: Entry, owner': Owner)
    requires AllShareKernel(phys, owner, kernelRoot) && f != kernelRoot && Roots(owner') <= Roots(owner)
    requires f in phys && phys[f].Table? && i < 512 && (f in Roots(owner) ==> i == USER_P4_INDEX)
    ensures AllShareKernel(SetEntry(phys, f, i, e), owner', kernelRoot)
  {
    hide AllShareKernel, Roots;
    UpdateKeepsShared(phys, owner, kernelRoot, f, Table(phys[f].entries[i := e]), owner');
  }

  lemma FreshKeepsShared(phys: Phys, owner: Owner, kernelRoot: nat, g: nat, content: Content)
    requires AllShareKernel(phys, owner, kernelRoot) && g != kernelRoot && g !in owner
    ensures AllShareKernel(phys[g := content], owner, kernelRoot)
  {
    hide AllShareKernel;
    UpdateKeepsShared(phys, owner, kernelRoot, g, content, owner);
  }

  lemma NewRootShares(phys: Phys, owner: Owner, kernelRoot: nat, g: nat)
    requires AllShareKernel(phys, owner, kernelRoot) && SharesKernel(phys, kernelRoot, g)
    ensures AllShareKernel(phys, owner[g := Tag(g, 4, 0, 0)], kernelRoot)
  {
    forall r | r in Roots(owner[g := Tag(g, 4, 0, 0)]) ensures SharesKernel(phys, kernelRoot, r) {
      assert r == g || r in Roots(owner);
    }
  }

  lemma GraftKeepsShared(phys: Phys, owner: Owner, kernelRoot: nat, f: nat, i: nat, g: nat, flags: Flags)
    requires AllShareKernel(phys, owner, kernelRoot) && f != kernelRoot && g != kernelRoot && g !in owner && g != f
    requires f in phys && phys[f].Table? && i < 512 && f in owner && 0 < owner[f].level <= 4
    requires owner[f].level == 4 ==> i == USER_P4_INDEX
    ensures AllShareKernel(GraftPhys(phys, f, i, g, flags), GraftOwner(owner, f, i, g), kernelRoot)
  {
    hide AllShareKernel;
    FreshKeepsShared(phys, owner, kernelRoot, g, EmptyTable());
    EntryKeepsShared(phys[g := EmptyTable()], owner, kernelRoot, f, i, Used(g, flags), GraftOwner(owner, f, i, g));
  }

  lemma UserPageSlot(page: nat)
    requires UserPageNumber(page)
    ensures page < PAGES && Index(page, 4) == USER_P4_INDEX && Prefix(page, 4) == 0
  {
    PrefixTop(page);
  }

  /** The 36 bits a walk uses tell the page, as far as user pages are concerned. */
  lemma CanonicalPage(address: nat)
    requires Canonical(address)
    ensures
      var page := address / PAGE_SIZE % PAGES;
      && (page * PAGE_SIZE < 2 * USER_BASE ==> page == address / PAGE_SIZE)
      && (address / PAGE_SIZE < PAGES ==> page == address / PAGE_SIZE)
  {
  }

  class MemoryState {
    const kernelRoot: nat
    const usable: seq<nat>
    var next: nat
    var phys: Phys
    ghost var owner: Owner
    /** Frames handed out so far. */
    ghost var consumed: set<nat>
    /** level-4 frame -> what user mode sees through it */
    ghost var spaces: map<nat, UserSpace>

    ghost predicate Valid()
      reads this
    {
      && TreeOk(phys, owner) && RightsOk(phys, owner)
      && spaces == Views(phys, owner)
      && owner.Keys <= consumed
      && Distinct(usable)
      && (forall j | next <= j < |usable| :: usable[j] !in consumed)
      && kernelRoot !in usable && kernelRoot !in consumed
      && kernelRoot in phys && phys[kernelRoot].Table?
      && AllShareKernel(phys, owner, kernelRoot)
    }

    /** The allocator has no frame left. */
    predicate Exhausted()
      reads this
    {
      next >= |usable|
    }

    /** The kernel leaves slot 1 of its own level-4 table unused. */
    predicate UserSlotFree()
      requires kernelRoot in phys && phys[kernelRoot].Table?
      reads this
    {
      phys[kernelRoot].entries[USER_P4_INDEX].Unused?
    }

    /** `init_global`, with an allocator that has handed out `used` frames already. */
    constructor (regions: seq<Region>, used: nat, root: nat, table: Entries)
      requires RegionsOk(regions) && root !in UsableFrames(regions)
      ensures Valid() && spaces == map[] && kernelRoot == root && next == used && usable == UsableFrames(regions)
    {
      var frames := UsableFrames(regions);
      kernelRoot := root;
      usable := frames;
      next := used;
      phys := map[root := Table(table)];
      owner := map[];
      consumed := set i | 0 <= i < used && i < |frames| :: frames[i];
      spaces := map[];
      UsableFramesDistinct(regions);
    }

    /** Isolation: two different user pages, of one process or of two, are backed by two
        different data frames, and no user page lies outside slot 1. */
    lemma Isolated(r: nat, page: nat, r': nat, page': nat)
      requires Valid() && r in spaces && r' in spaces && page in spaces[r] && page' in spaces[r']
      ensures Translate(phys, r, page).Some? && Translate(phys, r', page').Some?
      ensures Translate(phys, r, page).value.frame == Translate(phys, r', page').value.frame ==> r == r' && page == page'
      ensures Translate(phys, r, page).value.frame in phys && phys[Translate(phys, r, page).value.frame].Data?
      ensures USER_BASE <= page * PAGE_SIZE < 2 * USER_BASE
    {
      hide TreeOk;
      FramesDisjoint(phys, owner, r, page, r', page');
      OnlyUserSlot(phys, owner, r, page);
    }

    /** Nor do two address spaces share a table below their roots, and no table serves two
        parts of one. */
    lemma TablesIsolated(r: nat, page: nat, level: nat, r': nat, page': nat, level': nat)
      requires Valid() && r in spaces && r' in spaces && page < PAGES && page' < PAGES && level <= 4 && level' <= 4
      requires Visit(phys, r, 4, page, level).Some? && Visit(phys, r', 4, page', level').Some?
      ensures Visit(phys, r, 4, page, level) == Visit(phys, r', 4, page', level') <==>
                r == r' && level == level' && Prefix(page, level) == Prefix(page', level')
    {
      hide TreeOk, Prefix;
      PlacesDistinct(phys, owner, r, page, level, r', page', level');
    }

    /** What the hardware lets user mode read and write is what the kernel thinks it is. */
    lemma HardwareAgrees(root: nat, page: nat)
      requires Valid() && root in spaces && page < PAGES
      ensures MmuWalk(phys, root, 4, page) == Translate(phys, root, page)
    {
      PrefixTop(page);
      assert NodeOk(phys, owner, root);
      MmuAgrees(phys, owner, root, page);
    }

    /** Every user address space maps the kernel exactly as the kernel's own table does, out
        of reach of user mode. */
    lemma KernelIsMapped(r: nat, i: nat)
      requires Valid() && r in spaces && i < 512 && i != USER_P4_INDEX
      ensures r in phys && phys[r].Table? && phys[r].entries[i] == Supervisor(phys[kernelRoot].entries[i])
      ensures !AllowsUser(phys[r].entries[i])
    {
      hide TreeOk, RightsOk;
      assert SharesKernel(phys, kernelRoot, r);
    }

    /** `BootInfoFrameAllocator::allocate_frame`: frames are never handed out twice. */
    method AllocateFrame() returns (frame: Option<nat>)
      requires Valid()
      modifies this`next, this`consumed
      ensures Valid()
      ensures next == old(next) + 1
      ensures frame == if old(Exhausted()) then None else Some(usable[old(next)])
      ensures frame.Some? ==> frame.value !in old(consumed) && frame.value != kernelRoot
                              && consumed == old(consumed) + {frame.value}
      ensures frame.None? ==> consumed == old(consumed)
    {
      frame := if next < |usable| then Some(usable[next]) else None;
      if frame.Some? {
        consumed := consumed + {frame.value};
      }
      next := next + 1;
    }

    /** `AddressSpace::new_user`: a new level-4 table sharing the kernel's entries,
        stripped of user access, with an empty user slot. */
    method NewUser() returns (r: Result<nat, AddressSpaceError>)
      requires Valid()
      modifies this
      ensures Valid() && next >= old(next)
      ensures r.Ok? ==> r.value !in old(spaces) && r.value != kernelRoot
                        && spaces == old(spaces)[r.value := map[]]
      ensures r.Err? ==> spaces == old(spaces)
      ensures r.Ok? <==> !old(Exhausted()) && old(UserSlotFree())
      ensures r.Err? ==> r.error == if old(Exhausted()) then FrameAllocationFailed else KernelUserSlotInUse
    {
      hide AllShareKernel;
      var got := AllocateFrame();
      if got.None? {
        return Err(FrameAllocationFailed);
      }
      var g := got.value;
      ghost var before := phys;
      phys := phys[g := EmptyTable()];
      FreshInvisible(before, owner, g, EmptyTable());
      ContentKeepsRights(before, owner, g, EmptyTable());
      var index := 0;
      while index < 512
        invariant 0 <= index <= 512
        invariant g in phys && phys[g].Table? && phys == before[g := phys[g]]
        invariant forall i | 0 <= i < 512 ::
          phys[g].entries[i] == if i < index && i != USER_P4_INDEX then Supervisor(before[kernelRoot].entries[i]) else Unused
        invariant index > USER_P4_INDEX ==> before[kernelRoot].entries[USER_P4_INDEX].Unused?
        invariant owner == old(owner) && spaces == old(spaces) && next == old(next) + 1 && consumed == old(consumed) + {g}
      {
        var source := phys[kernelRoot].entries[index];
        if index == USER_P4_INDEX {
          if !source.Unused? {
            FreshKeepsShared(before, owner, kernelRoot, g, phys[g]);
            FreshInvisible(before, owner, g, phys[g]);
            ContentKeepsRights(before, owner, g, phys[g]);
            return Err(KernelUserSlotInUse);
          }
        } else {
          phys := SetEntry(phys, g, index, Supervisor(source));
        }
        index := index + 1;
      }
      FreshInvisible(before, owner, g, phys[g]);
      ContentKeepsRights(before, owner, g, phys[g]);
      NewRoot(phys, owner, g);
      FreshKeepsShared(before, owner, kernelRoot, g, phys[g]);
      NewRootShares(phys, owner, kernelRoot, g);
      owner := owner[g := Tag(g, 4, 0, 0)];
      spaces := spaces[g := map[]];
      r := Ok(g);
    }

    /** `create_next_table`: follow entry `i` of the table in frame `f`, inserting an
        empty table if it is unused. No address space sees any difference. */
    method CreateNextTable(f: nat, i: nat, flags: Flags) returns (r: Result<nat, MapToError>)
      requires Valid() && f in owner && owner[f].level >= 2 && i < 512
      requires owner[f].level == 4 ==> i == USER_P4_INDEX
      requires UserFlags(flags) && MayGrant(phys, owner, f, flags)
      modifies this
      ensures Valid() && spaces == old(spaces) && Roots(owner) == old(Roots(owner))
      ensures next >= old(next) && consumed >= old(consumed)
      ensures forall h | h in old(owner) :: h in owner && owner[h] == old(owner[h])
      ensures forall h | h in old(consumed) && h !in old(owner) && h in old(phys) ::
                h !in owner && h in phys && phys[h] == old(phys[h])
      ensures r.Ok? ==> r.value in owner && owner[r.value] == Tag(owner[f].root, owner[f].level - 1, owner[f].prefix * 512 + i, f)
      ensures r.Ok? ==> MayGrant(phys, owner, r.value, flags)
      ensures r.Err? ==> r.error == NoFrameForTable && old(Exhausted())
                         && f in phys && phys[f].Table? && phys[f].entries[i].Unused?
    {
      hide RightsOk, EntryTo, Views, AllShareKernel;
      assert NodeOk(phys, owner, f) && SlotOk(owner, f, i, phys[f].entries[i]);
      var entry := phys[f].entries[i];
      if entry.Unused? {
        var got := AllocateFrame();
        if got.None? {
          return Err(NoFrameForTable);
        }
        var g := got.value;
        GraftTree(phys, owner, f, i, g, flags);
        GraftKeepsViews(phys, owner, f, i, g, flags);
        GraftRights(phys, owner, f, i, g, flags);
        GraftKeepsShared(phys, owner, kernelRoot, f, i, g, flags);
        assert Roots(GraftOwner(owner, f, i, g)) == Roots(owner);
        phys, owner := GraftPhys(phys, f, i, g, flags), GraftOwner(owner, f, i, g);
        r := Ok(g);
      } else {
        var merged := Flags(true, entry.flags.writable || flags.writable, true, false);
        if merged != entry.flags {
          WidenTree(phys, owner, f, i, merged);
          WidenKeepsViews(phys, owner, f, i, merged);
          WidenRights(phys, owner, f, i, merged);
          EntryKeepsShared(phys, owner, kernelRoot, f, i, Used(entry.frame, merged), owner);
          phys := SetEntry(phys, f, i, Used(entry.frame, merged));
        }
        EntryFound(phys, owner, f, i);
        r := Ok(entry.frame);
      }
    }

    /** The first half of `map_to`: walk to the last-level table for `page`, creating
        missing tables on the way. */
    method LastLevelTable(root: nat, page: nat, flags: Flags) returns (r: Result<nat, MapToError>)
      requires Valid() && root in Roots(owner) && UserPageNumber(page) && UserFlags(flags)
      modifies this
      ensures Valid() && spaces == old(spaces) && Roots(owner) == old(Roots(owner))
      ensures next >= old(next) && consumed >= old(consumed)
      ensures forall h | h in old(consumed) && h !in old(owner) && h in old(phys) ::
                h !in owner && h in phys && phys[h] == old(phys[h])
      ensures r.Ok? ==> r.value in owner && owner[r.value].root == root
                        && owner[r.value].level == 1 && owner[r.value].prefix == Prefix(page, 1)
                        && MayGrant(phys, owner, r.value, flags)
      ensures r.Err? ==> r.error == NoFrameForTable && Exhausted() && page !in View(phys, root)
    {
      UserPageSlot(page);
      assert NodeOk(phys, owner, root);
      var level3 := CreateNextTable(root, Index(page, 4), flags);
      if level3.Err? {
        UnusedHidesPage(root, page);
        return level3;
      }
      var level2 := CreateNextTable(level3.value, Index(page, 3), flags);
      if level2.Err? {
        UnusedHidesPage(level3.value, page);
        return level2;
      }
      r := CreateNextTable(level2.value, Index(page, 2), flags);
      if r.Err? {
        UnusedHidesPage(level2.value, page);
      }
    }

    /** `map_frame`, through `OffsetPageTable::map_to`. It fails exactly when the
        page is already mapped or a table is needed and no frame is left; then no
        address space changes. */
    method MapFrame(root: nat, page: nat, frame: nat, flags: Flags) returns (r: Result<Done, MapToError>)
      requires Valid() && root in Roots(owner) && UserPageNumber(page) && UserFlags(flags)
      requires frame in consumed && frame !in owner && frame in phys && phys[frame].Data?
      modifies this
      ensures Valid() && next >= old(next)
      ensures r.Ok? ==> spaces == old(spaces)[root :=
                old(spaces)[root][page := UserPage(old(phys[frame].bytes), flags.writable)]]
      ensures r.Err? ==> spaces == old(spaces)
      ensures r == Err(PageAlreadyMapped) <==> page in old(spaces)[root]
      ensures r == Err(NoFrameForTable) ==> Exhausted()
    {
      hide AllShareKernel;
      var table := LastLevelTable(root, page, flags);
      if table.Err? {
        return Err(table.error);
      }
      var f, i := table.value, Index(page, 1);
      UserPageSlot(page);
      assert NodeOk(phys, owner, f);
      if !phys[f].entries[i].Unused? {
        assert SlotOk(owner, f, i, phys[f].entries[i]);
        WalkReaches(phys, owner, f, page);
        return Err(PageAlreadyMapped);
      }
      LeafTree(phys, owner, f, i, frame, flags);
      LeafAddsPage(phys, owner, f, i, frame, flags, page);
      LeafRights(phys, owner, f, i, frame, flags);
      EntryKeepsShared(phys, owner, kernelRoot, f, i, Used(frame, flags), GraftOwner(owner, f, i, frame));
      spaces := spaces[root := spaces[root][page := UserPage(phys[frame].bytes, flags.writable)]];
      phys, owner := SetEntry(phys, f, i, Used(frame, flags)), GraftOwner(owner, f, i, frame);
      r := Ok(Done);
    }

    /** A page whose walk meets an unused entry is not mapped. */
    lemma UnusedHidesPage(f: nat, page: nat)
      requires Valid() && f in owner && owner[f].level > 0 && page < PAGES
      requires owner[f].prefix == Prefix(page, owner[f].level)
      requires f in phys && phys[f].Table? && phys[f].entries[Index(page, owner[f].level)].Unused?
      ensures page !in View(phys, owner[f].root)
    {
      WalkReaches(phys, owner, f, page);
    }

    /** `map_zeroed_user_page` */
    method MapZeroedUserPage(root: nat, address: nat, flags: Flags) returns (r: Result<nat, AddressSpaceError>)
      requires Valid() && root in spaces && UserPageNumber(address / PAGE_SIZE) && UserFlags(flags)
      modifies this
      ensures Valid() && next >= old(next)
      ensures r.Ok? ==> address / PAGE_SIZE !in old(spaces)[root]
                        && spaces == old(spaces)[root :=
                             WithPage(old(spaces)[root], address / PAGE_SIZE, Some(ZeroPage(flags.writable)))]
      ensures r.Err? ==> spaces == old(spaces)
      ensures r.Err? ==> Exhausted() || address / PAGE_SIZE in old(spaces)[root]
      ensures r.Err? ==> r.error == FrameAllocationFailed || r.error.MapTo?
    {
      hide AllShareKernel;
      var got := AllocateFrame();
      if got.None? {
        return Err(FrameAllocationFailed);
      }
      FreshKeepsShared(phys, owner, kernelRoot, got.value, Data(ZeroBytes()));
      FreshInvisible(phys, owner, got.value, Data(ZeroBytes()));
      ContentKeepsRights(phys, owner, got.value, Data(ZeroBytes()));
      phys := phys[got.value := Data(ZeroBytes())];
      var mapped := MapFrame(root, address / PAGE_SIZE, got.value, flags);
      if mapped.Err? {
        assert mapped.error == PageAlreadyMapped || mapped.error == NoFrameForTable;
        return Err(MapTo(mapped.error));
      }
      r := Ok(got.value);
    }

    /** The loop of `map_user_region`. */
    method MapPages(root: nat, first: nat, end: nat, writable: bool)
      returns (r: Result<Done, AddressSpaceError>, ghost hi: nat)
      requires Valid() && root in spaces && Aligned(first) && Aligned(end)
      requires USER_BASE <= first <= end <= 2 * USER_BASE
      modifies this
      ensures Valid() && next >= old(next)
      ensures Grown(old(spaces), spaces, root, first / PAGE_SIZE, hi, writable)
      ensures r.Ok? ==> hi == end / PAGE_SIZE
      ensures r.Err? ==> hi < end / PAGE_SIZE && (Exhausted() || hi in old(spaces)[root])
      ensures r.Err? ==> r.error.FrameAllocationFailed? || r.error.MapTo?
    {
      hide Valid;
      var address := first;
      ghost var lo := first / PAGE_SIZE;
      hi := lo;
      GrownNone(spaces, root, lo, writable);
      while address < end
        invariant Valid() && next >= old(next)
        invariant address == hi * PAGE_SIZE && first <= address <= end
        invariant Grown(old(spaces), spaces, root, lo, hi, writable)
      {
        ghost var mid := spaces;
        assert address / PAGE_SIZE == hi;
        GrownElsewhere(old(spaces), mid, root, lo, hi, writable, hi);
        var page := MapZeroedUserPage(root, address, PageFlags(writable));
        if page.Err? {
          return Err(page.error), hi;
        }
        GrownOneMore(old(spaces), mid, spaces, root, lo, hi, writable);
        address := address + PAGE_SIZE;
        hi := hi + 1;
      }
      r := Ok(Done);
    }

    /** `map_user_region`: map every page touched by `[start, start + size)` as a
        zero-filled page. On failure the pages below `hi`, mapped so far, stay. */
    method MapUserRegion(root: nat, start: nat, size: nat, writable: bool)
      returns (r: Result<Done, AddressSpaceError>, ghost hi: nat)
      requires Valid() && root in spaces
      requires size == 0 || AlignUp(start + size).None? || (USER_BASE <= start && start + size <= 2 * USER_BASE)
      modifies this
      ensures Valid() && next >= old(next)
      ensures Grown(old(spaces), spaces, root, start / PAGE_SIZE, hi, writable)
      ensures r.Ok? ==> hi == if size == 0 then start / PAGE_SIZE else (start + size + PAGE_SIZE - 1) / PAGE_SIZE
      ensures r.Err? && r.error != RangeOverflow ==>
                hi * PAGE_SIZE < start + size && (Exhausted() || hi in old(spaces)[root])
      ensures r.Err? ==> r.error.RangeOverflow? || r.error.FrameAllocationFailed? || r.error.MapTo?
      ensures r == Err(RangeOverflow) <==> size > 0 && AlignUp(start + size).None?
    {
      hide Valid;
      hi := start / PAGE_SIZE;
      GrownNone(spaces, root, hi, writable);
      if size == 0 {
        return Ok(Done), hi;
      }
      var end := AlignUp(start + size);
      if end.None? {
        return Err(RangeOverflow), hi;
      }
      r, hi := MapPages(root, AlignDown(start), end.value, writable);
    }

    /** `unmap_page`, through `OffsetPageTable::unmap`. */
    method UnmapPage(root: nat, page: nat) returns (r: Result<Done, AddressSpaceError>)
      requires Valid() && root in spaces && UserPageNumber(page)
      modifies this
      ensures Valid() && next == old(next)
      ensures page in old(spaces)[root] ==> r == Ok(Done) && spaces == old(spaces)[root := WithPage(old(spaces)[root], page, None)]
      ensures page !in old(spaces)[root] ==> r == Err(UnmapPageNotMapped) && spaces == old(spaces)
    {
      hide AllShareKernel;
      UserPageSlot(page);
      var f := root;
      var level := 4;
      assert NodeOk(phys, owner, root);
      while level > 1
        invariant 1 <= level <= 4
        invariant f in owner && owner[f].root == root && owner[f].level == level && owner[f].prefix == Prefix(page, level)
        invariant f in phys && phys[f].Table?
        invariant Valid() && spaces == old(spaces) && next == old(next)
      {
        assert NodeOk(phys, owner, f);
        var entry := phys[f].entries[Index(page, level)];
        assert SlotOk(owner, f, Index(page, level), entry);
        if entry.Unused? {
          UnusedHidesPage(f, page);
          return Err(UnmapPageNotMapped);
        }
        f, level := entry.frame, level - 1;
        assert NodeOk(phys, owner, f);
      }
      var i := Index(page, 1);
      if phys[f].entries[i].Unused? {
        UnusedHidesPage(f, page);
        return Err(UnmapPageNotMapped);
      }
      ClearTree(phys, owner, f, i);
      ClearRemovesPage(phys, owner, f, i, page);
      ClearRights(phys, owner, f, i);
      EntryKeepsShared(phys, owner, kernelRoot, f, i, Unused, ClearOwner(owner, phys[f].entries[i].frame));
      spaces := spaces[root := WithPage(spaces[root], page, None)];
      phys, owner := SetEntry(phys, f, i, Unused), ClearOwner(owner, phys[f].entries[i].frame);
      r := Ok(Done);
    }

    /** `unmap_user_heap_pages`: stops at the first page that is not mapped. */
    method UnmapUserHeapPages(root: nat, start: nat, end: nat) returns (r: Result<Done, AddressSpaceError>,
            ghost hi: nat)
      requires Valid() && root in spaces
      requires USER_BASE <= start && end <= 2 * USER_BASE
      modifies this
      ensures Valid() && next == old(next)
      ensures Shrunk(old(spaces), spaces, root, start / PAGE_SIZE, hi)
      ensures r.Ok? ==> start <= end && Aligned(start) && Aligned(end) && hi == end / PAGE_SIZE
      ensures r == Err(RangeOverflow) <==> start > end || !Aligned(start) || !Aligned(end)
      ensures r.Err? && r.error != RangeOverflow ==>
                r.error == UnmapPageNotMapped && start / PAGE_SIZE <= hi < end / PAGE_SIZE && hi !in old(spaces)[root]
    {
      hide Valid;
      ghost var lo := start / PAGE_SIZE;
      hi := lo;
      GrownNone(spaces, root, lo, true);
      if start > end || !Aligned(start) || !Aligned(end) {
        return Err(RangeOverflow), hi;
      }
      var address := start;
      while address < end
        invariant Valid() && next == old(next)
        invariant address == hi * PAGE_SIZE && start <= address <= end
        invariant Shrunk(old(spaces), spaces, root, lo, hi)
      {
        ghost var mid := spaces;
        assert address / PAGE_SIZE == hi;
        ShrunkElsewhere(old(spaces), mid, root, lo, hi, hi);
        r := UnmapPage(root, address / PAGE_SIZE);
        if r.Err? {
          return r, hi;
        }
        ShrunkOneMore(old(spaces), mid, spaces, root, lo, hi);
        address := address + PAGE_SIZE;
        hi := hi + 1;
      }
      r := Ok(Done);
    }

    /** `map_user_heap_pages`: all pages or none. A failure part-way unmaps what was
        mapped, so every address space is as before; it happens only for a
        malformed range, a page already mapped, or when frames run out. */
    method MapUserHeapPages(root: nat, start: nat, end: nat) returns (r: Result<Done, AddressSpaceError>)
      requires Valid() && root in spaces
      requires USER_BASE <= start && end <= 2 * USER_BASE
      modifies this
      ensures Valid() && next >= old(next)
      ensures r.Ok? ==> start <= end && Aligned(start) && Aligned(end)
                        && Grown(old(spaces), spaces, root, start / PAGE_SIZE, end / PAGE_SIZE, true)
      ensures r.Err? ==> spaces == old(spaces)
      ensures r == Err(RangeOverflow) <==> start > end || !Aligned(start) || !Aligned(end)
      ensures r.Err? && r.error != RangeOverflow && NoneMapped(old(spaces)[root], start / PAGE_SIZE, end / PAGE_SIZE) ==> Exhausted()
      ensures r.Err? ==> r.error.RangeOverflow? || r.error.FrameAllocationFailed? || r.error.MapTo?
    {
      hide Valid;
      ghost var lo, hi := start / PAGE_SIZE, start / PAGE_SIZE;
      GrownNone(spaces, root, lo, true);
      if start > end || !Aligned(start) || !Aligned(end) {
        return Err(RangeOverflow);
      }
      var address := start;
      while address < end
        invariant Valid() && next >= old(next)
        invariant address == hi * PAGE_SIZE && start <= address <= end
        invariant Grown(old(spaces), spaces, root, lo, hi, true)
      {
        ghost var mid := spaces;
        assert address / PAGE_SIZE == hi;
        GrownElsewhere(old(spaces), mid, root, lo, hi, true, hi);
        var page := MapZeroedUserPage(root, address, PageFlags(true));
        if page.Err? {
          var undone, gone := UnmapUserHeapPages(root, start, address);
          assert undone.Ok?;
          GrownThenShrunk(old(spaces), mid, spaces, root, lo, hi, true);
          return Err(page.error);
        }
        GrownOneMore(old(spaces), mid, spaces, root, lo, hi, true);
        address := address + PAGE_SIZE;
        hi := hi + 1;
      }
      r := Ok(Done);
    }

    /** `translate_user`: the walk finds exactly the pages of the address space. */
    method TranslateUser(root: nat, address: nat) returns (m: Option<Mapping>)
      requires Valid() && root in spaces && Canonical(address)
      ensures m.Some? <==> IsMapped(spaces[root], address)
      ensures m.Some? ==> m.value.writable == spaces[root][address / PAGE_SIZE].writable
      ensures m.Some? ==> USER_BASE <= address < 2 * USER_BASE && Translate(phys, root, address / PAGE_SIZE) == m
    {
      hide Canonical, TreeOk, RightsOk, Translate;
      var page := address / PAGE_SIZE % PAGES;
      CanonicalPage(address);
      m := Translate(phys, root, page);
      if m.Some? {
        OnlyUserSlot(phys, owner, root, page);
      }
    }

    /** Read `count` bytes of a frame through the direct map. */
    method ReadFrame(root: nat, address: nat, m: Mapping, count: nat) returns (chunk: seq<byte>)
      requires Valid() && root in spaces && address / PAGE_SIZE < PAGES
      requires Translate(phys, root, address / PAGE_SIZE) == Some(m)
      requires address % PAGE_SIZE + count <= PAGE_SIZE
      ensures IsMapped(spaces[root], address)
      ensures chunk == spaces[root][address / PAGE_SIZE].bytes[address % PAGE_SIZE..address % PAGE_SIZE + count]
    {
      TranslateData(phys, owner, root, address / PAGE_SIZE);
      chunk := phys[m.frame].bytes[address % PAGE_SIZE..address % PAGE_SIZE + count];
    }

    /** Overwrite part of a frame through the direct map. */
    method WriteFrame(root: nat, address: nat, m: Mapping, chunk: seq<byte>)
      requires Valid() && root in spaces && address / PAGE_SIZE < PAGES
      requires Translate(phys, root, address / PAGE_SIZE) == Some(m)
      requires address % PAGE_SIZE + |chunk| <= PAGE_SIZE
      modifies this`phys, this`spaces
      ensures Valid() && IsMapped(old(spaces)[root], address)
      ensures spaces == old(spaces)[root := PokeRun(old(spaces)[root], address, chunk)]
    {
      hide AllShareKernel;
      var page := address / PAGE_SIZE;
      TranslateData(phys, owner, root, page);
      var bytes := Splice(phys[m.frame].bytes, address % PAGE_SIZE, chunk);
      WriteChangesPage(phys, owner, root, page, bytes);
      ContentKeepsRights(phys, owner, m.frame, Data(bytes));
      UpdateKeepsShared(phys, owner, kernelRoot, m.frame, Data(bytes), owner);
      spaces := spaces[root := PokeRun(spaces[root], address, chunk)];
      phys := phys[m.frame := Data(bytes)];
    }

    /** `AddressSpace::copy_to_user`, used by the loader: every page only has to be
        mapped. It stops at the first unmapped page, having copied all before it. */
    method CopyToMapped(root: nat, dst: nat, src: seq<byte>) returns (error: Option<UserMemoryError>)
      requires Valid() && root in spaces && Canonical(dst)
      modifies this
      ensures Valid() && next == old(next)
      ensures spaces == old(spaces)[root := CopyOut(old(spaces)[root], dst, src, Load).0]
      ensures error == CopyOut(old(spaces)[root], dst, src, Load).1
    {
      hide Valid, Translate, PokeRun, CopyOut;
      var copied := 0;
      assert src[0..] == src;
      while copied < |src|
        invariant 0 <= copied <= |src|
        invariant Valid() && next == old(next) && root in spaces
        invariant spaces == old(spaces)[root := spaces[root]]
        invariant copied > 0 ==> dst + copied <= 2 * USER_BASE
        invariant CopyOut(spaces[root], dst + copied, src[copied..], Load) == CopyOut(old(spaces)[root], dst, src, Load)
      {
        var address := dst + copied;
        var m := TranslateUser(root, address);
        if m.None? {
          CopyOutStops(spaces[root], address, src[copied..], Load);
          return Some(Unmapped);
        }
        var count := Min(|src| - copied, PAGE_SIZE - address % PAGE_SIZE);
        CopyOutChunk(spaces[root], address, src[copied..], count, Load);
        assert src[copied..][..count] == src[copied..copied + count];
        assert src[copied..][count..] == src[copied + count..];
        WriteFrame(root, address, m.value, src[copied..copied + count]);
        copied := copied + count;
      }
      CopyOutStops(spaces[root], dst + copied, src[copied..], Load);
      error := None;
    }

    /** `zero_user_range` */
    method ZeroUserRange(root: nat, dst: nat, len: nat) returns (error: Option<UserMemoryError>)
      requires Valid() && root in spaces && Canonical(dst)
      modifies this
      ensures Valid() && next == old(next)
      ensures spaces == old(spaces)[root := CopyOut(old(spaces)[root], dst, Zeros(len), Load).0]
      ensures error == CopyOut(old(spaces)[root], dst, Zeros(len), Load).1
    {
      hide Valid, Translate, PokeRun, CopyOut;
      var zeroed := 0;
      while zeroed < len
        invariant 0 <= zeroed <= len
        invariant Valid() && next == old(next) && root in spaces
        invariant spaces == old(spaces)[root := spaces[root]]
        invariant zeroed > 0 ==> dst + zeroed <= 2 * USER_BASE
        invariant CopyOut(spaces[root], dst + zeroed, Zeros(len - zeroed), Load)
                  == CopyOut(old(spaces)[root], dst, Zeros(len), Load)
      {
        var address := dst + zeroed;
        var m := TranslateUser(root, address);
        if m.None? {
          CopyOutStops(spaces[root], address, Zeros(len - zeroed), Load);
          return Some(Unmapped);
        }
        var count := Min(len - zeroed, PAGE_SIZE - address % PAGE_SIZE);
        CopyOutChunk(spaces[root], address, Zeros(len - zeroed), count, Load);
        assert Zeros(len - zeroed)[..count] == Zeros(count);
        assert Zeros(len - zeroed)[count..] == Zeros(len - (zeroed + count));
        WriteFrame(root, address, m.value, Zeros(count));
        zeroed := zeroed + count;
      }
      CopyOutStops(spaces[root], dst + zeroed, Zeros(len - zeroed), Load);
      error := None;
    }
  }
}

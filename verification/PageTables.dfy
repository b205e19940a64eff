/** Four-level page tables held in physical memory, and the ownership discipline
    that keeps every process's tree of tables and data frames to itself.

    A frame holds either a table of 512 entries or 4096 data bytes. The kernel's walk
    takes the right to write from the last entry alone, while the MMU asks for it at
    every level (Intel SDM volume 3A, sections 4.5 and 4.6); `MmuAgrees` shows that on
    the tables the kernel builds the two are the same. */
module PageTables {
  import opened Base
  import opened UserSpaces

  const USER_P4_INDEX: nat := 1
  /** Number of 4 KiB pages in a 48-bit address space. */
  const PAGES: nat := 0x10_0000_0000

  datatype Flags = Flags(present: bool, writable: bool, user: bool, huge: bool)

  datatype Entry = Unused | Used(frame: nat, flags: Flags)

  type Entries = e: seq<Entry> | |e| == 512 witness seq(512, _ => Unused)

  datatype Content = Table(entries: Entries) | Data(bytes: PageBytes)

  /** Physical memory: frame number -> content. */
  type Phys = map<nat, Content>

  datatype Mapping = Mapping(frame: nat, writable: bool)

  /** Where a frame hangs: the address space it belongs to, its level (4 for the
      root table, 0 for a data frame), the page-number prefix it covers, and the
      frame of the table that points to it. */
  datatype Tag = Tag(root: nat, level: nat, prefix: nat, parent: nat)

  type Owner = map<nat, Tag>

  function EmptyTable(): Content {
    Table(seq(512, _ => Unused))
  }

  predicate AllowsUser(e: Entry) {
    e.Used? && e.flags.present && e.flags.user
  }

  /** The page number with the low `level` groups of nine bits dropped. */
  function Prefix(page: nat, level: nat): nat {
    if level == 0 then page else Prefix(page, level - 1) / 512
  }

  /** The nine bits that index the table at `level` (1 to 4). */
  function Index(page: nat, level: nat): nat
    requires level > 0
    ensures Index(page, level) < 512
  {
    Prefix(page, level - 1) % 512
  }

  /** `translate_user`, from the table in frame `f` at the given level down. */
  function Walk(phys: Phys, f: nat, level: nat, page: nat): Option<Mapping>
    decreases level
  {
    if level == 0 || f !in phys || !phys[f].Table? then None
    else
      var e := phys[f].entries[Index(page, level)];
      if !AllowsUser(e) || e.flags.huge then None
      else if level == 1 then Some(Mapping(e.frame, e.flags.writable))
      else Walk(phys, e.frame, level - 1, page)
  }

  /** The same walk as the MMU makes it for user mode: an entry counts only if it is
      present and user-accessible, and a store needs R/W set in every one. */
  function MmuWalk(phys: Phys, f: nat, level: nat, page: nat): Option<Mapping>
    decreases level
  {
    if level == 0 || f !in phys || !phys[f].Table? then None
    else
      var e := phys[f].entries[Index(page, level)];
      if !AllowsUser(e) || e.flags.huge then None
      else if level == 1 then Some(Mapping(e.frame, e.flags.writable))
      else
        match MmuWalk(phys, e.frame, level - 1, page)
        case None => None
        case Some(m) => Some(Mapping(m.frame, e.flags.writable && m.writable))
  }

  /** The frame that a walk for `page` visits at level `target`: a table at 4 to 1, the
      data frame at 0. */
  function Visit(phys: Phys, f: nat, level: nat, page: nat, target: nat): Option<nat>
    decreases level
  {
    if level == target then Some(f)
    else if level == 0 || f !in phys || !phys[f].Table? then None
    else
      var e := phys[f].entries[Index(page, level)];
      if !AllowsUser(e) || e.flags.huge then None else Visit(phys, e.frame, level - 1, page, target)
  }

  function PageAt(phys: Phys, m: Mapping): UserPage {
    UserPage(
      if m.frame in phys && phys[m.frame].Data? then phys[m.frame].bytes else ZeroBytes(),
      m.writable)
  }

  function Translate(phys: Phys, root: nat, page: nat): Option<Mapping> {
    Walk(phys, root, 4, page)
  }

  /** What user mode sees at one page through the level-4 table in frame `root`. */
  function Shown(phys: Phys, root: nat, page: nat): Option<UserPage> {
    match Translate(phys, root, page)
    case None => None
    case Some(m) => Some(PageAt(phys, m))
  }

  /** Everything user mode sees through the level-4 table in frame `root`. */
  ghost function View(phys: Phys, root: nat): (v: UserSpace)
    ensures forall page: nat | page < PAGES :: page in v <==> Shown(phys, root, page).Some?
    ensures forall page | page in v :: page < PAGES && v[page] == Shown(phys, root, page).value
  {
    Collect((page: nat) => Shown(phys, root, page))
  }

  /** The finite map of the pages at which `shown` has a value. */
  ghost function Collect(shown: nat -> Option<UserPage>): UserSpace {
    map page: nat | 0 <= page < PAGES && shown(page).Some? :: shown(page).value
  }

  ghost function Roots(owner: Owner): set<nat> {
    set f | f in owner && owner[f].level == 4
  }

  ghost function Views(phys: Phys, owner: Owner): map<nat, UserSpace> {
    map r | r in Roots(owner) :: View(phys, r)
  }

  // ----- the ownership invariant -----

  /** Entry `i` of the table in frame `f`: outside the user slot of a root it never
      admits user mode; elsewhere it is unused or points to the frame tagged as
      that very child. */
  ghost predicate SlotOk(owner: Owner, f: nat, i: nat, e: Entry)
    requires f in owner
  {
    var t := owner[f];
    if t.level == 4 && i != USER_P4_INDEX then !AllowsUser(e)
    else
      e.Used? ==>
        && e.flags.present && e.flags.user && !e.flags.huge
        && t.level > 0
        && e.frame in owner
        && owner[e.frame] == Tag(t.root, t.level - 1, t.prefix * 512 + i, f)
  }

  /** The parent of a frame really points to it. */
  ghost predicate LinkOk(phys: Phys, owner: Owner, f: nat)
    requires f in owner
  {
    var t := owner[f];
    && t.parent in owner && t.parent in phys && phys[t.parent].Table?
    && owner[t.parent].root == t.root
    && owner[t.parent].level == t.level + 1
    && owner[t.parent].prefix == t.prefix / 512
    && phys[t.parent].entries[t.prefix % 512].Used?
    && phys[t.parent].entries[t.prefix % 512].frame == f
  }

  ghost predicate NodeOk(phys: Phys, owner: Owner, f: nat)
    requires f in owner
  {
    var t := owner[f];
    && f in phys
    && t.level <= 4
    && (t.level == 4 ==> t.root == f && t.prefix == 0)
    && (t.level == 3 ==> t.prefix == USER_P4_INDEX)
    && (t.level < 4 ==> LinkOk(phys, owner, f))
    && (t.level == 0 <==> phys[f].Data?)
    && (t.level > 0 ==> forall i {:trigger SlotOk(owner, f, i, phys[f].entries[i])} | 0 <= i < 512 ::
          SlotOk(owner, f, i, phys[f].entries[i]))
  }

  ghost predicate TreeOk(phys: Phys, owner: Owner) {
    forall f {:trigger NodeOk(phys, owner, f)} | f in owner :: NodeOk(phys, owner, f)
  }

  /** An entry that lets user mode write. */
  predicate Grants(e: Entry) {
    AllowsUser(e) && e.flags.writable
  }

  /** The entry that leads to the frame `f`. */
  function EntryTo(phys: Phys, owner: Owner, f: nat): Entry
    requires f in owner
  {
    var t := owner[f];
    if t.parent in phys && phys[t.parent].Table? then phys[t.parent].entries[t.prefix % 512] else Unused
  }

  /** A table below the root with an entry that grants writing is itself reached through
      one that does. */
  ghost predicate RightsAt(phys: Phys, owner: Owner, f: nat)
    requires f in owner
  {
    1 <= owner[f].level <= 3 && f in phys && phys[f].Table? ==>
      forall j | 0 <= j < 512 && Grants(phys[f].entries[j]) :: Grants(EntryTo(phys, owner, f))
  }

  ghost predicate RightsOk(phys: Phys, owner: Owner) {
    forall f {:trigger RightsAt(phys, owner, f)} | f in owner :: RightsAt(phys, owner, f)
  }

  // ----- walks under the invariant -----

  lemma PrefixTop(page: nat)
    requires page < PAGES
    ensures Prefix(page, 4) == 0
    ensures Prefix(page, 3) == Index(page, 4)
    ensures Index(page, 4) == USER_P4_INDEX <==> 0x800_0000 <= page < 0x1000_0000
  {
    assert Prefix(page, 1) == page / 512;
    assert Prefix(page, 2) == page / 512 / 512;
    assert Prefix(page, 3) == page / 512 / 512 / 512;
    assert Prefix(page, 4) == page / 512 / 512 / 512 / 512;
  }

  /** A frame found by a walk is tagged with exactly the page that was walked. */
  lemma {:induction false} WalkTag(phys: Phys, owner: Owner, f: nat, page: nat)
    requires TreeOk(phys, owner) && f in owner
    requires owner[f].level > 0 && owner[f].prefix == Prefix(page, owner[f].level)
    ensures Walk(phys, f, owner[f].level, page).Some? ==>
              var m := Walk(phys, f, owner[f].level, page).value;
              && m.frame in owner && owner[m.frame].root == owner[f].root
              && owner[m.frame].level == 0 && owner[m.frame].prefix == page
    decreases owner[f].level
  {
    assert NodeOk(phys, owner, f);
    var i := Index(page, owner[f].level);
    var e := phys[f].entries[i];
    assert SlotOk(owner, f, i, e);
    if AllowsUser(e) && owner[f].level > 1 {
      WalkTag(phys, owner, e.frame, page);
    }
  }

  /** Walking from the root passes through every table tagged with a prefix of
      the page. */
  lemma {:induction false} WalkReaches(phys: Phys, owner: Owner, f: nat, page: nat)
    requires TreeOk(phys, owner) && f in owner
    requires owner[f].level > 0 && owner[f].prefix == Prefix(page, owner[f].level)
    ensures Walk(phys, owner[f].root, 4, page) == Walk(phys, f, owner[f].level, page)
    decreases 4 - owner[f].level
  {
    assert NodeOk(phys, owner, f);
    var t := owner[f];
    if t.level < 4 {
      WalkReaches(phys, owner, t.parent, page);
      assert NodeOk(phys, owner, t.parent);
      assert SlotOk(owner, t.parent, t.prefix % 512, phys[t.parent].entries[t.prefix % 512]);
      assert Index(page, t.level + 1) == t.prefix % 512;
    }
  }

  /** The MMU's walk and the kernel's agree, permissions included. */
  lemma {:induction false} MmuAgrees(phys: Phys, owner: Owner, f: nat, page: nat)
    requires TreeOk(phys, owner) && RightsOk(phys, owner) && f in owner
    requires owner[f].level > 0 && owner[f].prefix == Prefix(page, owner[f].level)
    ensures MmuWalk(phys, f, owner[f].level, page) == Walk(phys, f, owner[f].level, page)
    decreases owner[f].level
  {
    assert NodeOk(phys, owner, f);
    var level := owner[f].level;
    var i := Index(page, level);
    var e := phys[f].entries[i];
    assert SlotOk(owner, f, i, e);
    if AllowsUser(e) && level > 1 {
      var g := e.frame;
      MmuAgrees(phys, owner, g, page);
      assert NodeOk(phys, owner, g) && RightsAt(phys, owner, g);
      assert EntryTo(phys, owner, g) == e;
      var m := MmuWalk(phys, g, level - 1, page);
      if m.Some? && m.value.writable {
        assert Grants(phys[g].entries[Index(page, level - 1)]);
      }
    }
  }

  /** No two frames carry the same place in the same tree. */
  lemma {:induction false} TagsDistinct(phys: Phys, owner: Owner, f: nat, g: nat)
    requires TreeOk(phys, owner) && f in owner && g in owner
    requires owner[f].root == owner[g].root && owner[f].level == owner[g].level && owner[f].prefix == owner[g].prefix
    ensures f == g
    decreases 4 - owner[f].level
  {
    assert NodeOk(phys, owner, f) && NodeOk(phys, owner, g);
    if owner[f].level < 4 {
      TagsDistinct(phys, owner, owner[f].parent, owner[g].parent);
    }
  }

  /** A frame that a walk visits carries the place it was visited at. */
  lemma {:induction false} VisitTag(phys: Phys, owner: Owner, f: nat, page: nat, target: nat)
    requires TreeOk(phys, owner) && f in owner
    requires owner[f].level >= target && owner[f].prefix == Prefix(page, owner[f].level)
    ensures Visit(phys, f, owner[f].level, page, target).Some? ==>
              var g := Visit(phys, f, owner[f].level, page, target).value;
              && g in owner && owner[g].root == owner[f].root
              && owner[g].level == target && owner[g].prefix == Prefix(page, target)
    decreases owner[f].level
  {
    assert NodeOk(phys, owner, f);
    if owner[f].level > target {
      var i := Index(page, owner[f].level);
      var e := phys[f].entries[i];
      assert SlotOk(owner, f, i, e);
      if AllowsUser(e) {
        VisitTag(phys, owner, e.frame, page, target);
      }
    }
  }

  /** What one step of a walk takes from the entry it reads. */
  predicate SameStep(e: Entry, e': Entry, level: nat) {
    || (!AllowsUser(e) && !AllowsUser(e'))
    || (AllowsUser(e) && AllowsUser(e') && e.frame == e'.frame && e.flags.huge == e'.flags.huge
        && (level == 1 ==> e.flags.writable == e'.flags.writable))
  }

  /** Both memories hold a table in frame `h`, and a walk for `page` takes the
      same step from it. */
  ghost predicate Agree(phys: Phys, phys': Phys, h: nat, level: nat, page: nat)
    requires level > 0
  {
    && h in phys && h in phys' && phys[h].Table? && phys'[h].Table?
    && SameStep(phys[h].entries[Index(page, level)], phys'[h].entries[Index(page, level)], level)
  }

  /** A walk depends only on the entries it reads. */
  lemma {:induction false} WalkCongruent(phys: Phys, phys': Phys, owner: Owner, f: nat, page: nat)
    requires TreeOk(phys, owner) && f in owner
    requires owner[f].level > 0 && owner[f].prefix == Prefix(page, owner[f].level)
    requires forall h | h in owner && owner[h].root == owner[f].root && owner[h].level > 0
                      && owner[h].prefix == Prefix(page, owner[h].level)
               :: Agree(phys, phys', h, owner[h].level, page)
    ensures Walk(phys', f, owner[f].level, page) == Walk(phys, f, owner[f].level, page)
    decreases owner[f].level
  {
    assert NodeOk(phys, owner, f);
    var level := owner[f].level;
    var i := Index(page, level);
    var e := phys[f].entries[i];
    assert SlotOk(owner, f, i, e);
    assert Agree(phys, phys', f, level, page);
    if AllowsUser(e) && level > 1 {
      WalkCongruent(phys, phys', owner, e.frame, page);
    }
  }

  // ----- theorems -----

  /** Isolation of everything a walk goes through, tables and data alike: two walks, in one
      address space or two, visit the same frame exactly when they are in the same tree,
      at the same level and for the same part of the address. */
  lemma PlacesDistinct(phys: Phys, owner: Owner, r: nat, page: nat, level: nat, r': nat, page': nat, level': nat)
    requires TreeOk(phys, owner) && r in Roots(owner) && r' in Roots(owner)
    requires page < PAGES && page' < PAGES && level <= 4 && level' <= 4
    requires Visit(phys, r, 4, page, level).Some? && Visit(phys, r', 4, page', level').Some?
    ensures Visit(phys, r, 4, page, level) == Visit(phys, r', 4, page', level') <==>
              r == r' && level == level' && Prefix(page, level) == Prefix(page', level')
  {
    PrefixTop(page);
    PrefixTop(page');
    assert NodeOk(phys, owner, r) && NodeOk(phys, owner, r');
    VisitTag(phys, owner, r, page, level);
    VisitTag(phys, owner, r', page', level');
    var f, g := Visit(phys, r, 4, page, level).value, Visit(phys, r', 4, page', level').value;
    if r == r' && level == level' && Prefix(page, level) == Prefix(page', level') {
      TagsDistinct(phys, owner, f, g);
    }
  }

  /** A translation ends in the frame its walk visits at level 0. */
  lemma {:induction false} WalkVisits(phys: Phys, f: nat, level: nat, page: nat)
    requires level > 0
    ensures Walk(phys, f, level, page).Some? ==> Visit(phys, f, level, page, 0) == Some(Walk(phys, f, level, page).value.frame)
    decreases level
  {
    if level > 1 && f in phys && phys[f].Table? && phys[f].entries[Index(page, level)].Used? {
      WalkVisits(phys, phys[f].entries[Index(page, level)].frame, level - 1, page);
    }
  }

  /** Isolation: within one address space and across all of them, two pages never
      share a data frame, and no data frame is ever a table. */
  lemma FramesDisjoint(phys: Phys, owner: Owner, r: nat, page: nat, r': nat, page': nat)
    requires TreeOk(phys, owner) && r in Roots(owner) && r' in Roots(owner)
    requires page < PAGES && page' < PAGES
    requires Translate(phys, r, page).Some? && Translate(phys, r', page').Some?
    ensures Translate(phys, r, page).value.frame == Translate(phys, r', page').value.frame ==> r == r' && page == page'
    ensures Translate(phys, r, page).value.frame in phys && phys[Translate(phys, r, page).value.frame].Data?
  {
    PrefixTop(page);
    PrefixTop(page');
    assert NodeOk(phys, owner, r) && NodeOk(phys, owner, r');
    WalkTag(phys, owner, r, page);
    WalkTag(phys, owner, r', page');
    assert NodeOk(phys, owner, Translate(phys, r, page).value.frame);
  }

  /** Nothing outside slot 1 of the level-4 table translates for user mode. */
  lemma OnlyUserSlot(phys: Phys, owner: Owner, r: nat, page: nat)
    requires TreeOk(phys, owner) && r in Roots(owner) && page < PAGES
    requires Translate(phys, r, page).Some?
    ensures USER_BASE <= page * PAGE_SIZE < 2 * USER_BASE
  {
    PrefixTop(page);
    assert NodeOk(phys, owner, r);
    assert SlotOk(owner, r, Index(page, 4), phys[r].entries[Index(page, 4)]);
  }
}

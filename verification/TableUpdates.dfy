/** The elementary changes the kernel makes to physical memory, each with its
    effect on what every address space can see. */
module TableUpdates {
  import opened Base
  import opened UserSpaces
  import opened PageTables

  /** Replace entry `i` of the table in frame `f`. */
  function SetEntry(phys: Phys, f: nat, i: nat, e: Entry): Phys
    requires f in phys && phys[f].Table? && i < 512
  {
    phys[f := Table(phys[f].entries[i := e])]
  }

  /** A walk in address space `r` for `page` reads entry `i` of frame `f`. */
  ghost predicate Through(owner: Owner, f: nat, i: nat, r: nat, page: nat)
    requires f in owner
  {
    && owner[f].level > 0
    && owner[f].root == r
    && owner[f].prefix == Prefix(page, owner[f].level)
    && Index(page, owner[f].level) == i
  }

  /** Owned frames keep their content, except perhaps entry `i` of frame `f`. */
  ghost predicate OnlyEntry(phys: Phys, phys': Phys, owner: Owner, f: nat, i: nat) {
    forall h | h in owner && h in phys ::
      && h in phys'
      && (h != f ==> phys'[h] == phys[h])
      && (h == f && phys[h].Table? ==>
            phys'[h].Table? && forall j | 0 <= j < 512 && j != i :: phys'[h].entries[j] == phys[h].entries[j])
  }

  lemma UpdateMisses(phys: Phys, phys': Phys, owner: Owner, f: nat, i: nat, r: nat, page: nat)
    requires TreeOk(phys, owner) && f in owner && OnlyEntry(phys, phys', owner, f, i)
    requires r in Roots(owner) && page < PAGES && !Through(owner, f, i, r, page)
    requires owner[f].level > 0
    ensures Shown(phys', r, page) == Shown(phys, r, page)
  {
    PrefixTop(page);
    assert NodeOk(phys, owner, r);
    forall h | h in owner && owner[h].root == r && owner[h].level > 0 && owner[h].prefix == Prefix(page, owner[h].level)
      ensures Agree(phys, phys', h, owner[h].level, page)
    {
      assert NodeOk(phys, owner, h);
    }
    WalkCongruent(phys, phys', owner, r, page);
    if Translate(phys, r, page).Some? {
      TranslateData(phys, owner, r, page);
    }
  }

  /** Data reached by a translation lies in an owned data frame. */
  lemma TranslateData(phys: Phys, owner: Owner, r: nat, page: nat)
    requires TreeOk(phys, owner) && r in Roots(owner) && page < PAGES && Translate(phys, r, page).Some?
    ensures
      var f := Translate(phys, r, page).value.frame;
      f in owner && owner[f].root == r && owner[f].level == 0 && owner[f].prefix == page && f in phys && phys[f].Data?
  {
    PrefixTop(page);
    assert NodeOk(phys, owner, r);
    WalkTag(phys, owner, r, page);
    assert NodeOk(phys, owner, Translate(phys, r, page).value.frame);
  }

  lemma CollectChangesAt(shown: nat -> Option<UserPage>, shown': nat -> Option<UserPage>, page: nat)
    requires page < PAGES
    requires forall p: nat | p < PAGES && p != page :: shown'(p) == shown(p)
    ensures Collect(shown') == WithPage(Collect(shown), page, shown'(page))
  {
  }

  /** If one page of one address space changes and nothing else does, the views
      change in just that place. */
  lemma ViewsChangeAt(phys: Phys, owner: Owner, phys': Phys, owner': Owner, r: nat, page: nat, x: Option<UserPage>)
    requires Roots(owner') == Roots(owner) && r in Roots(owner) && page < PAGES
    requires forall r': nat, p: nat | r' in Roots(owner) && p < PAGES && !(r' == r && p == page) ::
               Shown(phys', r', p) == Shown(phys, r', p)
    requires Shown(phys', r, page) == x
    ensures Views(phys', owner') == Views(phys, owner)[r := WithPage(View(phys, r), page, x)]
  {
    hide Shown, WithPage;
    CollectChangesAt((p: nat) => Shown(phys, r, p), (p: nat) => Shown(phys', r, p), page);
    forall r' | r' in Roots(owner) && r' != r ensures View(phys', r') == View(phys, r') {
    }
  }

  lemma ViewsSame(phys: Phys, owner: Owner, phys': Phys, owner': Owner)
    requires Roots(owner') == Roots(owner)
    requires forall r: nat, p: nat | r in Roots(owner) && p < PAGES :: Shown(phys', r, p) == Shown(phys, r, p)
    ensures Views(phys', owner') == Views(phys, owner)
  {
    forall r | r in Roots(owner) ensures View(phys', r) == View(phys, r) {
    }
  }

  /** A node stays in order when its own content stays, the tags it relies on stay,
      and its parent still points to it. */
  lemma NodeKept(phys: Phys, owner: Owner, phys': Phys, owner': Owner, h: nat)
    requires h in owner && NodeOk(phys, owner, h)
    requires h in owner' && owner'[h] == owner[h]
    requires h in phys' && phys'[h] == phys[h]
    requires owner[h].level < 4 ==> LinkOk(phys', owner', h)
    requires phys[h].Table? ==>
               forall j | 0 <= j < 512 && AllowsUser(phys[h].entries[j]) && phys[h].entries[j].frame in owner ::
                 var g := phys[h].entries[j].frame;
                 owner[g].parent == h ==> g in owner' && owner'[g] == owner[g]
    ensures NodeOk(phys', owner', h)
  {
    if owner[h].level > 0 {
      forall j | 0 <= j < 512 ensures SlotOk(owner', h, j, phys'[h].entries[j]) {
        assert SlotOk(owner, h, j, phys[h].entries[j]);
      }
    }
  }

  // ----- inserting an empty table under an unused entry -----

  function GraftPhys(phys: Phys, f: nat, i: nat, g: nat, flags: Flags): Phys
    requires f in phys && phys[f].Table? && i < 512 && g != f
  {
    SetEntry(phys[g := EmptyTable()], f, i, Used(g, flags))
  }

  function GraftOwner(owner: Owner, f: nat, i: nat, g: nat): Owner
    requires f in owner && owner[f].level > 0
  {
    owner[g := Tag(owner[f].root, owner[f].level - 1, owner[f].prefix * 512 + i, f)]
  }

  ghost predicate CanGraft(phys: Phys, owner: Owner, f: nat, i: nat, g: nat) {
    && TreeOk(phys, owner)
    && f in owner && f in phys && phys[f].Table? && i < 512
    && (owner[f].level == 4 ==> i == USER_P4_INDEX)
    && phys[f].entries[i].Unused?
    && g !in owner
  }

  predicate UserFlags(flags: Flags) {
    flags.present && flags.user && !flags.huge
  }

  /** Pointing the unused entry `i` of frame `f` to a new frame `g` keeps every
      other node in order. */
  lemma LinkKeepsNode(phys: Phys, owner: Owner, f: nat, i: nat, g: nat, flags: Flags, phys': Phys, h: nat)
    requires CanGraft(phys, owner, f, i, g) && owner[f].level > 0 && UserFlags(flags)
    requires f in phys' && phys'[f] == Table(phys[f].entries[i := Used(g, flags)])
    requires forall k | k in owner && k in phys && k != f :: k in phys' && phys'[k] == phys[k]
    requires h in owner
    ensures NodeOk(phys', GraftOwner(owner, f, i, g), h)
  {
    var owner' := GraftOwner(owner, f, i, g);
    assert NodeOk(phys, owner, h);
    assert NodeOk(phys, owner, f);
    if owner[h].level < 4 {
      assert LinkOk(phys', owner', h);
    }
    if h != f {
      NodeKept(phys, owner, phys', owner', h);
    } else {
      forall j | 0 <= j < 512 ensures SlotOk(owner', f, j, phys'[f].entries[j]) {
        assert SlotOk(owner, f, j, phys[f].entries[j]);
      }
    }
  }

  lemma GraftTree(phys: Phys, owner: Owner, f: nat, i: nat, g: nat, flags: Flags)
    requires CanGraft(phys, owner, f, i, g) && owner[f].level >= 2 && UserFlags(flags)
    ensures TreeOk(GraftPhys(phys, f, i, g, flags), GraftOwner(owner, f, i, g))
  {
    var phys', owner' := GraftPhys(phys, f, i, g, flags), GraftOwner(owner, f, i, g);
    assert NodeOk(phys, owner, f);
    forall h | h in owner' ensures NodeOk(phys', owner', h) {
      if h != g {
        LinkKeepsNode(phys, owner, f, i, g, flags, phys', h);
      }
    }
  }

  lemma GraftNone(phys: Phys, owner: Owner, f: nat, i: nat, g: nat, flags: Flags, page: nat)
    requires CanGraft(phys, owner, f, i, g) && owner[f].level >= 2 && UserFlags(flags)
    requires Through(owner, f, i, owner[f].root, page)
    ensures Translate(GraftPhys(phys, f, i, g, flags), owner[f].root, page).None?
    ensures Translate(phys, owner[f].root, page).None?
  {
    var phys', owner' := GraftPhys(phys, f, i, g, flags), GraftOwner(owner, f, i, g);
    var level := owner[f].level;
    WalkReaches(phys, owner, f, page);
    GraftTree(phys, owner, f, i, g, flags);
    WalkReaches(phys', owner', f, page);
    assert Walk(phys', f, level, page) == Walk(phys', g, level - 1, page);
    assert phys'[g].entries[Index(page, level - 1)].Unused?;
  }

  lemma GraftShown(phys: Phys, owner: Owner, f: nat, i: nat, g: nat, flags: Flags, r: nat, page: nat)
    requires CanGraft(phys, owner, f, i, g) && owner[f].level >= 2 && UserFlags(flags)
    requires r in Roots(owner) && page < PAGES
    ensures Shown(GraftPhys(phys, f, i, g, flags), r, page) == Shown(phys, r, page)
  {
    var phys' := GraftPhys(phys, f, i, g, flags);
    if Through(owner, f, i, r, page) {
      GraftNone(phys, owner, f, i, g, flags, page);
    } else {
      UpdateMisses(phys, phys', owner, f, i, r, page);
    }
  }

  /** An inserted table maps nothing: every address space looks the same. */
  lemma GraftKeepsViews(phys: Phys, owner: Owner, f: nat, i: nat, g: nat, flags: Flags)
    requires CanGraft(phys, owner, f, i, g) && owner[f].level >= 2 && UserFlags(flags)
    ensures Views(GraftPhys(phys, f, i, g, flags), GraftOwner(owner, f, i, g)) == Views(phys, owner)
  {
    var phys', owner' := GraftPhys(phys, f, i, g, flags), GraftOwner(owner, f, i, g);
    assert Roots(owner') == Roots(owner) by { assert NodeOk(phys, owner, f); }
    forall r: nat, page: nat | r in Roots(owner) && page < PAGES ensures Shown(phys', r, page) == Shown(phys, r, page) {
      GraftShown(phys, owner, f, i, g, flags, r, page);
    }
    ViewsSame(phys, owner, phys', owner');
  }

  /** Table `f` may get an entry with these flags: if they grant writing, the way to the
      table does so already. */
  ghost predicate MayGrant(phys: Phys, owner: Owner, f: nat, flags: Flags)
    requires f in owner
  {
    flags.writable && owner[f].level <= 3 ==> Grants(EntryTo(phys, owner, f))
  }

  /** Pointing an unused entry to a new frame keeps the rights in order. */
  lemma LinkKeepsRights(phys: Phys, owner: Owner, f: nat, i: nat, g: nat, flags: Flags, phys': Phys, h: nat)
    requires CanGraft(phys, owner, f, i, g) && owner[f].level > 0
    requires RightsOk(phys, owner) && MayGrant(phys, owner, f, flags)
    requires f in phys' && phys'[f] == Table(phys[f].entries[i := Used(g, flags)])
    requires forall k | k in owner && k in phys && k != f :: k in phys' && phys'[k] == phys[k]
    requires h in owner
    ensures RightsAt(phys', GraftOwner(owner, f, i, g), h)
  {
    assert NodeOk(phys, owner, h) && NodeOk(phys, owner, f) && RightsAt(phys, owner, h);
    if owner[h].level < 4 {
      assert EntryTo(phys', GraftOwner(owner, f, i, g), h) == EntryTo(phys, owner, h);
    }
  }

  lemma GraftRights(phys: Phys, owner: Owner, f: nat, i: nat, g: nat, flags: Flags)
    requires CanGraft(phys, owner, f, i, g) && owner[f].level >= 2 && UserFlags(flags)
    requires RightsOk(phys, owner) && MayGrant(phys, owner, f, flags)
    ensures RightsOk(GraftPhys(phys, f, i, g, flags), GraftOwner(owner, f, i, g))
    ensures flags.writable ==> Grants(EntryTo(GraftPhys(phys, f, i, g, flags), GraftOwner(owner, f, i, g), g))
  {
    var phys', owner' := GraftPhys(phys, f, i, g, flags), GraftOwner(owner, f, i, g);
    assert NodeOk(phys, owner, f);
    forall h | h in owner' ensures RightsAt(phys', owner', h) {
      if h != g {
        LinkKeepsRights(phys, owner, f, i, g, flags, phys', h);
      }
    }
  }

  // ----- adding permissions to an entry that points to a table -----

  ghost predicate CanWiden(phys: Phys, owner: Owner, f: nat, i: nat, flags: Flags) {
    && TreeOk(phys, owner) && f in owner && f in phys && phys[f].Table? && i < 512
    && owner[f].level >= 2 && (owner[f].level == 4 ==> i == USER_P4_INDEX)
    && phys[f].entries[i].Used? && UserFlags(flags)
  }

  lemma WidenTree(phys: Phys, owner: Owner, f: nat, i: nat, flags: Flags)
    requires CanWiden(phys, owner, f, i, flags)
    ensures TreeOk(SetEntry(phys, f, i, Used(phys[f].entries[i].frame, flags)), owner)
  {
    var phys' := SetEntry(phys, f, i, Used(phys[f].entries[i].frame, flags));
    forall h | h in owner ensures NodeOk(phys', owner, h) {
      assert NodeOk(phys, owner, h);
      if owner[h].level < 4 {
        assert LinkOk(phys', owner, h);
      }
      if h != f {
        NodeKept(phys, owner, phys', owner, h);
      } else {
        forall j | 0 <= j < 512 ensures SlotOk(owner, f, j, phys'[f].entries[j]) {
          assert SlotOk(owner, f, j, phys[f].entries[j]);
        }
      }
    }
  }

  /** The entry that leads to a frame is the one that points to it. */
  lemma EntryFound(phys: Phys, owner: Owner, f: nat, i: nat)
    requires TreeOk(phys, owner) && f in owner && f in phys && phys[f].Table? && i < 512
    requires owner[f].level > 0 && (owner[f].level == 4 ==> i == USER_P4_INDEX) && phys[f].entries[i].Used?
    ensures phys[f].entries[i].frame in owner && EntryTo(phys, owner, phys[f].entries[i].frame) == phys[f].entries[i]
    ensures AllowsUser(phys[f].entries[i])
  {
    assert NodeOk(phys, owner, f);
    assert SlotOk(owner, f, i, phys[f].entries[i]);
  }

  /** Adding rights to an entry keeps them in order. */
  lemma WidenRights(phys: Phys, owner: Owner, f: nat, i: nat, flags: Flags)
    requires CanWiden(phys, owner, f, i, flags) && RightsOk(phys, owner) && MayGrant(phys, owner, f, flags)
    requires phys[f].entries[i].flags.writable ==> flags.writable
    ensures RightsOk(SetEntry(phys, f, i, Used(phys[f].entries[i].frame, flags)), owner)
  {
    var phys' := SetEntry(phys, f, i, Used(phys[f].entries[i].frame, flags));
    assert NodeOk(phys, owner, f);
    forall h | h in owner ensures RightsAt(phys', owner, h) {
      assert NodeOk(phys, owner, h) && RightsAt(phys, owner, h);
      if owner[h].level < 4 {
        assert Grants(EntryTo(phys, owner, h)) ==> Grants(EntryTo(phys', owner, h));
      }
    }
  }

  lemma WidenShown(phys: Phys, owner: Owner, f: nat, i: nat, flags: Flags, r: nat, page: nat)
    requires CanWiden(phys, owner, f, i, flags)
    requires r in Roots(owner) && page < PAGES
    ensures Shown(SetEntry(phys, f, i, Used(phys[f].entries[i].frame, flags)), r, page) == Shown(phys, r, page)
  {
    var phys' := SetEntry(phys, f, i, Used(phys[f].entries[i].frame, flags));
    PrefixTop(page);
    assert NodeOk(phys, owner, r);
    forall h | h in owner && owner[h].root == r && owner[h].level > 0 && owner[h].prefix == Prefix(page, owner[h].level)
      ensures Agree(phys, phys', h, owner[h].level, page)
    {
      assert NodeOk(phys, owner, h);
      assert SlotOk(owner, h, Index(page, owner[h].level), phys[h].entries[Index(page, owner[h].level)]);
    }
    WalkCongruent(phys, phys', owner, r, page);
    if Translate(phys, r, page).Some? {
      TranslateData(phys, owner, r, page);
    }
  }

  /** Widening the flags of an entry above the last level changes no view. */
  lemma WidenKeepsViews(phys: Phys, owner: Owner, f: nat, i: nat, flags: Flags)
    requires CanWiden(phys, owner, f, i, flags)
    ensures Views(SetEntry(phys, f, i, Used(phys[f].entries[i].frame, flags)), owner) == Views(phys, owner)
  {
    var phys' := SetEntry(phys, f, i, Used(phys[f].entries[i].frame, flags));
    forall r: nat, page: nat | r in Roots(owner) && page < PAGES ensures Shown(phys', r, page) == Shown(phys, r, page) {
      WidenShown(phys, owner, f, i, flags, r, page);
    }
    ViewsSame(phys, owner, phys', owner);
  }

  // ----- mapping a data frame under an unused entry of a last-level table -----

  ghost predicate CanMap(phys: Phys, owner: Owner, f: nat, i: nat, g: nat) {
    CanGraft(phys, owner, f, i, g) && owner[f].level == 1 && g in phys && phys[g].Data?
  }

  lemma LeafTree(phys: Phys, owner: Owner, f: nat, i: nat, g: nat, flags: Flags)
    requires CanMap(phys, owner, f, i, g) && UserFlags(flags)
    ensures TreeOk(SetEntry(phys, f, i, Used(g, flags)), GraftOwner(owner, f, i, g))
  {
    var phys', owner' := SetEntry(phys, f, i, Used(g, flags)), GraftOwner(owner, f, i, g);
    assert NodeOk(phys, owner, f);
    forall h | h in owner' ensures NodeOk(phys', owner', h) {
      if h != g {
        LinkKeepsNode(phys, owner, f, i, g, flags, phys', h);
      }
    }
  }

  lemma LeafRights(phys: Phys, owner: Owner, f: nat, i: nat, g: nat, flags: Flags)
    requires CanMap(phys, owner, f, i, g) && UserFlags(flags) && RightsOk(phys, owner) && MayGrant(phys, owner, f, flags)
    ensures RightsOk(SetEntry(phys, f, i, Used(g, flags)), GraftOwner(owner, f, i, g))
  {
    var phys', owner' := SetEntry(phys, f, i, Used(g, flags)), GraftOwner(owner, f, i, g);
    assert NodeOk(phys, owner, f);
    forall h | h in owner' ensures RightsAt(phys', owner', h) {
      if h != g {
        LinkKeepsRights(phys, owner, f, i, g, flags, phys', h);
      }
    }
  }

  lemma LeafShown(phys: Phys, owner: Owner, f: nat, i: nat, g: nat, flags: Flags, r: nat, page: nat)
    requires CanMap(phys, owner, f, i, g) && UserFlags(flags)
    requires r in Roots(owner) && page < PAGES
    ensures
      if r == owner[f].root && page == owner[f].prefix * 512 + i
      then Shown(phys, r, page).None?
        && Shown(SetEntry(phys, f, i, Used(g, flags)), r, page) == Some(UserPage(phys[g].bytes, flags.writable))
      else Shown(SetEntry(phys, f, i, Used(g, flags)), r, page) == Shown(phys, r, page)
  {
    var phys', owner' := SetEntry(phys, f, i, Used(g, flags)), GraftOwner(owner, f, i, g);
    assert Prefix(page, 1) == page / 512 && Index(page, 1) == page % 512;
    if r == owner[f].root && page == owner[f].prefix * 512 + i {
      LeafTree(phys, owner, f, i, g, flags);
      WalkReaches(phys, owner, f, page);
      WalkReaches(phys', owner', f, page);
    } else {
      UpdateMisses(phys, phys', owner, f, i, r, page);
    }
  }

  /** Mapping a frame adds exactly one page to exactly one address space. */
  lemma LeafAddsPage(phys: Phys, owner: Owner, f: nat, i: nat, g: nat, flags: Flags, page: nat)
    requires CanMap(phys, owner, f, i, g) && UserFlags(flags)
    requires page < PAGES && page == owner[f].prefix * 512 + i
    requires owner[f].root in Roots(owner)
    ensures
      var r := owner[f].root;
      && page !in View(phys, r)
      && Views(SetEntry(phys, f, i, Used(g, flags)), GraftOwner(owner, f, i, g))
         == Views(phys, owner)[r := View(phys, r)[page := UserPage(phys[g].bytes, flags.writable)]]
  {
    var phys', owner' := SetEntry(phys, f, i, Used(g, flags)), GraftOwner(owner, f, i, g);
    assert Roots(owner') == Roots(owner) by { assert NodeOk(phys, owner, f); }
    forall r: nat, p: nat | r in Roots(owner) && p < PAGES && !(r == owner[f].root && p == page)
      ensures Shown(phys', r, p) == Shown(phys, r, p)
    {
      LeafShown(phys, owner, f, i, g, flags, r, p);
    }
    LeafShown(phys, owner, f, i, g, flags, owner[f].root, page);
    ViewsChangeAt(phys, owner, phys', owner', owner[f].root, page, Some(UserPage(phys[g].bytes, flags.writable)));
  }

  // ----- unmapping -----

  function ClearOwner(owner: Owner, g: nat): Owner {
    map h | h in owner && h != g :: owner[h]
  }

  ghost predicate CanUnmap(phys: Phys, owner: Owner, f: nat, i: nat) {
    && TreeOk(phys, owner) && f in owner && f in phys && phys[f].Table? && i < 512
    && owner[f].level == 1 && phys[f].entries[i].Used?
  }

  lemma ClearKeepsLink(phys: Phys, owner: Owner, f: nat, i: nat, h: nat)
    requires CanUnmap(phys, owner, f, i) && h in owner && h != phys[f].entries[i].frame && owner[h].level < 4
    ensures LinkOk(SetEntry(phys, f, i, Unused), ClearOwner(owner, phys[f].entries[i].frame), h)
  {
    assert NodeOk(phys, owner, f);
    assert SlotOk(owner, f, i, phys[f].entries[i]);
    assert NodeOk(phys, owner, h);
  }

  lemma ClearKeepsSlots(phys: Phys, owner: Owner, f: nat, i: nat, j: nat)
    requires CanUnmap(phys, owner, f, i) && j < 512
    ensures f != phys[f].entries[i].frame
    ensures SlotOk(ClearOwner(owner, phys[f].entries[i].frame), f, j, SetEntry(phys, f, i, Unused)[f].entries[j])
  {
    assert NodeOk(phys, owner, f);
    assert SlotOk(owner, f, i, phys[f].entries[i]);
    assert SlotOk(owner, f, j, phys[f].entries[j]);
  }

  lemma ClearKeepsNode(phys: Phys, owner: Owner, f: nat, i: nat, h: nat)
    requires CanUnmap(phys, owner, f, i) && h in owner && h != phys[f].entries[i].frame
    ensures NodeOk(SetEntry(phys, f, i, Unused), ClearOwner(owner, phys[f].entries[i].frame), h)
  {
    var g := phys[f].entries[i].frame;
    var phys', owner' := SetEntry(phys, f, i, Unused), ClearOwner(owner, g);
    assert NodeOk(phys, owner, h);
    if owner[h].level < 4 {
      ClearKeepsLink(phys, owner, f, i, h);
    }
    if h == f {
      forall j | 0 <= j < 512 ensures SlotOk(owner', f, j, phys'[f].entries[j]) {
        ClearKeepsSlots(phys, owner, f, i, j);
      }
    } else {
      assert owner[g].parent == f by {
        assert NodeOk(phys, owner, f);
        assert SlotOk(owner, f, i, phys[f].entries[i]);
      }
      NodeKept(phys, owner, phys', owner', h);
    }
  }

  lemma ClearTree(phys: Phys, owner: Owner, f: nat, i: nat)
    requires CanUnmap(phys, owner, f, i)
    ensures TreeOk(SetEntry(phys, f, i, Unused), ClearOwner(owner, phys[f].entries[i].frame))
  {
    var g := phys[f].entries[i].frame;
    forall h | h in ClearOwner(owner, g) ensures NodeOk(SetEntry(phys, f, i, Unused), ClearOwner(owner, g), h) {
      ClearKeepsNode(phys, owner, f, i, h);
    }
  }

  lemma ClearRights(phys: Phys, owner: Owner, f: nat, i: nat)
    requires CanUnmap(phys, owner, f, i) && RightsOk(phys, owner)
    ensures RightsOk(SetEntry(phys, f, i, Unused), ClearOwner(owner, phys[f].entries[i].frame))
  {
    var phys', owner' := SetEntry(phys, f, i, Unused), ClearOwner(owner, phys[f].entries[i].frame);
    assert NodeOk(phys, owner, f);
    forall h | h in owner' ensures RightsAt(phys', owner', h) {
      assert NodeOk(phys, owner, h) && RightsAt(phys, owner, h);
      if 1 <= owner[h].level < 4 {
        assert EntryTo(phys', owner', h) == EntryTo(phys, owner, h);
      }
    }
  }

  lemma ClearShown(phys: Phys, owner: Owner, f: nat, i: nat, r: nat, page: nat)
    requires CanUnmap(phys, owner, f, i)
    requires r in Roots(owner) && page < PAGES
    ensures
      if r == owner[f].root && page == owner[f].prefix * 512 + i
      then Shown(phys, r, page).Some? && Shown(SetEntry(phys, f, i, Unused), r, page).None?
      else Shown(SetEntry(phys, f, i, Unused), r, page) == Shown(phys, r, page)
  {
    var phys', owner' := SetEntry(phys, f, i, Unused), ClearOwner(owner, phys[f].entries[i].frame);
    assert Prefix(page, 1) == page / 512 && Index(page, 1) == page % 512;
    if r == owner[f].root && page == owner[f].prefix * 512 + i {
      assert NodeOk(phys, owner, f) && SlotOk(owner, f, i, phys[f].entries[i]);
      WalkReaches(phys, owner, f, page);
      ClearTree(phys, owner, f, i);
      WalkReaches(phys', owner', f, page);
    } else {
      UpdateMisses(phys, phys', owner, f, i, r, page);
    }
  }

  /** Clearing a used last-level entry removes exactly one page from exactly one
      address space. */
  lemma ClearRemovesPage(phys: Phys, owner: Owner, f: nat, i: nat, page: nat)
    requires CanUnmap(phys, owner, f, i)
    requires page < PAGES && page == owner[f].prefix * 512 + i
    requires owner[f].root in Roots(owner)
    ensures
      var r := owner[f].root;
      && page in View(phys, r)
      && Views(SetEntry(phys, f, i, Unused), ClearOwner(owner, phys[f].entries[i].frame))
         == Views(phys, owner)[r := View(phys, r) - {page}]
  {
    var g := phys[f].entries[i].frame;
    var phys', owner' := SetEntry(phys, f, i, Unused), ClearOwner(owner, g);
    assert Roots(owner') == Roots(owner) by {
      assert NodeOk(phys, owner, f);
      assert SlotOk(owner, f, i, phys[f].entries[i]);
    }
    forall r: nat, p: nat | r in Roots(owner) && p < PAGES && !(r == owner[f].root && p == page)
      ensures Shown(phys', r, p) == Shown(phys, r, p)
    {
      ClearShown(phys, owner, f, i, r, p);
    }
    ClearShown(phys, owner, f, i, owner[f].root, page);
    ViewsChangeAt(phys, owner, phys', owner', owner[f].root, page, None);
  }

  // ----- writing data -----

  lemma WriteTree(phys: Phys, owner: Owner, g: nat, bytes: PageBytes)
    requires TreeOk(phys, owner) && g in owner && owner[g].level == 0
    ensures TreeOk(phys[g := Data(bytes)], owner)
  {
    var phys' := phys[g := Data(bytes)];
    forall h | h in owner ensures NodeOk(phys', owner, h) {
      assert NodeOk(phys, owner, h);
      if owner[h].level < 4 {
        assert LinkOk(phys', owner, h);
      }
      if h != g {
        NodeKept(phys, owner, phys', owner, h);
      }
    }
  }

  lemma WriteShown(phys: Phys, owner: Owner, g: nat, bytes: PageBytes, r: nat, page: nat)
    requires TreeOk(phys, owner) && g in owner && owner[g].level == 0
    requires r in Roots(owner) && page < PAGES
    ensures Translate(phys[g := Data(bytes)], r, page) == Translate(phys, r, page)
    ensures r != owner[g].root || page != owner[g].prefix ==>
              Shown(phys[g := Data(bytes)], r, page) == Shown(phys, r, page)
  {
    var phys' := phys[g := Data(bytes)];
    PrefixTop(page);
    assert NodeOk(phys, owner, r);
    forall h | h in owner && owner[h].root == r && owner[h].level > 0 && owner[h].prefix == Prefix(page, owner[h].level)
      ensures Agree(phys, phys', h, owner[h].level, page)
    {
      assert NodeOk(phys, owner, h);
    }
    WalkCongruent(phys, phys', owner, r, page);
    if Translate(phys, r, page).Some? {
      TranslateData(phys, owner, r, page);
    }
  }

  /** Changing the bytes of an owned data frame changes exactly one page of exactly
      one address space. */
  lemma WriteChangesPage(phys: Phys, owner: Owner, r: nat, page: nat, bytes: PageBytes)
    requires TreeOk(phys, owner) && r in Roots(owner) && page < PAGES
    requires Translate(phys, r, page).Some?
    ensures
      var m := Translate(phys, r, page).value;
      var phys' := phys[m.frame := Data(bytes)];
      && TreeOk(phys', owner)
      && page in View(phys, r)
      && Views(phys', owner) == Views(phys, owner)[r := View(phys, r)[page := UserPage(bytes, m.writable)]]
  {
    var m := Translate(phys, r, page).value;
    var phys' := phys[m.frame := Data(bytes)];
    TranslateData(phys, owner, r, page);
    WriteTree(phys, owner, m.frame, bytes);
    forall r': nat, p: nat | r' in Roots(owner) && p < PAGES && !(r' == r && p == page)
      ensures Shown(phys', r', p) == Shown(phys, r', p)
    {
      WriteShown(phys, owner, m.frame, bytes, r', p);
    }
    WriteShown(phys, owner, m.frame, bytes, r, page);
    assert Shown(phys', r, page) == Some(UserPage(bytes, m.writable));
    ViewsChangeAt(phys, owner, phys', owner, r, page, Some(UserPage(bytes, m.writable)));
  }

  /** Replacing a frame that is no table of any tree keeps the rights in order. */
  lemma ContentKeepsRights(phys: Phys, owner: Owner, g: nat, content: Content)
    requires TreeOk(phys, owner) && RightsOk(phys, owner) && (g in owner ==> owner[g].level == 0)
    ensures RightsOk(phys[g := content], owner)
  {
    var phys' := phys[g := content];
    forall h | h in owner ensures RightsAt(phys', owner, h) {
      assert NodeOk(phys, owner, h) && RightsAt(phys, owner, h);
      if owner[h].level < 4 {
        assert EntryTo(phys', owner, h) == EntryTo(phys, owner, h);
      }
    }
  }

  // ----- frames nobody owns yet -----

  lemma FreshShown(phys: Phys, owner: Owner, g: nat, content: Content, r: nat, page: nat)
    requires TreeOk(phys, owner) && g !in owner && r in Roots(owner) && page < PAGES
    ensures Shown(phys[g := content], r, page) == Shown(phys, r, page)
  {
    var phys' := phys[g := content];
    PrefixTop(page);
    assert NodeOk(phys, owner, r);
    forall h | h in owner && owner[h].root == r && owner[h].level > 0 && owner[h].prefix == Prefix(page, owner[h].level)
      ensures Agree(phys, phys', h, owner[h].level, page)
    {
      assert NodeOk(phys, owner, h);
    }
    WalkCongruent(phys, phys', owner, r, page);
    if Translate(phys, r, page).Some? {
      TranslateData(phys, owner, r, page);
    }
  }

  /** Filling a frame that belongs to no address space is invisible to all of them. */
  lemma FreshInvisible(phys: Phys, owner: Owner, g: nat, content: Content)
    requires TreeOk(phys, owner) && g !in owner
    ensures TreeOk(phys[g := content], owner) && Views(phys[g := content], owner) == Views(phys, owner)
  {
    var phys' := phys[g := content];
    forall h | h in owner ensures NodeOk(phys', owner, h) {
      assert NodeOk(phys, owner, h);
    }
    forall r: nat, page: nat | r in Roots(owner) && page < PAGES ensures Shown(phys', r, page) == Shown(phys, r, page) {
      FreshShown(phys, owner, g, content, r, page);
    }
    ViewsSame(phys, owner, phys', owner);
  }

  /** A fresh level-4 table whose user slot is empty and whose other entries bar
      user mode is a new, empty address space; the others do not change. */
  lemma NewRoot(phys: Phys, owner: Owner, g: nat)
    requires TreeOk(phys, owner) && g !in owner && g in phys && phys[g].Table?
    requires phys[g].entries[USER_P4_INDEX].Unused?
    requires forall i | 0 <= i < 512 :: !AllowsUser(phys[g].entries[i])
    ensures
      var owner' := owner[g := Tag(g, 4, 0, 0)];
      && TreeOk(phys, owner') && Views(phys, owner') == Views(phys, owner)[g := map[]]
      && (RightsOk(phys, owner) ==> RightsOk(phys, owner'))
  {
    var owner' := owner[g := Tag(g, 4, 0, 0)];
    forall h | h in owner' ensures NodeOk(phys, owner', h) {
      if h != g {
        assert NodeOk(phys, owner, h);
        NodeKept(phys, owner, phys, owner', h);
      }
    }
    if RightsOk(phys, owner) {
      forall h | h in owner' ensures RightsAt(phys, owner', h) {
        assert h != g ==> RightsAt(phys, owner, h) && NodeOk(phys, owner, h);
      }
    }
    assert Roots(owner') == Roots(owner) + {g};
    forall page: nat | page < PAGES ensures Shown(phys, g, page).None? {
      assert !AllowsUser(phys[g].entries[Index(page, 4)]);
    }
    assert View(phys, g) == map[];
  }
}

/** The built-in programs: machine code that the kernel carries and maps into an address
    space of its own. */
module BuiltinPrograms {
  import opened Base
  import opened LittleEndian
  import opened UserSpaces
  import opened PageTables
  import opened Memory
  import opened UserLayout
  import opened ElfLoader

  const CODE_PAGE: nat := USER_CODE_BASE / PAGE_SIZE
  const DATA_PAGE: nat := USER_DATA_BASE / PAGE_SIZE
  const TEST_PAGE: nat := USER_TEST_PAGE_BASE / PAGE_SIZE

  /** A page that starts with `bytes` and is zero from there on. */
  function FilledPage(bytes: seq<byte>, writable: bool): UserPage
    requires |bytes| <= PAGE_SIZE
  {
    UserPage(bytes + Zeros(PAGE_SIZE - |bytes|), writable)
  }

  /** The address space of a built-in program, as it is built up. */
  function BuiltinView(code: seq<byte>, test: Option<nat>): UserSpace
    requires |code| <= PAGE_SIZE
  {
    var v := WithPage(map[], CODE_PAGE, Some(FilledPage(code, false)));
    var w := WithPage(v, DATA_PAGE, Some(FilledPage(Encode(0, 8), true)));
    ZeroPages(if test.Some? then WithPage(w, TEST_PAGE, Some(FilledPage(Encode(test.value, 8), true))) else w,
              STACK_BOTTOM / PAGE_SIZE, USER_STACK_TOP / PAGE_SIZE, true)
  }

  /** It holds read-only code, a zero page for data, the test page if a value is given
      for it, the stack, and nothing else. */
  lemma BuiltinPages(code: seq<byte>, test: Option<nat>)
    requires |code| <= PAGE_SIZE
    ensures
      var view := BuiltinView(code, test);
      && (forall p: nat ::
            p in view <==> p == CODE_PAGE || p == DATA_PAGE || (p == TEST_PAGE && test.Some?) || StackPage(p))
      && view[CODE_PAGE] == FilledPage(code, false)
      && view[DATA_PAGE] == ZeroPage(true)
      && (test.Some? ==> view[TEST_PAGE] == FilledPage(Encode(test.value, 8), true))
      && (forall p: nat | StackPage(p) :: view[p] == ZeroPage(true))
  {
    hide FilledPage, ZeroPages, ZeroPage, Encode;
    ZeroFill();
  }

  /** Its heap window, between data and test page, is unmapped and its heap empty. */
  lemma BuiltinIsFresh(code: seq<byte>, test: Option<nat>)
    requires |code| <= PAGE_SIZE
    ensures DefaultBuiltinHeap().Some? && FreshLayout(DefaultBuiltinHeap().value, BuiltinView(code, test))
  {
    hide FilledPage, ZeroPages, ZeroPage, BuiltinView;
    BuiltinPages(code, test);
    AlignedFixed(USER_DATA_BASE + PAGE_SIZE);
  }

  /** Writing the number 0 to a zero page changes nothing. */
  lemma ZeroFill()
    ensures FilledPage(Encode(0, 8), true) == ZeroPage(true)
  {
    ZeroEncoded(8);
    assert FilledPage(Encode(0, 8), true).bytes == ZeroBytes();
  }

  lemma {:induction false} ZeroEncoded(n: nat)
    ensures Encode(0, n) == Zeros(n)
  {
    if n > 0 {
      ZeroEncoded(n - 1);
    }
  }

  lemma PokedIsFilled(v: UserSpace, address: nat, writable: bool, bytes: seq<byte>)
    requires Aligned(address) && |bytes| <= PAGE_SIZE
    ensures
      var page := address / PAGE_SIZE;
      PokeRun(WithPage(v, page, Some(ZeroPage(writable))), address, bytes)
      == WithPage(v, page, Some(FilledPage(bytes, writable)))
  {
    assert Splice(ZeroBytes(), 0, bytes) == FilledPage(bytes, writable).bytes;
  }

  /** A zero-filled page mapped and then written through its frame. */
  method MapFilledPage(mem: MemoryState, root: nat, address: nat, writable: bool, bytes: seq<byte>)
    returns (r: Result<Done, AddressSpaceError>)
    requires mem.Valid() && root in mem.spaces && Canonical(address) && Aligned(address) && |bytes| <= PAGE_SIZE
    requires UserPageNumber(address / PAGE_SIZE) && address / PAGE_SIZE !in mem.spaces[root]
    modifies mem
    ensures mem.Valid() && mem.next >= old(mem.next)
    ensures r.Ok? ==>
              mem.spaces == old(mem.spaces)[root :=
                WithPage(old(mem.spaces)[root], address / PAGE_SIZE, Some(FilledPage(bytes, writable)))]
    ensures r.Err? ==> mem.spaces == old(mem.spaces) && mem.Exhausted()
    ensures r.Err? ==> r.error == FrameAllocationFailed || r.error.MapTo?
  {
    hide mem.Valid, Canonical, Translate;
    var mapped := mem.MapZeroedUserPage(root, address, PageFlags(writable));
    if mapped.Err? {
      return Err(mapped.error);
    }
    var m := mem.TranslateUser(root, address);
    mem.WriteFrame(root, address, m.value, bytes);
    PokedIsFilled(old(mem.spaces)[root], address, writable, bytes);
    r := Ok(Done);
  }

  /** The mapping part of `create_user_task_with_test_page`, of code that fits. */
  method FillSpace(mem: MemoryState, root: nat, code: seq<byte>, test: Option<nat>) returns (r: Result<Done, AddressSpaceError>)
    requires mem.Valid() && root in mem.spaces && mem.spaces[root] == map[] && |code| <= PAGE_SIZE
    modifies mem
    ensures mem.Valid() && root in mem.spaces && mem.spaces == old(mem.spaces)[root := mem.spaces[root]]
    ensures r.Ok? ==> mem.spaces[root] == BuiltinView(code, test)
    ensures r.Err? ==> mem.Exhausted()
  {
    hide mem.Valid, FilledPage, ZeroPages, ZeroPage, Encode, StackPage, MapAddressSpaceError;
    r := MapFilledPage(mem, root, USER_CODE_BASE, false, code);
    if r.Err? {
      return;
    }
    r := MapFilledPage(mem, root, USER_DATA_BASE, true, Encode(0, 8));
    if r.Err? {
      return;
    }
    if test.Some? {
      r := MapFilledPage(mem, root, USER_TEST_PAGE_BASE, true, Encode(test.value, 8));
      if r.Err? {
        return;
      }
    }
    r := MapUserStack(mem, root);
  }

  /** `create_user_task_with_test_page`. It fails only for code that does not fit in a
      page, a kernel that uses the user slot, or when frames run out. */
  method CreateUserTask(mem: MemoryState, code: seq<byte>, arg0: nat, test: Option<nat>)
    returns (r: Result<UserInit, AddressSpaceError>, ghost made: Option<nat>)
    requires mem.Valid()
    modifies mem
    ensures mem.Valid() && Kept(old(mem.spaces), mem.spaces, made, mem.kernelRoot)
    ensures r.Ok? ==>
              && |code| <= PAGE_SIZE && made == Some(r.value.root)
              && mem.spaces[r.value.root] == BuiltinView(code, test)
              && r.value == UserInit(r.value.root, USER_CODE_BASE, USER_STACK_TOP, r.value.heap, arg0)
              && DefaultBuiltinHeap() == Some(r.value.heap)
    ensures |code| > PAGE_SIZE ==> r.Err?
    ensures r.Err? ==> mem.Exhausted() || !old(mem.UserSlotFree()) || |code| > PAGE_SIZE
  {
    hide Views, TreeOk, RightsOk, BuiltinView;
    var space := mem.NewUser();
    if space.Err? {
      return Err(space.error), None;
    }
    var root := space.value;
    made := Some(root);
    if |code| > PAGE_SIZE {
      var mapped := mem.MapZeroedUserPage(root, USER_CODE_BASE, PageFlags(false));
      return Err(if mapped.Err? then mapped.error else FrameAllocationFailed), made;
    }
    var filled := FillSpace(mem, root, code, test);
    if filled.Err? {
      return Err(filled.error), made;
    }
    r := Ok(UserInit(root, USER_CODE_BASE, USER_STACK_TOP, DefaultBuiltinHeap().value, arg0));
  }
}

/** Checked access to user memory: the page-wise loops of user_memory.rs, each
    proved equal to the byte-wise copy of `UserSpaces`, errors and partial effects
    included. */
module UserMemory {
  import opened Base
  import opened UserSpaces
  import opened PageTables
  import opened Memory

  /** `validate_user_byte` */
  method ValidateUserByte(mem: MemoryState, root: nat, address: nat, access: Access)
    returns (r: Result<Mapping, UserMemoryError>)
    requires mem.Valid() && root in mem.spaces && access != Load
    ensures r.Ok? <==> ByteOk(mem.spaces[root], address, access)
    ensures r.Err? ==> CheckByte(mem.spaces[root], address, access) == Some(r.error)
    ensures r.Ok? ==> Translate(mem.phys, root, address / PAGE_SIZE) == Some(r.value)
  {
    hide mem.Valid;
    if !(USER_BASE <= address < USER_STACK_TOP) {
      return Err(OutsideUserRange);
    }
    var m := mem.TranslateUser(root, address);
    if m.None? {
      return Err(Unmapped);
    }
    if access == Write && !m.value.writable {
      return Err(NotWritable);
    }
    r := Ok(m.value);
  }

  /** `copy_to_user`. Addresses passed to `VirtAddr::new` are canonical and
      `checked_offset` never overflows. */
  method CopyToUser(mem: MemoryState, root: nat, dst: nat, src: seq<byte>) returns (error: Option<UserMemoryError>)
    requires mem.Valid() && root in mem.spaces && Canonical(dst)
    modifies mem
    ensures mem.Valid() && mem.next == old(mem.next)
    ensures mem.spaces == old(mem.spaces)[root := CopyOut(old(mem.spaces)[root], dst, src, Write).0]
    ensures error == CopyOut(old(mem.spaces)[root], dst, src, Write).1
  {
    hide mem.Valid, Translate, PokeRun, CopyOut;
    var copied := 0;
    assert src[0..] == src;
    while copied < |src|
      invariant 0 <= copied <= |src|
      invariant mem.Valid() && mem.next == old(mem.next) && root in mem.spaces
      invariant mem.spaces == old(mem.spaces)[root := mem.spaces[root]]
      invariant copied > 0 ==> dst + copied <= USER_STACK_TOP
      invariant CopyOut(mem.spaces[root], dst + copied, src[copied..], Write)
                == CopyOut(old(mem.spaces)[root], dst, src, Write)
    {
      var current := dst + copied;
      assert Canonical(current);
      var translation := ValidateUserByte(mem, root, current, Write);
      if translation.Err? {
        CopyOutStops(mem.spaces[root], current, src[copied..], Write);
        return Some(translation.error);
      }
      var count := Min(|src| - copied, PAGE_SIZE - current % PAGE_SIZE);
      CopyOutChunk(mem.spaces[root], current, src[copied..], count, Write);
      assert src[copied..][..count] == src[copied..copied + count];
      assert src[copied..][count..] == src[copied + count..];
      mem.WriteFrame(root, current, translation.value, src[copied..copied + count]);
      copied := copied + count;
    }
    CopyOutStops(mem.spaces[root], dst + copied, src[copied..], Write);
    error := None;
  }

  /** `copy_from_user`: fills the buffer as far as the range is readable. */
  method CopyFromUser(mem: MemoryState, root: nat, src: nat, len: nat)
    returns (bytes: seq<byte>, error: Option<UserMemoryError>)
    requires mem.Valid() && root in mem.spaces && Canonical(src)
    ensures (bytes, error) == CopyIn(mem.spaces[root], src, len)
  {
    hide mem.Valid, Translate, Peek, CopyIn;
    bytes := [];
    assert [] + CopyIn(mem.spaces[root], src, len).0 == CopyIn(mem.spaces[root], src, len).0;
    while |bytes| < len
      invariant |bytes| <= len
      invariant |bytes| > 0 ==> src + |bytes| <= USER_STACK_TOP
      invariant
        var (rest, e) := CopyIn(mem.spaces[root], src + |bytes|, len - |bytes|);
        CopyIn(mem.spaces[root], src, len) == (bytes + rest, e)
    {
      var current := src + |bytes|;
      assert Canonical(current);
      var translation := ValidateUserByte(mem, root, current, Read);
      if translation.Err? {
        CopyInStops(mem.spaces[root], current, len - |bytes|);
        assert bytes + [] == bytes;
        return bytes, Some(translation.error);
      }
      var count := Min(len - |bytes|, PAGE_SIZE - current % PAGE_SIZE);
      CopyInChunk(mem.spaces[root], current, len - |bytes|, count);
      var chunk := mem.ReadFrame(root, current, translation.value, count);
      ghost var rest := CopyIn(mem.spaces[root], current + count, len - |bytes| - count).0;
      assert bytes + (chunk + rest) == bytes + chunk + rest;
      bytes := bytes + chunk;
    }
    CopyInStops(mem.spaces[root], src + |bytes|, 0);
    assert bytes + [] == bytes;
    error := None;
  }

  lemma CopyInStops(s: UserSpace, a: nat, n: nat)
    requires n == 0 || !ByteOk(s, a, Read)
    ensures CopyIn(s, a, n) == ([], if n == 0 then None else CheckByte(s, a, Read))
  {
  }

  /** `validate_user_range`: one check per page, yet it accepts a range exactly when
      every byte of it is valid. */
  method ValidateUserRange(mem: MemoryState, root: nat, start: nat, len: nat, access: Access)
    returns (error: Option<UserMemoryError>)
    requires mem.Valid() && root in mem.spaces && Canonical(start) && access != Load
    ensures error.None? <==> RangeOk(mem.spaces[root], start, len, access)
    ensures error == Some(AddressOverflow) <==> len > 0 && start + len >= U64
  {
    hide mem.Valid;
    if len == 0 {
      return None;
    }
    if start + len >= U64 {
      ByteOutside(mem.spaces[root], start, len, access);
      return Some(AddressOverflow);
    }
    var end := start + len;
    if start < USER_BASE || end > USER_STACK_TOP {
      ByteOutside(mem.spaces[root], start, len, access);
      return Some(OutsideUserRange);
    }
    var page := AlignDown(start);
    while page < end
      invariant Aligned(page) && AlignDown(start) <= page < end + PAGE_SIZE
      invariant forall i | start <= i < end && i < page :: ByteOk(mem.spaces[root], i, access)
    {
      var translation := ValidateUserByte(mem, root, page, access);
      ghost var probe := if page < start then start else page;
      CheckIsPageWide(mem.spaces[root], page, probe, access);
      if translation.Err? {
        assert !ByteOk(mem.spaces[root], probe, access);
        return Some(translation.error);
      }
      forall i | page <= i < page + PAGE_SIZE ensures ByteOk(mem.spaces[root], i, access) {
        CheckIsPageWide(mem.spaces[root], page, i, access);
      }
      page := page + PAGE_SIZE;
    }
    error := None;
  }

  lemma ByteOutside(s: UserSpace, start: nat, len: nat, access: Access)
    requires len > 0 && access != Load
    requires start < USER_BASE || start + len > USER_STACK_TOP
    ensures !RangeOk(s, start, len, access)
  {
    assert !ByteOk(s, start, access) || !ByteOk(s, start + len - 1, access);
  }
}

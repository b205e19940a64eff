/** What a user process can see of memory: its pages, their bytes and whether
    they are writable. Copies across the user boundary are defined here one byte
    at a time; the page-wise loops of the kernel are proved equal to them. */
module UserSpaces {
  import opened Base

  type PageBytes = s: seq<byte> | |s| == PAGE_SIZE witness seq(PAGE_SIZE, _ => 0)

  datatype UserPage = UserPage(bytes: PageBytes, writable: bool)

  /** page number -> page */
  type UserSpace = map<nat, UserPage>

  datatype Access = Read | Write | Load

  datatype UserMemoryError = AddressOverflow | OutsideUserRange | Unmapped | NotWritable

  function ZeroBytes(): PageBytes {
    seq(PAGE_SIZE, _ => 0)
  }

  predicate IsMapped(s: UserSpace, a: nat) {
    a / PAGE_SIZE in s
  }

  function Peek(s: UserSpace, a: nat): byte
    requires IsMapped(s, a)
  {
    s[a / PAGE_SIZE].bytes[a % PAGE_SIZE]
  }

  function Poke(s: UserSpace, a: nat, b: byte): UserSpace
    requires IsMapped(s, a)
  {
    var p := s[a / PAGE_SIZE];
    s[a / PAGE_SIZE := p.(bytes := p.bytes[a % PAGE_SIZE := b])]
  }

  /** `validate_user_byte` for `Read` and `Write`. `Load` is the check the ELF
      loader makes: the page only has to be mapped. */
  function CheckByte(s: UserSpace, a: nat, access: Access): Option<UserMemoryError> {
    if access != Load && !(USER_BASE <= a < USER_STACK_TOP) then Some(OutsideUserRange)
    else if !IsMapped(s, a) then Some(Unmapped)
    else if access == Write && !s[a / PAGE_SIZE].writable then Some(NotWritable)
    else None
  }

  predicate ByteOk(s: UserSpace, a: nat, access: Access) {
    CheckByte(s, a, access).None?
  }

  predicate RangeOk(s: UserSpace, a: nat, n: nat, access: Access) {
    forall i {:trigger ByteOk(s, i, access)} {:trigger IsMapped(s, i)} | a <= i < a + n :: ByteOk(s, i, access)
  }

  /** Copy bytes to user memory one at a time; stop at the first byte that may
      not be written, keeping what was written before it. */
  function CopyOut(s: UserSpace, a: nat, bytes: seq<byte>, access: Access): (UserSpace, Option<UserMemoryError>)
    decreases |bytes|
  {
    if bytes == [] then (s, None)
    else
      match CheckByte(s, a, access)
      case Some(e) => (s, Some(e))
      case None => CopyOut(Poke(s, a, bytes[0]), a + 1, bytes[1..], access)
  }

  /** Copy `n` bytes from user memory one at a time; stop at the first byte that
      may not be read. */
  function CopyIn(s: UserSpace, a: nat, n: nat): (seq<byte>, Option<UserMemoryError>)
    decreases n
  {
    if n == 0 then ([], None)
    else
      match CheckByte(s, a, Read)
      case Some(e) => ([], Some(e))
      case None =>
        var (rest, error) := CopyIn(s, a + 1, n - 1);
        ([Peek(s, a)] + rest, error)
  }

  function ReadRange(s: UserSpace, a: nat, n: nat): (r: seq<byte>)
    requires forall i | a <= i < a + n :: IsMapped(s, i)
    ensures |r| == n
    ensures forall i | 0 <= i < n :: r[i] == Peek(s, a + i)
    decreases n
  {
    if n == 0 then [] else [Peek(s, a)] + ReadRange(s, a + 1, n - 1)
  }

  /** Same pages with the same permissions: only bytes may differ. */
  predicate SameShape(s: UserSpace, t: UserSpace) {
    s.Keys == t.Keys && forall p | p in s :: s[p].writable == t[p].writable
  }

  lemma ShapeKeepsChecks(s: UserSpace, t: UserSpace, a: nat, access: Access)
    requires SameShape(s, t)
    ensures CheckByte(s, a, access) == CheckByte(t, a, access)
  {
  }

  lemma ShapeKeepsRange(s: UserSpace, t: UserSpace, a: nat, n: nat, access: Access)
    requires SameShape(s, t)
    ensures RangeOk(s, a, n, access) == RangeOk(t, a, n, access)
  {
    forall i | a <= i < a + n ensures ByteOk(s, i, access) == ByteOk(t, i, access) {
      ShapeKeepsChecks(s, t, i, access);
    }
  }

  lemma RangeSplit(s: UserSpace, a: nat, k: nat, n: nat, access: Access)
    requires k <= n
    ensures RangeOk(s, a, n, access) <==> RangeOk(s, a, k, access) && RangeOk(s, a + k, n - k, access)
  {
    if RangeOk(s, a, k, access) && RangeOk(s, a + k, n - k, access) {
      forall i | a <= i < a + n ensures ByteOk(s, i, access) {
        assert i < a + k || a + k <= i < a + k + (n - k);
      }
    }
  }

  /** A copy to user memory never changes the mapping, succeeds exactly when every
      byte of the range is individually valid, and then stores exactly the range. */
  lemma {:induction false} CopyOutExact(s: UserSpace, a: nat, bytes: seq<byte>, access: Access)
    ensures
      var (t, error) := CopyOut(s, a, bytes, access);
      && SameShape(s, t)
      && (error.None? <==> RangeOk(s, a, |bytes|, access))
      && (forall x: nat | IsMapped(s, x) && !(a <= x < a + |bytes|) :: Peek(t, x) == Peek(s, x))
      && (error.None? ==> forall x | a <= x < a + |bytes| :: IsMapped(t, x) && Peek(t, x) == bytes[x - a])
    decreases |bytes|
  {
    if bytes != [] && ByteOk(s, a, access) {
      var s' := Poke(s, a, bytes[0]);
      PokeFrame(s, a, bytes[0]);
      CopyOutExact(s', a + 1, bytes[1..], access);
      var (t, error) := CopyOut(s', a + 1, bytes[1..], access);
      assert RangeOk(s', a + 1, |bytes| - 1, access) <==> RangeOk(s, a, |bytes|, access) by {
        RangeSplit(s, a, 1, |bytes|, access);
        RangeSplit(s', a, 1, |bytes|, access);
        ShapeKeepsRange(s, s', a + 1, |bytes| - 1, access);
      }
      forall x | error.None? && a <= x < a + |bytes| ensures IsMapped(t, x) && Peek(t, x) == bytes[x - a] {
        if x == a {
          assert Peek(t, x) == Peek(s', x);
        }
      }
    }
  }

  /** A copy that fails part-way has stored every byte before the first that was refused,
      and none after it. */
  lemma {:induction false} CopyOutPrefix(s: UserSpace, a: nat, bytes: seq<byte>, access: Access, x: nat)
    requires IsMapped(s, x) && a <= x < a + |bytes|
    ensures
      var t := CopyOut(s, a, bytes, access).0;
      IsMapped(t, x) && Peek(t, x) == if RangeOk(s, a, x - a + 1, access) then bytes[x - a] else Peek(s, x)
    decreases |bytes|
  {
    if ByteOk(s, a, access) {
      var s' := Poke(s, a, bytes[0]);
      assert CopyOut(s, a, bytes, access) == CopyOut(s', a + 1, bytes[1..], access);
      assert RangeOk(s, a, 1, access);
      hide CopyOut, Poke, Peek, RangeOk, ByteOk;
      PokeFrame(s, a, bytes[0]);
      RangeSplit(s, a, 1, x - a + 1, access);
      if x == a {
        CopyOutExact(s', a + 1, bytes[1..], access);
      } else {
        CopyOutPrefix(s', a + 1, bytes[1..], access, x);
        ShapeKeepsRange(s, s', a + 1, x - a, access);
      }
    } else {
      assert !RangeOk(s, a, x - a + 1, access);
    }
  }

  lemma PokeFrame(s: UserSpace, a: nat, b: byte)
    requires IsMapped(s, a)
    ensures SameShape(s, Poke(s, a, b))
    ensures forall x: nat | IsMapped(s, x) :: Peek(Poke(s, a, b), x) == if x == a then b else Peek(s, x)
  {
    forall x: nat | IsMapped(s, x) ensures Peek(Poke(s, a, b), x) == if x == a then b else Peek(s, x) {
      if x / PAGE_SIZE == a / PAGE_SIZE && x % PAGE_SIZE == a % PAGE_SIZE {
        assert x == a;
      }
    }
  }

  /** A copy from user memory succeeds exactly when every byte is readable, and
      then returns exactly the range. */
  lemma {:induction false} CopyInExact(s: UserSpace, a: nat, n: nat)
    ensures CopyIn(s, a, n).1.None? <==> RangeOk(s, a, n, Read)
    ensures RangeOk(s, a, n, Read) ==> CopyIn(s, a, n).0 == ReadRange(s, a, n)
    ensures |CopyIn(s, a, n).0| <= n
    decreases n
  {
    if n != 0 {
      if ByteOk(s, a, Read) {
        CopyInExact(s, a + 1, n - 1);
        RangeSplit(s, a, 1, n, Read);
      }
    }
  }

  /** Pages that are not writable are still there, byte for byte. */
  ghost predicate KeepsReadOnly(s: UserSpace, t: UserSpace) {
    forall p | p in s && !s[p].writable :: p in t && t[p] == s[p]
  }

  /** A checked copy never touches a page that is not writable, even if it fails later. */
  lemma {:induction false} CopyOutReadOnly(s: UserSpace, a: nat, bytes: seq<byte>)
    ensures KeepsReadOnly(s, CopyOut(s, a, bytes, Write).0)
    decreases |bytes|
  {
    if bytes != [] && ByteOk(s, a, Write) {
      CopyOutReadOnly(Poke(s, a, bytes[0]), a + 1, bytes[1..]);
    }
  }

  /** `t` is `s` with `bytes` stored at `a`: a reader gets them back, and nothing else
      changed. */
  ghost predicate Stored(s: UserSpace, t: UserSpace, a: nat, bytes: seq<byte>) {
    && SameShape(s, t) && KeepsReadOnly(s, t)
    && CopyIn(t, a, |bytes|) == (bytes, None)
    && forall x: nat | IsMapped(s, x) && !(a <= x < a + |bytes|) :: Peek(t, x) == Peek(s, x)
  }

  /** What is copied to writable user memory is read back. */
  lemma CopyOutThenIn(s: UserSpace, a: nat, bytes: seq<byte>)
    requires RangeOk(s, a, |bytes|, Write)
    ensures Stored(s, CopyOut(s, a, bytes, Write).0, a, bytes)
  {
    CopyOutExact(s, a, bytes, Write);
    CopyOutReadOnly(s, a, bytes);
    var t := CopyOut(s, a, bytes, Write).0;
    hide CopyOut;
    forall x | a <= x < a + |bytes| ensures ByteOk(t, x, Read) {
      assert ByteOk(s, x, Write);
      ShapeKeepsChecks(s, t, x, Read);
    }
    CopyInExact(t, a, |bytes|);
    assert ReadRange(t, a, |bytes|) == bytes;
  }

  // ----- one page at a time -----

  /** Store `chunk`, which lies inside one page, at address `a`. */
  function PokeRun(s: UserSpace, a: nat, chunk: seq<byte>): UserSpace
    requires IsMapped(s, a) && a % PAGE_SIZE + |chunk| <= PAGE_SIZE
  {
    var p := s[a / PAGE_SIZE];
    s[a / PAGE_SIZE := p.(bytes := Splice(p.bytes, a % PAGE_SIZE, chunk))]
  }

  function Splice(bytes: PageBytes, offset: nat, chunk: seq<byte>): PageBytes
    requires offset + |chunk| <= PAGE_SIZE
  {
    bytes[..offset] + chunk + bytes[offset + |chunk|..]
  }

  /** All bytes of a page pass or fail the same check. */
  lemma CheckIsPageWide(s: UserSpace, a: nat, b: nat, access: Access)
    requires a / PAGE_SIZE == b / PAGE_SIZE
    ensures CheckByte(s, a, access) == CheckByte(s, b, access)
  {
  }

  /** Storing a chunk at once is the same as copying it byte by byte. */
  lemma {:induction false} CopyOutChunk(s: UserSpace, a: nat, bytes: seq<byte>, k: nat, access: Access)
    requires k <= |bytes| && a % PAGE_SIZE + k <= PAGE_SIZE && ByteOk(s, a, access)
    ensures CopyOut(s, a, bytes, access) == CopyOut(PokeRun(s, a, bytes[..k]), a + k, bytes[k..], access)
    decreases k
  {
    var p := s[a / PAGE_SIZE];
    if k == 0 {
      assert Splice(p.bytes, a % PAGE_SIZE, []) == p.bytes;
      assert bytes[..0] == [] && bytes[0..] == bytes;
      assert PokeRun(s, a, []) == s;
    } else if k == 1 {
      assert bytes[..1] == [bytes[0]];
      assert Splice(p.bytes, a % PAGE_SIZE, [bytes[0]]) == p.bytes[a % PAGE_SIZE := bytes[0]];
    } else {
      var s' := Poke(s, a, bytes[0]);
      assert (a + 1) / PAGE_SIZE == a / PAGE_SIZE && (a + 1) % PAGE_SIZE == a % PAGE_SIZE + 1;
      CheckIsPageWide(s, a, a + 1, access);
      CopyOutChunk(s', a + 1, bytes[1..], k - 1, access);
      PokeThenRun(s, a, bytes[..k]);
      assert bytes[1..][..k - 1] == bytes[..k][1..];
      assert bytes[1..][k - 1..] == bytes[k..];
    }
  }

  lemma PokeThenRun(s: UserSpace, a: nat, chunk: seq<byte>)
    requires IsMapped(s, a) && |chunk| >= 2 && a % PAGE_SIZE + |chunk| <= PAGE_SIZE
    ensures (a + 1) / PAGE_SIZE == a / PAGE_SIZE && (a + 1) % PAGE_SIZE == a % PAGE_SIZE + 1
    ensures PokeRun(Poke(s, a, chunk[0]), a + 1, chunk[1..]) == PokeRun(s, a, chunk)
  {
    var p, o := s[a / PAGE_SIZE].bytes, a % PAGE_SIZE;
    assert Splice(p[o := chunk[0]], o + 1, chunk[1..]) == Splice(p, o, chunk);
  }

  /** Reading the part of a range that lies in one page at once is the same as
      reading it byte by byte. */
  lemma CopyInStep(s: UserSpace, a: nat, n: nat)
    requires n > 0 && ByteOk(s, a, Read)
    ensures CopyIn(s, a, n) == ([Peek(s, a)] + CopyIn(s, a + 1, n - 1).0, CopyIn(s, a + 1, n - 1).1)
  {
  }

  lemma {:induction false} CopyInChunk(s: UserSpace, a: nat, n: nat, k: nat)
    requires k <= n && a % PAGE_SIZE + k <= PAGE_SIZE && ByteOk(s, a, Read)
    ensures
      var chunk := s[a / PAGE_SIZE].bytes[a % PAGE_SIZE..a % PAGE_SIZE + k];
      var (rest, error) := CopyIn(s, a + k, n - k);
      CopyIn(s, a, n) == (chunk + rest, error)
    decreases k
  {
    hide CopyIn;
    var page := s[a / PAGE_SIZE].bytes;
    if k > 0 {
      CopyInStep(s, a, n);
    }
    if k == 0 {
      assert page[a % PAGE_SIZE..a % PAGE_SIZE] == [];
      assert [] + CopyIn(s, a, n).0 == CopyIn(s, a, n).0;
    } else if k == 1 {
      assert page[a % PAGE_SIZE..a % PAGE_SIZE + 1] == [Peek(s, a)];
    } else {
      assert (a + 1) / PAGE_SIZE == a / PAGE_SIZE && (a + 1) % PAGE_SIZE == a % PAGE_SIZE + 1;
      CheckIsPageWide(s, a, a + 1, Read);
      CopyInChunk(s, a + 1, n - 1, k - 1);
      var head, tail := [Peek(s, a)], page[a % PAGE_SIZE + 1..a % PAGE_SIZE + k];
      assert page[a % PAGE_SIZE..a % PAGE_SIZE + k] == head + tail;
      var rest := CopyIn(s, a + k, n - k).0;
      assert head + (tail + rest) == head + tail + rest;
    }
  }

  /** Where a byte-wise copy stops: at its end or at a byte that fails the check. */
  lemma CopyOutStops(s: UserSpace, a: nat, bytes: seq<byte>, access: Access)
    requires bytes == [] || !ByteOk(s, a, access)
    ensures CopyOut(s, a, bytes, access) == (s, if bytes == [] then None else CheckByte(s, a, access))
  {
  }

  // ----- adding and removing runs of pages -----

  function WithPage(v: UserSpace, page: nat, x: Option<UserPage>): UserSpace {
    match x
    case None => v - {page}
    case Some(u) => v[page := u]
  }

  function ZeroPage(writable: bool): UserPage {
    UserPage(ZeroBytes(), writable)
  }

  /** Pages `lo` to `hi` added as zero-filled pages. */
  function ZeroPages(s: UserSpace, lo: nat, hi: nat, writable: bool): (t: UserSpace)
    ensures forall p: nat :: p in t <==> p in s || lo <= p < hi
    ensures forall p | p in t :: t[p] == if lo <= p < hi then ZeroPage(writable) else s[p]
  {
    if hi <= lo then s else WithPage(ZeroPages(s, lo, hi - 1, writable), hi - 1, Some(ZeroPage(writable)))
  }

  /** Pages `lo` to `hi` removed. */
  function WithoutPages(s: UserSpace, lo: nat, hi: nat): (t: UserSpace)
    ensures forall p: nat :: p in t <==> p in s && !(lo <= p < hi)
    ensures forall p | p in t :: t[p] == s[p]
  {
    if hi <= lo then s else WithPage(WithoutPages(s, lo, hi - 1), hi - 1, None)
  }

  predicate NoneMapped(s: UserSpace, lo: nat, hi: nat) {
    forall p | lo <= p < hi :: p !in s
  }

  /** Address space `root` gained the unmapped pages `lo` to `hi`, zero-filled, and
      no other address space changed. */
  ghost predicate Grown(before: map<nat, UserSpace>, after: map<nat, UserSpace>, root: nat, lo: nat, hi: nat,
          writable: bool) {
    && root in before
    && lo <= hi
    && NoneMapped(before[root], lo, hi)
    && after == before[root := ZeroPages(before[root], lo, hi, writable)]
  }

  /** Address space `root` lost the pages `lo` to `hi`, all of which were mapped, and
      no other address space changed. */
  ghost predicate Shrunk(before: map<nat, UserSpace>, after: map<nat, UserSpace>, root: nat, lo: nat, hi: nat) {
    && root in before
    && lo <= hi
    && (forall p | lo <= p < hi :: p in before[root])
    && after == before[root := WithoutPages(before[root], lo, hi)]
  }

  lemma GrownNone(spaces: map<nat, UserSpace>, root: nat, lo: nat, writable: bool)
    requires root in spaces
    ensures Grown(spaces, spaces, root, lo, lo, writable) && Shrunk(spaces, spaces, root, lo, lo)
  {
  }

  lemma GrownOneMore(before: map<nat, UserSpace>, mid: map<nat, UserSpace>, after: map<nat, UserSpace>,
                     root: nat, lo: nat, hi: nat, writable: bool)
    requires Grown(before, mid, root, lo, hi, writable)
    requires hi !in mid[root] && after == mid[root := WithPage(mid[root], hi, Some(ZeroPage(writable)))]
    ensures Grown(before, after, root, lo, hi + 1, writable)
  {
  }

  lemma GrownElsewhere(before: map<nat, UserSpace>, mid: map<nat, UserSpace>, root: nat, lo: nat, hi: nat,
          writable: bool, p: nat)
    requires Grown(before, mid, root, lo, hi, writable) && !(lo <= p < hi)
    ensures p in mid[root] <==> p in before[root]
  {
  }

  lemma ShrunkOneMore(before: map<nat, UserSpace>, mid: map<nat, UserSpace>, after: map<nat, UserSpace>,
                      root: nat, lo: nat, hi: nat)
    requires Shrunk(before, mid, root, lo, hi)
    requires hi in before[root] && after == mid[root := WithPage(mid[root], hi, None)]
    ensures Shrunk(before, after, root, lo, hi + 1)
  {
  }

  lemma ShrunkElsewhere(before: map<nat, UserSpace>, mid: map<nat, UserSpace>, root: nat, lo: nat, hi: nat, p: nat)
    requires Shrunk(before, mid, root, lo, hi) && !(lo <= p < hi)
    ensures p in mid[root] <==> p in before[root]
  {
  }

  /** Mapping new pages and then unmapping them restores every address space. */
  lemma GrownThenShrunk(before: map<nat, UserSpace>, mid: map<nat, UserSpace>, after: map<nat, UserSpace>,
                        root: nat, lo: nat, hi: nat, writable: bool)
    requires Grown(before, mid, root, lo, hi, writable) && Shrunk(mid, after, root, lo, hi)
    ensures after == before
  {
    assert WithoutPages(ZeroPages(before[root], lo, hi, writable), lo, hi) == before[root];
  }
}

/** The vocabulary in which the outcome of a step is stated: what a caller sees, byte by
    byte and number by number. */
module CallResults {
  import opened Base
  import opened UserSpaces
  import opened Kernel
  import opened Invariants
  import opened Preservation

  // The numbers a failed call returns: minus errno, as an unsigned word.
  const ENOENT: nat := U64 - 2
  const EBADF: nat := U64 - 9
  const ECHILD: nat := U64 - 10
  const ENOMEM: nat := U64 - 12
  const EFAULT: nat := U64 - 14
  const EINVAL: nat := U64 - 22
  const ENFILE: nat := U64 - 23
  const EMFILE: nat := U64 - 24
  const ENAMETOOLONG: nat := U64 - 36
  const ENOSYS: nat := U64 - 38

  /** `k`, except that the running task has `v` in rax. */
  function Resumed(k: Kernel, v: nat): Kernel
    requires HasCurrent(k)
  {
    var i := k.current.value;
    k.(tasks := k.tasks[i := k.tasks[i].(rax := v)])
  }

  predicate MayRead(s: UserSpace, x: nat) {
    USER_BASE <= x < USER_STACK_TOP && x / PAGE_SIZE in s
  }

  predicate MayWrite(s: UserSpace, x: nat) {
    MayRead(s, x) && s[x / PAGE_SIZE].writable
  }

  /** A call may read the `n` bytes at `a` for a process that sees `s`. */
  predicate Readable(s: UserSpace, a: nat, n: nat) {
    forall x | a <= x < a + n :: MayRead(s, x)
  }

  /** It may write them. */
  predicate Writable(s: UserSpace, a: nat, n: nat) {
    forall x | a <= x < a + n :: MayWrite(s, x)
  }

  function ByteAt(s: UserSpace, x: nat): byte
    requires x / PAGE_SIZE in s
  {
    s[x / PAGE_SIZE].bytes[x % PAGE_SIZE]
  }

  /** A call that reads at `a` finds exactly `bytes`. */
  ghost predicate Finds(s: UserSpace, a: nat, bytes: seq<byte>) {
    forall j | 0 <= j < |bytes| :: MayRead(s, a + j) && bytes[j] == ByteAt(s, a + j)
  }

  /** `t` is `s` with `bytes` stored at `a`, and nothing else changed. */
  ghost predicate StoredAt(s: UserSpace, t: UserSpace, a: nat, bytes: seq<byte>) {
    && t.Keys == s.Keys && (forall p | p in s :: t[p].writable == s[p].writable)
    && (forall x: nat | x / PAGE_SIZE in s ::
          ByteAt(t, x) == if a <= x < a + |bytes| then bytes[x - a] else ByteAt(s, x))
  }

  /** `t` is `s` after a store of `bytes` at `a` that stopped at the first byte that may
      not be written. */
  ghost predicate StoredUpTo(s: UserSpace, t: UserSpace, a: nat, bytes: seq<byte>) {
    && t.Keys == s.Keys && (forall p | p in s :: t[p].writable == s[p].writable)
    && (forall x: nat | x / PAGE_SIZE in s ::
          ByteAt(t, x) ==
            if a <= x < a + |bytes| && Writable(s, a, x - a + 1) then bytes[x - a] else ByteAt(s, x))
  }

  lemma ReadableIsOk(s: UserSpace, a: nat, n: nat)
    ensures RangeOk(s, a, n, Read) <==> Readable(s, a, n)
  {
    forall x: nat ensures ByteOk(s, x, Read) <==> MayRead(s, x) {
    }
  }

  lemma WritableIsOk(s: UserSpace, a: nat, n: nat)
    ensures RangeOk(s, a, n, Write) <==> Writable(s, a, n)
  {
    forall x: nat ensures ByteOk(s, x, Write) <==> MayWrite(s, x) {
    }
  }

  /** A checked copy to user memory: all of it, or up to the first byte refused. */
  lemma CopyOutStores(s: UserSpace, a: nat, bytes: seq<byte>)
    ensures
      var (t, error) := CopyOut(s, a, bytes, Write);
      && (error.None? <==> Writable(s, a, |bytes|))
      && (error.None? ==> StoredAt(s, t, a, bytes))
      && StoredUpTo(s, t, a, bytes)
  {
    hide CopyOut, RangeOk, Writable;
    CopyOutExact(s, a, bytes, Write);
    WritableIsOk(s, a, |bytes|);
    var t := CopyOut(s, a, bytes, Write).0;
    forall x: nat | x / PAGE_SIZE in s
      ensures ByteAt(t, x) ==
                if a <= x < a + |bytes| && Writable(s, a, x - a + 1) then bytes[x - a] else ByteAt(s, x)
    {
      assert IsMapped(s, x) && Peek(t, x) == ByteAt(t, x) && Peek(s, x) == ByteAt(s, x);
      if a <= x < a + |bytes| {
        CopyOutPrefix(s, a, bytes, Write, x);
        WritableIsOk(s, a, x - a + 1);
      }
    }
    if CopyOut(s, a, bytes, Write).1.None? {
      forall x: nat | x / PAGE_SIZE in s
        ensures ByteAt(t, x) == if a <= x < a + |bytes| then bytes[x - a] else ByteAt(s, x)
      {
        assert IsMapped(s, x) && Peek(t, x) == ByteAt(t, x) && Peek(s, x) == ByteAt(s, x);
      }
    }
  }

  /** A checked copy from user memory. */
  lemma ReadRangeFinds(s: UserSpace, a: nat, n: nat)
    requires Readable(s, a, n)
    ensures RangeOk(s, a, n, Read) && Finds(s, a, ReadRange(s, a, n))
    ensures CopyIn(s, a, n) == (ReadRange(s, a, n), None)
  {
    ReadableIsOk(s, a, n);
    CopyInExact(s, a, n);
    var read := ReadRange(s, a, n);
    hide CopyIn, ReadRange;
    forall j | 0 <= j < n ensures MayRead(s, a + j) && read[j] == ByteAt(s, a + j) {
      assert read[j] == Peek(s, a + j);
    }
  }

  /** What is found is readable, and nothing else of that length is. */
  lemma FindsIsReadable(s: UserSpace, a: nat, bytes: seq<byte>)
    requires Finds(s, a, bytes)
    ensures Readable(s, a, |bytes|)
  {
    forall x | a <= x < a + |bytes| ensures MayRead(s, x) {
      var b := bytes[x - a];
      assert MayRead(s, a + (x - a));
    }
  }

  lemma FindsUnique(s: UserSpace, a: nat, b: seq<byte>, c: seq<byte>)
    requires Finds(s, a, b) && Finds(s, a, c) && |b| == |c|
    ensures b == c
  {
  }

  /** The running user task's process and address space. */
  lemma CallerSpace(k: Kernel)
    requires Inv(k) && CurrentPid(k).Some?
    ensures
      var pid := CurrentPid(k).value;
      && pid in k.procs && k.procs[pid].root in k.spaces
      && SpaceOf(k, pid) == k.spaces[k.procs[pid].root]
  {
    hide Inv;
    LiveProcess(k);
  }

  /** Every error number, as a caller sees it. */
  lemma ErrorNumbers(e: SysError)
    ensures RawReturn(e) ==
              match e
              case NoEntry => ENOENT
              case BadDescriptor => EBADF
              case Child => ECHILD
              case NoMemory => ENOMEM
              case Fault => EFAULT
              case Invalid => EINVAL
              case SystemFileLimit => ENFILE
              case ProcessFileLimit => EMFILE
              case NameTooLong => ENAMETOOLONG
              case NoSys => ENOSYS
  {
  }
}

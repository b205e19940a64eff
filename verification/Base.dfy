/** Shared vocabulary: optional values, results, machine-word bounds, page
    arithmetic and the fixed virtual layout of a user process. */
module Base {

  datatype Option<+T> = None | Some(value: T)

  datatype Result<+T, +E> = Ok(value: T) | Err(error: E) {
    predicate IsFailure() {
      Err?
    }

    function PropagateFailure<U>(): Result<U, E>
      requires Err?
    {
      Err(error)
    }

    function Extract(): T
      requires Ok?
    {
      value
    }
  }

  type byte = b: int | 0 <= b < 256

  // Machine words are natural numbers with explicit bounds.
  const U16: nat := 0x1_0000
  const U32: nat := 0x1_0000_0000
  const U64: nat := 0x1_0000_0000_0000_0000

  const PAGE_SIZE: nat := 4096

  // The layout of user.rs. Slot 1 of the level-4 table starts at 1 << 39.
  const USER_BASE: nat := 0x80_0000_0000
  const USER_CODE_BASE: nat := USER_BASE + 0x40_0000
  const USER_DATA_BASE: nat := USER_BASE + 0x60_0000
  const USER_TEST_PAGE_BASE: nat := USER_BASE + 0x70_0000
  const USER_STACK_TOP: nat := USER_BASE + 0x80_0000
  const USER_STACK_PAGES: nat := 2
  const USER_ELF_LOAD_START: nat := USER_CODE_BASE
  const USER_ELF_LOAD_END: nat := USER_TEST_PAGE_BASE
  const USER_HEAP_LIMIT: nat := USER_TEST_PAGE_BASE
  const STACK_BOTTOM: nat := USER_STACK_TOP - USER_STACK_PAGES * PAGE_SIZE

  function Zeros(n: nat): seq<byte> {
    seq(n, _ => 0)
  }

  /** `u64::checked_add` */
  function CheckedAdd(a: nat, b: nat): (r: Option<nat>)
  {
    if a + b < U64 then Some(a + b) else None
  }

  /** `value & !(PAGE_SIZE - 1)` */
  function AlignDown(v: nat): (r: nat)
    ensures r % PAGE_SIZE == 0 && r <= v < r + PAGE_SIZE
  {
    v - v % PAGE_SIZE
  }

  /** `value.checked_add(PAGE_SIZE - 1)? & !(PAGE_SIZE - 1)` */
  function AlignUp(v: nat): (r: Option<nat>)
    ensures r.None? <==> v + PAGE_SIZE > U64
    ensures r.Some? ==> r.value % PAGE_SIZE == 0 && v <= r.value < v + PAGE_SIZE
  {
    match CheckedAdd(v, PAGE_SIZE - 1)
    case None => None
    case Some(s) => Some(AlignDown(s))
  }

  lemma AlignUpMonotone(a: nat, b: nat)
    requires a <= b && AlignUp(b).Some?
    ensures AlignUp(a).Some? && AlignUp(a).value <= AlignUp(b).value
  {
  }

  predicate Aligned(v: nat) {
    v % PAGE_SIZE == 0
  }

  /** Addresses that `VirtAddr::new` accepts; on any other it panics. */
  predicate Canonical(a: nat) {
    a < 0x8000_0000_0000 || U64 - 0x8000_0000_0000 <= a < U64
  }

  function Min(a: nat, b: nat): nat {
    if a <= b then a else b
  }
}

/** Machine words, bus addresses and byte ranges. */
module Words {

  const TWO_TO_32: nat := 0x1_0000_0000
  const TWO_TO_64: nat := 0x1_0000_0000_0000_0000
  const PAGE_SIZE: nat := 4096

  // errors, returned as negative numbers
  const EIO: int := 5
  const ENOMEM: int := 12
  const EFAULT: int := 14
  const EINVAL: int := 22
  const ERESTARTSYS: int := 512

  type U32 = x: int | 0 <= x < 0x1_0000_0000
  type U64 = x: int | 0 <= x < 0x1_0000_0000_0000_0000
  type byte = x: int | 0 <= x < 256

  datatype Option<T> = None | Some(value: T)

  /** The Linux error numbers. */
  lemma ErrorNumbers()
    ensures EIO == 5 && ENOMEM == 12 && EFAULT == 14 && EINVAL == 22 && ERESTARTSYS == 512
  {
  }

  function Least(a: nat, b: nat): nat {
    if a < b then a else b
  }

  /** The page of an address, the place within it and the first address of a
      page. PAGE_SIZE is written out here: the verifier does not multiply by names. */
  function Page(a: nat): nat {
    a / 4096
  }

  function Offset(a: nat): (r: nat)
    ensures r < PAGE_SIZE
  {
    a % 4096
  }

  function PageStart(page: nat): nat {
    page * 4096
  }

  lemma PageAndOffset(a: nat)
    ensures PageStart(Page(a)) + Offset(a) == a
  {
  }

  /** Unsigned 32-bit subtraction, which wraps around. */
  function Sub32(a: U32, b: U32): (r: U32)
    ensures r == if a >= b then a - b else a - b + 0x1_0000_0000
  {
    (a - b) % 0x1_0000_0000
  }

  /** What a C `int` holds after an assignment from an unsigned long. */
  function ToInt32(x: nat): int {
    var low := x % 0x1_0000_0000;
    if low < 0x8000_0000 then low else low - TWO_TO_32
  }

  lemma ToInt32Means(x: nat)
    ensures -0x8000_0000 <= ToInt32(x) < 0x8000_0000 && (x - ToInt32(x)) % 0x1_0000_0000 == 0
  {
    var low := x % 0x1_0000_0000;
    assert (x - low) % 0x1_0000_0000 == 0;
  }

  /** The two halves of a 64-bit address, as a descriptor stores them. */
  function Low(a: nat): U32 {
    a % 0x1_0000_0000
  }

  function High(a: nat): U32 {
    a / 0x1_0000_0000 % 0x1_0000_0000
  }

  function Join(low: U32, high: U32): nat {
    high * 0x1_0000_0000 + low
  }

  lemma JoinHalves(a: nat)
    requires a < TWO_TO_64
    ensures Join(Low(a), High(a)) == a
  {
  }

  lemma HalvesAdd(a: nat)
    requires a < TWO_TO_64
    ensures High(a) * 0x1_0000_0000 + Low(a) == a
  {
  }

  lemma JoinHalvesUnique(low: U32, high: U32)
    ensures low == Low(Join(low, high)) && high == High(Join(low, high))
    ensures Join(low, high) < TWO_TO_64
  {
  }

  /** The `n` numbers from `a` on. */
  function Span(a: nat, n: nat): (s: seq<nat>)
    ensures |s| == n && forall k :: 0 <= k < n ==> s[k] == a + k
  {
    seq<nat>(n, k requires 0 <= k < n => a + k)
  }

  lemma SpanConcat(a: nat, m: nat, n: nat)
    ensures Span(a, m) + Span(a + m, n) == Span(a, m + n)
  {
  }
}

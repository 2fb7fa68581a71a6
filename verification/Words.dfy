/** The 64-bit unsigned arithmetic of uintptr_t and size_t, and the page and range macros. */
module Words {

  const WORD: int := 0x1_0000_0000_0000_0000

  const PAGESZ: int := 4096

  type u64 = x: int | 0 <= x < WORD

  function Add(a: u64, b: u64): (r: u64)
    ensures r == a + b || r == a + b - 0x1_0000_0000_0000_0000
  {
    (a + b) % WORD
  }

  function Sub(a: u64, b: u64): (r: u64)
    ensures r == a - b || r == a - b + 0x1_0000_0000_0000_0000
  {
    (a - b) % WORD
  }

  /** Clearing the low twelve bits of an address. */
  function PageDown(a: u64): (r: u64)
    ensures r % 4096 == 0 && r <= a < r + 4096
  {
    a - a % PAGESZ
  }

  /** The least multiple of the page size that is not below a, or zero if that does not fit. */
  function PageUp(a: u64): (r: u64)
    ensures r % 4096 == 0
    ensures if a <= 0x1_0000_0000_0000_0000 - 4096 then a <= r < a + 4096 else r == 0
  {
    PageDown(Add(a, PAGESZ - 1))
  }

  predicate Contains(v: u64, lo: u64, hi: u64) {
    lo <= v < hi
  }
}

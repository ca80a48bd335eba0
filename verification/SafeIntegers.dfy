/** JavaScript's safe integers: up to this bound no other integer rounds to the same double. */
module SafeIntegers {
  const MAX_SAFE_INTEGER := 0x1F_FFFF_FFFF_FFFF

  predicate IsSafeCount(n: int) {
    0 <= n <= MAX_SAFE_INTEGER
  }
}

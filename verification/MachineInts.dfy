/** Fixed-width integers of the program and its saturating operations. */
module MachineInts {

  const I64_MAX: int := 0x7FFF_FFFF_FFFF_FFFF
  const I64_MIN: int := -0x8000_0000_0000_0000
  const U64_MAX: int := 0xFFFF_FFFF_FFFF_FFFF
  const U32_MAX: int := 0xFFFF_FFFF

  type i64 = x: int | I64_MIN <= x <= I64_MAX
  type u64 = x: int | 0 <= x <= U64_MAX
  type u32 = x: int | 0 <= x <= U32_MAX
  type byte = x: int | 0 <= x < 256

  function Min(a: int, b: int): (r: int)
    ensures r <= a && r <= b && (r == a || r == b)
  {
    if a <= b then a else b
  }

  function Max(a: int, b: int): (r: int)
    ensures a <= r && b <= r && (r == a || r == b)
  {
    if a <= b then b else a
  }

  /** `i64::try_from(n).unwrap_or(i64::MAX)` */
  function ClampToI64(n: nat): (r: i64)
    ensures if n <= I64_MAX then r == n else r == I64_MAX
  {
    Min(n, I64_MAX)
  }

  /** `a.saturating_add(b)` on i64, for a non-negative `b` */
  function SatAddI64(a: i64, b: nat): (r: i64)
    ensures if a + b <= I64_MAX then r == a + b else r == I64_MAX
  {
    Min(a + b, I64_MAX)
  }

  /** `a.saturating_add(b)` on u64 */
  function SatAddU64(a: nat, b: nat): (r: u64)
    ensures if a + b <= U64_MAX then r == a + b else r == U64_MAX
  {
    Min(a + b, U64_MAX)
  }

  /** `a.saturating_sub(b)` on u64 */
  function SatSubU64(a: nat, b: nat): (r: nat)
    ensures if b <= a then r + b == a else r == 0
  {
    if a <= b then 0 else a - b
  }
}

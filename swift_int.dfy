/** Bounds of Swift's 64-bit `Int`, for the members that model the source's
    integer width exactly. */
module SwiftInt {
  const INT_MAX: int := 0x7FFF_FFFF_FFFF_FFFF
  const INT_MIN: int := -0x8000_0000_0000_0000

  /** A value of Swift's `Int` on a 64-bit platform. */
  type Int64 = x: int | INT_MIN <= x <= INT_MAX
}

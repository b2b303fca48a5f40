/** Machine integers as unbounded ones: their limits, and what happens at them. */
module Machine {
  const I32_MAX: nat := 0x7FFF_FFFF
  const U32_SPAN: nat := 0x1_0000_0000
  const U64_SPAN: nat := 0x1_0000_0000_0000_0000
  const U64_MAX: nat := 0xFFFF_FFFF_FFFF_FFFF
  const U128_MAX: nat := 0xFFFF_FFFF_FFFF_FFFF_FFFF_FFFF_FFFF_FFFF

  function Min(a: nat, b: nat): nat { if a < b then a else b }
  function Max(a: nat, b: nat): nat { if a < b then b else a }

  /** A saturating operation on u64 or u128 clamps the exact result. */
  function Sat64(n: nat): nat { Min(U64_MAX, n) }
  function Sat128(n: nat): nat { Min(U128_MAX, n) }

  /** Subtraction that stops at zero. */
  function Monus(x: nat, y: nat): nat { if x < y then 0 else x - y }

  lemma WholeTurns(x: nat, turns: nat)
    ensures (x + U32_SPAN * turns) % U32_SPAN == x % U32_SPAN
  {
  }

  /** Adding to a u32 that has wrapped around is adding to the exact number. */
  lemma AddWrapped(a: nat, b: nat)
    ensures (a % U32_SPAN + b) % U32_SPAN == (a + b) % U32_SPAN
    ensures (a % U32_SPAN + b % U32_SPAN) % U32_SPAN == (a + b) % U32_SPAN
    ensures a + b < U32_SPAN ==> a % U32_SPAN == a && b % U32_SPAN == b
  {
    WholeTurns(a % U32_SPAN + b, a / U32_SPAN);
    WholeTurns(a % U32_SPAN + b % U32_SPAN, b / U32_SPAN);
  }

  /** How a program was built: plain arithmetic panics on overflow, or wraps around. */
  datatype Build = Checked | Wrapping
}

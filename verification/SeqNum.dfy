/** Fixed-width integers and TCP sequence-number arithmetic (the TCP_SEQ_* macros).

    A sequence number is a 32-bit value; `Wire` is the number that carries the absolute
    stream position `at` of a connection whose position 0 is numbered `isn`.  The lemmas say
    when the 32-bit comparisons decide the order of the positions. */
module SeqNum {

  type byte = x: int | 0 <= x < 256
  type u16 = x: int | 0 <= x < 0x1_0000
  type u32 = x: int | 0 <= x < 0x1_0000_0000

  /** (u32_t)(a + n) */
  function Add(a: u32, n: int): u32
    requires -0x1_0000_0000 < n < 0x1_0000_0000
  {
    var s := a + n;
    if s < 0 then s + 0x1_0000_0000 else if s < 0x1_0000_0000 then s else s - 0x1_0000_0000
  }

  /** (s32_t)((u32_t)a - (u32_t)b) */
  function Diff(a: u32, b: u32): int {
    var d := a - b;
    if d < -0x8000_0000 then d + 0x1_0000_0000
    else if d < 0x8000_0000 then d
    else d - 0x1_0000_0000
  }

  predicate Lt(a: u32, b: u32) { Diff(a, b) < 0 }
  predicate Leq(a: u32, b: u32) { Diff(a, b) <= 0 }
  predicate Gt(a: u32, b: u32) { Diff(a, b) > 0 }
  predicate Geq(a: u32, b: u32) { Diff(a, b) >= 0 }

  /** TCP_SEQ_BETWEEN: b <= a <= c */
  predicate Between(a: u32, b: u32, c: u32) { Geq(a, b) && Leq(a, c) }

  /** The sequence number of stream position `at`. */
  function Wire(isn: u32, at: int): u32 {
    (isn + at) % 0x1_0000_0000
  }

  lemma {:induction false} WireAdd(isn: u32, at: int, n: int)
    requires -0x1_0000_0000 < n < 0x1_0000_0000
    ensures Add(Wire(isn, at), n) == Wire(isn, at + n)
  {
  }

  /** Two positions less than 2^31 apart: the signed difference of their numbers is exact. */
  lemma {:induction false} WireDiff(isn: u32, a: int, b: int)
    requires -0x8000_0000 <= a - b < 0x8000_0000
    ensures Diff(Wire(isn, a), Wire(isn, b)) == a - b
  {
  }

  /** Positions that far apart are told apart by their numbers. */
  lemma {:induction false} WireEq(isn: u32, a: int, b: int)
    requires -0x8000_0000 <= a - b < 0x8000_0000
    ensures Wire(isn, a) == Wire(isn, b) <==> a == b
  {
    WireDiff(isn, a, b);
  }

  /** The macros decide the order of positions less than 2^31 apart, each moved by an offset. */
  lemma {:induction false} WireOrder(isn: u32, a: int, m: int, b: int, n: int)
    requires -0x1_0000_0000 < m < 0x1_0000_0000 && -0x1_0000_0000 < n < 0x1_0000_0000
    requires -0x8000_0000 < (a + m) - (b + n) < 0x8000_0000
    ensures var x, y := Add(Wire(isn, a), m), Add(Wire(isn, b), n);
            && (Lt(x, y) <==> a + m < b + n) && (Leq(x, y) <==> a + m <= b + n)
            && (Gt(x, y) <==> a + m > b + n) && (Geq(x, y) <==> a + m >= b + n)
            && (x == y <==> a + m == b + n)
  {
    WireAdd(isn, a, m);
    WireAdd(isn, b, n);
    WireDiff(isn, a + m, b + n);
  }

  /** (u32_t)(a - b) */
  function Sub(a: u32, b: u32): u32 {
    if a >= b then a - b else a - b + 0x1_0000_0000
  }

  lemma {:induction false} WireSub(isn: u32, a: int, b: int)
    requires 0 <= a - b < 0x1_0000_0000
    ensures Sub(Wire(isn, a), Wire(isn, b)) == a - b
  {
  }

  /** (u16_t)(a - b) */
  function Sub16(a: u32, b: u32): u16 {
    (a - b) % 0x1_0000
  }

  lemma {:induction false} ModShift(x: int, k: int)
    ensures (x - 0x1_0000 * k) % 0x1_0000 == x % 0x1_0000
  {
    assert x - 0x1_0000 * k == 0x1_0000 * (x / 0x1_0000 - k) + x % 0x1_0000;
  }

  lemma {:induction false} WireIs(isn: u32, at: int)
    ensures Wire(isn, at) == isn + at - 0x1_0000_0000 * ((isn + at) / 0x1_0000_0000)
  {
  }

  lemma {:induction false} WireSub16Mod(isn: u32, a: int, b: int)
    ensures Sub16(Wire(isn, a), Wire(isn, b)) == (a - b) % 0x1_0000
  {
    hide Wire;
    WireIs(isn, a);
    WireIs(isn, b);
    var k := (isn + a) / 0x1_0000_0000 - (isn + b) / 0x1_0000_0000;
    assert Wire(isn, a) - Wire(isn, b) == (a - b) - 0x1_0000 * (0x1_0000 * k);
    ModShift(a - b, 0x1_0000 * k);
  }

  lemma {:induction false} WireSub16(isn: u32, a: int, b: int)
    requires 0 <= a - b < 0x1_0000
    ensures Sub16(Wire(isn, a), Wire(isn, b)) == a - b
  {
    hide Wire, Sub16;
    WireSub16Mod(isn, a, b);
  }

  lemma {:induction false} WrapTwice(x: int, j: int, k: int)
    ensures ((x - j) % 0x1_0000 - k) % 0x1_0000 == (x - (j + k)) % 0x1_0000
  {
  }

  lemma {:induction false} AddZero(a: u32)
    ensures Add(a, 0) == a
  {
  }
}

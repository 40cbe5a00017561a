/** The Internet checksum of RFC 1071: three C routines and a Thumb-2 routine for one function.

    Words are read as the little-endian target reads them.  `Sum` adds the 16-bit words of the
    data; `Ones` is its one's complement sum, in which 0 stands for all-zero data only. */
module Checksum {
  import opened SeqNum

  // ---------------------------------------------------------------- sums modulo 0xFFFF

  /** Two digits to the base 256. */
  function Pair(lo: int, hi: int): int { lo + 256 * hi }

  function Sum(bs: seq<byte>): nat {
    if bs == [] then 0
    else if |bs| == 1 then bs[0]
    else Pair(bs[0], bs[1]) + Sum(bs[2..])
  }

  /** 16 bits, with end-around carry. */
  function Ones(n: nat): u16 {
    if n == 0 then 0 else 1 + (n - 1) % 0xFFFF
  }

  function Times(k: int): int { 0xFFFF * k }

  /** `a` and `b` have the same one's complement sum: congruent, and zero together. */
  ghost predicate Like(a: int, b: int) {
    0 <= a && 0 <= b && (a == 0 <==> b == 0) && exists k :: a == b + Times(k)
  }

  lemma {:induction false} LikeBy(a: int, b: int, k: int)
    requires 0 <= a && 0 <= b && (a == 0 <==> b == 0) && a == b + 0xFFFF * k
    ensures Like(a, b) && Like(b, a)
  {
    assert a == b + Times(k) && b == a + Times(-k);
  }

  lemma {:induction false} LikeTrans(a: int, b: int, c: int)
    requires Like(a, b) && Like(b, c)
    ensures Like(a, c)
  {
    var k :| a == b + Times(k);
    var l :| b == c + Times(l);
    LikeBy(a, c, k + l);
  }

  lemma {:induction false} LikeAdd(a: int, b: int, c: int, d: int)
    requires Like(a, b) && Like(c, d)
    ensures Like(a + c, b + d)
  {
    var k :| a == b + Times(k);
    var l :| c == d + Times(l);
    LikeBy(a + c, b + d, k + l);
  }

  lemma {:induction false} LikeScale(a: int, b: int)
    requires Like(a, b)
    ensures Like(256 * a, 256 * b)
  {
    var k :| a == b + Times(k);
    LikeBy(256 * a, 256 * b, 256 * k);
  }

  lemma {:induction false} LikeSelf(a: int)
    requires 0 <= a
    ensures Like(a, a)
  {
    LikeBy(a, a, 0);
  }

  /** Multiplying by 256 twice changes nothing. */
  lemma {:induction false} LikeTwice(a: int)
    requires 0 <= a
    ensures Like(256 * (256 * a), a)
  {
    LikeBy(256 * (256 * a), a, a);
  }

  /** A 16-bit value like `n` is the one's complement sum of `n`. */
  lemma {:induction false} OnesIs(r: int, n: int)
    requires Like(r, n) && r <= 0xFFFF
    ensures r == Ones(n)
  {
    var k :| r == n + Times(k);
    if n > 0 {
      assert n - 1 == (r - 1) + 0xFFFF * (-k);
      Residue(n - 1, r - 1, -k);
    }
  }

  lemma {:induction false} Residue(n: int, r: int, k: int)
    requires 0 <= r < 0xFFFF && n == r + 0xFFFF * k
    ensures n % 0xFFFF == r
  {
  }

  lemma {:induction false} OnesLike(n: nat)
    ensures Like(Ones(n), n)
  {
    if n > 0 {
      LikeBy(Ones(n), n, -((n - 1) / 0xFFFF));
    } else {
      LikeSelf(0);
    }
  }

  // ---------------------------------------------------------------- the operations

  /** FOLD_U32T */
  function Fold(u: u32): u32 {
    u / 0x1_0000 + u % 0x1_0000
  }

  lemma {:induction false} FoldLike(u: u32)
    ensures Like(Fold(u), u) && Fold(u) <= 0x1_FFFE && (u <= 0x1_FFFE ==> Fold(u) <= 0xFFFF)
    ensures u <= 0xFFFF ==> Fold(u) == u
  {
    LikeBy(Fold(u), u, -(u / 0x1_0000));
  }

  /** SWAP_BYTES_IN_WORD, lwip_htons and REV16 */
  function Swap(w: u16): u16 {
    w % 256 * 256 + w / 256
  }

  lemma {:induction false} SwapLike(w: u16)
    ensures Like(Swap(w), 256 * w)
  {
    LikeBy(Swap(w), 256 * w, -(w / 256));
  }

  /** 32-bit addition with end-around carry. */
  lemma {:induction false} CarryLike(a: u32, b: u32, s: int)
    requires s == if a + b < 0x1_0000_0000 then a + b else a + b - 0x1_0000_0000 + 1
    ensures Like(s, a + b) && 0 <= s < 0x1_0000_0000
  {
    LikeBy(s, a + b, if a + b < 0x1_0000_0000 then 0 else -0x1_0001);
  }

  /** Addresses at which the processor loads a halfword or a word. */
  predicate HalfAligned(a: nat) { a % 2 == 0 }
  predicate WordAligned(a: nat) { a % 4 == 0 }

  lemma {:induction false} AlignHalf(a: nat)
    ensures HalfAligned(a + 2) == HalfAligned(a) && HalfAligned(a + 1) == !HalfAligned(a)
  {
  }

  lemma {:induction false} AlignWord(a: nat)
    ensures WordAligned(a + 4) == WordAligned(a)
  {
  }

  lemma {:induction false} Halve(a: nat, k: nat, r: nat)
    requires a == k + k + r && r < 2
    ensures HalfAligned(a) <==> r == 0
  {
  }

  lemma {:induction false} HalfOf(q: nat, r: nat)
    requires r < 4
    ensures HalfAligned(4 * q + r) <==> r == 0 || r == 2
  {
    hide HalfAligned;
    Halve(4 * q + r, if r < 2 then 2 * q else 2 * q + 1, if r < 2 then r else r - 2);
  }

  lemma {:induction false} WordOf(q: nat, r: nat)
    requires r < 4
    ensures WordAligned(4 * q + r) <==> r == 0
  {
  }

  lemma {:induction false} AlignBoth(a: nat)
    ensures WordAligned(a) ==> HalfAligned(a)
    ensures HalfAligned(a) && !WordAligned(a) ==> WordAligned(a + 2)
  {
    hide HalfAligned, WordAligned;
    var q, r := a / 4, a % 4;
    HalfOf(q, r);
    WordOf(q, r);
    WordOf(q + 1, 0);
  }

  lemma {:induction false} Align(a: nat)
    ensures HalfAligned(a + 2) == HalfAligned(a) && WordAligned(a + 4) == WordAligned(a)
    ensures HalfAligned(a + 1) == !HalfAligned(a)
    ensures WordAligned(a) ==> HalfAligned(a)
    ensures HalfAligned(a) && !WordAligned(a) ==> WordAligned(a + 2)
  {
    hide HalfAligned, WordAligned;
    AlignHalf(a);
    AlignWord(a);
    AlignBoth(a);
  }

  /** *ps: the halfword at an even address. */
  function Half(bs: seq<byte>, i: nat): u16
    requires i + 2 <= |bs|
  {
    Pair(bs[i], bs[i + 1])
  }

  /** *pl: the word at an address that is a multiple of 4. */
  function Word(bs: seq<byte>, i: nat): u32
    requires i + 4 <= |bs|
  {
    Pair(bs[i], bs[i + 1]) + 0x1_0000 * Pair(bs[i + 2], bs[i + 3])
  }

  lemma {:induction false} HalfSum(bs: seq<byte>, i: nat)
    requires i + 2 <= |bs|
    ensures Sum(bs[i..]) == Half(bs, i) + Sum(bs[i + 2..])
  {
    assert bs[i..][2..] == bs[i + 2..];
  }

  lemma {:induction false} WordSum(bs: seq<byte>, i: nat)
    requires i + 4 <= |bs|
    ensures Sum(bs[i..]) == Half(bs, i) + Half(bs, i + 2) + Sum(bs[i + 4..])
    ensures Like(Word(bs, i), Half(bs, i) + Half(bs, i + 2))
  {
    HalfSum(bs, i);
    HalfSum(bs, i + 2);
    LikeBy(Word(bs, i), Half(bs, i) + Half(bs, i + 2), Half(bs, i + 2));
  }

  lemma {:induction false} LastSum(bs: seq<byte>, i: nat)
    requires i <= |bs| <= i + 1
    ensures Sum(bs[i..]) == if i < |bs| then bs[i] else 0
  {
  }

  /** Two parts, the first of even length. */
  lemma {:induction false} SumEven(a: seq<byte>, b: seq<byte>)
    requires |a| % 2 == 0
    ensures Sum(a + b) == Sum(a) + Sum(b)
    decreases |a|
  {
    if a == [] {
      assert a + b == b;
    } else {
      assert (a + b)[2..] == a[2..] + b;
      SumEven(a[2..], b);
    }
  }

  /** Two parts, the first of odd length: the bytes of the second come to the other half of the
      words. */
  lemma {:induction false} SumOdd(a: seq<byte>, b: seq<byte>)
    requires |a| % 2 == 1
    ensures Like(Sum(a + b), Sum(a) + 256 * Sum(b))
    decreases |a|
  {
    if |a| == 1 {
      SumShift(a[0], b);
      assert a == [a[0]];
    } else {
      var w := Pair(a[0], a[1]);
      assert (a + b)[2..] == a[2..] + b;
      assert Sum(a + b) == w + Sum(a[2..] + b) && Sum(a) == w + Sum(a[2..]);
      SumOdd(a[2..], b);
      LikeSelf(w);
      LikeAdd(w, w, Sum(a[2..] + b), Sum(a[2..]) + 256 * Sum(b));
    }
  }

  /** One byte in front. */
  lemma {:induction false} SumShift(x: byte, b: seq<byte>)
    ensures Like(Sum([x] + b), x + 256 * Sum(b))
    decreases |b|
  {
    var s := [x] + b;
    if b == [] {
      assert s == [x];
      LikeSelf(x);
    } else {
      assert s[2..] == b[1..] && b == [b[0]] + b[1..];
      SumShift(b[0], b[1..]);
      var n := Sum(b[1..]);
      LikeScale(Sum(b), b[0] + 256 * n);
      LikeTwice(n);
      var w := Pair(x, b[0]);
      LikeSelf(w);
      LikeAdd(w, w, 256 * (256 * n), n);
      LikeSelf(x);
      LikeAdd(x, x, 256 * Sum(b), 256 * (b[0] + 256 * n));
      LikeTrans(x + 256 * Sum(b), x + 256 * (b[0] + 256 * n), w + n);
      LikeSym(x + 256 * Sum(b), Sum(s));
    }
  }

  lemma {:induction false} LikeSym(a: int, b: int)
    requires Like(a, b)
    ensures Like(b, a)
  {
    var k :| a == b + Times(k);
    LikeBy(b, a, -k);
  }

  // ---------------------------------------------------------------- the four routines

  /** What is in the accumulator and what is left of the data make up the sum `n`. */
  ghost predicate Adds(acc: int, bs: seq<byte>, i: nat, n: int) {
    i <= |bs| && Like(acc + Sum(bs[i..]), n)
  }

  lemma {:induction false} AddsHalf(acc: int, bs: seq<byte>, i: nat, n: int, acc': int)
    requires Adds(acc, bs, i, n) && i + 2 <= |bs| && 0 <= acc && Like(acc', acc + Half(bs, i))
    ensures Adds(acc', bs, i + 2, n)
  {
    var rest := Sum(bs[i + 2..]);
    HalfSum(bs, i);
    LikeSelf(rest);
    LikeAdd(acc', acc + Half(bs, i), rest, rest);
    LikeTrans(acc' + rest, acc + Sum(bs[i..]), n);
  }

  lemma {:induction false} AddsWord(acc: int, bs: seq<byte>, i: nat, n: int, acc': int)
    requires Adds(acc, bs, i, n) && i + 4 <= |bs| && 0 <= acc && Like(acc', acc + Word(bs, i))
    ensures Adds(acc', bs, i + 4, n)
  {
    var rest, h := Sum(bs[i + 4..]), Half(bs, i) + Half(bs, i + 2);
    WordSum(bs, i);
    LikeSelf(acc);
    LikeAdd(acc, acc, Word(bs, i), h);
    LikeTrans(acc', acc + Word(bs, i), acc + h);
    LikeSelf(rest);
    LikeAdd(acc', acc + h, rest, rest);
    LikeTrans(acc' + rest, acc + Sum(bs[i..]), n);
  }

  /** The last byte, if there is one left. */
  lemma {:induction false} AddsLast(acc: int, bs: seq<byte>, i: nat, n: int)
    requires Adds(acc, bs, i, n) && i <= |bs| <= i + 1
    ensures Like(acc + if i < |bs| then bs[i] else 0, n)
  {
    LastSum(bs, i);
  }

  /** Two folds give the one's complement sum, and swapping it that of 256 times as much. */
  lemma {:induction false} FoldsTo(acc: u32, n: int)
    requires Like(acc, n)
    ensures Fold(Fold(acc)) == Ones(n) && Fold(Fold(acc)) <= 0xFFFF
  {
    var f := Fold(acc);
    FoldLike(acc);
    FoldLike(f);
    LikeTrans(Fold(f), f, acc);
    LikeTrans(Fold(f), acc, n);
    OnesIs(Fold(f), n);
  }

  lemma {:induction false} SwapOnes(m: nat, n: nat)
    requires Like(256 * m, n)
    ensures Swap(Ones(m)) == Ones(n)
  {
    OnesLike(m);
    LikeScale(Ones(m), m);
    SwapLike(Ones(m));
    LikeTrans(Swap(Ones(m)), 256 * Ones(m), 256 * m);
    LikeTrans(Swap(Ones(m)), 256 * m, n);
    OnesIs(Swap(Ones(m)), n);
  }

  /** Data that starts at an odd address: its first byte goes to the upper half. */
  lemma {:induction false} OddStart(bs: seq<byte>)
    requires bs != []
    ensures Like(256 * (Pair(0, bs[0]) + Sum(bs[1..])), Sum(bs))
  {
    var n := Sum(bs[1..]);
    assert bs == [bs[0]] + bs[1..];
    SumShift(bs[0], bs[1..]);
    LikeTwice(bs[0]);
    LikeSelf(256 * n);
    LikeAdd(256 * Pair(0, bs[0]), bs[0], 256 * n, 256 * n);
    LikeSym(Sum(bs), bs[0] + 256 * n);
    LikeTrans(256 * (Pair(0, bs[0]) + n), bs[0] + 256 * n, Sum(bs));
  }

  /** The sum that a routine builds up for data at an odd or even address. */
  ghost function Goal(bs: seq<byte>, odd: bool): nat {
    if odd && bs != [] then Pair(0, bs[0]) + Sum(bs[1..]) else Sum(bs)
  }

  lemma {:induction false} Begin(bs: seq<byte>, odd: bool)
    ensures if odd && bs != [] then Adds(Pair(0, bs[0]), bs, 1, Goal(bs, odd)) else Adds(0, bs, 0, Goal(bs, odd))
  {
    assert bs[0..] == bs;
    LikeSelf(Goal(bs, odd));
  }

  /** The end of every routine: two folds, and a swap if the address was odd. */
  lemma {:induction false} Finish(bs: seq<byte>, odd: bool, sum: u32)
    requires Like(sum, Goal(bs, odd))
    ensures Fold(Fold(sum)) <= 0xFFFF
    ensures (if odd then Swap(Fold(Fold(sum))) else Fold(Fold(sum))) == Ones(Sum(bs))
  {
    FoldsTo(sum, Goal(bs, odd));
    if odd {
      if bs == [] { LikeSelf(0); } else { OddStart(bs); }
      SwapOnes(Goal(bs, odd), Sum(bs));
    }
  }

  /** The plain sum, of which the carries are added later. */
  lemma {:induction false} PlainHalf(acc: int, bs: seq<byte>, i: nat, n: int)
    requires Adds(acc, bs, i, n) && i + 2 <= |bs| && 0 <= acc
    ensures Adds(acc + Half(bs, i), bs, i + 2, n)
  {
    LikeSelf(acc + Half(bs, i));
    AddsHalf(acc, bs, i, n, acc + Half(bs, i));
  }

  /** lwip_standard_chksum, version 2, for data at address `addr`. */
  method Chksum2(bs: seq<byte>, addr: nat) returns (r: u16)
    requires |bs| <= 0x2_0000
    ensures r == Ones(Sum(bs))
  {
    hide Sum, Like, Fold, Swap, Ones, Adds, Goal, HalfAligned, WordAligned;
    var odd := !HalfAligned(addr);
    var i, t: int, sum := 0, 0, 0;
    Begin(bs, odd);
    Align(addr);
    if odd && |bs| > 0 {
      t, i := Pair(0, bs[0]), 1;
    }
    ghost var first, n := i, Goal(bs, odd);
    while |bs| - i > 1
      invariant first <= i <= |bs| && 0 <= 2 * sum <= 0xFFFF * (i - first) && Adds(sum + t, bs, i, n)
      invariant HalfAligned(addr + i) || bs == []
    {
      Align(addr + i);
      assert HalfAligned(addr + i);
      PlainHalf(sum + t, bs, i, n);
      sum := sum + Half(bs, i);
      i := i + 2;
    }
    AddsLast(sum + t, bs, i, n);
    if i < |bs| {
      t := t + bs[i];
    }
    sum := sum + t;
    Finish(bs, odd, sum);
    sum := Fold(Fold(sum));
    if odd {
      sum := Swap(sum);
    }
    r := sum;
  }

  /** 32-bit addition that adds the carry back in. */
  method AddCarry(sum: u32, w: u32) returns (s: u32)
    ensures Like(s, sum + w)
  {
    var tmp := Add(sum, w);
    CarryLike(sum, w, if tmp < sum then tmp + 1 else tmp);
    s := if tmp < sum then tmp + 1 else tmp;
  }

  /** lwip_standard_chksum, version 3: two 32-bit words at a time. */
  method Chksum3(bs: seq<byte>, addr: nat) returns (r: u16)
    ensures r == Ones(Sum(bs))
  {
    hide Sum, Like, Fold, Swap, Ones, Adds, Goal, Word, HalfAligned, WordAligned;
    var odd := !HalfAligned(addr);
    var i, t: int, sum := 0, 0, 0;
    Begin(bs, odd);
    Align(addr);
    if odd && |bs| > 0 {
      t, i := Pair(0, bs[0]), 1;
    }
    ghost var n := Goal(bs, odd);
    if !WordAligned(addr + i) && |bs| - i > 1 {
      Align(addr + i);
      assert HalfAligned(addr + i);
      PlainHalf(t, bs, i, n);
      sum, i := Half(bs, i), i + 2;
    }
    while |bs| - i > 7
      invariant i <= |bs| && Adds(sum + t, bs, i, n) && 0 <= sum < 0x1_0000_0000
      invariant WordAligned(addr + i) || |bs| - i <= 1
    {
      Align(addr + i);
      Align(addr + i + 4);
      assert WordAligned(addr + i) && WordAligned(addr + i + 4);
      var tmp := AddCarry(sum, Word(bs, i));
      TailWord(sum, t, bs, i, n, tmp);
      sum := AddCarry(tmp, Word(bs, i + 4));
      TailWord(tmp, t, bs, i + 4, n, sum);
      i := i + 8;
    }
    TailFold(sum, t, bs, i, n);
    sum := Fold(sum);
    Align(addr + i);
    ghost var j := i;
    while |bs| - i > 1
      invariant j <= i <= |bs| && |bs| - j <= 7 && Adds(sum + t, bs, i, n)
      invariant 0 <= sum <= 0x1_FFFE + 0xFFFF * (i - j)
      invariant HalfAligned(addr + i) || |bs| - i <= 1
    {
      Align(addr + i);
      assert HalfAligned(addr + i);
      PlainHalf(sum + t, bs, i, n);
      sum := sum + Half(bs, i);
      i := i + 2;
    }
    AddsLast(sum + t, bs, i, n);
    if i < |bs| {
      t := t + bs[i];
    }
    sum := sum + t;
    Finish(bs, odd, sum);
    sum := Fold(Fold(sum));
    if odd {
      sum := Swap(sum);
    }
    r := sum;
  }

  /** A word added with its carry, while the end bytes `t` wait. */
  lemma {:induction false} TailWord(sum: int, t: int, bs: seq<byte>, i: nat, n: int, sum': int)
    requires Adds(sum + t, bs, i, n) && i + 4 <= |bs| && 0 <= sum && 0 <= t && Like(sum', sum + Word(bs, i))
    ensures Adds(sum' + t, bs, i + 4, n)
  {
    LikeSelf(t);
    LikeAdd(sum', sum + Word(bs, i), t, t);
    AddsWord(sum + t, bs, i, n, sum' + t);
  }

  lemma {:induction false} TailFold(sum: u32, t: int, bs: seq<byte>, i: nat, n: int)
    requires Adds(sum + t, bs, i, n) && 0 <= t
    ensures Adds(Fold(sum) + t, bs, i, n) && Fold(sum) <= 0x1_FFFE
  {
    var rest := t + Sum(bs[i..]);
    FoldLike(sum);
    LikeSelf(rest);
    LikeAdd(Fold(sum), sum, rest, rest);
    LikeTrans(Fold(sum) + rest, sum + rest, n);
  }

  /** thumb2_checksum: register r2 is the sum, and every addition in the loops takes the carry
      back in. */
  method Thumb2(bs: seq<byte>, addr: nat) returns (r: u16)
    ensures r == Ones(Sum(bs))
  {
    hide Sum, Like, Fold, Swap, Ones, Adds, Goal, Word, HalfAligned, WordAligned;
    var r3 := !HalfAligned(addr);
    var i, r2: int := 0, 0;
    Begin(bs, r3);
    Align(addr);
    if r3 {
      if |bs| == 0 {
        OnesNone(bs);
        return 0;
      }
      r2, i := Pair(0, bs[0]), 1;
    }
    ghost var n := Goal(bs, r3);
    if !WordAligned(addr + i) && |bs| - i >= 2 {
      Align(addr + i);
      assert HalfAligned(addr + i);
      PlainHalf(r2, bs, i, n);
      r2, i := r2 + Half(bs, i), i + 2;
    }
    while |bs| - i >= 8
      invariant i <= |bs| && Adds(r2, bs, i, n) && 0 <= r2 < 0x1_0000_0000
      invariant WordAligned(addr + i) || |bs| - i < 2
    {
      Align(addr + i);
      Align(addr + i + 4);
      assert WordAligned(addr + i) && WordAligned(addr + i + 4);
      var s := AddCarry(r2, Word(bs, i));
      AddsWord(r2, bs, i, n, s);
      r2 := AddCarry(s, Word(bs, i + 4));
      AddsWord(s, bs, i + 4, n, r2);
      i := i + 8;
    }
    Align(addr + i);
    while |bs| - i >= 2
      invariant i <= |bs| && Adds(r2, bs, i, n) && 0 <= r2 < 0x1_0000_0000
      invariant HalfAligned(addr + i) || |bs| - i < 2
    {
      Align(addr + i);
      assert HalfAligned(addr + i);
      var s := AddCarry(r2, Half(bs, i));
      AddsHalf(r2, bs, i, n, s);
      r2, i := s, i + 2;
    }
    AddsLast(r2, bs, i, n);
    if i < |bs| {
      var s := AddCarry(r2, bs[i]);
      LikeTrans(s, r2 + bs[i], n);
      r2 := s;
    }
    Finish(bs, r3, r2);
    r2 := Fold(Fold(r2));
    if r3 {
      r2 := Swap(r2);
    }
    r := r2;
  }

  lemma {:induction false} OnesNone(bs: seq<byte>)
    requires bs == []
    ensures Ones(Sum(bs)) == 0
  {
  }

  /** A word read with its first byte in the upper half. */
  lemma {:induction false} BigEndian(acc: int, bs: seq<byte>, i: nat, n: int)
    requires i + 2 <= |bs| && 0 <= acc && Like(acc + 256 * Sum(bs[i..]), n)
    ensures Like(acc + Pair(bs[i + 1], bs[i]) + 256 * Sum(bs[i + 2..]), n)
  {
    var a, rest := acc + Pair(0, bs[i]) + 256 * Sum(bs[i + 2..]), bs[i + 1];
    HalfSum(bs, i);
    LikeTwice(rest);
    LikeSym(256 * (256 * rest), rest);
    LikeSelf(a);
    LikeAdd(a, a, rest, 256 * (256 * rest));
    LikeTrans(a + rest, acc + 256 * Sum(bs[i..]), n);
  }

  /** lwip_standard_chksum, version 1: words in network order, whatever the address. */
  method Chksum1(bs: seq<byte>) returns (r: u16)
    requires |bs| <= 0x2_0000
    ensures r == Ones(Sum(bs))
  {
    hide Sum, Like, Fold, Swap, Ones;
    var acc, i := 0, 0;
    ghost var n := 256 * Sum(bs);
    assert bs[0..] == bs;
    LikeSelf(n);
    while |bs| - i > 1
      invariant 0 <= i <= |bs| && 0 <= 2 * acc <= 0xFFFF * i && Like(acc + 256 * Sum(bs[i..]), n)
    {
      BigEndian(acc, bs, i, n);
      acc, i := acc + Pair(bs[i + 1], bs[i]), i + 2;
    }
    LastSum(bs, i);
    if i < |bs| {
      acc := acc + Pair(0, bs[i]);
    }
    FoldsTo(acc, n);
    acc := Fold(acc);
    FoldLike(acc);
    if acc > 0xFFFF {
      acc := Fold(acc);
    }
    LikeTwice(Sum(bs));
    SwapOnes(n, Sum(bs));
    r := Swap(acc);
  }
}

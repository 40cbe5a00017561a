/** Checksums over chains of buffers, with the IPv4 pseudo-header, and their verification. */
module ChainChecksum {
  import opened SeqNum
  import opened Checksum
  import opened Common

  predicate Odd(n: nat) { n % 2 == 1 }

  lemma {:induction false} OddAdd(a: nat, b: nat)
    ensures Odd(a + b) == (Odd(a) != Odd(b))
  {
  }

  /** The value of a sum that is kept with its bytes swapped. */
  function Scale(swapped: bool, n: int): int {
    if swapped then 256 * n else n
  }

  // ---------------------------------------------------------------- one more buffer

  lemma {:induction false} StepEven(acc: int, base: nat, done: seq<byte>, c: int, q: seq<byte>)
    requires Like(acc, base + Sum(done)) && Like(c, Sum(q)) && !Odd(|done|)
    ensures Like(acc + c, base + Sum(done + q))
  {
    SumEven(done, q);
    LikeAdd(acc, base + Sum(done), c, Sum(q));
  }

  lemma {:induction false} StepOdd(acc: int, base: nat, done: seq<byte>, c: int, q: seq<byte>)
    requires Like(acc, 256 * (base + Sum(done))) && Like(c, Sum(q)) && Odd(|done|)
    ensures Like(acc + c, 256 * (base + Sum(done + q)))
  {
    var d, n := base + Sum(done), Sum(q);
    SumOdd(done, q);
    LikeSelf(base);
    LikeAdd(base, base, Sum(done + q), Sum(done) + 256 * n);
    LikeScale(base + Sum(done + q), d + 256 * n);
    LikeTwice(n);
    LikeSelf(256 * d);
    LikeAdd(256 * d, 256 * d, 256 * (256 * n), n);
    LikeTrans(256 * (base + Sum(done + q)), 256 * (d + 256 * n), 256 * d + n);
    LikeSym(256 * (base + Sum(done + q)), 256 * d + n);
    LikeAdd(acc, 256 * d, c, n);
    LikeTrans(acc + c, 256 * d + n, 256 * (base + Sum(done + q)));
  }

  lemma {:induction false} SwapStep(acc: u16, swapped: bool, n: nat)
    requires Like(acc, Scale(swapped, n))
    ensures Like(Swap(acc), Scale(!swapped, n))
  {
    SwapLike(acc);
    LikeScale(acc, Scale(swapped, n));
    LikeTrans(Swap(acc), 256 * acc, 256 * Scale(swapped, n));
    if swapped {
      LikeTwice(n);
      LikeTrans(Swap(acc), 256 * (256 * n), n);
    }
  }

  lemma {:induction false} FlatSteps(p: seq<seq<byte>>, k: nat)
    requires k <= |p|
    ensures Flat(p[..0]) == [] && (k < |p| ==> Flat(p[..k + 1]) == Flat(p[..k]) + p[k])
  {
    if k < |p| {
      FlatConcat(p[..k], [p[k]]);
      FlatOne(p[k]);
      assert p[..k + 1] == p[..k] + [p[k]];
    }
  }

  /** The loop of inet_chksum_pbuf and inet_cksum_pseudo_base: the sum of a chain, on top of
      `start`; after each buffer of odd length the bytes of the accumulator are swapped.  Buffer
      `k` is at address `addr(k)`. */
  method ChainSum(p: seq<seq<byte>>, addr: nat -> nat, start: u16, ghost base: nat) returns (r: u16)
    requires Like(start, base)
    ensures Like(r, base + Sum(Flat(p)))
  {
    hide Sum, Like, Fold, Swap, Odd, Scale, Ones, Flat;
    var acc: u32, swapped, k := start, false, 0;
    ghost var done := [];
    StartNone(start, base);
    FlatSteps(p, 0);
    while k < |p|
      invariant 0 <= k <= |p| && done == Flat(p[..k]) && swapped == Odd(|done|) && acc <= 0xFFFF
      invariant Like(acc, Scale(swapped, base + Sum(done)))
    {
      var q := p[k];
      var c := Thumb2(q, addr(k));
      OnesLike(Sum(q));
      SumStep(acc, swapped, base, done, c, q);
      FoldLike(acc + c);
      LikeTrans(Fold(acc + c), acc + c, Scale(swapped, base + Sum(done + q)));
      acc := Fold(acc + c);
      OddAdd(|done|, |q|);
      if Odd(|q|) {
        SwapStep(acc, swapped, base + Sum(done + q));
        swapped, acc := !swapped, Swap(acc);
      }
      FlatSteps(p, k);
      done, k := done + q, k + 1;
    }
    assert p[..k] == p;
    ScaleFalse(base + Sum(done));
    if swapped {
      SwapStep(acc, swapped, base + Sum(done));
      acc := Swap(acc);
    }
    r := acc;
  }

  lemma {:induction false} ScaleFalse(n: int)
    ensures Scale(false, n) == n
  {
  }

  lemma {:induction false} StartNone(start: u16, base: nat)
    requires Like(start, base)
    ensures Like(start, Scale(false, base + Sum([]))) && !Odd(0)
  {
  }

  lemma {:induction false} SumStep(acc: int, swapped: bool, base: nat, done: seq<byte>, c: int, q: seq<byte>)
    requires Like(acc, Scale(swapped, base + Sum(done))) && Like(c, Sum(q)) && swapped == Odd(|done|)
    ensures Like(acc + c, Scale(swapped, base + Sum(done + q)))
  {
    if swapped {
      StepOdd(acc, base, done, c, q);
    } else {
      StepEven(acc, base, done, c, q);
    }
  }

  // ---------------------------------------------------------------- the checksums

  /** inet_chksum */
  method InetChksum(bs: seq<byte>, addr: nat) returns (r: u16)
    ensures r == 0xFFFF - Ones(Sum(bs))
  {
    var s := Thumb2(bs, addr);
    r := 0xFFFF - s;
  }

  /** inet_chksum_pbuf: the checksum of a chain is that of its bytes, however they are cut. */
  method ChksumPbuf(p: seq<seq<byte>>, addr: nat -> nat) returns (r: u16)
    ensures r == 0xFFFF - Ones(Sum(Flat(p)))
  {
    LikeSelf(0);
    var acc := ChainSum(p, addr, 0, 0);
    OnesIs(acc, Sum(Flat(p)));
    r := 0xFFFF - acc;
  }

  /** The pseudo-header of section 3.1 of RFC 793: addresses, zero, protocol and length. */
  function PseudoHeader(src: seq<byte>, dst: seq<byte>, proto: byte, len: u16): seq<byte> {
    src + dst + [0, proto] + [len / 256, len % 256]
  }

  lemma {:induction false} HeaderSum(src: seq<byte>, dst: seq<byte>, proto: byte, len: u16, data: seq<byte>)
    requires |src| == 4 && |dst| == 4
    ensures Sum(PseudoHeader(src, dst, proto, len) + data) ==
            Half(src, 0) + Half(src, 2) + Half(dst, 0) + Half(dst, 2) + Swap(proto) + Swap(len) + Sum(data)
  {
    hide Sum, Half, Word, Swap;
    var hi, lo := len / 256, len % 256;
    SumEven(src + dst + [0, proto] + [hi, lo], data);
    SumEven(src + dst + [0, proto], [hi, lo]);
    SumEven(src + dst, [0, proto]);
    SumEven(src, dst);
    FourSum(src);
    FourSum(dst);
    TwoSum(0, proto);
    TwoSum(hi, lo);
    SwapIs(proto, len);
  }

  lemma {:induction false} SwapIs(proto: byte, len: u16)
    ensures Swap(proto) == Pair(0, proto) && Swap(len) == Pair(len / 256, len % 256)
  {
  }

  lemma {:induction false} TwoSum(x: byte, y: byte)
    ensures Sum([x, y]) == Pair(x, y)
  {
    assert [x, y][2..] == [];
  }

  lemma {:induction false} Halves(lo: int, hi: int)
    requires 0 <= lo < 0x1_0000
    ensures (lo + 0x1_0000 * hi) % 0x1_0000 == lo && (lo + 0x1_0000 * hi) / 0x1_0000 == hi
  {
  }

  lemma {:induction false} FourSum(a: seq<byte>)
    requires |a| == 4
    ensures Sum(a) == Half(a, 0) + Half(a, 2)
    ensures Word(a, 0) % 0x1_0000 == Half(a, 0) && Word(a, 0) / 0x1_0000 == Half(a, 2)
  {
    Halves(Half(a, 0), Half(a, 2));
    assert a == [a[0], a[1]] + [a[2], a[3]];
    SumEven([a[0], a[1]], [a[2], a[3]]);
    TwoSum(a[0], a[1]);
    TwoSum(a[2], a[3]);
  }

  /** inet_chksum_pseudo with inet_cksum_pseudo_base */
  method ChksumPseudo(p: seq<seq<byte>>, addr: nat -> nat, proto: byte, len: u16, src: seq<byte>, dst: seq<byte>)
    returns (r: u16)
    requires |src| == 4 && |dst| == 4
    ensures r == 0xFFFF - Ones(Sum(PseudoHeader(src, dst, proto, len) + Flat(p)))
  {
    hide Sum, Like, Fold, Swap, Ones, Half, Word;
    FourSum(src);
    FourSum(dst);
    HeaderSum(src, dst, proto, len, Flat(p));
    var word := Word(src, 0);
    var acc: int := word % 0x1_0000;
    acc := acc + word / 0x1_0000;
    word := Word(dst, 0);
    acc := acc + word % 0x1_0000;
    acc := acc + word / 0x1_0000;
    ghost var base := acc;
    LikeSelf(base);
    FoldsTo(acc, base);
    OnesLike(base);
    acc := Fold(Fold(acc));
    acc := ChainSum(p, addr, acc, base);
    ghost var extra, n := Swap(proto) + Swap(len), base + Sum(Flat(p));
    LikeSelf(extra);
    LikeAdd(acc, n, extra, extra);
    acc := acc + Swap(proto);
    acc := acc + Swap(len);
    FoldsTo(acc, n + extra);
    acc := Fold(Fold(acc));
    r := 0xFFFF - acc;
  }

  // ---------------------------------------------------------------- verification

  /** `bs` with the checksum `r` stored at offset `at`. */
  function Store(bs: seq<byte>, at: nat, r: u16): seq<byte>
    requires at + 2 <= |bs|
  {
    bs[..at] + [r % 256, r / 256] + bs[at + 2..]
  }

  lemma {:induction false} StoreSum(bs: seq<byte>, at: nat, r: u16)
    requires at + 2 <= |bs| && !Odd(at) && bs[at] == 0 && bs[at + 1] == 0
    ensures Sum(Store(bs, at, r)) == Sum(bs) + r
  {
    SumEven(bs[..at] + [r % 256, r / 256], bs[at + 2..]);
    SumEven(bs[..at], [r % 256, r / 256]);
    assert bs == bs[..at] + [0, 0] + bs[at + 2..];
    SumEven(bs[..at] + [0, 0], bs[at + 2..]);
    SumEven(bs[..at], [0, 0]);
    TwoSum(0, 0);
    TwoSum(r % 256, r / 256);
  }

  /** Theorem: data whose checksum was stored in a zero field at an even offset is verified: its
      own checksum is 0. */
  lemma {:induction false} Verifies(bs: seq<byte>, at: nat)
    requires at + 2 <= |bs| && !Odd(at) && bs[at] == 0 && bs[at + 1] == 0
    ensures 0xFFFF - Ones(Sum(Store(bs, at, 0xFFFF - Ones(Sum(bs))))) == 0
  {
    hide Ones, Sum, Store, Odd;
    var n := Sum(bs);
    var r := 0xFFFF - Ones(n);
    StoreSum(bs, at, r);
    OnesLike(n);
    var k :| Ones(n) == n + Times(k);
    LikeBy(0xFFFF, n + r, k);
    OnesIs(0xFFFF, n + r);
  }

  /** The same for a segment with its pseudo-header: the field lies in the segment. */
  lemma {:induction false} VerifiesPseudo(src: seq<byte>, dst: seq<byte>, proto: byte, len: u16, data: seq<byte>, at: nat)
    requires |src| == 4 && |dst| == 4
    requires at + 2 <= |data| && !Odd(at) && data[at] == 0 && data[at + 1] == 0
    ensures var h := PseudoHeader(src, dst, proto, len);
            0xFFFF - Ones(Sum(h + Store(data, at, 0xFFFF - Ones(Sum(h + data))))) == 0
  {
    var h := PseudoHeader(src, dst, proto, len);
    var r := 0xFFFF - Ones(Sum(h + data));
    assert (h + data)[..|h| + at] == h + data[..at] && (h + data)[|h| + at + 2..] == data[at + 2..];
    assert Store(h + data, |h| + at, r) == h + Store(data, at, r);
    OddAdd(|h|, at);
    Verifies(h + data, |h| + at);
  }

  // ---------------------------------------------------------------- what is detected

  /** The weight of byte `i` in the sum. */
  function Weight(i: nat): int {
    if Odd(i) then 256 else 1
  }

  lemma {:induction false} SumByte(bs: seq<byte>, i: nat, y: byte)
    requires i < |bs|
    ensures Sum(bs[i := y]) == Sum(bs) + (y - bs[i]) * Weight(i)
    decreases |bs|
  {
    if i >= 2 {
      assert bs[i := y][2..] == bs[2..][i - 2 := y];
      SumByte(bs[2..], i - 2, y);
    } else if |bs| > 1 {
      assert bs[i := y][2..] == bs[2..];
    }
  }

  /** Sums that differ by less than 0xFFFF are told apart. */
  lemma {:induction false} OnesDiffer(a: nat, b: nat)
    requires a != b && -0xFFFF < a - b < 0xFFFF
    ensures Ones(a) != Ones(b)
  {
    OnesLike(a);
    OnesLike(b);
    var k :| Ones(a) == a + Times(k);
    var l :| Ones(b) == b + Times(l);
    assert Ones(a) - Ones(b) == a - b + 0xFFFF * (k - l);
  }

  /** Theorem: the checksum tells of every change of one byte. */
  lemma {:induction false} Detects(bs: seq<byte>, i: nat, y: byte)
    requires i < |bs| && y != bs[i]
    ensures Ones(Sum(bs[i := y])) != Ones(Sum(bs))
  {
    hide Ones, Sum;
    SumByte(bs, i, y);
    OnesDiffer(Sum(bs[i := y]), Sum(bs));
  }

  /** Theorem: with the pseudo-header it tells of a change of one byte of an address, or of the
      protocol. */
  lemma {:induction false} DetectsHeader(src: seq<byte>, dst: seq<byte>, proto: byte, len: u16, data: seq<byte>, i: nat, y: byte)
    requires |src| == 4 && |dst| == 4
    ensures i < 4 && y != src[i] ==>
              Ones(Sum(PseudoHeader(src[i := y], dst, proto, len) + data)) != Ones(Sum(PseudoHeader(src, dst, proto, len) + data))
    ensures i < 4 && y != dst[i] ==>
              Ones(Sum(PseudoHeader(src, dst[i := y], proto, len) + data)) != Ones(Sum(PseudoHeader(src, dst, proto, len) + data))
    ensures y != proto ==>
              Ones(Sum(PseudoHeader(src, dst, y, len) + data)) != Ones(Sum(PseudoHeader(src, dst, proto, len) + data))
  {
    hide Ones, Sum;
    var h := PseudoHeader(src, dst, proto, len) + data;
    if i < 4 {
      assert PseudoHeader(src[i := y], dst, proto, len) + data == h[i := y];
      assert PseudoHeader(src, dst[i := y], proto, len) + data == h[4 + i := y];
      if y != src[i] { Detects(h, i, y); }
      if y != dst[i] { Detects(h, 4 + i, y); }
    }
    assert PseudoHeader(src, dst, y, len) + data == h[9 := y];
    if y != proto { Detects(h, 9, y); }
  }

  lemma {:induction false} SwapOnce(a: u16, b: u16)
    requires a != b
    ensures Swap(a) != Swap(b)
  {
  }

  /** Theorem: and of a change of the length, but for that from 0 to 0xFFFF or back. */
  lemma {:induction false} DetectsLength(src: seq<byte>, dst: seq<byte>, proto: byte, len: u16, len': u16, data: seq<byte>)
    requires |src| == 4 && |dst| == 4 && len != len' && (len == 0 ==> len' != 0xFFFF) && (len' == 0 ==> len != 0xFFFF)
    ensures Ones(Sum(PseudoHeader(src, dst, proto, len') + data)) != Ones(Sum(PseudoHeader(src, dst, proto, len) + data))
  {
    hide Ones, Sum, Half;
    HeaderSum(src, dst, proto, len, data);
    HeaderSum(src, dst, proto, len', data);
    SwapOnce(len, len');
    OnesDiffer(Sum(PseudoHeader(src, dst, proto, len') + data), Sum(PseudoHeader(src, dst, proto, len) + data));
  }
}

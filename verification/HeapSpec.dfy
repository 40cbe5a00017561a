/** The heap of mem.c as a list of blocks that tile it, over plain values. */
module HeapSpec {
  import opened SeqNum

  // A block runs from the offset `at` of its header to `end`, where the next header or the end
  // sentinel is.  The class in Heap.dfy keeps this list inside the `ram` array and refines the
  // functions below.

  const MEM := 24000  // MEM_SIZE_ALIGNED
  const HDR := 8      // SIZEOF_STRUCT_MEM: two u16 and one u8, rounded up to 4
  const LEAST := 12   // MIN_SIZE_ALIGNED

  datatype Block = Block(at: int, end: int, used: bool) {
    /** Payload size. */
    function Room(): int { end - at - HDR }

    predicate Holds(size: int) { !used && Room() >= size }

    /** Aligned, with at least LEAST bytes of payload. */
    predicate Sound() { at % 4 == 0 && end % 4 == 0 && Room() >= LEAST }
  }

  type Blocks = seq<Block>

  /** LWIP_MEM_ALIGN_SIZE in the 16 bits of mem_size_t, then at least LEAST: the next multiple of 4,
      but LEAST for small requests, and for those whose next multiple does not fit 16 bits. */
  function Rounded(size: u16): (r: u16)
    ensures r % 4 == 0 && r >= LEAST
    ensures size <= LEAST || size > 0xFFFC ==> r == LEAST
    ensures LEAST <= size <= 0xFFFC ==> size <= r < size + 4
  {
    var a := (size + 3) / 4 * 4 % 0x1_0000;
    if a < LEAST then LEAST else a
  }

  /** The blocks tile the stretch from `lo` to `hi` without gap or overlap, and no two
      neighbours are free; `free` says the block before `lo` is. */
  ghost predicate Chain(bs: Blocks, lo: int, hi: int, free: bool) {
    if bs == [] then lo == hi
    else
      && bs[0].at == lo && bs[0].Sound() && (bs[0].used || !free)
      && Chain(bs[1..], bs[0].end, hi, !bs[0].used)
  }

  /** The headers tile the whole heap. */
  ghost predicate Inv(bs: Blocks) {
    Chain(bs, 0, MEM, false)
  }

  /** Header offset of the lowest free block, or the end of the heap. */
  function LowestFree(bs: Blocks): int {
    if bs == [] then MEM else if !bs[0].used then bs[0].at else LowestFree(bs[1..])
  }

  /** Bytes of the used blocks, headers included. */
  function UsedBytes(bs: Blocks): int {
    if bs == [] then 0 else (if bs[0].used then bs[0].end - bs[0].at else 0) + UsedBytes(bs[1..])
  }

  /** The blocks handed out. */
  ghost function Live(bs: Blocks): set<Block> {
    set b | b in bs && b.used
  }

  // ---------------------------------------------------------------- operations

  /** `mid` in place of the blocks from `i` up to `j`. */
  function Replace(bs: Blocks, i: nat, j: nat, mid: Blocks): Blocks
    requires i <= j <= |bs|
  {
    bs[..i] + (mid + bs[j..])
  }

  /** Block `b` cut in two at `cut`: a used part and a free rest. */
  function Halves(at: int, cut: int, end: int): Blocks {
    [Block(at, cut, true), Block(cut, end, false)]
  }

  /** mem_malloc takes block `k` for `size` bytes. */
  function Alloc(bs: Blocks, k: nat, size: int): Blocks
    requires k < |bs|
  {
    var b := bs[k];
    Replace(bs, k, k + 1, if b.Room() >= size + HDR + LEAST then Halves(b.at, b.at + HDR + size, b.end)
                          else [b.(used := true)])
  }

  /** mem_free of block `k`: it becomes one free block with its free neighbours. */
  function Free(bs: Blocks, k: nat): Blocks
    requires k < |bs|
  {
    var i := if k > 0 && !bs[k - 1].used then k - 1 else k;
    var j := if k + 1 < |bs| && !bs[k + 1].used then k + 2 else k + 1;
    Replace(bs, i, j, [Block(bs[i].at, bs[j - 1].end, false)])
  }

  /** mem_trim of block `k` to `size` bytes. */
  function Trim(bs: Blocks, k: nat, size: int): Blocks
    requires k < |bs|
  {
    var b := bs[k];
    var cut := b.at + HDR + size;
    if size >= b.Room() then bs
    else if k + 1 < |bs| && !bs[k + 1].used then Replace(bs, k, k + 2, Halves(b.at, cut, bs[k + 1].end))
    else if size + HDR + LEAST <= b.Room() then Replace(bs, k, k + 1, Halves(b.at, cut, b.end))
    else bs
  }

  /** Reference search: the lowest block from `from` on that is free and large enough, or |bs|. */
  function FirstFit(bs: Blocks, size: int, from: nat): (k: nat)
    requires from <= |bs|
    ensures from <= k <= |bs|
    ensures forall i :: from <= i < k ==> !bs[i].Holds(size)
    ensures k < |bs| ==> bs[k].Holds(size)
    decreases |bs| - from
  {
    if from == |bs| || bs[from].Holds(size) then from else FirstFit(bs, size, from + 1)
  }

  // ---------------------------------------------------------------- the invariant

  function After(bs: Blocks, lo: int): int {
    if bs == [] then lo else bs[|bs| - 1].end
  }

  function FreeAfter(bs: Blocks, free: bool): bool {
    if bs == [] then free else !bs[|bs| - 1].used
  }

  /** Two stretches make one exactly when they meet. */
  lemma {:induction false} ChainConcat(a: Blocks, b: Blocks, lo: int, hi: int, free: bool)
    ensures Chain(a + b, lo, hi, free) <==>
            Chain(a, lo, After(a, lo), free) && Chain(b, After(a, lo), hi, FreeAfter(a, free))
    decreases |a|
  {
    if a == [] {
      assert a + b == b;
    } else {
      assert (a + b)[1..] == a[1..] + b;
      ChainConcat(a[1..], b, a[0].end, hi, !a[0].used);
      assert After(a[1..], a[0].end) == After(a, lo) && FreeAfter(a[1..], !a[0].used) == FreeAfter(a, free);
    }
  }

  /** What a stretch `mid` must do to take the place of the blocks from `i` to `j`. */
  lemma {:induction false} ReplaceKeeps(bs: Blocks, i: nat, j: nat, mid: Blocks)
    requires Inv(bs) && i < j <= |bs| && mid != []
    requires Chain(mid, bs[i].at, bs[j - 1].end, i > 0 && !bs[i - 1].used)
    requires !mid[|mid| - 1].used && j < |bs| ==> bs[j].used
    requires mid[|mid| - 1].end == bs[j - 1].end
    ensures Inv(Replace(bs, i, j, mid))
  {
    var a, m, z := bs[..i], bs[i..j], bs[j..];
    assert bs == a + (m + z);
    ChainConcat(a, m + z, 0, MEM, false);
    ChainConcat(m, z, After(a, 0), MEM, FreeAfter(a, false));
    ChainConcat(mid, z, After(a, 0), MEM, FreeAfter(a, false));
    ChainConcat(a, mid + z, 0, MEM, false);
    ChainHead(z, After(m, 0), MEM, FreeAfter(m, false), FreeAfter(mid, false));
    assert (m + z)[0] == bs[i];
  }

  /** Only the first block feels what is before the stretch. */
  lemma {:induction false} ChainHead(bs: Blocks, lo: int, hi: int, f: bool, g: bool)
    requires Chain(bs, lo, hi, f) && (g && bs != [] ==> bs[0].used)
    ensures Chain(bs, lo, hi, g)
  {
  }

  lemma {:induction false} ChainAt(bs: Blocks, lo: int, hi: int, free: bool, k: nat)
    requires Chain(bs, lo, hi, free) && k < |bs|
    ensures bs[k].Sound() && lo <= bs[k].at && bs[k].end <= hi
    ensures bs[k].at == if k == 0 then lo else bs[k - 1].end
    ensures k > 0 ==> bs[k - 1].used || bs[k].used
    decreases |bs|
  {
    if k > 0 {
      ChainAt(bs[1..], bs[0].end, hi, !bs[0].used, k - 1);
      if k == 1 { assert bs[1..][0] == bs[1]; }
    } else {
      ChainLength(bs[1..], bs[0].end, hi, !bs[0].used);
    }
  }

  lemma {:induction false} ChainLength(bs: Blocks, lo: int, hi: int, free: bool)
    requires Chain(bs, lo, hi, free)
    ensures lo <= hi && After(bs, lo) == hi
    decreases |bs|
  {
    if bs != [] {
      ChainLength(bs[1..], bs[0].end, hi, !bs[0].used);
    }
  }

  /** A later block starts at or above the end of an earlier one. */
  lemma {:induction false} ChainOrder(bs: Blocks, lo: int, hi: int, free: bool, i: nat, j: nat)
    requires Chain(bs, lo, hi, free) && i < j < |bs|
    ensures bs[i].end <= bs[j].at
    decreases j
  {
    ChainAt(bs, lo, hi, free, j);
    if i < j - 1 {
      ChainOrder(bs, lo, hi, free, i, j - 1);
      ChainAt(bs, lo, hi, free, j - 1);
    }
  }

  lemma {:induction false} AllocKeeps(bs: Blocks, k: nat, size: int)
    requires Inv(bs) && k < |bs| && bs[k].Holds(size) && size >= LEAST && size % 4 == 0
    ensures Inv(Alloc(bs, k, size))
  {
    ChainAt(bs, 0, MEM, false, k);
    if k + 1 < |bs| { ChainAt(bs, 0, MEM, false, k + 1); }
    var b := bs[k];
    if b.Room() >= size + HDR + LEAST {
      var cut := b.at + HDR + size;
      HalvesChain(b.at, cut, b.end, k > 0 && !bs[k - 1].used);
      ReplaceKeeps(bs, k, k + 1, Halves(b.at, cut, b.end));
    } else {
      OneChain(b.(used := true), k > 0 && !bs[k - 1].used);
      ReplaceKeeps(bs, k, k + 1, [b.(used := true)]);
    }
  }

  lemma {:induction false} OneChain(b: Block, free: bool)
    requires b.Sound() && (b.used || !free)
    ensures Chain([b], b.at, b.end, free)
  {
    assert [b][1..] == [];
  }

  lemma {:induction false} HalvesChain(at: int, cut: int, end: int, free: bool)
    requires at % 4 == 0 && cut % 4 == 0 && end % 4 == 0
    requires at + HDR + LEAST <= cut && cut + HDR + LEAST <= end
    ensures Chain(Halves(at, cut, end), at, end, free)
  {
    OneChain(Block(cut, end, false), false);
    assert Halves(at, cut, end)[1..] == [Block(cut, end, false)];
  }

  lemma {:induction false} FreeKeeps(bs: Blocks, k: nat)
    requires Inv(bs) && k < |bs| && bs[k].used
    ensures Inv(Free(bs, k))
  {
    var i := if k > 0 && !bs[k - 1].used then k - 1 else k;
    var j := if k + 1 < |bs| && !bs[k + 1].used then k + 2 else k + 1;
    ChainAt(bs, 0, MEM, false, k);
    ChainAt(bs, 0, MEM, false, i);
    ChainAt(bs, 0, MEM, false, j - 1);
    if j < |bs| { ChainAt(bs, 0, MEM, false, j); }
    var b := Block(bs[i].at, bs[j - 1].end, false);
    OneChain(b, false);
    ReplaceKeeps(bs, i, j, [b]);
  }

  lemma {:induction false} TrimKeeps(bs: Blocks, k: nat, size: int)
    requires Inv(bs) && k < |bs| && bs[k].used && size >= LEAST && size % 4 == 0
    ensures Inv(Trim(bs, k, size))
  {
    ChainAt(bs, 0, MEM, false, k);
    var b, cut := bs[k], bs[k].at + HDR + size;
    if size < b.Room() {
      if k + 1 < |bs| && !bs[k + 1].used {
        ChainAt(bs, 0, MEM, false, k + 1);
        if k + 2 < |bs| { ChainAt(bs, 0, MEM, false, k + 2); }
        HalvesChain(b.at, cut, bs[k + 1].end, k > 0 && !bs[k - 1].used);
        ReplaceKeeps(bs, k, k + 2, Halves(b.at, cut, bs[k + 1].end));
      } else if size + HDR + LEAST <= b.Room() {
        HalvesChain(b.at, cut, b.end, k > 0 && !bs[k - 1].used);
        ReplaceKeeps(bs, k, k + 1, Halves(b.at, cut, b.end));
      }
    }
  }

  // ---------------------------------------------------------------- the blocks handed out

  /** Two used blocks do not overlap, and lie in the heap. */
  lemma {:induction false} LiveApart(bs: Blocks, b: Block, c: Block)
    requires Inv(bs) && b in Live(bs) && c in Live(bs)
    ensures 0 <= b.at && b.Sound() && b.end <= MEM
    ensures b == c || b.end <= c.at || c.end <= b.at
  {
    var i :| 0 <= i < |bs| && bs[i] == b;
    var j :| 0 <= j < |bs| && bs[j] == c;
    ChainAt(bs, 0, MEM, false, i);
    if i < j {
      ChainOrder(bs, 0, MEM, false, i, j);
    } else if j < i {
      ChainOrder(bs, 0, MEM, false, j, i);
    }
  }

  /** Every block occurs once. */
  lemma {:induction false} Once(bs: Blocks, k: nat)
    requires Inv(bs) && k < |bs|
    ensures forall i :: 0 <= i < |bs| && i != k ==> bs[i].at != bs[k].at
  {
    ChainAt(bs, 0, MEM, false, k);
    forall i | 0 <= i < |bs| && i != k ensures bs[i].at != bs[k].at {
      ChainAt(bs, 0, MEM, false, i);
      if i < k { ChainOrder(bs, 0, MEM, false, i, k); } else { ChainOrder(bs, 0, MEM, false, k, i); }
    }
  }

  /** Only used blocks matter: replacing the used block `k` and free ones by `mid`. */
  lemma {:induction false} ReplaceLive(bs: Blocks, i: nat, j: nat, k: nat, mid: Blocks)
    requires Inv(bs) && i <= k < j <= |bs|
    requires forall h :: i <= h < j && h != k ==> !bs[h].used
    ensures Live(Replace(bs, i, j, mid)) == Live(bs) - {bs[k]} + Live(mid)
  {
    Once(bs, k);
    var s := Replace(bs, i, j, mid);
    forall b | b in Live(bs) - {bs[k]} + Live(mid) ensures b in s {
      if b in mid {
        assert b in mid + bs[j..];
      } else {
        var h :| 0 <= h < |bs| && bs[h] == b;
        assert h < i ==> bs[..i][h] == b;
        assert h >= j ==> bs[j..][h - j] == b;
      }
    }
    forall b | b in Live(s) && b !in mid ensures b in Live(bs) - {bs[k]} {
      assert b in bs[..i] || b in bs[j..];
    }
  }

  /** The block handed out when `b` is taken for `size` bytes. */
  function Taken(b: Block, size: int): Block {
    if b.Room() >= size + HDR + LEAST then Block(b.at, b.at + HDR + size, true) else b.(used := true)
  }

  /** Theorem: an allocation adds one block, large enough but not so large that it could be cut, and
      changes no other. */
  lemma {:induction false} AllocLive(bs: Blocks, k: nat, size: int)
    requires Inv(bs) && k < |bs| && bs[k].Holds(size) && size >= LEAST
    ensures Live(Alloc(bs, k, size)) == Live(bs) + {Taken(bs[k], size)}
    ensures bs[k] !in Live(bs) && Taken(bs[k], size).at == bs[k].at
    ensures size <= Taken(bs[k], size).Room() < size + HDR + LEAST
  {
    var b, n := bs[k], Taken(bs[k], size);
    Once(bs, k);
    var mid := if b.Room() >= size + HDR + LEAST then Halves(b.at, n.end, b.end) else [n];
    ReplaceLive(bs, k, k + 1, k, mid);
    assert Live(mid) == {n} by { assert mid[0] == n; }
  }

  /** Theorem: freeing takes away exactly the block freed. */
  lemma {:induction false} FreeLive(bs: Blocks, k: nat)
    requires Inv(bs) && k < |bs| && bs[k].used
    ensures Live(Free(bs, k)) == Live(bs) - {bs[k]}
  {
    var i := if k > 0 && !bs[k - 1].used then k - 1 else k;
    var j := if k + 1 < |bs| && !bs[k + 1].used then k + 2 else k + 1;
    ReplaceLive(bs, i, j, k, [Block(bs[i].at, bs[j - 1].end, false)]);
  }

  /** What is left of block `k` when it is trimmed to `size` bytes. */
  function Kept(bs: Blocks, k: nat, size: int): Block
    requires k < |bs|
  {
    var b := bs[k];
    if size < b.Room() && ((k + 1 < |bs| && !bs[k + 1].used) || size + HDR + LEAST <= b.Room())
    then Block(b.at, b.at + HDR + size, true) else b
  }

  /** Theorem: trimming shortens the block trimmed, to the size asked for if a free block follows, and
      else as far as the rest makes a block; it changes no other. */
  lemma {:induction false} TrimLive(bs: Blocks, k: nat, size: int)
    requires Inv(bs) && k < |bs| && bs[k].used && LEAST <= size <= bs[k].Room()
    ensures Live(Trim(bs, k, size)) == Live(bs) - {bs[k]} + {Kept(bs, k, size)}
    ensures size <= Kept(bs, k, size).Room() <= bs[k].Room() && Kept(bs, k, size).at == bs[k].at
    ensures Kept(bs, k, size).Room() < size + HDR + LEAST
    ensures k + 1 < |bs| && !bs[k + 1].used ==> Kept(bs, k, size).Room() == size
  {
    var b, n := bs[k], Kept(bs, k, size);
    assert b in Live(bs);
    if size < b.Room() {
      var mid := Halves(b.at, n.end, if k + 1 < |bs| && !bs[k + 1].used then bs[k + 1].end else b.end);
      if k + 1 < |bs| && !bs[k + 1].used {
        assert Live(mid) == {n} by { assert mid[0] == n; }
        ReplaceLive(bs, k, k + 2, k, mid);
      } else if size + HDR + LEAST <= b.Room() {
        assert Live(mid) == {n} by { assert mid[0] == n; }
        ReplaceLive(bs, k, k + 1, k, mid);
      }
    }
  }

  /** Theorem: nothing is handed out exactly when the heap is one free block again. */
  lemma {:induction false} AllFree(bs: Blocks)
    requires Inv(bs)
    ensures Live(bs) == {} <==> bs == [Block(0, MEM, false)]
  {
    if bs != [Block(0, MEM, false)] {
      ChainLength(bs, 0, MEM, false);
      assert |bs| == 1 ==> bs == [bs[0]];
      if bs[0].used {
        assert bs[0] in Live(bs);
      } else {
        ChainAt(bs, 0, MEM, false, 1);
        assert bs[1] in Live(bs);
      }
    }
  }

  // ---------------------------------------------------------------- the `used` statistic

  lemma {:induction false} UsedConcat(a: Blocks, b: Blocks)
    ensures UsedBytes(a + b) == UsedBytes(a) + UsedBytes(b)
    decreases |a|
  {
    if a == [] {
      assert a + b == b;
    } else {
      assert (a + b)[1..] == a[1..] + b;
      UsedConcat(a[1..], b);
    }
  }

  lemma {:induction false} ReplaceUsed(bs: Blocks, i: nat, j: nat, mid: Blocks)
    requires i <= j <= |bs|
    ensures UsedBytes(Replace(bs, i, j, mid)) == UsedBytes(bs) - UsedBytes(bs[i..j]) + UsedBytes(mid)
  {
    var a, m, z := bs[..i], bs[i..j], bs[j..];
    assert bs == a + (m + z);
    UsedConcat(a, m + z);
    UsedConcat(m, z);
    UsedConcat(mid, z);
    UsedConcat(a, mid + z);
  }

  lemma {:induction false} UsedOne(b: Block)
    ensures UsedBytes([b]) == if b.used then b.end - b.at else 0
  {
    assert [b][1..] == [];
  }

  lemma {:induction false} UsedPair(b: Block, c: Block)
    requires b.used && !c.used
    ensures UsedBytes([b, c]) == b.end - b.at
  {
    assert [b, c][1..] == [c];
    UsedOne(c);
  }

  lemma {:induction false} AllocUsed(bs: Blocks, k: nat, size: int)
    requires k < |bs| && !bs[k].used
    ensures UsedBytes(Alloc(bs, k, size)) == UsedBytes(bs) + Taken(bs[k], size).end - bs[k].at
  {
    var b := bs[k];
    assert bs[k..k + 1] == [b];
    UsedOne(b);
    if b.Room() >= size + HDR + LEAST {
      var cut := b.at + HDR + size;
      UsedPair(Block(b.at, cut, true), Block(cut, b.end, false));
      ReplaceUsed(bs, k, k + 1, Halves(b.at, cut, b.end));
    } else {
      UsedOne(b.(used := true));
      ReplaceUsed(bs, k, k + 1, [b.(used := true)]);
    }
  }

  lemma {:induction false} SliceAround(bs: Blocks, i: nat, k: nat, j: nat)
    requires i <= k < j <= |bs|
    ensures bs[i..j] == bs[i..k] + ([bs[k]] + bs[k + 1..j])
  {
  }

  lemma {:induction false} SliceOne(bs: Blocks, i: nat)
    requires i < |bs|
    ensures bs[i..i + 1] == [bs[i]]
  {
  }

  lemma {:induction false} FreeUsed(bs: Blocks, k: nat)
    requires k < |bs| && bs[k].used
    ensures UsedBytes(Free(bs, k)) == UsedBytes(bs) - (bs[k].end - bs[k].at)
  {
    var i := if k > 0 && !bs[k - 1].used then k - 1 else k;
    var j := if k + 1 < |bs| && !bs[k + 1].used then k + 2 else k + 1;
    var b := Block(bs[i].at, bs[j - 1].end, false);
    ReplaceUsed(bs, i, j, [b]);
    UsedOne(b);
    UsedOne(bs[k]);
    SliceAround(bs, i, k, j);
    UsedConcat(bs[i..k], [bs[k]] + bs[k + 1..j]);
    UsedConcat([bs[k]], bs[k + 1..j]);
    if i < k { SliceOne(bs, i); UsedOne(bs[i]); }
    if k + 1 < j { SliceOne(bs, k + 1); UsedOne(bs[k + 1]); }
  }

  lemma {:induction false} TrimUsed(bs: Blocks, k: nat, size: int)
    requires k < |bs| && bs[k].used
    ensures UsedBytes(Trim(bs, k, size)) == UsedBytes(bs) - (bs[k].end - Kept(bs, k, size).end)
  {
    var b, cut := bs[k], bs[k].at + HDR + size;
    if size < b.Room() {
      if k + 1 < |bs| && !bs[k + 1].used {
        var c := bs[k + 1];
        assert bs[k..k + 2] == [b, c];
        UsedPair(b, c);
        UsedPair(Block(b.at, cut, true), Block(cut, c.end, false));
        ReplaceUsed(bs, k, k + 2, Halves(b.at, cut, c.end));
      } else if size + HDR + LEAST <= b.Room() {
        assert bs[k..k + 1] == [b];
        UsedOne(b);
        UsedPair(Block(b.at, cut, true), Block(cut, b.end, false));
        ReplaceUsed(bs, k, k + 1, Halves(b.at, cut, b.end));
      }
    }
  }

  // ---------------------------------------------------------------- the search hint

  lemma {:induction false} LowestFreeIs(bs: Blocks, k: nat)
    requires k <= |bs| && (forall i :: 0 <= i < k ==> bs[i].used) && (k < |bs| ==> !bs[k].used)
    ensures LowestFree(bs) == if k < |bs| then bs[k].at else MEM
    decreases |bs|
  {
    if k > 0 {
      LowestFreeIs(bs[1..], k - 1);
    }
  }

  lemma {:induction false} LowestFreeAt(bs: Blocks) returns (k: nat)
    ensures k <= |bs| && (forall i :: 0 <= i < k ==> bs[i].used) && (k < |bs| ==> !bs[k].used)
    ensures LowestFree(bs) == if k < |bs| then bs[k].at else MEM
    decreases |bs|
  {
    if bs == [] || !bs[0].used {
      k := 0;
    } else {
      var h := LowestFreeAt(bs[1..]);
      k := h + 1;
      assert forall i :: 0 < i < k ==> bs[i] == bs[1..][i - 1];
    }
  }

  /** Theorem: a free block is large enough for the rounded size exactly when it is for the bytes that
      were asked for. */
  lemma {:induction false} FitsIff(bs: Blocks, request: u16)
    requires Inv(bs) && request <= 0xFFFC
    ensures FirstFit(bs, Rounded(request), 0) < |bs| <==> exists b :: b in bs && !b.used && b.Room() >= request
  {
    var size := Rounded(request);
    var k := FirstFit(bs, size, 0);
    forall i | 0 <= i < |bs| ensures bs[i].Room() >= size <==> bs[i].Room() >= request {
      ChainAt(bs, 0, MEM, false, i);
      RoundUp(bs[i], request);
    }
    if k < |bs| { assert bs[k] in bs; }
  }

  lemma {:induction false} RoundUp(b: Block, request: u16)
    requires b.Sound() && request <= 0xFFFC
    ensures b.Room() >= Rounded(request) <==> b.Room() >= request
  {
    assert b.Room() % 4 == 0;
  }

  lemma {:induction false} FirstFitIs(bs: Blocks, size: int, k: nat)
    requires k <= |bs| && (forall i :: 0 <= i < k ==> !bs[i].Holds(size))
    requires k < |bs| ==> bs[k].Holds(size)
    ensures FirstFit(bs, size, 0) == k
  {
    var f := FirstFit(bs, size, 0);
    assert f < |bs| ==> bs[f].Holds(size);
  }
}

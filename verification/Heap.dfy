/** The heap of mem.c as the code keeps it: struct mem headers at their offsets in `ram`,
    linked both ways and rewritten in place, with the `lfree` search hint and the `used`
    statistic.  `blocks` is the list of HeapSpec that the headers spell out. */
module Heap {
  import opened SeqNum
  import opened HeapSpec

  /** struct mem */
  datatype Mem = Mem(next: u16, prev: u16, used: bool)

  datatype Option<+T> = None | Some(value: T)

  // ---------------------------------------------------------------- lists inside an operation

  ghost predicate Meets(bs: Blocks, i: nat) {
    i < |bs| && bs[i].end == if i + 1 < |bs| then bs[i + 1].at else MEM
  }

  /** The blocks follow each other from 0 to MEM; neighbours may both be free. */
  ghost predicate Laid(bs: Blocks) {
    && bs != [] && bs[0].at == 0
    && (forall i :: 0 <= i < |bs| ==> Meets(bs, i))
    && (forall i :: 0 <= i < |bs| ==> 0 <= bs[i].at < bs[i].end <= MEM)
    && (forall i, j :: 0 <= i < j < |bs| ==> bs[i].end <= bs[j].at)
  }

  lemma {:induction false} InvLaid(bs: Blocks)
    requires Inv(bs)
    ensures Laid(bs)
  {
    ChainLength(bs, 0, MEM, false);
    forall i | 0 <= i < |bs| ensures Meets(bs, i) && 0 <= bs[i].at < bs[i].end <= MEM {
      ChainAt(bs, 0, MEM, false, i);
      if i + 1 < |bs| { ChainAt(bs, 0, MEM, false, i + 1); }
    }
    forall i, j | 0 <= i < j < |bs| ensures bs[i].end <= bs[j].at {
      ChainOrder(bs, 0, MEM, false, i, j);
    }
  }

  function Mark(bs: Blocks, k: nat, used: bool): Blocks
    requires k < |bs|
  {
    bs[k := bs[k].(used := used)]
  }

  /** Block `i` joined to its predecessor. */
  function Join(bs: Blocks, i: nat): Blocks
    requires 0 < i < |bs|
  {
    Replace(bs, i - 1, i + 1, [bs[i - 1].(end := bs[i].end)])
  }

  /** plug_holes on the free block `k`. */
  function Plug(bs: Blocks, k: nat): Blocks
    requires k < |bs|
  {
    var up := if k + 1 < |bs| && !bs[k + 1].used then Join(bs, k + 1) else bs;
    if k > 0 && !up[k - 1].used then Join(up, k) else up
  }

  lemma {:induction false} JoinAt(bs: Blocks, i: nat)
    requires 0 < i < |bs|
    ensures |Join(bs, i)| == |bs| - 1 && Join(bs, i)[i - 1] == bs[i - 1].(end := bs[i].end)
    ensures forall h :: 0 <= h < i - 1 ==> Join(bs, i)[h] == bs[h]
    ensures forall h :: i <= h < |bs| - 1 ==> Join(bs, i)[h] == bs[h + 1]
  {
  }

  lemma {:induction false} JoinLaid(bs: Blocks, i: nat)
    requires Laid(bs) && 0 < i < |bs|
    ensures Laid(Join(bs, i))
  {
    JoinAt(bs, i);
    var j := Join(bs, i);
    forall h | 0 <= h < |j| ensures Meets(j, h) {
      assert Meets(bs, if h < i - 1 then h else h + 1);
    }
    forall g, h | 0 <= g < h < |j| ensures j[g].end <= j[h].at {
      var g', h' := if g < i - 1 then g else g + 1, if h < i then h else h + 1;
      assert bs[g'].end == j[g].end && bs[h'].at == j[h].at;
    }
  }

  /** mem_free marks the block and plugs the holes around it. */
  lemma {:induction false} FreeIsPlug(bs: Blocks, k: nat)
    requires k < |bs| && bs[k].used
    ensures Plug(Mark(bs, k, false), k) == Free(bs, k)
  {
    hide Join, Replace;
    var m, f, p := Mark(bs, k, false), Free(bs, k), Plug(Mark(bs, k, false), k);
    var i := if k > 0 && !bs[k - 1].used then k - 1 else k;
    var j := if k + 1 < |bs| && !bs[k + 1].used then k + 2 else k + 1;
    OneFor(bs, i, j, Block(bs[i].at, bs[j - 1].end, false));
    var up := if j == k + 2 then Join(m, k + 1) else m;
    if j == k + 2 { JoinAt(m, k + 1); }
    assert |up| == |bs| - (j - k - 1) && up[k] == Block(bs[k].at, bs[j - 1].end, false);
    assert forall h :: 0 <= h < k ==> up[h] == bs[h];
    if i < k { JoinAt(up, k); }
    forall h | 0 <= h < |p| ensures h < |f| && p[h] == f[h] {
      assert h > i ==> p[h] == up[h + (k - i)] == bs[h + (j - i - 1)];
    }
    assert p == f;
  }

  /** Blocks `i` to `j - 1` are replaced by the block `b`. */
  lemma {:induction false} OneFor(bs: Blocks, i: nat, j: nat, b: Block)
    requires i < j <= |bs|
    ensures var r := Replace(bs, i, j, [b]);
            && |r| == |bs| - (j - i) + 1 && r[i] == b && (forall h :: 0 <= h < i ==> r[h] == bs[h])
            && (forall h :: i < h < |r| ==> r[h] == bs[h + (j - i - 1)])
  {
  }

  // ---------------------------------------------------------------- headers

  /** The header of block `i`: `next` leads to where it ends, `prev` to the block before. */
  ghost predicate Spells(ram: seq<Mem>, bs: Blocks, i: nat) {
    && i < |bs| && 0 <= bs[i].at < |ram|
    && ram[bs[i].at].next == bs[i].end && ram[bs[i].at].used == bs[i].used
    && ram[bs[i].at].prev == if i == 0 then 0 else bs[i - 1].at
  }

  /** The headers in `ram` spell out the blocks `bs`, and the end sentinel counts as used; what
      its `prev` holds does not matter. */
  ghost predicate Linked(ram: seq<Mem>, bs: Blocks) {
    && |ram| == MEM + 1 && Laid(bs) && ram[MEM].used && ram[MEM].next == MEM
    && (forall i :: 0 <= i < |bs| ==> Spells(ram, bs, i))
  }

  /** `r` differs from `ram` only at `a`, `b`, `c`, and in the sentinel only in `prev`. */
  ghost predicate SameBut(r: seq<Mem>, ram: seq<Mem>, a: int, b: int, c: int) {
    && |r| == |ram| == MEM + 1 && r[MEM].used == ram[MEM].used && r[MEM].next == ram[MEM].next
    && (forall i :: 0 <= i < |ram| && i != a && i != b && i != c ==> r[i] == ram[i])
  }

  lemma {:induction false} MarkLinked(ram: seq<Mem>, bs: Blocks, k: nat, used: bool)
    requires Linked(ram, bs) && k < |bs|
    ensures Linked(ram[bs[k].at := ram[bs[k].at].(used := used)], Mark(bs, k, used))
  {
    var r, s := ram[bs[k].at := ram[bs[k].at].(used := used)], Mark(bs, k, used);
    forall i | 0 <= i < |s| ensures Meets(s, i) && Spells(r, s, i) {
      assert Meets(bs, i) && Spells(ram, bs, i);
    }
  }

  /** Block `k` is unlinked: its predecessor leads past it. */
  lemma {:induction false} JoinLinked(ram: seq<Mem>, r: seq<Mem>, bs: Blocks, k: nat)
    requires Linked(ram, bs) && 0 < k < |bs|
    requires var p, e := bs[k - 1].at, bs[k].end;
             && SameBut(r, ram, p, e, e)
             && r[p] == ram[p].(next := e) && r[e] == ram[e].(prev := p)
    ensures Linked(r, Join(bs, k))
  {
    hide Join, Spells;
    JoinAt(bs, k);
    JoinLaid(bs, k);
    assert Meets(bs, k);
    forall h | 0 <= h < |bs| - 1 ensures Spells(r, Join(bs, k), h) {
      if h < k { JoinSpellsLow(ram, r, bs, k, h); } else { JoinSpellsHigh(ram, r, bs, k, h); }
    }
  }

  lemma {:induction false} JoinSpellsLow(ram: seq<Mem>, r: seq<Mem>, bs: Blocks, k: nat, h: nat)
    requires Linked(ram, bs) && 0 < k < |bs| && h < k
    requires var p, e := bs[k - 1].at, bs[k].end;
             SameBut(r, ram, p, e, e) && r[p] == ram[p].(next := e)
    ensures Spells(r, Join(bs, k), h)
  {
    hide Join;
    JoinAt(bs, k);
    assert Spells(ram, bs, h) && bs[h].at < bs[k].at < bs[k].end;
    assert h < k - 1 ==> bs[h].end <= bs[k - 1].at;
  }

  lemma {:induction false} JoinSpellsHigh(ram: seq<Mem>, r: seq<Mem>, bs: Blocks, k: nat, h: nat)
    requires Linked(ram, bs) && 0 < k <= h < |bs| - 1
    requires var p, e := bs[k - 1].at, bs[k].end;
             SameBut(r, ram, p, e, e) && r[e] == ram[e].(prev := p)
    ensures Spells(r, Join(bs, k), h)
  {
    hide Join;
    JoinAt(bs, k);
    assert Spells(ram, bs, h + 1) && Meets(bs, k) && bs[k - 1].at < bs[k - 1].end <= bs[k].at < bs[k].end;
    assert h == k ==> bs[h + 1].at == bs[k].end;
    assert h > k ==> bs[k + 1].end <= bs[h + 1].at;
  }

  /** A free block from `cut` to the end of block `j - 1` is put behind block `k`. */
  lemma {:induction false} HalvesLinked(ram: seq<Mem>, r: seq<Mem>, bs: Blocks, k: nat, j: nat, cut: int)
    requires Linked(ram, bs) && k < j <= |bs| && bs[k].at < cut < bs[j - 1].end
    requires forall h :: k < h < j ==> cut < bs[h].at
    requires var at, e := bs[k].at, bs[j - 1].end;
             && SameBut(r, ram, at, cut, e)
             && r[cut] == Mem(e, at, false) && r[at] == ram[at].(next := cut, used := true)
             && (e != MEM ==> r[e] == ram[e].(prev := cut))
    requires Laid(Replace(bs, k, j, Halves(bs[k].at, cut, bs[j - 1].end)))
    ensures Linked(r, Replace(bs, k, j, Halves(bs[k].at, cut, bs[j - 1].end)))
  {
    var at, e := bs[k].at, bs[j - 1].end;
    var s := Replace(bs, k, j, Halves(at, cut, e));
    assert Meets(bs, j - 1) && Spells(ram, bs, k);
    assert s[k] == Block(at, cut, true) && s[k + 1] == Block(cut, e, false);
    forall h | 0 <= h < |s| ensures Spells(r, s, h) {
      if h < k {
        assert Spells(ram, bs, h) && s[h] == bs[h] && bs[h].end <= at;
        assert h > 0 ==> s[h - 1] == bs[h - 1];
      } else if h > k + 1 {
        var i := h - k - 2 + j;
        assert Spells(ram, bs, i) && s[h] == bs[i];
        assert h > k + 2 ==> bs[j].end <= bs[i].at && s[h - 1] == bs[i - 1];
      } else if h == k {
        assert h > 0 ==> s[h - 1] == bs[h - 1];
      }
    }
  }

  // ---------------------------------------------------------------- the hint

  lemma {:induction false} HintJoin(bs: Blocks, i: nat)
    requires Laid(bs) && 0 < i < |bs| && !bs[i - 1].used
    ensures LowestFree(Join(bs, i)) == LowestFree(bs) && LowestFree(bs) != bs[i].at
  {
    var k := LowestFreeAt(bs);
    assert k < i && bs[k].end <= bs[i].at;
    JoinAt(bs, i);
    LowestFreeIs(Join(bs, i), k);
  }

  lemma {:induction false} HintMark(bs: Blocks, k: nat)
    requires Laid(bs) && k < |bs| && bs[k].used
    ensures LowestFree(Mark(bs, k, false)) ==
            if bs[k].at < LowestFree(bs) then bs[k].at else LowestFree(bs)
  {
    var l := LowestFreeAt(bs);
    assert k < l < |bs| ==> bs[k].end <= bs[l].at;
    assert l < k ==> bs[l].end <= bs[k].at;
    LowestFreeIs(Mark(bs, k, false), if k < l then k else l);
  }

  /** If block `k` is the hint, everything below it is used. */
  lemma {:induction false} HintIs(bs: Blocks, k: nat)
    requires Laid(bs) && k < |bs| && LowestFree(bs) == bs[k].at
    ensures forall i :: 0 <= i < k ==> bs[i].used
  {
    var l := LowestFreeAt(bs);
    assert forall i :: 0 <= i < k ==> bs[i].end <= bs[k].at;
  }

  /** A block too small to be cut is taken whole. */
  lemma {:induction false} AllocAll(bs: Blocks, k: nat, size: int)
    requires k < |bs| && bs[k].Room() < size + HDR + LEAST
    ensures Alloc(bs, k, size) == Mark(bs, k, true)
  {
  }

  lemma {:induction false} AllocAt(bs: Blocks, k: nat, size: int)
    requires k < |bs|
    ensures var s := Alloc(bs, k, size);
            |s| >= |bs| && s[k].at == bs[k].at && s[k].used && forall i :: 0 <= i < k ==> s[i] == bs[i]
  {
  }

  /** Taking a block above the hint leaves the hint. */
  lemma {:induction false} HintAlloc(bs: Blocks, k: nat, size: int)
    requires k < |bs| && !bs[k].used && LowestFree(bs) != bs[k].at
    ensures LowestFree(Alloc(bs, k, size)) == LowestFree(bs)
  {
    var l := LowestFreeAt(bs);
    assert l < k;
    AllocAt(bs, k, size);
    LowestFreeIs(Alloc(bs, k, size), l);
  }

  /** Where the hint goes when the used block `k`, free behind or not, loses its upper part. */
  lemma {:induction false} HintHalves(bs: Blocks, k: nat, j: nat, cut: int)
    requires Laid(bs) && k < j <= |bs| && bs[k].used && bs[k].at < cut
    requires j == k + 1 || (j == k + 2 && !bs[k + 1].used)
    requires j == k + 1 ==> cut < bs[k].end
    ensures LowestFree(Replace(bs, k, j, Halves(bs[k].at, cut, bs[j - 1].end))) ==
            if j == k + 2 then (if LowestFree(bs) == bs[k + 1].at then cut else LowestFree(bs))
            else if cut < LowestFree(bs) then cut else LowestFree(bs)
  {
    var s := Replace(bs, k, j, Halves(bs[k].at, cut, bs[j - 1].end));
    var l := LowestFreeAt(bs);
    assert s[k].used && s[k + 1] == Block(cut, bs[j - 1].end, false);
    assert forall i :: 0 <= i < k ==> s[i] == bs[i];
    assert l < k ==> bs[l].end <= bs[k].at;
    assert j == k + 2 ==> l < k || l == k + 1;
    assert l < k && j == k + 2 ==> bs[l].end <= bs[k + 1].at;
    assert k < l < |bs| ==> bs[k].end <= bs[l].at;
    LowestFreeIs(s, if l < k then l else k + 1);
  }

  // ---------------------------------------------------------------- the allocator

  class Heap {
    const ram: array<Mem>
    var lfree: u16
    /** lwip_stats.mem.used */
    var used: int
    ghost var blocks: Blocks

    ghost predicate Valid()
      reads this, ram
    {
      Shaped() && Inv(blocks) && used == UsedBytes(blocks)
    }

    /** What holds inside an operation too: linked headers, and the hint in place. */
    ghost predicate Shaped()
      reads this, ram
    {
      ram.Length == MEM + 1 && Linked(ram[..], blocks) && lfree == LowestFree(blocks)
    }

    /** mem_init */
    constructor ()
      ensures Valid() && fresh(ram) && blocks == [Block(0, MEM, false)]
    {
      ram := new Mem[MEM + 1](_ => Mem(0, 0, false));
      lfree := 0;
      used := 0;
      blocks := [Block(0, MEM, false)];
      new;
      ram[0] := Mem(MEM, 0, false);
      ram[MEM] := Mem(MEM, MEM, true);
      OneChain(blocks[0], false);
      InvLaid(blocks);
      UsedOne(blocks[0]);
      assert Spells(ram[..], blocks, 0);
    }

    /** Combine the block `i` at `q` with the block before it, at `p`. */
    method Combine(p: u16, q: u16, ghost i: nat)
      requires ram.Length == MEM + 1 && Linked(ram[..], blocks)
      requires 0 < i < |blocks| && blocks[i - 1].at == p && blocks[i].at == q
      modifies this`lfree, this`blocks, ram
      ensures Linked(ram[..], blocks) && blocks == Join(old(blocks), i)
      ensures lfree == if old(lfree) == q then p else old(lfree)
    {
      assert Spells(ram[..], blocks, i);
      ghost var was := ram[..];
      if lfree == q {
        lfree := p;
      }
      var e := ram[q].next;
      ram[p] := ram[p].(next := e);
      ram[e] := ram[e].(prev := p);
      assert blocks[i - 1].end <= blocks[i].at;
      JoinLinked(was, ram[..], blocks, i);
      blocks := Join(blocks, i);
    }

    /** plug_holes on the free block `k`, whose header is at `mem`. */
    method PlugHoles(mem: u16, ghost k: nat)
      requires Shaped() && k < |blocks| && blocks[k].at == mem && !blocks[k].used
      modifies this`lfree, this`blocks, ram
      ensures Shaped() && blocks == Plug(old(blocks), k)
    {
      assert Spells(ram[..], blocks, k) && Meets(blocks, k);
      assert k + 1 < |blocks| ==> Spells(ram[..], blocks, k + 1);
      var nmem := ram[mem].next;
      if mem != nmem && !ram[nmem].used && nmem != MEM {
        HintJoin(blocks, k + 1);
        JoinAt(blocks, k + 1);
        Combine(mem, nmem, k + 1);
      }
      assert Spells(ram[..], blocks, k);
      assert k > 0 ==> Spells(ram[..], blocks, k - 1) && blocks[k - 1].end <= blocks[k].at;
      var pmem := ram[mem].prev;
      if pmem != mem && !ram[pmem].used {
        HintJoin(blocks, k);
        Combine(pmem, mem, k);
      }
    }

    /** mem_free; `rmem` is an offset into the heap, or None for NULL.  Offsets outside the heap
        are ignored; inside it must be the payload of a used block. */
    method Free(rmem: Option<int>)
      requires Valid()
      requires rmem.Some? && 0 <= rmem.value < MEM ==>
               exists k :: 0 <= k < |blocks| && blocks[k].used && rmem.value == blocks[k].at + HDR
      modifies this, ram
      ensures Valid()
      ensures rmem.None? || !(0 <= rmem.value < MEM) ==> blocks == old(blocks)
      ensures forall k :: 0 <= k < |old(blocks)| && rmem == Some(old(blocks)[k].at + HDR) ==>
              blocks == HeapSpec.Free(old(blocks), k)
    {
      if rmem.None? || !(0 <= rmem.value < MEM) {
        InHeap(blocks);
        return;
      }
      ghost var k: nat :| k < |blocks| && blocks[k].used && rmem.value == blocks[k].at + HDR;
      Once(blocks, k);
      FreeAt(rmem.value - HDR, k);
    }

    method FreeAt(mem: int, ghost k: nat)
      requires Valid() && k < |blocks| && blocks[k].used && blocks[k].at == mem
      modifies this, ram
      ensures Valid() && blocks == HeapSpec.Free(old(blocks), k)
    {
      FreeKeeps(blocks, k);
      FreeUsed(blocks, k);
      FreeIsPlug(blocks, k);
      Release(mem, k);
      used := used - (ram[mem].next - mem);
      PlugHoles(mem, k);
    }

    /** Mark the used block `k` free, and lower the hint. */
    method Release(mem: int, ghost k: nat)
      requires Shaped() && k < |blocks| && blocks[k].used && blocks[k].at == mem
      modifies this`lfree, this`blocks, ram
      ensures Shaped() && blocks == Mark(old(blocks), k, false)
      ensures ram[mem].next == blocks[k].end
    {
      assert Spells(ram[..], blocks, k);
      MarkLinked(ram[..], blocks, k, false);
      HintMark(blocks, k);
      ram[mem] := ram[mem].(used := false);
      if mem < lfree {
        lfree := mem;
      }
      blocks := Mark(blocks, k, false);
    }

    /** mem_malloc: succeeds exactly when a free block has room for the bytes asked for, and then
        takes the lowest that has, as a search from the start of the heap would. */
    method Malloc(request: u16) returns (r: Option<int>)
      requires Valid()
      modifies this, ram
      ensures Valid()
      ensures var bs, size := old(blocks), Rounded(request);
              var k := FirstFit(bs, size, 0);
              if request == 0 || size > MEM || k == |bs| then r.None? && blocks == bs
              else r == Some(bs[k].at + HDR) && blocks == Alloc(bs, k, size)
      ensures 0 < request <= 0xFFFC ==>
                (r.Some? <==> exists b :: b in old(blocks) && !b.used && b.Room() >= request)
    {
      r := None;
      if request == 0 {
        return;
      }
      if request <= 0xFFFC { FitsIff(blocks, request); }
      var size := Rounded(request);
      if size > MEM {
        NoneLarger(blocks);
        return;
      }
      var ptr, found, k := Search(size);
      if found {
        Take(ptr, size, k);
        r := Some(ptr + HDR);
      }
    }

    /** The scan from `lfree` upward. */
    method Search(size: u16) returns (ptr: u16, found: bool, ghost k: nat)
      requires Valid() && LEAST <= size <= MEM
      ensures found == (FirstFit(blocks, size, 0) < |blocks|)
      ensures found ==> ptr == blocks[FirstFit(blocks, size, 0)].at
      ensures k == FirstFit(blocks, size, 0)
    {
      k := LowestFreeAt(blocks);
      ptr := lfree;
      while ptr < MEM - size
        invariant k <= |blocks| && ptr == if k < |blocks| then blocks[k].at else MEM
        invariant forall i :: 0 <= i < k ==> !blocks[i].Holds(size)
        decreases |blocks| - k
      {
        assert Spells(ram[..], blocks, k) && Meets(blocks, k);
        var mem := ram[ptr];
        if !mem.used && mem.next - (ptr + HDR) >= size {
          FirstFitIs(blocks, size, k);
          found := true;
          return;
        }
        ptr := mem.next;
        k := k + 1;
      }
      found := false;
      assert forall i :: k < i < |blocks| ==> blocks[k].end <= blocks[i].at;
      FirstFitIs(blocks, size, |blocks|);
      k := |blocks|;
    }

    /** Take the free block `k` at `mem` for `size` bytes. */
    method Take(mem: u16, size: u16, ghost k: nat)
      requires Valid() && k < |blocks| && blocks[k].Holds(size) && blocks[k].at == mem
      requires LEAST <= size <= MEM && size % 4 == 0
      modifies this, ram
      ensures Valid() && blocks == Alloc(old(blocks), k, size)
    {
      ghost var was := blocks;
      AllocKeeps(was, k, size);
      Claim(mem, size, k);
      AllocAt(was, k, size);
      if mem == lfree {
        HintIs(was, k);
        AdvanceHint(k);
      } else {
        HintAlloc(was, k, size);
      }
    }

    /** The header writes and the statistic of taking block `k`: all of it, or its lower part. */
    method Claim(mem: u16, size: u16, ghost k: nat)
      requires Valid() && k < |blocks| && blocks[k].Holds(size) && blocks[k].at == mem
      requires LEAST <= size <= MEM && size % 4 == 0
      modifies this`used, this`blocks, ram
      ensures Linked(ram[..], blocks) && blocks == Alloc(old(blocks), k, size)
      ensures used == UsedBytes(blocks)
    {
      hide Chain, UsedBytes, Laid;
      AllocKeeps(blocks, k, size);
      AllocUsed(blocks, k, size);
      InvLaid(Alloc(blocks, k, size));
      assert Spells(ram[..], blocks, k);
      if ram[mem].next - (mem + HDR) >= size + HDR + LEAST {
        used := used + size + HDR;
        CutAt(mem, mem + HDR + size, ram[mem].next, k, k + 1);
      } else {
        AllocAll(blocks, k, size);
        MarkLinked(ram[..], blocks, k, true);
        used := used + (ram[mem].next - mem);
        ram[mem] := ram[mem].(used := true);
        blocks := Mark(blocks, k, true);
      }
    }

    /** Put a free block from `cut` to `end`, where block `j - 1` ends, behind block `k` at `mem`. */
    method CutAt(mem: u16, cut: u16, end: u16, ghost k: nat, ghost j: nat)
      requires ram.Length == MEM + 1 && Linked(ram[..], blocks)
      requires k < j <= |blocks| && blocks[k].at == mem < cut < end == blocks[j - 1].end
      requires forall h :: k < h < j ==> cut < blocks[h].at
      requires Laid(Replace(blocks, k, j, Halves(mem, cut, end)))
      modifies this`blocks, ram
      ensures Linked(ram[..], blocks) && blocks == Replace(old(blocks), k, j, Halves(mem, cut, end))
    {
      assert Spells(ram[..], blocks, k);
      ghost var was := ram[..];
      ram[cut] := Mem(end, mem, false);
      ram[mem] := ram[mem].(next := cut, used := true);
      if ram[cut].next != MEM {
        ram[end] := ram[end].(prev := cut);
      }
      HalvesLinked(was, ram[..], blocks, k, j, cut);
      blocks := Replace(blocks, k, j, Halves(mem, cut, end));
    }

    /** Move `lfree`, at the used block `k`, up to the next free block. */
    method AdvanceHint(ghost k: nat)
      requires ram.Length == MEM + 1 && Linked(ram[..], blocks)
      requires k < |blocks| && lfree == blocks[k].at
      requires forall i :: 0 <= i < k ==> blocks[i].used
      modifies this`lfree
      ensures lfree == LowestFree(blocks)
    {
      var cur := lfree;
      ghost var i := k;
      assert Spells(ram[..], blocks, i) && Meets(blocks, i);
      while ram[cur].used && cur != MEM
        invariant i <= |blocks| && cur == if i < |blocks| then blocks[i].at else MEM
        invariant i < |blocks| ==> Spells(ram[..], blocks, i) && Meets(blocks, i)
        invariant forall h :: 0 <= h < i ==> blocks[h].used
        decreases |blocks| - i
      {
        cur := ram[cur].next;
        i := i + 1;
      }
      lfree := cur;
      LowestFreeIs(blocks, i);
    }

    /** mem_trim; `rmem` is an offset into the heap.  Offsets outside the heap are returned
        unchanged; inside it must be the payload of a used block. */
    method Trim(rmem: int, request: u16) returns (r: Option<int>)
      requires Valid()
      requires 0 <= rmem < MEM ==>
               exists k :: 0 <= k < |blocks| && blocks[k].used && rmem == blocks[k].at + HDR
      modifies this, ram
      ensures Valid()
      ensures Rounded(request) > MEM ==> r.None? && blocks == old(blocks)
      ensures Rounded(request) <= MEM && !(0 <= rmem < MEM) ==> r == Some(rmem) && blocks == old(blocks)
      ensures forall k :: 0 <= k < |old(blocks)| && rmem == old(blocks)[k].at + HDR && Rounded(request) <= MEM ==>
              && blocks == HeapSpec.Trim(old(blocks), k, Rounded(request))
              && r == if Rounded(request) > old(blocks)[k].Room() then None else Some(rmem)
    {
      var newsize := Rounded(request);
      if newsize > MEM {
        return None;
      }
      if !(0 <= rmem < MEM) {
        InHeap(blocks);
        return Some(rmem);
      }
      ghost var k: nat :| k < |blocks| && blocks[k].used && rmem == blocks[k].at + HDR;
      Once(blocks, k);
      var done := TrimAt(rmem - HDR, newsize, k);
      r := if done then Some(rmem) else None;
    }

    method TrimAt(ptr: int, newsize: u16, ghost k: nat) returns (done: bool)
      requires Valid() && k < |blocks| && blocks[k].used && blocks[k].at == ptr
      requires LEAST <= newsize <= MEM && newsize % 4 == 0
      modifies this, ram
      ensures Valid() && blocks == HeapSpec.Trim(old(blocks), k, newsize)
      ensures done == (newsize <= old(blocks)[k].Room())
    {
      hide UsedBytes, LowestFree, Chain, Replace, Halves;
      assert Spells(ram[..], blocks, k) && Meets(blocks, k);
      assert k + 1 < |blocks| ==> Spells(ram[..], blocks, k + 1);
      var size := ram[ptr].next - ptr - HDR;
      if newsize > size {
        return false;
      }
      done := true;
      if newsize == size {
        return;
      }
      var mem2 := ram[ptr].next;
      if !ram[mem2].used {
        Lower(ptr, newsize, mem2, k);
        used := used - (size - newsize);
      } else if newsize + HDR + LEAST <= size {
        CutOff(ptr, newsize, mem2, k);
        used := used - (size - newsize);
      }
    }

    /** The free header behind block `k` moves from `mem2` down to the new end of the block. */
    method Lower(ptr: u16, newsize: u16, mem2: u16, ghost k: nat)
      requires Shaped() && Inv(blocks) && k + 1 < |blocks| && blocks[k].at == ptr
      requires mem2 == blocks[k].end == blocks[k + 1].at && blocks[k].used && !blocks[k + 1].used
      requires LEAST <= newsize < blocks[k].Room() && newsize % 4 == 0
      modifies this`lfree, this`blocks, ram
      ensures Shaped() && Inv(blocks) && blocks == HeapSpec.Trim(old(blocks), k, newsize)
      ensures UsedBytes(blocks) == UsedBytes(old(blocks)) - (old(blocks)[k].Room() - newsize)
    {
      hide UsedBytes, LowestFree, Chain, Laid;
      InvLaid(blocks);
      TrimKeeps(blocks, k, newsize);
      TrimUsed(blocks, k, newsize);
      InvLaid(HeapSpec.Trim(blocks, k, newsize));
      assert Spells(ram[..], blocks, k + 1);
      var ptr2 := ptr + HDR + newsize;
      HintHalves(blocks, k, k + 2, ptr2);
      if lfree == mem2 {
        lfree := ptr2;
      }
      CutAt(ptr, ptr2, ram[mem2].next, k, k + 2);
    }

    /** The used block `k` is cut in two. */
    method CutOff(ptr: u16, newsize: u16, mem2: u16, ghost k: nat)
      requires Shaped() && Inv(blocks) && k < |blocks| && blocks[k].at == ptr && mem2 == blocks[k].end
      requires blocks[k].used && (k + 1 < |blocks| ==> blocks[k + 1].used)
      requires LEAST <= newsize && newsize + HDR + LEAST <= blocks[k].Room() && newsize % 4 == 0
      modifies this`lfree, this`blocks, ram
      ensures Shaped() && Inv(blocks) && blocks == HeapSpec.Trim(old(blocks), k, newsize)
      ensures UsedBytes(blocks) == UsedBytes(old(blocks)) - (old(blocks)[k].Room() - newsize)
    {
      hide UsedBytes, LowestFree, Linked, Chain, Laid;
      InvLaid(blocks);
      TrimKeeps(blocks, k, newsize);
      TrimUsed(blocks, k, newsize);
      InvLaid(HeapSpec.Trim(blocks, k, newsize));
      var ptr2 := ptr + HDR + newsize;
      HintHalves(blocks, k, k + 1, ptr2);
      if ptr2 < lfree {
        lfree := ptr2;
      }
      CutAt(ptr, ptr2, mem2, k, k + 1);
    }
  }

  /** No block is larger than the heap. */
  lemma {:induction false} NoneLarger(bs: Blocks)
    requires Inv(bs)
    ensures forall b :: b in bs ==> b.Room() < MEM
  {
    forall i | 0 <= i < |bs| ensures bs[i].Room() < MEM {
      ChainAt(bs, 0, MEM, false, i);
    }
  }

  /** Payloads start inside the heap. */
  lemma {:induction false} InHeap(bs: Blocks)
    requires Inv(bs)
    ensures forall k :: 0 <= k < |bs| ==> 0 <= bs[k].at + HDR < MEM
  {
    forall k | 0 <= k < |bs| ensures 0 <= bs[k].at + HDR < MEM {
      ChainAt(bs, 0, MEM, false, k);
    }
  }
}

/** Whole runs of mem_malloc, mem_free and mem_trim, seen by the client that holds the blocks. */
module HeapRuns {
  import opened SeqNum
  import opened HeapSpec
  import Heap

  /** Blocks are named by the offset of their header; the address handed out is HDR above it. */
  datatype Op = DoMalloc(size: u16) | DoFree(at: int) | DoTrim(at: int, size: u16)

  /** The heap, and how many payload bytes of which block the client may use. */
  datatype World = World(bs: Blocks, held: map<int, int>)

  /** Index of the block with its header at `at`, or |bs|. */
  function IndexOf(bs: Blocks, at: int): (k: nat)
    ensures k <= |bs| && (k < |bs| ==> bs[k].at == at)
    ensures forall i :: 0 <= i < k ==> bs[i].at != at
  {
    if bs == [] || bs[0].at == at then 0 else 1 + IndexOf(bs[1..], at)
  }

  /** The client frees and trims only what it holds. */
  predicate Legal(w: World, op: Op) {
    match op
    case DoMalloc(_) => true
    case DoFree(at) => at in w.held && IndexOf(w.bs, at) < |w.bs|
    case DoTrim(at, _) => at in w.held && IndexOf(w.bs, at) < |w.bs|
  }

  function Step(w: World, op: Op): World
    requires Legal(w, op)
  {
    match op
    case DoMalloc(size) =>
      var n, k := Rounded(size), FirstFit(w.bs, Rounded(size), 0);
      if size == 0 || n > MEM || k == |w.bs| then w
      else World(Alloc(w.bs, k, n), w.held[w.bs[k].at := n])
    case DoFree(at) => World(Free(w.bs, IndexOf(w.bs, at)), w.held - {at})
    case DoTrim(at, size) =>
      var n, k := Rounded(size), IndexOf(w.bs, at);
      if n > MEM || n > w.bs[k].Room() then w else World(Trim(w.bs, k, n), w.held[at := n])
  }

  /** A used block with at least `n` bytes of payload has its header at `at`. */
  ghost predicate Backs(live: set<Block>, at: int, n: int) {
    exists b :: b in live && b.at == at && n <= b.Room()
  }

  /** What is held is backed by used blocks, and no other block is used. */
  ghost predicate Covers(live: set<Block>, held: map<int, int>) {
    && (forall at :: at in held ==> Backs(live, at, held[at]))
    && (forall b :: b in live ==> b.at in held)
  }

  ghost predicate Good(w: World) {
    Inv(w.bs) && Covers(Live(w.bs), w.held)
  }

  lemma {:induction false} HeldAt(w: World, at: int)
    requires Good(w) && at in w.held
    ensures var k := IndexOf(w.bs, at);
            && k < |w.bs| && w.bs[k].at == at && w.bs[k].used
            && w.bs[k] in Live(w.bs) && w.held[at] <= w.bs[k].Room()
  {
    var b :| b in Live(w.bs) && b.at == at && w.held[at] <= b.Room();
    var i :| 0 <= i < |w.bs| && w.bs[i] == b;
    Once(w.bs, i);
  }

  /** A block is added or replaced, and the client learns of it. */
  lemma {:induction false} CoverAdd(live: set<Block>, held: map<int, int>, was: Block, b: Block, n: int)
    requires Covers(live, held) && was.at == b.at && n <= b.Room()
    ensures Covers(live - {was} + {b}, held[b.at := n])
  {
    var l, h := live - {was} + {b}, held[b.at := n];
    forall at | at in h ensures Backs(l, at, h[at]) {
      if at == b.at {
        assert b in l;
      } else {
        var s :| s in live && s.at == at && held[at] <= s.Room();
        assert s in l;
      }
    }
  }

  lemma {:induction false} CoverDrop(live: set<Block>, held: map<int, int>, was: Block)
    requires Covers(live, held) && forall b :: b in live && b.at == was.at ==> b == was
    ensures Covers(live - {was}, held - {was.at})
  {
    forall at | at in held && at != was.at ensures Backs(live - {was}, at, held[at]) {
      var s :| s in live && s.at == at && held[at] <= s.Room();
      assert s in live - {was};
    }
  }

  lemma {:induction false} MallocGood(w: World, size: u16)
    requires Good(w)
    ensures Good(Step(w, DoMalloc(size)))
  {
    var n, k := Rounded(size), FirstFit(w.bs, Rounded(size), 0);
    if size != 0 && n <= MEM && k < |w.bs| {
      AllocKeeps(w.bs, k, n);
      AllocLive(w.bs, k, n);
      assert Live(w.bs) - {w.bs[k]} == Live(w.bs);
      CoverAdd(Live(w.bs), w.held, w.bs[k], Taken(w.bs[k], n), n);
    }
  }

  lemma {:induction false} FreeGood(w: World, at: int)
    requires Good(w) && Legal(w, DoFree(at))
    ensures Good(Step(w, DoFree(at)))
  {
    HeldAt(w, at);
    var k := IndexOf(w.bs, at);
    FreeKeeps(w.bs, k);
    FreeLive(w.bs, k);
    Once(w.bs, k);
    CoverDrop(Live(w.bs), w.held, w.bs[k]);
  }

  lemma {:induction false} TrimGood(w: World, at: int, size: u16)
    requires Good(w) && Legal(w, DoTrim(at, size))
    ensures Good(Step(w, DoTrim(at, size)))
  {
    HeldAt(w, at);
    var n, k := Rounded(size), IndexOf(w.bs, at);
    if n <= MEM && n <= w.bs[k].Room() {
      TrimKeeps(w.bs, k, n);
      TrimLive(w.bs, k, n);
      CoverAdd(Live(w.bs), w.held, w.bs[k], Kept(w.bs, k, n), n);
    }
  }

  lemma {:induction false} StepGood(w: World, op: Op)
    requires Good(w) && Legal(w, op)
    ensures Good(Step(w, op))
  {
    match op
    case DoMalloc(size) => MallocGood(w, size);
    case DoFree(at) => FreeGood(w, at);
    case DoTrim(at, size) => TrimGood(w, at, size);
  }

  /** A run from `w` to `w'`, every operation legal when it is made. */
  ghost predicate Reaches(w: World, ops: seq<Op>, w': World)
    decreases |ops|
  {
    if ops == [] then w == w'
    else Legal(w, ops[0]) && Reaches(Step(w, ops[0]), ops[1..], w')
  }

  /** What is held lies in the heap, each payload apart from every other header and payload. */
  ghost predicate Apart(held: map<int, int>) {
    && (forall p :: p in held ==> 0 <= p && p + HDR + held[p] <= MEM)
    && (forall p, q :: p in held && q in held && p < q ==> p + HDR + held[p] <= q)
  }

  /** Theorem: after any legal run the headers tile the heap, no two free blocks touch, and what
      the client holds is apart. */
  lemma {:induction false} RunSafe(w: World, ops: seq<Op>, w': World)
    requires Good(w) && Reaches(w, ops, w')
    ensures Good(w') && Apart(w'.held)
    decreases |ops|
  {
    if ops == [] {
      GoodApart(w);
    } else {
      StepGood(w, ops[0]);
      RunSafe(Step(w, ops[0]), ops[1..], w');
    }
  }

  lemma {:induction false} GoodApart(w: World)
    requires Good(w)
    ensures Apart(w.held)
  {
    forall p, q | p in w.held && q in w.held
      ensures 0 <= p && p + HDR + w.held[p] <= MEM && (p < q ==> p + HDR + w.held[p] <= q)
    {
      HeldAt(w, p);
      HeldAt(w, q);
      LiveApart(w.bs, w.bs[IndexOf(w.bs, p)], w.bs[IndexOf(w.bs, q)]);
      LiveApart(w.bs, w.bs[IndexOf(w.bs, q)], w.bs[IndexOf(w.bs, p)]);
    }
  }

  /** Theorem: a run that gives everything back restores the heap that mem_init made. */
  lemma {:induction false} RunRestores(w: World, ops: seq<Op>, w': World)
    requires Good(w) && Reaches(w, ops, w') && w'.held == map[]
    ensures w'.bs == [Block(0, MEM, false)]
  {
    RunSafe(w, ops, w');
    AllFree(w'.bs);
  }

  // ---------------------------------------------------------------- the code runs as the model

  /** One operation of a client that holds `held`, on the allocator itself. */
  method Perform(h: Heap.Heap, held: map<int, int>, op: Op) returns (held': map<int, int>)
    requires h.Valid() && Good(World(h.blocks, held)) && Legal(World(h.blocks, held), op)
    modifies h, h.ram
    ensures h.Valid() && World(h.blocks, held') == Step(World(old(h.blocks), held), op)
  {
    hide Inv, Heap.Linked, LowestFree, UsedBytes, FirstFit, Covers, Alloc, Free, Replace, Rounded;
    ghost var w := World(h.blocks, held);
    held' := held;
    match op {
      case DoMalloc(size) =>
        var r := h.Malloc(size);
        if r.Some? {
          held' := held[r.value - HDR := Rounded(size)];
        }
      case DoFree(at) =>
        HeldAt(w, at);
        h.Free(Heap.Some(at + HDR));
        held' := held - {at};
      case DoTrim(at, size) =>
        HeldAt(w, at);
        var r := h.Trim(at + HDR, size);
        if r.Some? {
          held' := held[at := Rounded(size)];
        }
    }
  }

  /** Theorem: after any legal run of mem_malloc, mem_free and mem_trim the headers in `ram` are
      linked both ways and tile the heap, no two free blocks touch, lfree is the lowest free header,
      the statistic is the size of the used blocks, and what the client holds is apart. */
  method PerformAll(h: Heap.Heap, held: map<int, int>, ops: seq<Op>, ghost w': World) returns (held': map<int, int>)
    requires h.Valid() && Good(World(h.blocks, held)) && Reaches(World(h.blocks, held), ops, w')
    modifies h, h.ram
    ensures World(h.blocks, held') == w' && Inv(h.blocks) && Apart(held')
    ensures h.ram.Length == MEM + 1 && Heap.Linked(h.ram[..], h.blocks)
    ensures h.lfree == LowestFree(h.blocks) && h.used == UsedBytes(h.blocks)
  {
    held' := held;
    for i := 0 to |ops|
      invariant h.Valid() && Good(World(h.blocks, held')) && Reaches(World(h.blocks, held'), ops[i..], w')
    {
      StepGood(World(h.blocks, held'), ops[i]);
      assert ops[i..][1..] == ops[i + 1..];
      held' := Perform(h, held', ops[i]);
    }
    GoodApart(World(h.blocks, held'));
  }
}

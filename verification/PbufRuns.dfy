/** Whole runs of the operations on packet buffers. */
module PbufRuns {
  import opened SeqNum
  import opened Common
  import opened PbufRefs

  /** `hs` is the chain at `h`. */
  datatype Op =
    | Allocs(id: Id, len: nat)
    | Refs(p: Id)
    | Cats(h: Id, t: Id, hs: seq<Id>)
    | Chains(h: Id, t: Id, hs: seq<Id>)
    | Dechains(p: Id)
    | Frees(p: Id)

  datatype World = World(m: Pool, owners: multiset<Id>)

  ghost predicate Good(w: World) {
    Counted(w.m, w.owners, Null)
  }

  /** What the source demands of its callers. */
  ghost predicate Legal(w: World, op: Op) {
    match op
    case Allocs(id, _) => id !in w.m
    case Refs(p) => p in w.m
    case Cats(h, t, hs) => Chain(w.m, h, hs) && w.owners[t] > 0 && t !in hs && t in w.m
    case Chains(h, t, hs) => Chain(w.m, h, hs) && w.owners[t] > 0 && t !in hs && t in w.m
    case Dechains(p) => p in w.m && (w.m[p].next.To? ==> w.m[p].next.id in w.m)
    case Frees(p) => w.owners[p] > 0
  }

  /** One more reference to `p`. */
  function Held(m: Pool, p: Id): Pool
    requires p in m
  {
    m[p := m[p].(ref := m[p].ref + 1)]
  }

  ghost function Step(w: World, op: Op): World
    requires Legal(w, op)
  {
    match op
    case Allocs(id, len) => World(w.m[id := Node(Null, 1, len, len)], w.owners + multiset{id})
    case Refs(p) => World(Held(w.m, p), w.owners + multiset{p})
    case Cats(h, t, hs) => World(Joined(w.m, hs, t), w.owners - multiset{t})
    case Chains(h, t, hs) => World(Held(Joined(w.m, hs, t), t), w.owners)
    case Dechains(p) => if w.m[p].next.To? then w.(m := Drop(Cut(w.m, p), w.m[p].next).0) else w
    case Frees(p) => World(Drop(w.m, To(p)).0, w.owners - multiset{p})
  }

  // ---------------------------------------------------------------- counts

  lemma {:induction false} OwnerLeaves(m: Pool, owners: multiset<Id>, p: Id)
    requires Counted(m, owners, Null) && owners[p] > 0
    ensures Counted(m, owners - multiset{p}, To(p))
  {
    hide Before;
  }

  lemma {:induction false} ChainsCounted(w: World, h: Id, t: Id, hs: seq<Id>)
    requires Good(w) && Legal(w, Chains(h, t, hs))
    ensures Good(Step(w, Chains(h, t, hs)))
  {
    hide Before, Chain, Counted, Joined;
    JoinedCounted(w.m, w.owners, h, hs, t);
    ChainHas(w.m, h, hs);
    JoinedHas(w.m, hs, t);
    RefCounted(Joined(w.m, hs, t), w.owners - multiset{t}, t);
    assert w.owners - multiset{t} + multiset{t} == w.owners;
  }

  lemma {:induction false} JoinedHas(m: Pool, hs: seq<Id>, t: Id)
    requires hs != [] && t in m
    ensures t in Joined(m, hs, t)
  {
  }

  lemma {:induction false} StepCounted(w: World, op: Op)
    requires Good(w) && Legal(w, op)
    ensures Good(Step(w, op))
  {
    hide Counted, Chain, Joined, Cut, Drop;
    match op
    case Allocs(id, len) => AllocCounted(w.m, w.owners, id, len);
    case Refs(p) => RefCounted(w.m, w.owners, p);
    case Cats(h, t, hs) => JoinedCounted(w.m, w.owners, h, hs, t);
    case Chains(h, t, hs) => ChainsCounted(w, h, t, hs);
    case Dechains(p) =>
      if w.m[p].next.To? {
        CutCounted(w.m, w.owners, p);
        DropCounted(Cut(w.m, p), w.owners, w.m[p].next);
      }
    case Frees(p) =>
      OwnerLeaves(w.m, w.owners, p);
      DropCounted(w.m, w.owners - multiset{p}, To(p));
  }

  // ---------------------------------------------------------------- total lengths

  /** Nothing shares a part of the first chain, or nothing is added; nothing is in front of a buffer
      whose rest is taken off, or the rest is empty. */
  ghost predicate Tidy(w: World, op: Op)
    requires Legal(w, op)
  {
    match op
    case Cats(_, t, hs) => w.m[t].tot == 0 || forall x :: x in w.m ==> !Shares(w.m, hs, x)
    case Chains(_, t, hs) => w.m[t].tot == 0 || forall x :: x in w.m ==> !Shares(w.m, hs, x)
    case Dechains(p) =>
      w.m[p].next.To? ==>
        && w.m[p].next.id != p && w.m[p].tot < 0x1_0000
        && (Before(w.m, p) == {} || w.m[w.m[p].next.id].tot == 0)
    case _ => true
  }

  lemma {:induction false} DropTotals(m: Pool, owners: multiset<Id>, p: Link)
    requires Counted(m, owners, p) && Totals(m)
    ensures Totals(Drop(m, p).0)
  {
    hide Before, Leads, Maximal, Behind;
    var (m', freed) := Drop(m, p);
    DropRun(m, owners, p);
    DropCounted(m, owners, p);
    WithoutSame(m, m', freed, Behind(m, p, freed));
    forall x | x in m' ensures Total(m', x) {
      assert Total(m, x);
    }
  }

  lemma {:induction false} WithoutSame(m: Pool, m': Pool, run: seq<Id>, q: Link)
    requires Without(m, m', run, q)
    ensures forall x :: x in m' ==>
              x in m && m'[x].tot == m[x].tot && m'[x].len == m[x].len && m'[x].next == m[x].next
  {
  }

  lemma {:induction false} HeldTotals(m: Pool, p: Id)
    requires Totals(m) && p in m
    ensures Totals(Held(m, p))
  {
    forall x | x in Held(m, p) ensures Total(Held(m, p), x) { assert Total(m, x); }
  }

  lemma {:induction false} AllocTotals(m: Pool, owners: multiset<Id>, id: Id, len: nat)
    requires Counted(m, owners, Null) && Totals(m) && id !in m
    ensures Totals(m[id := Node(Null, 1, len, len)])
  {
    hide Before;
    var m' := m[id := Node(Null, 1, len, len)];
    forall x | x in m' ensures Total(m', x) {
      if x != id { assert Total(m, x); }
    }
  }

  lemma {:induction false} StepTotals(w: World, op: Op)
    requires Good(w) && Legal(w, op) && Tidy(w, op) && Totals(w.m)
    ensures Totals(Step(w, op).m)
  {
    hide Counted, Chain, Joined, Cut, Drop, Totals, Shares, Before;
    match op
    case Allocs(id, len) => AllocTotals(w.m, w.owners, id, len);
    case Refs(p) => HeldTotals(w.m, p);
    case Cats(h, t, hs) => JoinedTotals(w.m, h, hs, t);
    case Chains(h, t, hs) =>
      JoinedTotals(w.m, h, hs, t);
      ChainHas(w.m, h, hs);
      JoinedHas(w.m, hs, t);
      HeldTotals(Joined(w.m, hs, t), t);
    case Dechains(p) =>
      if w.m[p].next.To? {
        CutTotals(w.m, p);
        CutCounted(w.m, w.owners, p);
        DropTotals(Cut(w.m, p), w.owners, w.m[p].next);
      }
    case Frees(p) =>
      OwnerLeaves(w.m, w.owners, p);
      DropTotals(w.m, w.owners - multiset{p}, To(p));
  }

  // ---------------------------------------------------------------- runs

  ghost predicate Runs(w: World, ops: seq<Op>)
    decreases |ops|
  {
    ops == [] || (Legal(w, ops[0]) && Runs(Step(w, ops[0]), ops[1..]))
  }

  ghost function Run(w: World, ops: seq<Op>): World
    requires Runs(w, ops)
    decreases |ops|
  {
    if ops == [] then w else Run(Step(w, ops[0]), ops[1..])
  }

  ghost predicate RunsTidy(w: World, ops: seq<Op>)
    requires Runs(w, ops)
    decreases |ops|
  {
    ops == [] || (Tidy(w, ops[0]) && RunsTidy(Step(w, ops[0]), ops[1..]))
  }

  /** Theorem: after any legal run each count is the number of owners and of predecessors, and every
      pointer, of an owner or of a buffer, leads to a buffer that was not freed. */
  lemma {:induction false} RunCounted(w: World, ops: seq<Op>)
    requires Good(w) && Runs(w, ops)
    ensures Good(Run(w, ops))
    decreases |ops|
  {
    hide Good, Step;
    if ops != [] {
      StepCounted(w, ops[0]);
      RunCounted(Step(w, ops[0]), ops[1..]);
    }
  }

  /** Theorem: and if chains are joined and cut only as Tidy says, tot_len of every buffer is its own
      length and the total behind it. */
  lemma {:induction false} RunTotals(w: World, ops: seq<Op>)
    requires Good(w) && Totals(w.m) && Runs(w, ops) && RunsTidy(w, ops)
    ensures Totals(Run(w, ops).m)
    decreases |ops|
  {
    hide Good, Step, Totals, Tidy;
    if ops != [] {
      StepCounted(w, ops[0]);
      StepTotals(w, ops[0]);
      RunTotals(Step(w, ops[0]), ops[1..]);
    }
  }

  /** A buffer with the largest total. */
  lemma {:induction false} Largest(m: Pool, s: set<Id>) returns (x: Id)
    requires s != {} && forall y :: y in s ==> y in m
    ensures x in s && forall y :: y in s ==> m[y].tot <= m[x].tot
    decreases |s|
  {
    var z :| z in s;
    x := z;
    var rest := s - {z};
    assert forall y :: y in s ==> y == z || y in rest;
    if rest != {} {
      var top := Largest(m, rest);
      if m[top].tot > m[z].tot { x := top; }
    }
  }

  /** Theorem: after a tidy run that leaves no owner, with no empty buffer left, everything was freed:
      the buffer with the largest total would have a predecessor with a larger one. */
  lemma {:induction false} RunFrees(w: World, ops: seq<Op>)
    requires Good(w) && Totals(w.m) && Runs(w, ops) && RunsTidy(w, ops)
    requires Run(w, ops).owners == multiset{} && forall x :: x in Run(w, ops).m ==> Run(w, ops).m[x].len > 0
    ensures Run(w, ops).m == map[]
  {
    RunCounted(w, ops);
    RunTotals(w, ops);
    NoneLeft(Run(w, ops).m);
  }

  lemma {:induction false} NoneLeft(m: Pool)
    requires Counted(m, multiset{}, Null) && Totals(m) && forall x :: x in m ==> m[x].len > 0
    ensures m == map[]
  {
    if m.Keys != {} {
      var x := Largest(m, m.Keys);
      Larger(m, x);
    }
  }

  lemma {:induction false} Larger(m: Pool, x: Id)
    requires Counted(m, multiset{}, Null) && Totals(m) && x in m && forall y :: y in m ==> m[y].len > 0
    ensures exists y :: y in m && m[y].tot > m[x].tot
  {
    assert |Before(m, x)| > 0;
    var y :| y in Before(m, x);
    assert Total(m, y);
  }

  // ---------------------------------------------------------------- the code runs as the model

  method Perform(b: Pbufs, op: Op, ghost w: World)
    requires b.Valid() && w == World(b.m, b.owners) && Legal(w, op)
    modifies b
    ensures b.Valid() && World(b.m, b.owners) == Step(w, op)
  {
    hide Counted, Chain, Joined, Cut, Drop;
    match op {
      case Allocs(id, len) => b.Alloc(id, len);
      case Refs(p) => b.Ref(p);
      case Cats(h, t, hs) => b.Cat(h, t, hs);
      case Chains(h, t, hs) =>
        ChainHas(w.m, h, hs);
        JoinedHas(w.m, hs, t);
        b.ChainUp(h, t, hs);
      case Dechains(p) =>
        var _, _ := b.Dechain(p);
      case Frees(p) =>
        var _, _ := b.Free(p);
    }
  }

  /** Theorem: so do the operations themselves. */
  method PerformAll(b: Pbufs, ops: seq<Op>, ghost w: World)
    requires b.Valid() && w == World(b.m, b.owners) && Runs(w, ops)
    modifies b
    ensures b.Valid() && World(b.m, b.owners) == Run(w, ops)
    ensures Totals(w.m) && RunsTidy(w, ops) ==> Totals(b.m)
  {
    hide Step, Run, Runs, Legal, Totals, RunsTidy, Counted;
    ghost var w' := w;
    assert ops[0..] == ops;
    for i := 0 to |ops|
      invariant b.Valid() && w' == World(b.m, b.owners) && Runs(w', ops[i..]) && Run(w', ops[i..]) == Run(w, ops)
    {
      RunsNext(w', ops, i);
      Perform(b, ops[i], w');
      w' := Step(w', ops[i]);
    }
    assert ops[|ops|..] == [];
    RunNone(w');
    if Totals(w.m) && RunsTidy(w, ops) { RunTotals(w, ops); }
  }

  lemma {:induction false} RunsNext(w: World, ops: seq<Op>, i: nat)
    requires i < |ops| && Runs(w, ops[i..])
    ensures Legal(w, ops[i]) && Runs(Step(w, ops[i]), ops[i + 1..])
    ensures Run(w, ops[i..]) == Run(Step(w, ops[i]), ops[i + 1..])
  {
    hide Step, Legal;
    assert ops[i..][1..] == ops[i + 1..];
  }

  lemma {:induction false} RunNone(w: World)
    ensures Runs(w, []) && Run(w, []) == w
  {
  }
}

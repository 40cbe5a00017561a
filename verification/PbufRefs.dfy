/** Reference counts of packet buffers: pbuf_free, pbuf_ref, pbuf_cat, pbuf_chain and pbuf_dechain. */
module PbufRefs {
  import opened SeqNum
  import opened Common

  type Id = nat

  /** struct pbuf without its bytes. */
  datatype Node = Node(next: Link, ref: nat, len: nat, tot: nat)

  type Pool = map<Id, Node>

  // ---------------------------------------------------------------- what the counts mean

  /** The buffers whose next is `id`. */
  ghost function Before(m: Pool, id: Id): set<Id> {
    set x | x in m && m[x].next == To(id)
  }

  /** Every pointer leads to a buffer that is allocated. */
  ghost predicate Closed(m: Pool, owners: multiset<Id>) {
    && (forall id :: id in owners ==> id in m)
    && (forall x :: x in m && m[x].next.To? ==> m[x].next.id in m)
  }

  /** Each count is the number of owners and of predecessors, and one more for `extra`. */
  ghost predicate Counted(m: Pool, owners: multiset<Id>, extra: Link) {
    && Closed(m, owners) && (extra.To? ==> extra.id in m)
    && (forall id :: id in m ==>
         m[id].ref == owners[id] + |Before(m, id)| + (if extra == To(id) then 1 else 0) && m[id].ref > 0)
  }

  // ---------------------------------------------------------------- giving up a reference

  /** What giving up one reference to `p` leaves, and the buffers it frees, in order. */
  function Drop(m: Pool, p: Link): (Pool, seq<Id>)
    decreases m.Keys
  {
    if p == Null || p.id !in m then (m, [])
    else if m[p.id].ref > 1 then (m[p.id := m[p.id].(ref := m[p.id].ref - 1)], [])
    else
      var r := Drop(m - {p.id}, m[p.id].next);
      (r.0, [p.id] + r.1)
  }

  lemma {:induction false} DropStep(m: Pool, p: Id)
    requires p in m && m[p].ref > 0
    ensures m[p].ref > 1 ==> Drop(m, To(p)) == (m[p := m[p].(ref := m[p].ref - 1)], [])
    ensures m[p].ref == 1 ==>
              Drop(m, To(p)) == (Drop(m - {p}, m[p].next).0, [p] + Drop(m - {p}, m[p].next).1)
  {
  }

  lemma {:induction false} DropNull(m: Pool)
    ensures Drop(m, Null) == (m, [])
  {
  }

  lemma {:induction false} BeforeDrop(m: Pool, p: Id, id: Id)
    requires p in m
    ensures |Before(m - {p}, id)| == |Before(m, id)| - if m[p].next == To(id) then 1 else 0
  {
    if m[p].next == To(id) {
      assert Before(m, id) == Before(m - {p}, id) + {p};
    } else {
      assert Before(m, id) == Before(m - {p}, id);
    }
  }

  /** A change of a count leaves the links. */
  lemma {:induction false} BeforeSame(m: Pool, p: Id, ref: nat, id: Id)
    requires p in m
    ensures Before(m[p := m[p].(ref := ref)], id) == Before(m, id)
  {
  }

  /** The buffer that loses its last reference is not pointed to; its successor takes its place. */
  lemma {:induction false} LastReference(m: Pool, owners: multiset<Id>, p: Id)
    requires Counted(m, owners, To(p)) && m[p].ref == 1
    ensures Counted(m - {p}, owners, m[p].next)
  {
    var m' := m - {p};
    assert owners[p] == 0 && Before(m, p) == {};
    forall x | x in m' && m'[x].next.To? ensures m'[x].next.id in m' {
      assert m'[x].next == To(p) ==> x in Before(m, p);
    }
    assert m[p].next != To(p) by {
      assert m[p].next == To(p) ==> p in Before(m, p);
    }
    forall id | id in m'
      ensures m'[id].ref == owners[id] + |Before(m', id)| + (if m[p].next == To(id) then 1 else 0)
    {
      BeforeDrop(m, p, id);
    }
  }

  lemma {:induction false} OneLess(m: Pool, owners: multiset<Id>, p: Id)
    requires Counted(m, owners, To(p)) && m[p].ref > 1
    ensures Counted(m[p := m[p].(ref := m[p].ref - 1)], owners, Null)
  {
    hide Before;
    var m' := m[p := m[p].(ref := m[p].ref - 1)];
    forall id | id in m' ensures m'[id].ref == owners[id] + |Before(m', id)| && m'[id].ref > 0 {
      BeforeSame(m, p, m[p].ref - 1, id);
    }
  }

  lemma {:induction false} CountedHas(m: Pool, owners: multiset<Id>, p: Link)
    requires Counted(m, owners, p)
    ensures p.To? ==> p.id in m && m[p.id].ref > 0
    ensures p == Null ==> Counted(m, owners, Null)
  {
  }

  /** Theorem: giving up a reference leaves the counts exact, so no buffer that is still pointed to
      is freed. */
  lemma {:induction false} DropCounted(m: Pool, owners: multiset<Id>, p: Link)
    requires Counted(m, owners, p)
    ensures Counted(Drop(m, p).0, owners, Null)
    decreases m.Keys
  {
    hide Counted;
    CountedHas(m, owners, p);
    if p.To? {
      if m[p.id].ref > 1 {
        OneLess(m, owners, p.id);
      } else {
        LastReference(m, owners, p.id);
        DropCounted(m - {p.id}, owners, m[p.id].next);
      }
    }
  }

  /** The chain from `p` on starts with the buffers `run`. */
  ghost predicate Leads(m: Pool, p: Link, run: seq<Id>)
    decreases |run|
  {
    run == [] || (p == To(run[0]) && run[0] in m && Leads(m, m[run[0]].next, run[1..]))
  }

  /** What comes behind them. */
  ghost function Behind(m: Pool, p: Link, run: seq<Id>): Link
    requires Leads(m, p, run)
    decreases |run|
  {
    if run == [] then p else Behind(m, m[run[0]].next, run[1..])
  }

  lemma {:induction false} LeadsMore(m: Pool, x: Id, p: Link, run: seq<Id>)
    requires Leads(m - {x}, p, run)
    ensures Leads(m, p, run) && Behind(m, p, run) == Behind(m - {x}, p, run)
    decreases |run|
  {
    if run != [] { LeadsMore(m, x, m[run[0]].next, run[1..]); }
  }

  /** All of `run` had a count of 1, and the link `q` behind it leads to no other such buffer. */
  ghost predicate Maximal(m: Pool, run: seq<Id>, q: Link) {
    && (forall id :: id in run ==> id in m && m[id].ref == 1)
    && (q.To? ==> q.id in m && q.id !in run && m[q.id].ref > 1)
  }

  /** The pool without `run`, and with one reference to `q` less. */
  ghost predicate Without(m: Pool, m': Pool, run: seq<Id>, q: Link) {
    && (forall id :: id in m' <==> id in m && id !in run)
    && (forall id :: id in m' ==> m'[id] == if q == To(id) && m[id].ref > 0 then m[id].(ref := m[id].ref - 1) else m[id])
  }

  lemma {:induction false} RunStep(m: Pool, p: Id, m': Pool, run: seq<Id>, q: Link)
    requires p in m && m[p].ref == 1
    requires Maximal(m - {p}, run, q) && Without(m - {p}, m', run, q)
    ensures Maximal(m, [p] + run, q) && Without(m, m', [p] + run, q)
  {
  }

  lemma {:induction false} LeadsStep(m: Pool, p: Id, run: seq<Id>)
    requires p in m && Leads(m - {p}, m[p].next, run)
    ensures Leads(m, To(p), [p] + run) && Behind(m, To(p), [p] + run) == Behind(m - {p}, m[p].next, run)
  {
    LeadsMore(m, p, m[p].next, run);
    assert ([p] + run)[1..] == run;
  }

  lemma {:induction false} DropStops(m: Pool, p: Link)
    requires p.To? ==> p.id in m && m[p.id].ref > 1
    ensures var (m', freed) := Drop(m, p);
            Leads(m, p, freed) && Maximal(m, freed, Behind(m, p, freed)) && Without(m, m', freed, Behind(m, p, freed))
  {
  }

  /** Theorem: what is freed is the longest run of buffers at the head of the chain that had a count
      of 1; the rest of the pool is untouched but for the count of the buffer behind the run. */
  lemma {:induction false} DropRun(m: Pool, owners: multiset<Id>, p: Link)
    requires Counted(m, owners, p)
    ensures var (m', freed) := Drop(m, p);
            Leads(m, p, freed) && Maximal(m, freed, Behind(m, p, freed)) && Without(m, m', freed, Behind(m, p, freed))
    decreases m.Keys
  {
    hide Maximal, Without, Leads, Behind, Counted;
    CountedHas(m, owners, p);
    if p == Null || m[p.id].ref > 1 {
      DropStops(m, p);
    } else {
      var r := Drop(m - {p.id}, m[p.id].next);
      LastReference(m, owners, p.id);
      DropRun(m - {p.id}, owners, m[p.id].next);
      LeadsStep(m, p.id, r.1);
      RunStep(m, p.id, r.0, r.1, Behind(m - {p.id}, m[p.id].next, r.1));
    }
  }

  // ---------------------------------------------------------------- joining chains

  /** `hs` is the whole chain from `h`. */
  ghost predicate Chain(m: Pool, h: Id, hs: seq<Id>) {
    && hs != [] && hs[0] == h && (forall i :: 0 <= i < |hs| ==> hs[i] in m)
    && (forall i, j :: 0 <= i < j < |hs| ==> hs[i] != hs[j])
    && (forall i :: 0 <= i < |hs| ==> m[hs[i]].next == After(hs, i))
  }

  function After(hs: seq<Id>, i: nat): Link {
    if i + 1 < |hs| then To(hs[i + 1]) else Null
  }

  /** The pool with `add` added to the totals of `hs`. */
  function Bumped(m: Pool, hs: seq<Id>, add: nat): Pool {
    map x | x in m :: if x in hs then m[x].(tot := m[x].tot + add) else m[x]
  }

  /** The pool after the chain at `t` was put behind the chain `hs`. */
  function Joined(m: Pool, hs: seq<Id>, t: Id): Pool
    requires hs != [] && t in m
  {
    map x | x in m :: if x !in hs then m[x]
                      else m[x].(tot := m[x].tot + m[t].tot, next := if x == hs[|hs| - 1] then To(t) else m[x].next)
  }

  lemma {:induction false} ChainHas(m: Pool, h: Id, hs: seq<Id>)
    requires Chain(m, h, hs)
    ensures hs != [] && hs[0] == h
  {
  }

  lemma {:induction false} BumpNone(m: Pool, hs: seq<Id>, add: nat)
    ensures Bumped(m, hs[..0], add) == m
  {
  }

  lemma {:induction false} ChainAt(m: Pool, h: Id, hs: seq<Id>, k: nat)
    requires Chain(m, h, hs) && k < |hs|
    ensures hs[k] in m && hs[k] !in hs[..k] && m[hs[k]].next == After(hs, k)
  {
  }

  lemma {:induction false} BumpAt(m: Pool, h: Id, hs: seq<Id>, k: nat, add: nat)
    requires Chain(m, h, hs) && k < |hs|
    ensures var b := Bumped(m, hs[..k], add);
            hs[k] in b && b[hs[k]] == m[hs[k]] && m[hs[k]].next == After(hs, k)
  {
    hide Chain;
    ChainAt(m, h, hs, k);
  }

  lemma {:induction false} BumpStep(m: Pool, h: Id, hs: seq<Id>, k: nat, add: nat)
    requires Chain(m, h, hs) && k + 1 < |hs|
    ensures var b := Bumped(m, hs[..k], add);
            hs[k] in b && Bumped(m, hs[..k + 1], add) == b[hs[k] := b[hs[k]].(tot := b[hs[k]].tot + add)]
  {
    hide Chain;
    ChainAt(m, h, hs, k);
    var p := hs[..k + 1];
    assert p == hs[..k] + [hs[k]];
    assert forall x :: x in p <==> x in hs[..k] || x == hs[k];
  }

  lemma {:induction false} JoinLast(m: Pool, h: Id, hs: seq<Id>, t: Id)
    requires Chain(m, h, hs) && t in m
    ensures var k := |hs| - 1;
            var b := Bumped(m, hs[..k], m[t].tot);
            hs[k] in b && Joined(m, hs, t) == b[hs[k] := b[hs[k]].(tot := b[hs[k]].tot + m[t].tot, next := To(t))]
  {
    var k := |hs| - 1;
    assert hs == hs[..k] + [hs[k]] && hs[k] !in hs[..k];
  }

  lemma {:induction false} JoinedNext(m: Pool, h: Id, hs: seq<Id>, t: Id, x: Id)
    requires Chain(m, h, hs) && t in m && x in m
    ensures var last := hs[|hs| - 1];
            && m[last].next == Null && last in m
            && Joined(m, hs, t)[x].next == if x == last then To(t) else m[x].next
  {
    assert m[hs[|hs| - 1]].next == After(hs, |hs| - 1);
  }

  lemma {:induction false} JoinedBefore(m: Pool, h: Id, hs: seq<Id>, t: Id, id: Id)
    requires Chain(m, h, hs) && t in m
    ensures |Before(Joined(m, hs, t), id)| == |Before(m, id)| + if id == t then 1 else 0
  {
    hide Chain;
    ChainHas(m, h, hs);
    var m', last := Joined(m, hs, t), hs[|hs| - 1];
    JoinedNext(m, h, hs, t, t);
    forall x | x in m ensures m'[x].next == if x == last then To(t) else m[x].next {
      JoinedNext(m, h, hs, t, x);
    }
    assert last in Before(m', t) && last !in Before(m, id);
    assert Before(m', id) == Before(m, id) + if id == t then {last} else {};
  }

  lemma {:induction false} JoinedCounted(m: Pool, owners: multiset<Id>, h: Id, hs: seq<Id>, t: Id)
    requires Chain(m, h, hs) && Counted(m, owners, Null) && owners[t] > 0
    ensures Counted(Joined(m, hs, t), owners - multiset{t}, Null)
  {
    hide Before;
    var m', owners' := Joined(m, hs, t), owners - multiset{t};
    forall id | id in m' ensures m'[id].ref == owners'[id] + |Before(m', id)| && m'[id].ref > 0 {
      JoinedBefore(m, h, hs, t, id);
    }
  }

  /** Theorem: joining two chains gives one chain, the second behind the first. */
  lemma {:induction false} JoinedChain(m: Pool, h: Id, hs: seq<Id>, t: Id, ts: seq<Id>)
    requires Chain(m, h, hs) && Chain(m, t, ts) && forall x :: x in hs ==> x !in ts
    ensures Chain(Joined(m, hs, t), h, hs + ts)
  {
    var m', cs := Joined(m, hs, t), hs + ts;
    forall i, j | 0 <= i < j < |cs| ensures cs[i] != cs[j] {
      if i < |hs| <= j { assert cs[i] in hs && ts[j - |hs|] in ts; }
    }
    forall i | 0 <= i < |cs| ensures cs[i] in m' && m'[cs[i]].next == After(cs, i) {
      if i < |hs| { assert hs[i] in hs; } else { assert ts[i - |hs|] in ts; }
    }
  }

  /** tot_len of every buffer is its own length and the total behind it. */
  ghost predicate Totals(m: Pool) {
    forall x :: x in m ==> Total(m, x)
  }

  ghost predicate Total(m: Pool, x: Id)
    requires x in m
  {
    m[x].tot == m[x].len + if m[x].next.To? && m[x].next.id in m then m[m[x].next.id].tot else 0
  }

  /** A buffer outside the chain `hs` shares a part of it. */
  ghost predicate Shares(m: Pool, hs: seq<Id>, x: Id) {
    x in m && x !in hs && m[x].next.To? && m[x].next.id in hs
  }

  lemma {:induction false} JoinedTotal(m: Pool, h: Id, hs: seq<Id>, t: Id, x: Id)
    requires Totals(m) && Chain(m, h, hs) && t in m && t !in hs && x in m
    ensures Total(Joined(m, hs, t), x) <==> m[t].tot == 0 || !Shares(m, hs, x)
  {
    assert Total(m, x);
    if x in hs {
      var i :| 0 <= i < |hs| && hs[i] == x;
      assert i + 1 < |hs| ==> hs[i + 1] in hs && x != hs[|hs| - 1];
    }
  }

  /** Theorem: joining keeps the totals exactly when no other buffer shares a part of the first
      chain, or there is nothing to add. */
  lemma {:induction false} JoinedTotals(m: Pool, h: Id, hs: seq<Id>, t: Id)
    requires Totals(m) && Chain(m, h, hs) && t in m && t !in hs
    ensures Totals(Joined(m, hs, t)) <==> m[t].tot == 0 || forall x :: x in m ==> !Shares(m, hs, x)
  {
    forall x | x in m ensures Total(Joined(m, hs, t), x) <==> m[t].tot == 0 || !Shares(m, hs, x) {
      JoinedTotal(m, h, hs, t, x);
    }
  }

  /** Two buffers in front of a third, and a fourth alone, each of one byte. */
  function Shared(): Pool {
    map[1 := Node(To(3), 1, 1, 2), 2 := Node(To(3), 1, 1, 2), 3 := Node(Null, 2, 1, 1), 4 := Node(Null, 1, 1, 1)]
  }

  /** Joining the fourth to the first leaves the total of the second one too small. */
  lemma {:induction false} SharedSpoils(m: Pool)
    requires m == Shared()
    ensures Totals(m) && Chain(m, 1, [1, 3]) && Shares(m, [1, 3], 2) && !Totals(Joined(m, [1, 3], 4))
  {
    JoinedTotals(m, 1, [1, 3], 4);
  }

  // ---------------------------------------------------------------- the operations

  lemma {:induction false} AllocCounted(m: Pool, owners: multiset<Id>, id: Id, len: nat)
    requires Counted(m, owners, Null) && id !in m
    ensures Counted(m[id := Node(Null, 1, len, len)], owners + multiset{id}, Null)
  {
    hide Before;
    var m' := m[id := Node(Null, 1, len, len)];
    assert owners[id] == 0;
    forall x | x in m' ensures m'[x].ref == (owners + multiset{id})[x] + |Before(m', x)| && m'[x].ref > 0 {
      AllocBefore(m, owners, id, len, x);
    }
  }

  lemma {:induction false} AllocBefore(m: Pool, owners: multiset<Id>, id: Id, len: nat, x: Id)
    requires Closed(m, owners) && id !in m
    ensures Before(m[id := Node(Null, 1, len, len)], x) == if x == id then {} else Before(m, x)
  {
  }

  lemma {:induction false} RefCounted(m: Pool, owners: multiset<Id>, p: Id)
    requires Counted(m, owners, Null) && p in m
    ensures Counted(m[p := m[p].(ref := m[p].ref + 1)], owners + multiset{p}, Null)
  {
    hide Before;
    var m' := m[p := m[p].(ref := m[p].ref + 1)];
    forall x | x in m' ensures m'[x].ref == (owners + multiset{p})[x] + |Before(m', x)| && m'[x].ref > 0 {
      BeforeSame(m, p, m[p].ref + 1, x);
    }
  }

  class Pbufs {
    var m: Pool
    ghost var owners: multiset<Id>

    ghost predicate Valid()
      reads this
    {
      Counted(m, owners, Null)
    }

    /** pbuf_alloc of one buffer; `id` is the block that the allocator gives. */
    method Alloc(id: Id, len: nat)
      requires Valid() && id !in m
      modifies this
      ensures Valid() && owners == old(owners) + multiset{id} && m == old(m)[id := Node(Null, 1, len, len)]
    {
      AllocCounted(m, owners, id, len);
      m := m[id := Node(Null, 1, len, len)];
      owners := owners + multiset{id};
    }

    /** The loop of pbuf_free, for a reference that is no longer counted; the number of buffers
        freed is kept in 8 bits. */
    method Release(p: Link) returns (count: byte, ghost freed: seq<Id>)
      requires Counted(m, owners, p)
      modifies this`m
      ensures Valid() && (m, freed) == Drop(old(m), p) && count == |freed| % 256
    {
      hide Counted, Drop;
      DropCounted(m, owners, p);
      ghost var was := m;
      var q := p;
      count, freed := 0, [];
      while q != Null
        invariant Counted(m, owners, q) && count == |freed| % 256
        invariant Drop(m, q).0 == Drop(was, p).0 && freed + Drop(m, q).1 == Drop(was, p).1
        decreases m.Keys, q.To?
      {
        CountedHas(m, owners, q);
        DropStep(m, q.id);
        var ref := m[q.id].ref - 1;
        if ref == 0 {
          LastReference(m, owners, q.id);
          var next := m[q.id].next;
          freed, count := freed + [q.id], (count + 1) % 256;
          assert freed + Drop(m - {q.id}, next).1 == Drop(was, p).1;
          m := m - {q.id};
          q := next;
        } else {
          OneLess(m, owners, q.id);
          DropNull(m[q.id := m[q.id].(ref := ref)]);
          m := m[q.id := m[q.id].(ref := ref)];
          q := Null;
        }
      }
      DropNull(m);
      assert freed + [] == freed;
    }

    /** pbuf_free by an owner */
    method Free(p: Id) returns (count: byte, ghost freed: seq<Id>)
      requires Valid() && owners[p] > 0
      modifies this
      ensures Valid() && owners == old(owners) - multiset{p}
      ensures (m, freed) == Drop(old(m), To(p)) && count == |freed| % 256
    {
      owners := owners - multiset{p};
      count, freed := Release(To(p));
    }

    /** pbuf_ref */
    method Ref(p: Id)
      requires Valid() && p in m
      modifies this
      ensures Valid() && owners == old(owners) + multiset{p}
      ensures m == old(m)[p := old(m)[p].(ref := old(m)[p].ref + 1)]
    {
      RefCounted(m, owners, p);
      m := m[p := m[p].(ref := m[p].ref + 1)];
      owners := owners + multiset{p};
    }

    /** pbuf_cat: the caller's reference to `t` becomes that of the last buffer of the chain at `h`. */
    method Cat(h: Id, t: Id, ghost hs: seq<Id>)
      requires Valid() && Chain(m, h, hs) && owners[t] > 0 && t !in hs
      modifies this
      ensures Valid() && owners == old(owners) - multiset{t} && m == Joined(old(m), hs, t)
    {
      hide Counted, Bumped, Joined, Chain;
      ghost var was, k := m, 0;
      ChainHas(m, h, hs);
      JoinedCounted(m, owners, h, hs, t);
      CountedOwns(m, owners, t);
      BumpNone(m, hs, m[t].tot);
      BumpAt(was, h, hs, k, m[t].tot);
      var p, add := h, m[t].tot;
      while m[p].next != Null
        invariant 0 <= k < |hs| && p == hs[k] && m == Bumped(was, hs[..k], add)
        invariant p in m && m[p].next == After(hs, k) && owners == old(owners)
        decreases |hs| - k
      {
        BumpStep(was, h, hs, k, add);
        BumpAt(was, h, hs, k + 1, add);
        var next := m[p].next.id;
        m := m[p := m[p].(tot := m[p].tot + add)];
        p, k := next, k + 1;
      }
      JoinLast(was, h, hs, t);
      m := m[p := m[p].(tot := m[p].tot + add, next := To(t))];
      owners := owners - multiset{t};
    }

    /** pbuf_chain: the caller keeps its reference. */
    method ChainUp(h: Id, t: Id, ghost hs: seq<Id>)
      requires Valid() && Chain(m, h, hs) && owners[t] > 0 && t !in hs
      modifies this
      ensures Valid() && owners == old(owners)
      ensures var j := Joined(old(m), hs, t); m == j[t := j[t].(ref := j[t].ref + 1)]
    {
      Cat(h, t, hs);
      Ref(t);
      assert old(owners) - multiset{t} + multiset{t} == old(owners);
    }

    /** pbuf_dechain: the buffers behind `p` lose its reference.  What is returned is what is left of
        them; but the count of freed buffers has 8 bits, and when it comes to a multiple of 256 a
        buffer that was freed is returned. */
    method Dechain(p: Id) returns (q: Link, ghost freed: seq<Id>)
      requires Valid() && p in m
      modifies this
      ensures Valid() && owners == old(owners)
      ensures old(m)[p].next == Null ==> m == old(m) && q == Null
      ensures old(m)[p].next.To? ==> old(m)[p].next.id in old(m) && (m, freed) == Drop(Cut(old(m), p), old(m)[p].next)
      ensures q.To? ==> q == old(m)[p].next
      ensures old(m)[p].next.To? ==> (q.To? <==> |freed| % 256 == 0)
      ensures old(m)[p].next.To? && q.To? ==> (q.id in m <==> freed == [])
    {
      hide Counted, Drop;
      q, freed := m[p].next, [];
      if q.To? {
        CountedNext(m, owners, p);
        CutCounted(m, owners, p);
        DropHead(Cut(m, p), q);
        m := m[q.id := m[q.id].(tot := (m[p].tot - m[p].len) % 0x1_0000)];
        m := m[p := m[p].(next := Null, tot := m[p].len)];
        var gone;
        gone, freed := Release(q);
        if gone > 0 { q := Null; }
      }
    }
  }

  lemma {:induction false} CountedNext(m: Pool, owners: multiset<Id>, p: Id)
    requires Counted(m, owners, Null) && p in m && m[p].next.To?
    ensures m[p].next.id in m
  {
  }

  lemma {:induction false} CountedOwns(m: Pool, owners: multiset<Id>, t: Id)
    requires Counted(m, owners, Null) && owners[t] > 0
    ensures t in m
  {
  }

  /** The total of the buffers behind `p`, as pbuf_dechain computes it in 16 bits. */
  function Rest(m: Pool, p: Id): nat
    requires p in m
  {
    (m[p].tot - m[p].len) % 0x1_0000
  }

  /** The pool with the total behind `p` written to the next buffer. */
  function Repaired(m: Pool, p: Id): Pool
    requires p in m && m[p].next.To? && m[p].next.id in m
  {
    m[m[p].next.id := m[m[p].next.id].(tot := Rest(m, p))]
  }

  /** The buffer `p` without what follows it. */
  function Cut(m: Pool, p: Id): Pool
    requires p in m && m[p].next.To? && m[p].next.id in m
  {
    var m' := Repaired(m, p);
    m'[p := m'[p].(next := Null, tot := m[p].len)]
  }

  lemma {:induction false} CutBefore(m: Pool, p: Id, id: Id)
    requires p in m && m[p].next.To? && m[p].next.id in m
    ensures |Before(Cut(m, p), id)| == |Before(m, id)| - if m[p].next == To(id) then 1 else 0
  {
    hide Cut;
    CutNext(m, p);
    if m[p].next == To(id) {
      assert Before(m, id) == Before(Cut(m, p), id) + {p};
    } else {
      assert Before(m, id) == Before(Cut(m, p), id);
    }
  }

  lemma {:induction false} CutNext(m: Pool, p: Id)
    requires p in m && m[p].next.To? && m[p].next.id in m
    ensures Cut(m, p).Keys == m.Keys
    ensures forall x :: x in m ==> Cut(m, p)[x].ref == m[x].ref && Cut(m, p)[x].next == if x == p then Null else m[x].next
  {
  }

  lemma {:induction false} CutCounted(m: Pool, owners: multiset<Id>, p: Id)
    requires Counted(m, owners, Null) && p in m && m[p].next.To? && m[p].next.id in m
    ensures Counted(Cut(m, p), owners, m[p].next)
  {
    hide Before, Cut;
    CutNext(m, p);
    var m' := Cut(m, p);
    forall id | id in m'
      ensures m'[id].ref == owners[id] + |Before(m', id)| + (if m[p].next == To(id) then 1 else 0) && m'[id].ref > 0
    {
      CutBefore(m, p, id);
    }
  }

  /** Theorem: taking the rest off a buffer leaves that buffer alone, and the rest in one chain. */
  lemma {:induction false} CutChain(m: Pool, p: Id, ps: seq<Id>)
    requires Chain(m, p, ps) && |ps| > 1
    ensures m[p].next == To(ps[1]) && ps[1] in m && Chain(Cut(m, p), p, [p]) && Chain(Cut(m, p), ps[1], ps[1..])
  {
    hide Cut;
    ChainAt(m, p, ps, 0);
    ChainAt(m, p, ps, 1);
    CutNext(m, p);
    var cs := ps[1..];
    forall i | 0 <= i < |cs| ensures cs[i] in Cut(m, p) && Cut(m, p)[cs[i]].next == After(cs, i) {
      ChainAt(m, p, ps, i + 1);
      assert cs[i] == ps[i + 1] != ps[0];
    }
  }

  lemma {:induction false} CutTotal(m: Pool, p: Id, x: Id)
    requires Totals(m) && p in m && m[p].next.To? && m[p].next.id in m && m[p].next.id != p && m[p].tot < 0x1_0000
    requires x in m
    ensures Total(Cut(m, p), x) <==> m[x].next != To(p) || m[m[p].next.id].tot == 0
  {
    assert Total(m, p) && Total(m, x);
    assert Rest(m, p) == m[m[p].next.id].tot;
  }

  /** Theorem: taking the rest off a buffer keeps the totals exactly when nothing is in front of the
      buffer, or the rest is empty. */
  lemma {:induction false} CutTotals(m: Pool, p: Id)
    requires Totals(m) && p in m && m[p].next.To? && m[p].next.id in m && m[p].next.id != p && m[p].tot < 0x1_0000
    ensures Totals(Cut(m, p)) <==> Before(m, p) == {} || m[m[p].next.id].tot == 0
  {
    hide Total;
    forall x | x in m ensures Total(Cut(m, p), x) <==> m[x].next != To(p) || m[m[p].next.id].tot == 0 {
      CutTotal(m, p, x);
    }
    assert forall x :: x in Cut(m, p) <==> x in m;
    assert forall x :: x in m ==> (m[x].next == To(p) <==> x in Before(m, p));
    if Before(m, p) != {} {
      var x :| x in Before(m, p);
      assert x in Cut(m, p);
    }
  }

  /** Three buffers in a chain, each of one byte. */
  function Three(): Pool {
    map[1 := Node(To(2), 1, 1, 3), 2 := Node(To(3), 1, 1, 2), 3 := Node(Null, 1, 1, 1)]
  }

  /** Taking the rest off the second leaves the total of the first one too large. */
  lemma {:induction false} CutSpoils(m: Pool)
    requires m == Three()
    ensures Totals(m) && !Totals(Cut(m, 2))
  {
    assert 1 in Before(m, 2);
    CutTotals(m, 2);
  }

  /** The head is freed if and only if anything is. */
  lemma {:induction false} DropHead(m: Pool, p: Link)
    requires p.To? && p.id in m
    ensures var (m', freed) := Drop(m, p); p.id in m' <==> freed == []
  {
    if m[p.id].ref <= 1 { DropGone(m - {p.id}, m[p.id].next, p.id); }
  }

  lemma {:induction false} DropGone(m: Pool, p: Link, x: Id)
    requires x !in m
    ensures x !in Drop(m, p).0
    decreases m.Keys
  {
    if p.To? && p.id in m && m[p.id].ref <= 1 { DropGone(m - {p.id}, m[p.id].next, x); }
  }

  // ---------------------------------------------------------------- a long chain

  function Knot(x: nat, n: nat): Node {
    Node(if x < n then To(x + 1) else Null, 1, 1, if x <= n then n - x + 1 else 0)
  }

  /** The buffers from `i` to `n`, each with one reference. */
  function Line(i: nat, n: nat): (m: Pool)
    ensures forall x :: x in m <==> i <= x <= n
    ensures forall x :: x in m ==> m[x] == Knot(x, n)
    decreases n - i
  {
    if i > n then map[] else Line(i + 1, n)[i := Knot(i, n)]
  }

  lemma {:induction false} LineFreed(i: nat, n: nat)
    requires i <= n
    ensures |Drop(Line(i, n), To(i)).1| == n - i + 1
    decreases n - i
  {
    assert Line(i, n) - {i} == Line(i + 1, n);
    if i < n { LineFreed(i + 1, n); }
  }

  lemma {:induction false} LineCounted(i: nat, n: nat)
    requires i <= n
    ensures Counted(Line(i, n), multiset{}, To(i))
  {
    var m := Line(i, n);
    forall x | x in m ensures |Before(m, x)| == if x == i then 0 else 1 {
      assert Before(m, x) == if x == i then {} else {x - 1};
    }
  }

  /** A multiple of 256 buffers behind one, of which it is the only user: all of them are freed when
      it is taken off, and the count of 8 bits says that none was. */
  lemma {:induction false} DechainDangles(n: nat)
    requires n > 0 && n % 256 == 0
    ensures Counted(Line(1, n), multiset{}, To(1)) && Totals(Line(1, n))
    ensures |Drop(Line(1, n), To(1)).1| % 256 == 0 && 1 !in Drop(Line(1, n), To(1)).0
  {
    LineCounted(1, n);
    LineFreed(1, n);
    DropHead(Line(1, n), To(1));
  }
}

/** Memory pools: the free list of a pool, and memp_sanity, which looks for a cycle in it with two
    pointers, one twice as fast as the other. */
module Memp {
  import opened Common

  /** The next pointers of the elements. */
  type Links = map<nat, Link>

  /** Every pointer leads to an element. */
  ghost predicate Closed(n: Links, head: Link) {
    (head.To? ==> head.id in n) && forall x :: x in n && n[x].To? ==> n[x].id in n
  }

  function Next(n: Links, l: Link): Link {
    if l == Null || l.id !in n then Null else n[l.id]
  }

  /** Where `k` steps lead. */
  function At(n: Links, l: Link, k: nat): Link {
    if k == 0 then l else Next(n, At(n, l, k - 1))
  }

  ghost predicate Ends(n: Links, l: Link) {
    exists k: nat :: At(n, l, k) == Null
  }

  // ---------------------------------------------------------------- walking

  lemma {:induction false} AtClosed(n: Links, l: Link, k: nat)
    requires Closed(n, l)
    ensures At(n, l, k).To? ==> At(n, l, k).id in n
  {
    if k > 0 { AtClosed(n, l, k - 1); }
  }

  lemma {:induction false} AtMore(n: Links, l: Link, j: nat, k: nat)
    ensures At(n, At(n, l, j), k) == At(n, l, j + k)
    decreases k
  {
    if k > 0 { AtMore(n, l, j, k - 1); }
  }

  lemma {:induction false} NullStays(n: Links, l: Link, j: nat, k: nat)
    requires At(n, l, j) == Null && j <= k
    ensures At(n, l, k) == Null
    decreases k
  {
    if j < k { NullStays(n, l, j, k - 1); }
  }

  /** A walk that comes back once comes back for ever. */
  lemma {:induction false} Periodic(n: Links, l: Link, i: nat, p: nat, m: nat)
    requires At(n, l, i) == At(n, l, i + p)
    ensures At(n, l, i + m * p) == At(n, l, i)
    decreases m
  {
    if m > 0 {
      Periodic(n, l, i, p, m - 1);
      AtMore(n, l, i + (m - 1) * p, p);
      AtMore(n, l, i, p);
      assert i + (m - 1) * p + p == i + m * p;
    }
  }

  lemma {:induction false} CycleNeverEnds(n: Links, l: Link, i: nat, p: nat)
    requires At(n, l, i) == At(n, l, i + p) && At(n, l, i).To? && p > 0
    ensures !Ends(n, l)
  {
    if Ends(n, l) {
      var k: nat :| At(n, l, k) == Null;
      Periodic(n, l, i, p, k);
      assert k <= i + k * p by { Grows(k, p); }
      NullStays(n, l, k, i + k * p);
    }
  }

  lemma {:induction false} Grows(k: nat, p: nat)
    requires p > 0
    ensures k <= k * p
  {
  }

  lemma {:induction false} NotEnded(n: Links, l: Link, k: nat)
    ensures At(n, l, k) == Null ==> Ends(n, l)
  {
  }

  // ---------------------------------------------------------------- slow and fast traversal meet

  ghost function Visited(n: Links, l: Link, k: nat): set<Link> {
    if k == 0 then {} else Visited(n, l, k - 1) + {At(n, l, k - 1)}
  }

  lemma {:induction false} VisitedAt(n: Links, l: Link, k: nat, x: Link) returns (j: nat)
    requires x in Visited(n, l, k)
    ensures j < k && At(n, l, j) == x
    decreases k
  {
    if x == At(n, l, k - 1) { j := k - 1; } else { j := VisitedAt(n, l, k - 1, x); }
  }

  /** As long as no element is seen twice, each step sees a new one. */
  lemma {:induction false} VisitedSize(n: Links, l: Link, k: nat)
    requires forall a: nat, b: nat :: a < b < k ==> At(n, l, a) != At(n, l, b)
    ensures |Visited(n, l, k)| == k
    decreases k
  {
    hide At;
    if k > 0 {
      VisitedSize(n, l, k - 1);
      var x := At(n, l, k - 1);
      if x in Visited(n, l, k - 1) {
        var j := VisitedAt(n, l, k - 1, x);
      }
    }
  }

  ghost function Elements(n: Links): set<Link> {
    set x | x in n :: To(x)
  }

  lemma {:induction false} ElementsSize(n: Links)
    ensures |Elements(n)| == |n|
    decreases |n|
  {
    if n == map[] {
      assert Elements(n) == {};
    } else {
      var x :| x in n;
      var n' := n - {x};
      assert n.Keys == n'.Keys + {x};
      ElementsSize(n');
      assert Elements(n) == Elements(n') + {To(x)};
    }
  }

  /** A walk of more steps than there are elements ends or comes back to an element. */
  lemma {:induction false} Returns(n: Links, l: Link) returns (a: nat, b: nat)
    requires Closed(n, l) && !Ends(n, l)
    ensures a < b && At(n, l, a) == At(n, l, b)
  {
    var k := |n| + 1;
    if forall i: nat, j: nat :: i < j < k ==> At(n, l, i) != At(n, l, j) {
      VisitedSize(n, l, k);
      forall x | x in Visited(n, l, k) ensures x in Elements(n) {
        var j := VisitedAt(n, l, k, x);
        NotEnded(n, l, j);
        AtClosed(n, l, j);
      }
      SubsetSize(Visited(n, l, k), Elements(n));
      ElementsSize(n);
      assert false;
    }
    a, b :| a < b < k && At(n, l, a) == At(n, l, b);
  }

  /** The two pointers meet, or the fast one reaches the end. */
  lemma {:induction false} Meets(n: Links, l: Link) returns (i: nat)
    requires Closed(n, l)
    ensures At(n, l, i) == At(n, l, 2 * i + 1) || At(n, l, 2 * i + 1) == Null
  {
    if Ends(n, l) {
      i :| At(n, l, i) == Null;
      NullStays(n, l, i, 2 * i + 1);
    } else {
      var a, b := Returns(n, l);
      var p := b - a;
      i := p * (a + 1) - 1;
      Grows(a + 1, p);
      AtMore(n, l, a, p);
      ShiftPeriod(n, l, a, p, i);
      Periodic(n, l, i, p, a + 1);
      assert i + (a + 1) * p == 2 * i + 1;
    }
  }

  lemma {:induction false} ShiftPeriod(n: Links, l: Link, a: nat, p: nat, i: nat)
    requires At(n, l, a) == At(n, l, a + p) && a <= i
    ensures At(n, l, i) == At(n, l, i + p)
  {
    AtMore(n, l, a, i - a);
    AtMore(n, l, a + p, i - a);
  }

  lemma {:induction false} AtStep(n: Links, l: Link, k: nat)
    requires Closed(n, l)
    ensures At(n, l, k + 1) == if At(n, l, k) == Null then Null else n[At(n, l, k).id]
    ensures At(n, l, k).To? ==> At(n, l, k).id in n
  {
    AtClosed(n, l, k);
  }

  /** memp_sanity: the list from `tab` ends. */
  method Sanity(n: Links, tab: Link) returns (ok: bool)
    requires Closed(n, tab)
    ensures ok <==> Ends(n, tab)
  {
    ghost var last := Meets(n, tab);
    hide At, Ends, Closed;
    ghost var i: nat := 0;
    var t := tab;
    Begins(n, tab);
    if t != Null {
      AtStep(n, tab, 0);
      var h := n[t.id];
      while t != Null && h != Null
        invariant t == At(n, tab, i) && h == At(n, tab, 2 * i + 1)
        invariant i <= last || At(n, tab, 2 * last + 1) == Null
        decreases if i <= last then last - i + 1 else 0
      {
        AtStep(n, tab, i);
        AtStep(n, tab, 2 * i + 1);
        AtStep(n, tab, 2 * i + 2);
        if t == h {
          CycleNeverEnds(n, tab, i, i + 1);
          return false;
        }
        if i > last { NullStays(n, tab, 2 * last + 1, 2 * i + 1); }
        t := n[t.id];
        h := if n[h.id] != Null then n[n[h.id].id] else Null;
        i := i + 1;
      }
      NotEnded(n, tab, i);
      NotEnded(n, tab, 2 * i + 1);
    }
    NotEnded(n, tab, 0);
    return true;
  }

  lemma {:induction false} Begins(n: Links, l: Link)
    ensures At(n, l, 0) == l
  {
  }

  // ---------------------------------------------------------------- the pools

  /** The list from `l` is `free`. */
  ghost predicate Lists(n: Links, l: Link, free: seq<nat>)
    decreases |free|
  {
    if free == [] then l == Null else l == To(free[0]) && free[0] in n && Lists(n, n[free[0]], free[1..])
  }

  lemma {:induction false} ListsEnds(n: Links, l: Link, free: seq<nat>)
    requires Lists(n, l, free)
    ensures At(n, l, |free|) == Null && Ends(n, l)
    decreases |free|
  {
    if free != [] {
      ListsEnds(n, n[free[0]], free[1..]);
      AtMore(n, l, 1, |free| - 1);
      assert At(n, l, 1) == Next(n, At(n, l, 0));
    }
    NotEnded(n, l, |free|);
  }

  lemma {:induction false} ListsFrame(n: Links, n': Links, l: Link, free: seq<nat>)
    requires Lists(n, l, free) && forall x :: x in free ==> x in n' && x in n && n'[x] == n[x]
    ensures Lists(n', l, free)
    decreases |free|
  {
    if free != [] { ListsFrame(n, n', n[free[0]], free[1..]); }
  }

  lemma {:induction false} ListsIn(n: Links, l: Link, free: seq<nat>)
    requires Lists(n, l, free)
    ensures forall x :: x in free ==> x in n && (n[x].To? ==> n[x].id in free)
    ensures l.To? ==> l.id in free
    decreases |free|
  {
    if free != [] {
      ListsIn(n, n[free[0]], free[1..]);
      assert forall x :: x in free ==> x == free[0] || x in free[1..];
    }
  }

  /** A changed pointer is not met before its element. */
  lemma {:induction false} WalkTo(n: Links, n': Links, l: Link, free: seq<nat>, i: nat)
    requires Lists(n, l, free) && i < |free|
    requires forall j :: 0 <= j < i ==> free[j] in n && free[j] in n' && n'[free[j]] == n[free[j]]
    ensures At(n', l, i) == To(free[i])
    decreases i
  {
    if i > 0 {
      forall j | 0 <= j < i - 1
        ensures free[1..][j] in n && free[1..][j] in n' && n'[free[1..][j]] == n[free[1..][j]]
      {
        assert free[1..][j] == free[j + 1];
      }
      WalkTo(n, n', n[free[0]], free[1..], i - 1);
      assert At(n', l, 1) == Next(n', At(n', l, 0));
      AtMore(n', l, 1, i - 1);
    }
  }

  lemma {:induction false} FirstStep(n: Links, x: nat)
    requires x in n
    ensures At(n, To(x), 1) == n[x]
  {
    assert At(n, To(x), 0) == To(x);
  }

  lemma {:induction false} PushTwice(n: Links, l: Link, free: seq<nat>, i: nat)
    requires Lists(n, l, free) && NoDup(free) && i < |free|
    ensures !Ends(n[free[i] := l], To(free[i]))
  {
    hide Lists, Ends, At;
    var x := free[i];
    var n' := n[x := l];
    ListsIn(n, l, free);
    WalkTo(n, n', l, free, i);
    FirstStep(n', x);
    Begins(n', To(x));
    AtMore(n', To(x), 1, i);
    CycleNeverEnds(n', To(x), 0, i + 1);
  }

  /** Theorem: an element put on the list leaves a list that ends exactly when it was not on it. */
  lemma {:induction false} PushEnds(n: Links, l: Link, free: seq<nat>, x: nat)
    requires Lists(n, l, free) && NoDup(free)
    ensures Ends(n[x := l], To(x)) <==> x !in free
  {
    hide Ends, At;
    if x in free {
      var i :| 0 <= i < |free| && free[i] == x;
      PushTwice(n, l, free, i);
    } else {
      ListsIn(n, l, free);
      ListsFrame(n, n[x := l], l, free);
      assert ([x] + free)[1..] == free;
      ListsEnds(n[x := l], To(x), [x] + free);
    }
  }

  /** A pool: the list of its free elements, whose next pointers alone are the pool's. */
  class Mempool {
    var n: Links
    var tab: Link
    ghost var free: seq<nat>

    ghost predicate Valid()
      reads this
    {
      Lists(n, tab, free) && NoDup(free) && forall x :: x in n <==> x in free
    }

    /** memp_init_pool */
    constructor (num: nat)
      ensures Valid() && |free| == num && forall x: nat :: x in free <==> x < num
    {
      n, tab, free := map[], Null, [];
      new;
      for i := 0 to num
        invariant Valid() && |free| == i && forall x: nat :: x in free <==> x < i
      {
        Push(i);
      }
    }

    method Push(x: nat)
      requires Valid() && x !in free
      modifies this
      ensures Valid() && free == [x] + old(free)
    {
      ListsFrame(n, n[x := tab], tab, free);
      n := n[x := tab];
      free := [x] + free;
      assert free[1..] == old(free);
      tab := To(x);
    }

    /** memp_malloc: the head of the list, or nothing. */
    method Malloc() returns (r: Link)
      requires Valid()
      modifies this
      ensures Valid() && (r == Null <==> old(free) == [])
      ensures r.To? ==> old(free) == [r.id] + free
    {
      r := tab;
      if tab != Null {
        var x := tab.id;
        assert x !in free[1..] && free == [x] + free[1..];
        ListsFrame(n, n - {x}, n[x], free[1..]);
        tab := n[x];
        n := n - {x};
        free := free[1..];
      }
    }

    /** memp_free, with the check of the list that it ends with; it tells an element that is freed
        twice. */
    method Free(x: nat) returns (sane: bool)
      requires Valid()
      modifies this
      ensures sane <==> x !in old(free)
      ensures sane ==> Valid() && free == [x] + old(free)
    {
      PushEnds(n, tab, free, x);
      ListsIn(n, tab, free);
      sane := Sanity(n[x := tab], To(x));
      if x !in free { ListsFrame(n, n[x := tab], tab, free); }
      assert ([x] + free)[1..] == free;
      n, tab, free := n[x := tab], To(x), [x] + free;
    }
  }
}

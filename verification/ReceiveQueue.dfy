/** What the receiver makes of a segment it accepts. */
module ReceiveQueue {
  import opened SeqNum
  import opened Common
  import opened Reassembly

  // How far rcv_nxt gets, and which bytes the out-of-sequence queue holds afterwards.

  /** The queue has the byte at position `p`. */
  ghost predicate Has(q: seq<Chunk>, p: int) {
    exists i :: 0 <= i < |q| && q[i].at <= p < q[i].End()
  }

  // ---------------------------------------------------------------- progress

  lemma {:induction false} DrainReaches(w: Flow)
    requires Flowing(w) && w.q != [] && w.q[0].at == w.nxt
    ensures Drain(w).nxt >= w.q[0].Next()
  {
    OrderedSlice(w.q, 1, |w.q|);
    assert |w.q| > 1 ==> w.q[0].End() <= w.q[1].at && !w.q[0].fin;
    DrainShape(Take(w));
  }

  lemma {:induction false} MergeReaches(c: Chunk, q: seq<Chunk>)
    requires Ordered(q) && Above(q, c.at) && c.Len() > 0
    ensures var (d, r) := Merge(c, q);
            d.Next() >= c.Next() || (r != [] && r[0].at == d.Next() && r[0].Next() >= c.Next())
  {
    if !c.fin {
      SwallowSuffix(c, q);
      SwallowFin(c, q);
    }
  }

  /** In-sequence data is delivered to its end, whatever it was cut to at first. */
  lemma {:induction false} AdvanceReaches(c: Chunk, q: seq<Chunk>)
    requires Ordered(q) && Above(q, c.at) && c.Len() > 0
    ensures Advance(c, q).nxt >= c.Next()
  {
    hide Merge, Drain;
    MergeShape(c, q);
    MergeReaches(c, q);
    var (d, r) := Merge(c, q);
    OrderedSlice(q, |q| - |r|, |q|);
    var w := Flow(d.data, d.Next(), r, d.fin);
    DrainShape(w);
    if r != [] && r[0].at == w.nxt { DrainReaches(w); }
  }

  /** Theorem: a segment that holds the next byte is delivered up to its end or to the right edge of
      the window. */
  lemma {:induction false} ArriveProgress(st: Rcv, c: Chunk, room: bool)
    requires QueueInv(st) && !st.closed && st.wnd > 0 && c.at <= st.nxt < c.Next()
    ensures Arrive(st, c, room).st.nxt >= Min(c.Next(), st.Edge())
  {
    AdvanceReaches(Clip(TrimFront(c, st.nxt), st.Edge()), st.q);
  }

  // ---------------------------------------------------------------- the bytes of a queue

  lemma {:induction false} HasConcat(a: seq<Chunk>, b: seq<Chunk>, p: int)
    ensures Has(a + b, p) <==> Has(a, p) || Has(b, p)
  {
    if Has(a, p) {
      var i :| 0 <= i < |a| && a[i].at <= p < a[i].End();
      assert (a + b)[i] == a[i];
    }
    if Has(b, p) {
      var i :| 0 <= i < |b| && b[i].at <= p < b[i].End();
      assert (a + b)[|a| + i] == b[i];
    }
    if Has(a + b, p) {
      var i :| 0 <= i < |a + b| && (a + b)[i].at <= p < (a + b)[i].End();
      if i < |a| { assert a[i].at <= p < a[i].End(); } else { assert b[i - |a|].at <= p < b[i - |a|].End(); }
    }
  }

  lemma {:induction false} HasOne(c: Chunk, p: int)
    ensures Has([c], p) <==> c.at <= p < c.End()
  {
    if c.at <= p < c.End() { assert [c][0] == c; }
  }

  /** Swallowing covers what it drops. */
  lemma {:induction false} SwallowHas(c: Chunk, q: seq<Chunk>, p: int)
    requires Ordered(q) && (forall i :: 0 <= i < |q| ==> c.at <= q[i].at)
    ensures c.at <= p < c.End() || Has(Swallow(c, q).1, p) <==> c.at <= p < c.End() || Has(q, p)
    decreases |q|
  {
    if q != [] && c.End() >= q[0].End() {
      OrderedSlice(q, 1, |q|);
      SwallowHas(c.(fin := c.fin || q[0].fin), q[1..], p);
      HasConcat([q[0]], q[1..], p);
      HasOne(q[0], p);
      assert q == [q[0]] + q[1..];
    }
  }

  /** Merging keeps the bytes of both, unless a FIN ends the data. */
  lemma {:induction false} MergeHas(c: Chunk, q: seq<Chunk>, p: int)
    requires Ordered(q) && !c.fin && (forall i :: 0 <= i < |q| ==> c.at <= q[i].at)
    ensures Has([Merge(c, q).0] + Merge(c, q).1, p) <==> c.at <= p < c.End() || Has(q, p)
  {
    var (d, r) := Merge(c, q);
    SwallowSuffix(c, q);
    SwallowHas(c, q, p);
    HasConcat([d], r, p);
    HasOne(d, p);
    if r != [] && r[0].at <= p < c.End() { assert r[0].at <= p < r[0].End(); }
  }

  /** Cutting the last element loses what it had beyond. */
  lemma {:induction false} TrimLastHas(q: seq<Chunk>, e: int, p: int)
    requires Ordered(q) && (q != [] ==> q[|q| - 1].at <= e)
    ensures Has(TrimLast(q, e), p) <==> Has(q, p) && p < e
  {
    if q != [] {
      var k := |q| - 1;
      assert q == q[..k] + [q[k]];
      HasConcat(q[..k], [q[k]], p);
      HasConcat(q[..k], [TrimTo(q[k], e)], p);
      HasOne(q[k], p);
      HasOne(TrimTo(q[k], e), p);
      if Has(q[..k], p) {
        var i :| 0 <= i < k && q[..k][i].at <= p < q[..k][i].End();
        assert q[i].End() <= q[k].at;
      }
    }
  }

  // ---------------------------------------------------------------- queueing a segment

  /** The queue already has the data of `c`, and stays as it is. */
  predicate Stays(q: seq<Chunk>, c: Chunk) {
    var k := Before(q, c.at);
    || (k < |q| && q[k].at == c.at && |c.data| <= |q[k].data|)
    || (k == |q| && q != [] && q[k - 1].fin)
  }

  /** The end of what is queued of `c`. */
  function Reach(q: seq<Chunk>, c: Chunk, edge: int): int
    requires c.at <= edge
  {
    if Before(q, c.at) == |q| && q != [] then Clip(c, edge).End() else c.End()
  }

  lemma {:induction false} AppendHas(q: seq<Chunk>, c: Chunk, edge: int, p: int)
    requires Ordered(q) && q != [] && q[|q| - 1].at <= c.at <= edge
    ensures Has(Append(q, c, edge), p) <==> (Has(q, p) && p < c.at) || c.at <= p < Clip(c, edge).End()
  {
    TrimLastHas(q, c.at, p);
    HasConcat(TrimLast(q, c.at), [Clip(c, edge)], p);
    HasOne(Clip(c, edge), p);
  }

  lemma {:induction false} InsertHas(q: seq<Chunk>, k: nat, c: Chunk, p: int)
    requires Ordered(q) && k <= |q| && (k > 0 ==> q[k - 1].at <= c.at) && (forall i :: k <= i < |q| ==> c.at <= q[i].at)
    ensures Has(InsertAt(q, k, c), p) <==>
            (Has(q[..k], p) && p < c.at) || c.at <= p < c.End() || (!c.fin && Has(q[k..], p))
  {
    hide TrimLast;
    var (d, r) := Merge(c, q[k..]);
    OrderedSlice(q, 0, k);
    OrderedSlice(q, k, |q|);
    assert q[0..k] == q[..k] && q[k..|q|] == q[k..];
    TrimLastHas(q[..k], c.at, p);
    HasConcat(TrimLast(q[..k], c.at), [d] + r, p);
    if c.fin { HasOne(c, p); } else { MergeHas(c, q[k..], p); }
    assert c.fin ==> [d] + r == [c];
  }

  /** Segments of one stream: behind a FIN there is no data. */
  lemma {:induction false} BehindFin(q: seq<Chunk>, c: Chunk, s: seq<byte>, p: int)
    requires AllAgree(q, s) && Agrees(c, s) && c.fin && Has(q, p)
    ensures p < c.End() && ((forall i :: 0 <= i < |q| ==> c.at <= q[i].at) ==> c.at <= p)
  {
    var i :| 0 <= i < |q| && q[i].at <= p < q[i].End();
    assert Agrees(q[i], s);
  }

  /** What the queue has after a segment of the stream was put on it. */
  lemma {:induction false} PlaceHas(q: seq<Chunk>, c: Chunk, edge: int, s: seq<byte>, p: int)
    requires Ordered(q) && AllAgree(q, s) && Agrees(c, s) && c.at <= edge && !Stays(q, c)
    ensures var k := Before(q, c.at);
            Has(Place(q, c, edge), p) <==>
            (Has(q[..k], p) && p < c.at) || c.at <= p < Reach(q, c, edge) || Has(q[k..], p)
  {
    hide Append, InsertAt, Clip, Has, Ordered, Agrees;
    var k := Before(q, c.at);
    if k == |q| && q != [] {
      HasNone(p);
      assert q[..k] == q && q[k..] == [];
      AppendHas(q, c, edge, p);
    } else {
      BeforeSplits(q, c.at);
      InsertHas(q, k, c, p);
      if c.fin && Has(q[k..], p) { BehindFin(q[k..], c, s, p); }
    }
  }

  /** Theorem: the data of a segment put on the queue is there, up to the right edge. */
  lemma {:induction false} PlaceHolds(q: seq<Chunk>, c: Chunk, edge: int, s: seq<byte>, p: int)
    requires Ordered(q) && AllAgree(q, s) && Agrees(c, s) && c.at <= p < c.End() && p < edge
    ensures Has(Place(q, c, edge), p)
  {
    var k := Before(q, c.at);
    if !Stays(q, c) {
      PlaceHas(q, c, edge, s, p);
    } else if k < |q| {
      assert q[k].at <= p < q[k].End();
    } else {
      assert Agrees(q[k - 1], s) && q[k - 1].at < c.at;
      assert q[k - 1].at <= p < q[k - 1].End();
    }
  }

  /** The segment cuts its predecessor, which reaches further than it. */
  predicate Cuts(q: seq<Chunk>, c: Chunk, edge: int)
    requires c.at <= edge
  {
    var k := Before(q, c.at);
    !Stays(q, c) && k > 0 && q[k - 1].End() > Reach(q, c, edge)
  }

  lemma {:induction false} CutLoses(q: seq<Chunk>, c: Chunk, edge: int, s: seq<byte>)
    requires Ordered(q) && AllAgree(q, s) && Agrees(c, s) && c.at <= edge && Cuts(q, c, edge)
    ensures var p := q[Before(q, c.at) - 1].End() - 1; Has(q, p) && !Has(Place(q, c, edge), p)
  {
    hide Place, Append, InsertAt;
    var k := Before(q, c.at);
    var p := q[k - 1].End() - 1;
    assert q[k - 1].at <= p < q[k - 1].End();
    PlaceHas(q, c, edge, s, p);
  }

  /** The byte of a queue that lies behind the start of its last segment is in that segment. */
  lemma {:induction false} HasLast(q: seq<Chunk>, k: nat, p: int)
    requires Ordered(q) && k <= |q| && Has(q[..k], p)
    ensures k > 0 && (q[k - 1].at <= p ==> p < q[k - 1].End())
  {
    var i :| 0 <= i < k && q[..k][i].at <= p < q[..k][i].End();
    assert i < k - 1 ==> q[i].End() <= q[k - 1].at;
  }

  lemma {:induction false} HasNone(p: int)
    ensures !Has([], p)
  {
  }

  lemma {:induction false} PlaceKeepsAt(q: seq<Chunk>, c: Chunk, edge: int, s: seq<byte>, p: int)
    requires Ordered(q) && AllAgree(q, s) && Agrees(c, s) && c.at <= edge && !Cuts(q, c, edge) && Has(q, p)
    ensures Has(Place(q, c, edge), p)
  {
    hide Append, InsertAt, Clip, Has, Ordered;
    var k := Before(q, c.at);
    if !Stays(q, c) {
      HasNone(p);
      PlaceHas(q, c, edge, s, p);
      HasConcat(q[..k], q[k..], p);
      assert q == q[..k] + q[k..];
      if Has(q[..k], p) && p >= c.at { HasLast(q, k, p); }
    }
  }

  /** Theorem: queueing a segment loses no byte that was queued exactly when its predecessor does not
      reach beyond it. */
  lemma {:induction false} PlaceKeeps(q: seq<Chunk>, c: Chunk, edge: int, s: seq<byte>)
    requires Ordered(q) && AllAgree(q, s) && Agrees(c, s) && c.at <= edge
    ensures (forall p :: Has(q, p) ==> Has(Place(q, c, edge), p)) <==> !Cuts(q, c, edge)
  {
    if Cuts(q, c, edge) {
      CutLoses(q, c, edge, s);
    } else {
      forall p | Has(q, p) ensures Has(Place(q, c, edge), p) { PlaceKeepsAt(q, c, edge, s, p); }
    }
  }

  /** Four bytes are queued, and one of them arrives again: the two behind it are dropped. */
  lemma {:induction false} InnerCuts(q: seq<Chunk>, c: Chunk)
    requires q == [Chunk(5, [1, 2, 3, 4], false)] && c == Chunk(6, [2], false)
    ensures Cuts(q, c, 100) && Has(q, 8) && !Has(Place(q, c, 100), 8)
  {
    var s := [0, 0, 0, 0, 0, 1, 2, 3, 4];
    assert Before(q, 6) == 1;
    assert s[5..9] == [1, 2, 3, 4] && s[6..7] == [2];
    CutLoses(q, c, 100, s);
  }

  // ---------------------------------------------------------------- an arriving segment

  /** The byte at position `p` was passed up, or is on the queue. */
  ghost predicate Got(st: Rcv, p: int) {
    p < st.nxt || Has(st.q, p)
  }

  /** Theorem: of a segment of the stream every byte inside the window is passed up or queued, in
      sequence or not, unless it needs a queue element and there is none. */
  lemma {:induction false} ArriveGets(st: Rcv, c: Chunk, room: bool, s: seq<byte>, p: int)
    requires StreamInv(st, s) && Agrees(c, s) && !st.closed && (room || c.at <= st.nxt)
    requires c.at <= p < c.End() && p < st.Edge()
    ensures Got(Arrive(st, c, room).st, p)
  {
    hide Place, InOrder, Has, Agrees;
    if c.at > st.nxt {
      PlaceHolds(st.q, c, st.Edge(), s, p);
    } else if p >= st.nxt {
      ArriveProgress(st, c, room);
    } else {
      ArriveQueue(st, c, room);
    }
  }

  lemma {:induction false} TakeKeeps(w: Flow, p: int)
    requires Flowing(w) && w.q != [] && w.q[0].at == w.nxt && Has(w.q, p)
    ensures p < Take(w).nxt || Has(Take(w).q, p)
  {
    hide Has;
    assert w.q == [w.q[0]] + w.q[1..];
    HasConcat([w.q[0]], w.q[1..], p);
    HasOne(w.q[0], p);
  }

  lemma {:induction false} DrainKeeps(w: Flow, p: int)
    requires Flowing(w) && (p < w.nxt || Has(w.q, p))
    ensures p < Drain(w).nxt || Has(Drain(w).q, p)
    decreases |w.q|
  {
    hide Has, Flowing, Take;
    if w.q != [] && w.q[0].at == w.nxt {
      TakeFlows(w);
      if Has(w.q, p) { TakeKeeps(w, p); }
      DrainKeeps(Take(w), p);
    }
  }

  /** Delivering in-sequence data loses no byte of the queue. */
  lemma {:induction false} AdvanceKeeps(c: Chunk, q: seq<Chunk>, s: seq<byte>, p: int)
    requires Ordered(q) && Above(q, c.at) && c.Len() > 0 && Agrees(c, s) && AllAgree(q, s) && Has(q, p)
    ensures p < Advance(c, q).nxt || Has(Advance(c, q).q, p)
  {
    hide Merge, Drain, Has, Agrees;
    MergeShape(c, q);
    var (d, r) := Merge(c, q);
    OrderedSlice(q, |q| - |r|, |q|);
    if c.fin {
      BehindFin(q, c, s, p);
      FinMerge(c, q);
    } else {
      MergeHas(c, q, p);
      HasConcat([d], r, p);
      HasOne(d, p);
    }
    DrainKeeps(Flow(d.data, d.Next(), r, d.fin), p);
  }

  lemma {:induction false} FinMerge(c: Chunk, q: seq<Chunk>)
    requires c.fin && forall i :: 0 <= i < |q| ==> c.at <= q[i].at
    ensures Merge(c, q) == (c, [])
  {
  }

  /** A segment that is queued and cuts its predecessor. */
  ghost predicate Loses(st: Rcv, c: Chunk, room: bool) {
    room && !st.closed && c.Len() > 0 && st.nxt < c.at < st.Edge() && Cuts(st.q, c, st.Edge())
  }

  lemma {:induction false} ArriveKeepsAt(st: Rcv, c: Chunk, room: bool, s: seq<byte>, p: int)
    requires StreamInv(st, s) && Agrees(c, s) && !Loses(st, c, room) && Got(st, p)
    ensures Got(Arrive(st, c, room).st, p)
  {
    hide Place, Advance, Has, Cuts, Agrees;
    ArriveQueue(st, c, room);
    var d := TrimFront(c, st.nxt);
    if Has(st.q, p) && c.Len() > 0 && !st.closed && st.nxt <= d.at < st.Edge() {
      if d.at == st.nxt {
        TrimFrontAgrees(c, st.nxt, s);
        ClipAgrees(d, st.Edge(), s);
        AdvanceKeeps(Clip(d, st.Edge()), st.q, s, p);
      } else if room {
        PlaceKeepsAt(st.q, c, st.Edge(), s, p);
      }
    }
  }

  lemma {:induction false} ArriveLosesAt(st: Rcv, c: Chunk, s: seq<byte>)
    requires StreamInv(st, s) && Agrees(c, s) && Loses(st, c, true)
    ensures exists p :: Got(st, p) && !Got(Arrive(st, c, true).st, p)
  {
    hide Place, Has, Agrees;
    CutLoses(st.q, c, st.Edge(), s);
    var k := Before(st.q, c.at) - 1;
    var p := st.q[k].End() - 1;
    assert p >= st.nxt by { assert Agrees(st.q[k], s); HasAbove(st.q, st.nxt, p); }
    assert Got(st, p);
  }

  lemma {:induction false} HasAbove(q: seq<Chunk>, nxt: int, p: int)
    requires Above(q, nxt) && Has(q, p)
    ensures nxt < p
  {
  }

  /** Theorem: an arriving segment of the stream loses no byte that was passed up or queued exactly
      when it is not queued behind a segment that reaches beyond it. */
  lemma {:induction false} ArriveKeeps(st: Rcv, c: Chunk, room: bool, s: seq<byte>)
    requires StreamInv(st, s) && Agrees(c, s)
    ensures (forall p :: Got(st, p) ==> Got(Arrive(st, c, room).st, p)) <==> !Loses(st, c, room)
  {
    hide Arrive, Got, Agrees;
    if Loses(st, c, room) {
      ArriveLosesAt(st, c, s);
    } else {
      forall p | Got(st, p) ensures Got(Arrive(st, c, room).st, p) { ArriveKeepsAt(st, c, room, s, p); }
    }
  }

  lemma {:induction false} SuffixHas(q: seq<Chunk>, v: seq<Chunk>, p: int)
    requires |v| <= |q| && v == q[|q| - |v|..] && Has(v, p)
    ensures Has(q, p)
  {
    var i :| 0 <= i < |v| && v[i].at <= p < v[i].End();
    assert v[i] == q[|q| - |v| + i];
  }

  lemma {:induction false} AdvanceAdds(c: Chunk, q: seq<Chunk>, p: int)
    requires Ordered(q) && Above(q, c.at) && c.Len() > 0 && Has(Advance(c, q).q, p)
    ensures Has(q, p)
  {
    hide Merge, Drain, Has, Ordered;
    MergeShape(c, q);
    var (d, r) := Merge(c, q);
    OrderedSlice(q, |q| - |r|, |q|);
    var w := Flow(d.data, d.Next(), r, d.fin);
    DrainShape(w);
    SuffixHas(r, Drain(w).q, p);
    SuffixHas(q, r, p);
  }

  /** Theorem: and it queues no byte that it does not carry. */
  lemma {:induction false} ArriveAdds(st: Rcv, c: Chunk, room: bool, s: seq<byte>, p: int)
    requires StreamInv(st, s) && Agrees(c, s) && Has(Arrive(st, c, room).st.q, p)
    ensures Has(st.q, p) || c.at <= p < c.End()
  {
    hide Place, Advance, Has, Agrees;
    var d := TrimFront(c, st.nxt);
    if c.Len() > 0 && !st.closed && st.nxt <= d.at < st.Edge() {
      if d.at == st.nxt {
        AdvanceAdds(Clip(d, st.Edge()), st.q, p);
      } else if room && !Stays(st.q, c) {
        var k := Before(st.q, c.at);
        PlaceHas(st.q, c, st.Edge(), s, p);
        HasConcat(st.q[..k], st.q[k..], p);
        assert st.q == st.q[..k] + st.q[k..];
      } else if room {
        StaysSame(st.q, c, st.Edge());
      }
    }
  }

  lemma {:induction false} StaysSame(q: seq<Chunk>, c: Chunk, edge: int)
    requires Ordered(q) && c.at <= edge && Stays(q, c)
    ensures Place(q, c, edge) == q
  {
  }

  /** Theorem: a segment without a number in the window, one that comes after the FIN, and one that
      needs a queue element when there is none, change nothing. */
  lemma {:induction false} ArriveIgnores(st: Rcv, c: Chunk, room: bool)
    requires QueueInv(st)
    requires c.Len() == 0 || st.closed || c.Next() <= st.nxt || c.at >= st.Edge() || (c.at > st.nxt && !room)
    ensures Arrive(st, c, room) == Outcome(st, [], false)
  {
    hide Place, InOrder;
  }

  // ---------------------------------------------------------------- a FIN on the queue

  /** The queue has the end of the stream. */
  predicate HasEnd(q: seq<Chunk>) {
    q != [] && q[|q| - 1].fin
  }

  /** A queued segment starts where `c` does and has as much data. */
  ghost predicate Dulls(q: seq<Chunk>, c: Chunk) {
    exists i :: 0 <= i < |q| && q[i].at == c.at && |c.data| <= |q[i].data|
  }

  /** `c` goes behind the whole queue and does not fit the window. */
  ghost predicate Clipped(q: seq<Chunk>, c: Chunk, edge: int) {
    q != [] && (forall i :: 0 <= i < |q| ==> q[i].at < c.at) && c.Next() > edge
  }

  lemma {:induction false} DullsAt(q: seq<Chunk>, c: Chunk)
    requires Ordered(q)
    ensures var k := Before(q, c.at); Dulls(q, c) <==> k < |q| && q[k].at == c.at && |c.data| <= |q[k].data|
  {
    var k := Before(q, c.at);
    if Dulls(q, c) {
      var i :| 0 <= i < |q| && q[i].at == c.at && |c.data| <= |q[i].data|;
    }
  }

  lemma {:induction false} MergeEnd(c: Chunk, q: seq<Chunk>)
    requires Ordered(q) && q != [] && (forall i :: 0 <= i < |q| ==> c.at <= q[i].at)
    ensures HasEnd([Merge(c, q).0] + Merge(c, q).1) <==> HasEnd(q) || c.fin
  {
    if !c.fin {
      SwallowSuffix(c, q);
      SwallowFin(c, q);
    }
  }

  lemma {:induction false} EndBehind(a: seq<Chunk>, b: seq<Chunk>)
    requires b != []
    ensures HasEnd(a + b) <==> HasEnd(b)
  {
    assert (a + b)[|a| + |b| - 1] == b[|b| - 1];
  }

  lemma {:induction false} InsertEnd(q: seq<Chunk>, k: nat, c: Chunk)
    requires Ordered(q) && k < |q| && (k > 0 ==> q[k - 1].at <= c.at) && (forall i :: k <= i < |q| ==> c.at <= q[i].at)
    ensures HasEnd(InsertAt(q, k, c)) <==> HasEnd(q) || c.fin
  {
    hide Merge, TrimLast, HasEnd, Ordered;
    OrderedSlice(q, k, |q|);
    MergeEnd(c, q[k..]);
    EndBehind(TrimLast(q[..k], c.at), [Merge(c, q[k..]).0] + Merge(c, q[k..]).1);
    EndBehind(q[..k], q[k..]);
    assert q == q[..k] + q[k..];
  }

  /** Theorem: a FIN put on the queue is there, unless a queued segment with the same start and as much
      data hides it or it is cut off at the window; and one that was there stays. */
  lemma {:induction false} PlaceEnd(q: seq<Chunk>, c: Chunk, edge: int)
    requires Ordered(q) && c.at <= edge
    ensures HasEnd(Place(q, c, edge)) <==> HasEnd(q) || (c.fin && !Dulls(q, c) && !Clipped(q, c, edge))
  {
    hide InsertAt, Dulls;
    var k := Before(q, c.at);
    DullsAt(q, c);
    BeforeSplits(q, c.at);
    if q == [] {
      EndFirst(q, c);
    } else if k < |q| && !(q[k].at == c.at && |c.data| <= |q[k].data|) {
      InsertEnd(q, k, c);
    }
  }

  lemma {:induction false} EndFirst(q: seq<Chunk>, c: Chunk)
    requires q == []
    ensures HasEnd(InsertAt(q, 0, c)) <==> c.fin
  {
    assert Merge(c, q[0..]) == (c, []);
  }

  /** Theorem: the FIN of a segment that comes out of sequence and inside the window is kept exactly when
      no queued segment with the same start has as much data, or the FIN was queued before. */
  lemma {:induction false} ArriveEnd(st: Rcv, c: Chunk)
    requires QueueInv(st) && !st.closed && c.fin && st.nxt < c.at && c.Next() <= st.Edge()
    ensures HasEnd(Arrive(st, c, true).st.q) <==> HasEnd(st.q) || !Dulls(st.q, c)
  {
    hide Place, Dulls, HasEnd;
    PlaceEnd(st.q, c, st.Edge());
  }

  /** Three bytes are queued, and come again with the FIN behind them: the FIN is dropped. */
  lemma {:induction false} EndDulled(st: Rcv, c: Chunk)
    requires st.nxt == 0 && st.wnd == TCP_WND && !st.closed && st.q == [Chunk(5, [1, 2, 3], false)]
    requires c == Chunk(5, [1, 2, 3], true)
    ensures QueueInv(st) && Arrive(st, c, true).st == st && !HasEnd(st.q)
  {
    assert Before(st.q, 5) == 0;
  }
}

/** What TCP does with arriving segments, over absolute stream positions. */
module Reassembly {
  import opened SeqNum
  import opened Common

  // `Arrive` is the data half of tcp_receive: trim, deliver, queue out of sequence and
  // reassemble.  Positions are unbounded integers here; TcpReceive refines these functions
  // with 32-bit sequence numbers, loops and in-place updates.

  /** A segment at stream position `at`; FIN, if set, occupies the position after the data. */
  datatype Chunk = Chunk(at: int, data: seq<byte>, fin: bool) {
    function End(): int { at + |data| }
    /** TCP_TCPLEN */
    function Len(): nat { |data| + if fin then 1 else 0 }
    function Next(): int { at + Len() }
  }

  /** Cut the data at position `e`, as the assignment to len and pbuf_realloc do. */
  function TrimTo(c: Chunk, e: int): Chunk
    requires c.at <= e
  {
    if c.End() > e then c.(data := c.data[..e - c.at]) else c
  }

  /** Cut to the receive window; the FIN is outside it. */
  function Clip(c: Chunk, edge: int): Chunk
    requires c.at <= edge
  {
    if c.Next() > edge then TrimTo(c, edge).(fin := false) else c
  }

  /** Drop the queued segments whose data `c` covers, taking over their FIN. */
  function Swallow(c: Chunk, q: seq<Chunk>): (Chunk, seq<Chunk>)
    decreases |q|
  {
    if q == [] || c.End() < q[0].End() then (c, q)
    else Swallow(c.(fin := c.fin || q[0].fin), q[1..])
  }

  /** `c` in front of what is left of `q`, made disjoint from it. */
  function Merge(c: Chunk, q: seq<Chunk>): (Chunk, seq<Chunk>)
    requires forall i :: 0 <= i < |q| ==> c.at <= q[i].at
  {
    if c.fin then (c, []) else
    SwallowSuffix(c, q);
    var (d, r) := Swallow(c, q);
    if r != [] && d.End() > r[0].at then (TrimTo(d, r[0].at), r) else (d, r)
  }

  /** Number of leading segments that start before position `at`. */
  function Before(q: seq<Chunk>, at: int): (k: nat)
    ensures k <= |q|
    ensures forall i :: 0 <= i < k ==> q[i].at < at
    ensures k < |q| ==> at <= q[k].at
  {
    if q == [] || at <= q[0].at then 0 else 1 + Before(q[1..], at)
  }

  function TrimLast(q: seq<Chunk>, e: int): seq<Chunk>
    requires q != [] ==> q[|q| - 1].at <= e
  {
    if q == [] then q else q[..|q| - 1] + [TrimTo(q[|q| - 1], e)]
  }

  /** `c` becomes element `k` of the queue: its predecessor is cut where `c` starts, and what
      follows is merged (tcp_oos_insert_segment). */
  function InsertAt(q: seq<Chunk>, k: nat, c: Chunk): seq<Chunk>
    requires k <= |q| && (k > 0 ==> q[k - 1].at <= c.at)
    requires forall i :: k <= i < |q| ==> c.at <= q[i].at
  {
    var (d, r) := Merge(c, q[k..]);
    TrimLast(q[..k], c.at) + ([d] + r)
  }

  /** `c` goes behind the whole queue; here alone it is cut to the window edge. */
  function Append(q: seq<Chunk>, c: Chunk, edge: int): seq<Chunk>
    requires q != [] && q[|q| - 1].at <= c.at <= edge
  {
    TrimLast(q, c.at) + [Clip(c, edge)]
  }

  /** Put `c` on the out-of-sequence queue `q`. */
  function Place(q: seq<Chunk>, c: Chunk, edge: int): seq<Chunk>
    requires Ordered(q) && c.at <= edge
  {
    var k := Before(q, c.at);
    if k < |q| && q[k].at == c.at && |c.data| <= |q[k].data| then q
    else if k == |q| && q != [] then
      if q[k - 1].fin then q else Append(q, c, edge)
    else
      InsertAt(q, k, c)
  }

  /** Delivery in progress: the bytes passed up, the next position, the queue, FIN reached. */
  datatype Flow = Flow(out: seq<byte>, nxt: int, q: seq<Chunk>, fin: bool)

  /** Deliver the first queued segment. */
  function Take(w: Flow): Flow
    requires w.q != []
  {
    var c := w.q[0];
    Flow(w.out + c.data, c.Next(), w.q[1..], w.fin || c.fin)
  }

  /** Deliver the queued segments that are next in sequence. */
  function Drain(w: Flow): Flow
    decreases |w.q|
  {
    if w.q == [] || w.q[0].at != w.nxt then w else Drain(Take(w))
  }

  /** The receiver's half of a connection.  `closed` says the peer's FIN was received
      (state >= CLOSE_WAIT); `annWnd` and `annEdge` are the window to announce and the right
      edge last announced. */
  datatype Rcv = Rcv(nxt: int, wnd: u16, q: seq<Chunk>, closed: bool,
                     annWnd: u16, annEdge: int, mss: u16)
  {
    function Edge(): int { nxt + wnd }
  }

  datatype Outcome = Outcome(st: Rcv, out: seq<byte>, fin: bool)

  const TCP_WND: u16 := 5840

  /** tcp_update_rcv_ann_wnd: the window to announce. */
  function AnnWindow(nxt: int, wnd: u16, annEdge: int, mss: u16): u16 {
    if nxt + wnd >= annEdge + Min(TCP_WND / 2, mss) then wnd
    else if nxt > annEdge then 0
    else (annEdge - nxt) % 0x1_0000
  }

  function Announce(st: Rcv): (r: Rcv)
    ensures r == st.(annWnd := r.annWnd)
  {
    st.(annWnd := AnnWindow(st.nxt, st.wnd, st.annEdge, st.mss))
  }

  /** The delivery that the in-sequence chunk `c` starts. */
  function Start(c: Chunk, q: seq<Chunk>): Flow
    requires forall i :: 0 <= i < |q| ==> c.at <= q[i].at
  {
    var (d, r) := Merge(c, q);
    Flow(d.data, d.Next(), r, d.fin)
  }

  /** In-sequence data `c` followed by what the queue adds to it. */
  function Advance(c: Chunk, q: seq<Chunk>): Flow
    requires forall i :: 0 <= i < |q| ==> c.at <= q[i].at
  {
    Drain(Start(c, q))
  }

  /** The receiver after the delivery `w`. */
  function Settle(st: Rcv, w: Flow): Rcv {
    Announce(st.(nxt := w.nxt, wnd := (st.wnd - (w.nxt - st.nxt)) % 0x1_0000,
                 q := w.q, closed := w.fin))
  }

  /** The in-sequence branch of tcp_receive. */
  function InOrder(st: Rcv, c: Chunk): Outcome
    requires Above(st.q, st.nxt) && c.at == st.nxt
  {
    var w := Advance(Clip(c, st.Edge()), st.q);
    Outcome(Settle(st, w), w.out, w.fin)
  }

  /** Forget the part of `c` below `nxt`, when some of it is not. */
  function TrimFront(c: Chunk, nxt: int): Chunk {
    if c.at < nxt < c.Next() then Chunk(nxt, c.data[nxt - c.at..], c.fin) else c
  }

  /** A segment arrives; `room` says whether a queue element can be allocated. */
  function Arrive(st: Rcv, c: Chunk, room: bool): Outcome
    requires Ordered(st.q) && Above(st.q, st.nxt)
  {
    var d := TrimFront(c, st.nxt);
    if c.Len() == 0 || st.closed || !(st.nxt <= d.at < st.Edge()) then Outcome(st, [], false)
    else if d.at == st.nxt then InOrder(st, d)
    else if room then Outcome(st.(q := Place(st.q, d, st.Edge())), [], false)
    else Outcome(st, [], false)
  }

  // ---------------------------------------------------------------- the queue invariant

  /** In order, disjoint, no empty segment, FIN on the last one at most. */
  ghost predicate Ordered(q: seq<Chunk>) {
    && (forall i :: 0 <= i < |q| ==> q[i].Len() > 0)
    && (forall i, j :: 0 <= i < j < |q| ==> q[i].End() <= q[j].at && !q[i].fin)
  }

  ghost predicate Above(q: seq<Chunk>, nxt: int) {
    forall i :: 0 <= i < |q| ==> nxt < q[i].at
  }

  /** The segment carries bytes of the stream `s`, and its FIN is the end of `s`. */
  ghost predicate Agrees(c: Chunk, s: seq<byte>) {
    Reads(s, c.at, c.data) && (c.fin ==> c.End() == |s|)
  }

  lemma {:induction false} ReadsJoin(s: seq<byte>, at: int, a: seq<byte>, b: seq<byte>)
    requires Reads(s, at, a) && Reads(s, at + |a|, b)
    ensures Reads(s, at, a + b)
  {
  }

  lemma {:induction false} ReadsPart(s: seq<byte>, at: int, b: seq<byte>, i: nat, j: nat)
    requires Reads(s, at, b) && i <= j <= |b|
    ensures Reads(s, at + i, b[i..j])
  {
    forall k | 0 <= k < j - i ensures b[i..j][k] == s[at + i..at + j][k] {
      assert b[i + k] == s[at + (i + k)];
    }
  }

  ghost predicate AllAgree(q: seq<Chunk>, s: seq<byte>) {
    forall i :: 0 <= i < |q| ==> Agrees(q[i], s)
  }

  ghost predicate Within(q: seq<Chunk>, edge: int) {
    forall i :: 0 <= i < |q| ==> q[i].Next() <= edge
  }

  // ---------------------------------------------------------------- swallowing and merging

  lemma {:induction false} SwallowSuffix(c: Chunk, q: seq<Chunk>)
    ensures var (d, r) := Swallow(c, q);
            && |r| <= |q| && r == q[|q| - |r|..]
            && d.at == c.at && d.data == c.data
            && (r != [] ==> d.End() < r[0].End())
            && (r == q ==> d == c)
    decreases |q|
  {
    if q != [] && c.End() >= q[0].End() {
      SwallowSuffix(c.(fin := c.fin || q[0].fin), q[1..]);
    }
  }

  /** A FIN comes only from the last queued segment, and then nothing is left. */
  lemma {:induction false} SwallowFin(c: Chunk, q: seq<Chunk>)
    requires Ordered(q) && !c.fin
    ensures var (d, r) := Swallow(c, q);
            d.fin <==> r == [] && q != [] && q[|q| - 1].fin
    ensures Swallow(c, q).0.fin ==> c.End() >= q[|q| - 1].End()
    decreases |q|
  {
    if q != [] && c.End() >= q[0].End() {
      SwallowSuffix(c.(fin := q[0].fin), q[1..]);
      if q[0].fin {
        assert |q| == 1;
      } else {
        SwallowFin(c, q[1..]);
      }
    }
  }

  lemma {:induction false} OrderedConcat(a: seq<Chunk>, b: seq<Chunk>)
    requires Ordered(a) && Ordered(b)
    requires a != [] && b != [] ==> a[|a| - 1].End() <= b[0].at && !a[|a| - 1].fin
    ensures Ordered(a + b)
  {
    forall i, j | 0 <= i < j < |a + b| ensures (a + b)[i].End() <= (a + b)[j].at && !(a + b)[i].fin {
      if i < |a| <= j {
        assert i < |a| - 1 ==> a[i].End() <= a[|a| - 1].at <= a[|a| - 1].End();
        assert j > |a| ==> b[0].at <= b[0].End() <= b[j - |a|].at;
      }
    }
  }

  lemma {:induction false} OrderedSlice(q: seq<Chunk>, i: nat, j: nat)
    requires Ordered(q) && i <= j <= |q|
    ensures Ordered(q[i..j])
    ensures j == |q| ==> Ordered(q[i..])
  {
    var p := q[i..j];
    forall k | 0 <= k < |p| ensures p[k] == q[i + k] && p[k].Len() > 0 {
    }
    forall k, l | 0 <= k < l < |p| ensures p[k].End() <= p[l].at && !p[k].fin {
      assert p[k] == q[i + k] && p[l] == q[i + l];
    }
    assert Ordered(p);
    assert j == |q| ==> q[i..] == p;
  }

  lemma {:induction false} OrderedAbove(q: seq<Chunk>, nxt: int)
    requires Ordered(q) && (q != [] ==> nxt < q[0].at)
    ensures Above(q, nxt)
  {
    assert forall i :: 0 < i < |q| ==> q[0].End() <= q[i].at;
  }

  /** What is left after swallowing starts beyond `c`. */
  lemma {:induction false} SwallowGap(c: Chunk, q: seq<Chunk>)
    requires Ordered(q) && forall i :: 0 <= i < |q| ==> c.at <= q[i].at
    requires q != [] && q[0].at == c.at ==> |c.data| > |q[0].data|
    ensures var r := Swallow(c, q).1; r != [] ==> c.at < r[0].at
  {
    SwallowSuffix(c, q);
    var r := Swallow(c, q).1;
    if r != [] && |r| < |q| {
      assert r[0] == q[|q| - |r|];
      assert q[0].End() <= r[0].at;
    }
  }

  lemma {:induction false} MergeShape(c: Chunk, q: seq<Chunk>)
    requires Ordered(q) && c.Len() > 0
    requires forall i :: 0 <= i < |q| ==> c.at <= q[i].at
    requires q != [] && q[0].at == c.at ==> |c.data| > |q[0].data|
    ensures var (d, r) := Merge(c, q);
            && d.at == c.at && d.End() <= c.End() && d.Len() > 0
            && |r| <= |q| && r == q[|q| - |r|..]
            && (r != [] ==> d.End() <= r[0].at && !d.fin)
  {
    if !c.fin {
      SwallowSuffix(c, q);
      SwallowFin(c, q);
      SwallowGap(c, q);
    }
  }

  lemma {:induction false} MergeOrdered(c: Chunk, q: seq<Chunk>)
    requires Ordered(q) && c.Len() > 0
    requires forall i :: 0 <= i < |q| ==> c.at <= q[i].at
    requires q != [] && q[0].at == c.at ==> |c.data| > |q[0].data|
    ensures Ordered([Merge(c, q).0] + Merge(c, q).1)
  {
    MergeShape(c, q);
    var r := Merge(c, q).1;
    OrderedSlice(q, |q| - |r|, |q|);
    OrderedConcat([Merge(c, q).0], r);
  }

  lemma {:induction false} TrimAgrees(c: Chunk, e: int, s: seq<byte>)
    requires Agrees(c, s) && c.at <= e < c.End()
    ensures Agrees(TrimTo(c, e).(fin := false), s)
  {
    ReadsPart(s, c.at, c.data, 0, e - c.at);
  }

  lemma {:induction false} MergeAgrees(c: Chunk, q: seq<Chunk>, s: seq<byte>)
    requires Ordered(q) && Agrees(c, s) && AllAgree(q, s)
    requires forall i :: 0 <= i < |q| ==> c.at <= q[i].at
    ensures var (d, r) := Merge(c, q); Agrees(d, s) && AllAgree(r, s)
  {
    if !c.fin {
      SwallowSuffix(c, q);
      SwallowFin(c, q);
      var (d, r) := Swallow(c, q);
      if r != [] && d.End() > r[0].at {
        TrimAgrees(d, r[0].at, s);
      }
    }
  }

  // ---------------------------------------------------------------- queueing

  lemma {:induction false} TrimLastOrdered(q: seq<Chunk>, e: int)
    requires Ordered(q) && (q != [] ==> q[|q| - 1].at < e)
    ensures Ordered(TrimLast(q, e))
  {
    if q != [] {
      OrderedConcat(q[..|q| - 1], [TrimTo(q[|q| - 1], e)]);
    }
  }

  lemma {:induction false} InsertAtOrdered(q: seq<Chunk>, k: nat, c: Chunk)
    requires Ordered(q) && c.Len() > 0
    requires k <= |q| && (k > 0 ==> q[k - 1].at < c.at && (k == |q| ==> !q[k - 1].fin))
    requires forall i :: k <= i < |q| ==> c.at <= q[i].at
    requires k < |q| && q[k].at == c.at ==> |c.data| > |q[k].data|
    ensures Ordered(InsertAt(q, k, c))
  {
    OrderedSlice(q, 0, k);
    TrimLastOrdered(q[..k], c.at);
    OrderedSlice(q, k, |q|);
    MergeOrdered(c, q[k..]);
    var front, back := TrimLast(q[..k], c.at), [Merge(c, q[k..]).0] + Merge(c, q[k..]).1;
    assert front != [] ==> front[|front| - 1].End() <= c.at && !front[|front| - 1].fin;
    assert back[0].at == c.at by { MergeShape(c, q[k..]); }
    OrderedConcat(front, back);
  }

  lemma {:induction false} InsertAtAbove(q: seq<Chunk>, k: nat, c: Chunk, nxt: int)
    requires Ordered(q) && Above(q, nxt) && c.Len() > 0 && nxt < c.at
    requires k <= |q| && (k > 0 ==> q[k - 1].at < c.at && (k == |q| ==> !q[k - 1].fin))
    requires forall i :: k <= i < |q| ==> c.at <= q[i].at
    requires k < |q| && q[k].at == c.at ==> |c.data| > |q[k].data|
    ensures Above(InsertAt(q, k, c), nxt)
  {
    OrderedSlice(q, k, |q|);
    MergeShape(c, q[k..]);
    InsertAtOrdered(q, k, c);
    OrderedAbove(InsertAt(q, k, c), nxt);
  }

  lemma {:induction false} AppendOrdered(q: seq<Chunk>, c: Chunk, edge: int, nxt: int)
    requires Ordered(q) && Above(q, nxt) && c.Len() > 0 && nxt < c.at < edge
    requires q != [] && q[|q| - 1].at < c.at && !q[|q| - 1].fin
    ensures Ordered(Append(q, c, edge)) && Above(Append(q, c, edge), nxt)
  {
    TrimLastOrdered(q, c.at);
    OrderedConcat(TrimLast(q, c.at), [Clip(c, edge)]);
  }

  /** Queueing keeps the queue in order and above `nxt`. */
  lemma {:induction false} PlaceOrdered(q: seq<Chunk>, c: Chunk, edge: int, nxt: int)
    requires Ordered(q) && Above(q, nxt) && c.Len() > 0 && nxt < c.at < edge
    ensures Ordered(Place(q, c, edge)) && Above(Place(q, c, edge), nxt)
  {
    var k := Before(q, c.at);
    if k == |q| && q != [] {
      if !q[k - 1].fin { AppendOrdered(q, c, edge, nxt); }
    } else if !(k < |q| && q[k].at == c.at && |c.data| <= |q[k].data|) {
      BeforeSplits(q, c.at);
      InsertAtOrdered(q, k, c);
      InsertAtAbove(q, k, c, nxt);
    }
  }

  /** `Before` splits an ordered queue. */
  lemma {:induction false} BeforeIs(q: seq<Chunk>, at: int, k: nat)
    requires k <= |q| && (forall i :: 0 <= i < k ==> q[i].at < at) && (k < |q| ==> at <= q[k].at)
    ensures Before(q, at) == k
  {
    var b := Before(q, at);
    assert b < |q| ==> at <= q[b].at;
  }

  lemma {:induction false} BeforeSplits(q: seq<Chunk>, at: int)
    requires Ordered(q)
    ensures forall i :: Before(q, at) <= i < |q| ==> at <= q[i].at
  {
    var k := Before(q, at);
    assert forall i :: k < i < |q| ==> q[k].End() <= q[i].at;
  }

  lemma {:induction false} TrimLastAgrees(q: seq<Chunk>, e: int, s: seq<byte>)
    requires AllAgree(q, s) && (q != [] ==> q[|q| - 1].at <= e && !q[|q| - 1].fin)
    ensures AllAgree(TrimLast(q, e), s)
  {
    if q != [] && q[|q| - 1].End() > e {
      TrimAgrees(q[|q| - 1], e, s);
    }
  }

  lemma {:induction false} ClipAgrees(c: Chunk, edge: int, s: seq<byte>)
    requires Agrees(c, s) && c.at <= edge
    ensures Agrees(Clip(c, edge), s)
  {
    if c.End() > edge {
      TrimAgrees(c, edge, s);
    }
  }

  lemma {:induction false} InsertAtAgrees(q: seq<Chunk>, k: nat, c: Chunk, s: seq<byte>)
    requires Ordered(q) && Agrees(c, s) && AllAgree(q, s)
    requires k <= |q| && (k > 0 ==> q[k - 1].at <= c.at && (k == |q| ==> !q[k - 1].fin))
    requires forall i :: k <= i < |q| ==> c.at <= q[i].at
    ensures AllAgree(InsertAt(q, k, c), s)
  {
    assert 0 < k < |q| ==> q[k - 1].End() <= q[k].at && !q[k - 1].fin;
    TrimLastAgrees(q[..k], c.at, s);
    OrderedSlice(q, k, |q|);
    MergeAgrees(c, q[k..], s);
    var front, back := TrimLast(q[..k], c.at), [Merge(c, q[k..]).0] + Merge(c, q[k..]).1;
    assert AllAgree(back, s);
  }

  lemma {:induction false} PlaceAgrees(q: seq<Chunk>, c: Chunk, edge: int, s: seq<byte>)
    requires Ordered(q) && c.at <= edge && Agrees(c, s) && AllAgree(q, s)
    ensures AllAgree(Place(q, c, edge), s)
  {
    var k := Before(q, c.at);
    if k == |q| && q != [] {
      if !q[k - 1].fin {
        TrimLastAgrees(q, c.at, s);
        ClipAgrees(c, edge, s);
      }
    } else if !(k < |q| && q[k].at == c.at && |c.data| <= |q[k].data|) {
      BeforeSplits(q, c.at);
      InsertAtAgrees(q, k, c, s);
    }
  }

  // ---------------------------------------------------------------- delivery

  ghost predicate Flowing(w: Flow) {
    Ordered(w.q) && (w.q != [] ==> w.nxt <= w.q[0].at) && (w.fin ==> w.q == [])
  }

  lemma {:induction false} DrainShape(w: Flow)
    requires Flowing(w)
    ensures var v := Drain(w);
            && w.nxt <= v.nxt && |v.q| <= |w.q| && v.q == w.q[|w.q| - |v.q|..]
            && Ordered(v.q) && Above(v.q, v.nxt) && (v.fin ==> v.q == [])
    decreases |w.q|
  {
    hide Ordered, Above, Flowing;
    if w.q != [] && w.q[0].at == w.nxt {
      TakeFlows(w);
      DrainShape(Take(w));
    } else {
      FlowsAbove(w);
    }
  }

  lemma {:induction false} TakeFlows(w: Flow)
    requires Flowing(w) && w.q != [] && w.q[0].at == w.nxt
    ensures Flowing(Take(w)) && Take(w).q == w.q[1..] && w.nxt <= Take(w).nxt
  {
    OrderedSlice(w.q, 1, |w.q|);
    assert |w.q| > 1 ==> w.q[0].End() <= w.q[1].at && !w.q[0].fin;
  }

  lemma {:induction false} FlowsAbove(w: Flow)
    requires Flowing(w) && (w.q == [] || w.q[0].at != w.nxt)
    ensures Ordered(w.q) && Above(w.q, w.nxt) && (w.fin ==> w.q == [])
  {
    OrderedAbove(w.q, w.nxt);
  }

  /** The bytes out are those of `s` from position `at` up to the next position. */
  ghost predicate FlowAgrees(w: Flow, s: seq<byte>, at: int) {
    && Reads(s, at, w.out) && AllAgree(w.q, s)
    && w.nxt == at + |w.out| + (if w.fin then 1 else 0) && (w.fin ==> w.nxt == |s| + 1)
  }

  lemma {:induction false} DrainAgrees(w: Flow, s: seq<byte>, at: int)
    requires Flowing(w) && FlowAgrees(w, s, at)
    ensures FlowAgrees(Drain(w), s, at)
    decreases |w.q|
  {
    if w.q != [] && w.q[0].at == w.nxt {
      var c := w.q[0];
      OrderedSlice(w.q, 1, |w.q|);
      assert |w.q| > 1 ==> c.End() <= w.q[1].at && !c.fin;
      ReadsJoin(s, at, w.out, c.data);
      DrainAgrees(Take(w), s, at);
    }
  }

  /** The queue of a connection before and after every segment, whatever the segment says. */
  ghost predicate QueueInv(st: Rcv) {
    Ordered(st.q) && Above(st.q, st.nxt) && (st.closed ==> st.q == [])
  }

  lemma {:induction false} AdvanceShape(c: Chunk, q: seq<Chunk>)
    requires Ordered(q) && Above(q, c.at) && c.Len() > 0
    ensures var w := Advance(c, q);
            c.at < w.nxt && Ordered(w.q) && Above(w.q, w.nxt) && (w.fin ==> w.q == [])
  {
    MergeShape(c, q);
    var (d, r) := Merge(c, q);
    OrderedSlice(q, |q| - |r|, |q|);
    DrainShape(Flow(d.data, d.Next(), r, d.fin));
  }

  lemma {:induction false} AdvanceDelivers(c: Chunk, q: seq<Chunk>, s: seq<byte>)
    requires Ordered(q) && Above(q, c.at) && c.Len() > 0 && Agrees(c, s) && AllAgree(q, s)
    ensures FlowAgrees(Advance(c, q), s, c.at)
  {
    MergeShape(c, q);
    MergeAgrees(c, q, s);
    var (d, r) := Merge(c, q);
    OrderedSlice(q, |q| - |r|, |q|);
    DrainAgrees(Flow(d.data, d.Next(), r, d.fin), s, c.at);
  }

  /** Theorem: every arriving segment, consistent or not, with or without memory for a queue
      element, leaves the queue ordered, disjoint, free of empty segments, above rcv_nxt,
      and with a FIN on its last element at most. */
  lemma {:induction false} ArriveQueue(st: Rcv, c: Chunk, room: bool)
    requires QueueInv(st)
    ensures QueueInv(Arrive(st, c, room).st)
    ensures Arrive(st, c, room).st.nxt >= st.nxt
  {
    var d := TrimFront(c, st.nxt);
    if c.Len() > 0 && !st.closed && st.nxt <= d.at < st.Edge() {
      if d.at == st.nxt {
        AdvanceShape(Clip(d, st.Edge()), st.q);
      } else if room {
        PlaceOrdered(st.q, d, st.Edge(), st.nxt);
      }
    }
  }

  /** The connection has delivered `s` up to its next position, and queues only bytes of `s`. */
  ghost predicate StreamInv(st: Rcv, s: seq<byte>) {
    && QueueInv(st) && AllAgree(st.q, s)
    && 0 <= st.nxt <= |s| + 1 && (st.closed <==> st.nxt == |s| + 1)
  }

  lemma {:induction false} TrimFrontAgrees(c: Chunk, nxt: int, s: seq<byte>)
    requires Agrees(c, s)
    ensures Agrees(TrimFront(c, nxt), s)
  {
    if c.at < nxt < c.Next() {
      ReadsPart(s, c.at, c.data, nxt - c.at, |c.data|);
      assert c.data[nxt - c.at..] == c.data[nxt - c.at..|c.data|];
    }
  }

  lemma {:induction false} InOrderDelivers(st: Rcv, c: Chunk, s: seq<byte>)
    requires StreamInv(st, s) && Agrees(c, s) && !st.closed
    requires c.at == st.nxt && c.Len() > 0 && st.wnd > 0
    ensures var o := InOrder(st, c);
            && StreamInv(o.st, s) && o.fin == o.st.closed && st.nxt < o.st.nxt
            && o.out == s[st.nxt..Min(o.st.nxt, |s|)]
  {
    var d := Clip(c, st.Edge());
    ClipAgrees(c, st.Edge(), s);
    AdvanceShape(d, st.q);
    AdvanceDelivers(d, st.q, s);
    assert Min(InOrder(st, c).st.nxt, |s|) == st.nxt + |InOrder(st, c).out|;
  }

  /** Theorem: a segment that agrees with the peer's stream delivers exactly the bytes between
      the old and the new rcv_nxt, and reports the FIN exactly when rcv_nxt passes it. */
  lemma {:induction false} ArriveDelivers(st: Rcv, c: Chunk, room: bool, s: seq<byte>)
    requires StreamInv(st, s) && Agrees(c, s)
    ensures var o := Arrive(st, c, room);
            && StreamInv(o.st, s) && st.nxt <= o.st.nxt
            && o.out == s[Min(st.nxt, |s|)..Min(o.st.nxt, |s|)]
            && (o.fin <==> o.st.closed && !st.closed)
  {
    var d := TrimFront(c, st.nxt);
    if c.Len() > 0 && !st.closed && st.nxt <= d.at < st.Edge() {
      TrimFrontAgrees(c, st.nxt, s);
      if d.at == st.nxt {
        InOrderDelivers(st, d, s);
      } else if room {
        PlaceOrdered(st.q, d, st.Edge(), st.nxt);
        PlaceAgrees(st.q, d, st.Edge(), s);
      }
    }
  }

  // ---------------------------------------------------------------- the receive window

  /** The guard of the branches that queue a segment without cutting it to the window: out of
      sequence, beyond the right edge, and not appended behind a non-empty queue. */
  ghost predicate Overruns(st: Rcv, c: Chunk, room: bool) {
    var q, k := st.q, Before(st.q, c.at);
    && room && !st.closed && st.nxt < c.at < st.Edge() < c.Next()
    && (k < |q| || q == [])
    && !(k < |q| && q[k].at == c.at && |c.data| <= |q[k].data|)
  }

  lemma {:induction false} WithinConcat(a: seq<Chunk>, b: seq<Chunk>, edge: int)
    ensures Within(a + b, edge) <==> Within(a, edge) && Within(b, edge)
  {
    assert forall i :: 0 <= i < |a| ==> (a + b)[i] == a[i];
    assert forall i :: 0 <= i < |b| ==> (a + b)[|a| + i] == b[i];
  }

  lemma {:induction false} TrimLastWithin(q: seq<Chunk>, e: int, edge: int)
    requires Within(q, edge) && (q != [] ==> q[|q| - 1].at <= e)
    ensures Within(TrimLast(q, e), edge)
  {
  }

  /** `c` covers the last queued segment, and takes over its FIN. */
  predicate TakesFin(c: Chunk, q: seq<Chunk>) {
    !c.fin && q != [] && q[|q| - 1].fin && c.End() >= q[|q| - 1].End()
  }

  /** Merging into a queue inside the window leaves the window exactly when `c`, with the FIN that it
      takes over, did. */
  lemma {:induction false} MergeEdge(c: Chunk, q: seq<Chunk>, edge: int)
    requires Ordered(q) && Within(q, edge) && c.Len() > 0
    requires forall i :: 0 <= i < |q| ==> c.at <= q[i].at
    requires q != [] && q[0].at == c.at ==> |c.data| > |q[0].data|
    ensures var (d, r) := Merge(c, q);
            Within(r, edge) && (d.Next() <= edge <==> c.Next() + (if TakesFin(c, q) then 1 else 0) <= edge)
  {
    MergeShape(c, q);
    if !c.fin {
      SwallowSuffix(c, q);
      SwallowFin(c, q);
    }
  }

  lemma {:induction false} DrainWithin(w: Flow, edge: int)
    requires w.nxt <= edge && Within(w.q, edge)
    ensures Drain(w).nxt <= edge && Within(Drain(w).q, edge)
    decreases |w.q|
  {
    if w.q != [] && w.q[0].at == w.nxt {
      DrainWithin(Take(w), edge);
    }
  }

  lemma {:induction false} InsertAtWithin(q: seq<Chunk>, k: nat, c: Chunk, edge: int)
    requires Ordered(q) && Within(q, edge) && c.Len() > 0
    requires k <= |q| && (k > 0 ==> q[k - 1].at < c.at && (k == |q| ==> !q[k - 1].fin))
    requires forall i :: k <= i < |q| ==> c.at <= q[i].at && (q[i].fin ==> c.End() <= q[i].End())
    requires k < |q| && q[k].at == c.at ==> |c.data| > |q[k].data|
    ensures Within(InsertAt(q, k, c), edge) <==> c.Next() <= edge
  {
    hide Swallow, Merge, TrimLast;
    OrderedSlice(q, k, |q|);
    MergeEdge(c, q[k..], edge);
    var d, r := Merge(c, q[k..]).0, Merge(c, q[k..]).1;
    assert Within([d], edge) <==> d.Next() <= edge by { assert [d][0] == d; }
    WithinConcat([d], r, edge);
    TrimLastWithin(q[..k], c.at, edge);
    WithinConcat(TrimLast(q[..k], c.at), [d] + r, edge);
  }

  /** Theorem: with a queue inside the window, an arriving segment of the stream leaves the
      right edge rcv_nxt + rcv_wnd where it was, and leaves the queue inside the window exactly
      when it is not an overrun. */
  lemma {:induction false} ArriveWindow(st: Rcv, c: Chunk, room: bool, s: seq<byte>)
    requires StreamInv(st, s) && Agrees(c, s) && Within(st.q, st.Edge())
    ensures var o := Arrive(st, c, room);
            && o.st.Edge() == st.Edge()
            && (Within(o.st.q, o.st.Edge()) <==> !Overruns(st, c, room))
  {
    var d := TrimFront(c, st.nxt);
    if c.Len() > 0 && !st.closed && st.nxt <= d.at < st.Edge() {
      if d.at == st.nxt {
        TrimFrontAgrees(c, st.nxt, s);
        InOrderWindow(st, d, s);
      } else if room {
        PlaceWindow(st, c, s);
      }
    }
  }

  /** An arriving segment of the stream that ends below `e`, as the queue does, leaves rcv_nxt and
      the queue below `e`. */
  lemma {:induction false} ArriveEnds(st: Rcv, c: Chunk, room: bool, s: seq<byte>, e: int)
    requires StreamInv(st, s) && Agrees(c, s) && Within(st.q, e) && c.Next() <= e && st.nxt <= e <= st.Edge()
    ensures var o := Arrive(st, c, room); o.st.nxt <= e && Within(o.st.q, e)
  {
    hide Place, Drain, Swallow, Before;
    var d := TrimFront(c, st.nxt);
    if c.Len() > 0 && !st.closed && st.nxt <= d.at < st.Edge() {
      TrimFrontAgrees(c, st.nxt, s);
      if d.at == st.nxt {
        MergeEdge(d, st.q, e);
        DrainWithin(Start(d, st.q), e);
      } else if room {
        PlaceEnds(st.q, d, st.Edge(), s, e);
      }
    }
  }

  lemma {:induction false} PlaceEnds(q: seq<Chunk>, c: Chunk, edge: int, s: seq<byte>, e: int)
    requires Ordered(q) && AllAgree(q, s) && Agrees(c, s) && Within(q, e) && c.Next() <= e <= edge && c.Len() > 0
    ensures Within(Place(q, c, edge), e)
  {
    hide Swallow, Before, Merge, InsertAt;
    var k := Before(q, c.at);
    BeforeSplits(q, c.at);
    if k == |q| && q != [] {
      TrimLastWithin(q, c.at, e);
      WithinConcat(TrimLast(q, c.at), [c], e);
    } else if k < |q| && q[k].at == c.at && |c.data| <= |q[k].data| {
    } else {
      InsertAtWithin(q, k, c, e);
    }
  }

  lemma {:induction false} SettleEdge(st: Rcv, w: Flow)
    requires st.nxt <= w.nxt <= st.Edge()
    ensures Settle(st, w).Edge() == st.Edge()
  {
  }

  lemma {:induction false} InOrderWindow(st: Rcv, c: Chunk, s: seq<byte>)
    requires StreamInv(st, s) && Agrees(c, s) && Within(st.q, st.Edge())
    requires c.at == st.nxt && c.Len() > 0 && st.wnd > 0
    ensures var o := InOrder(st, c); o.st.Edge() == st.Edge() && Within(o.st.q, o.st.Edge())
  {
    var d := Clip(c, st.Edge());
    ClipAgrees(c, st.Edge(), s);
    MergeEdge(d, st.q, st.Edge());
    DrainWithin(Start(d, st.q), st.Edge());
    AdvanceShape(d, st.q);
    SettleEdge(st, Advance(d, st.q));
  }

  lemma {:induction false} PlaceWindow(st: Rcv, c: Chunk, s: seq<byte>)
    requires StreamInv(st, s) && Agrees(c, s) && Within(st.q, st.Edge())
    requires c.Len() > 0 && st.nxt < c.at < st.Edge() && !st.closed
    ensures Within(Place(st.q, c, st.Edge()), st.Edge()) <==> !Overruns(st, c, true)
  {
    var q, k := st.q, Before(st.q, c.at);
    BeforeSplits(q, c.at);
    if k == |q| && q != [] {
      TrimLastWithin(q, c.at, st.Edge());
      WithinConcat(TrimLast(q, c.at), [Clip(c, st.Edge())], st.Edge());
    } else if k < |q| && q[k].at == c.at && |c.data| <= |q[k].data| {
    } else {
      InsertAtWithin(q, k, c, st.Edge());
    }
  }
}

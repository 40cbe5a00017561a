/** The data half of tcp_receive as the code runs it: 32-bit sequence numbers, 16-bit lengths,
    loops over the out-of-sequence list, and fields of the protocol control block updated step
    by step.  Every method is proved to do to the ghost state `st` what Reassembly says. */
module TcpReceive {
  import opened SeqNum
  import opened Common
  import opened Reassembly
  import ReceiveRuns

  /** struct tcp_seg: `len` and the pbuf `p` are separate fields that the code keeps equal. */
  datatype Segment = Segment(seqno: u32, len: u16, p: seq<byte>, fin: bool)

  function TcpLen(s: Segment): int {
    s.len + if s.fin then 1 else 0
  }

  /** pbuf_realloc: can only shrink. */
  function Realloc(p: seq<byte>, n: nat): seq<byte> {
    if n >= |p| then p else p[..n]
  }

  /** The segment `s` is the chunk `c` of a connection numbered from `isn`. */
  ghost predicate Carries(isn: u32, s: Segment, c: Chunk) {
    s.seqno == Wire(isn, c.at) && s.len == |c.data| && s.p == c.data && s.fin == c.fin
  }

  ghost predicate CarryAll(isn: u32, ss: seq<Segment>, q: seq<Chunk>) {
    |ss| == |q| && forall i :: 0 <= i < |ss| ==> Carries(isn, ss[i], q[i])
  }

  /** The queue starts within 2^16 of position `nxt`, so that 32-bit comparisons are exact. */
  ghost predicate Near(q: seq<Chunk>, nxt: int) {
    forall i :: 0 <= i < |q| ==> nxt <= q[i].at < nxt + 0x1_0000
  }

  /** Swallowing one more element of the list. */
  lemma {:induction false} SwallowStep(d: Chunk, q: seq<Chunk>, i: nat)
    requires i < |q| && d.End() >= q[i].End()
    ensures Swallow(d, q[i..]) == Swallow(d.(fin := d.fin || q[i].fin), q[i + 1..])
  {
    assert q[i..][1..] == q[i + 1..];
  }

  /** The list is swallowed up to element `i`: what merging gives. */
  lemma {:induction false} MergeAt(c: Chunk, q: seq<Chunk>, d: Chunk, i: nat)
    requires forall j :: 0 <= j < |q| ==> c.at <= q[j].at
    requires !c.fin && d.at == c.at && i <= |q| && Swallow(d, q[i..]) == Swallow(c, q)
    requires i < |q| ==> d.End() < q[i].End()
    ensures Merge(c, q).0 == if i < |q| && d.End() > q[i].at then TrimTo(d, q[i].at) else d
    ensures Merge(c, q).1 == q[i..]
  {
    SwallowSuffix(c, q);
    assert i < |q| ==> q[i..][0] == q[i];
  }

  /** tcp_oos_insert_segment: `cseg` goes in front of the list `list`. */
  method OosInsertSegment(cseg: Segment, list: seq<Segment>,
                          ghost isn: u32, ghost nxt: int, ghost c: Chunk, ghost q: seq<Chunk>)
    returns (seg: Segment, next: seq<Segment>)
    requires Carries(isn, cseg, c) && CarryAll(isn, list, q)
    requires Ordered(q) && Near(q, nxt) && nxt <= c.at < nxt + 0x1_0000
    requires forall i :: 0 <= i < |q| ==> c.at <= q[i].at
    ensures Carries(isn, seg, Merge(c, q).0) && CarryAll(isn, next, Merge(c, q).1)
  {
    hide Swallow, Wire, Ordered;
    seg, next := cseg, list;
    if cseg.fin {
      next := [];
    } else {
      var seqno, i := cseg.seqno, 0;
      ghost var d := c;
      assert q[0..] == q;
      while i < |list| && Geq(Add(seqno, seg.len), Add(list[i].seqno, list[i].len))
        invariant 0 <= i <= |list|
        invariant Carries(isn, seg, d) && d.at == c.at && d.data == c.data
        invariant Swallow(d, q[i..]) == Swallow(c, q)
      {
        WireOrder(isn, d.at, seg.len, q[i].at, list[i].len);
        SwallowStep(d, q, i);
        if list[i].fin {
          seg := seg.(fin := true);
        }
        d := d.(fin := d.fin || q[i].fin);
        i := i + 1;
      }
      next := list[i..];
      if i < |list| {
        WireOrder(isn, d.at, seg.len, q[i].at, list[i].len);
        WireOrder(isn, d.at, seg.len, q[i].at, 0);
        AddZero(list[i].seqno);
      }
      MergeAt(c, q, d, i);
      if i < |list| {
        if Gt(Add(seqno, seg.len), list[i].seqno) {
          WireSub16(isn, q[i].at, d.at);
          var len := Sub16(list[i].seqno, seqno);
          seg := seg.(len := len, p := Realloc(seg.p, len));
        }
      }
    }
  }

  /** The in-sequence segment `inseg` against the out-of-sequence list: drop what it covers,
      taking over a FIN, and cut it where the list starts. */
  method CutAtOoseq(inseg: Segment, list: seq<Segment>,
                    ghost isn: u32, ghost c: Chunk, ghost q: seq<Chunk>)
    returns (seg: Segment, next: seq<Segment>)
    requires Carries(isn, inseg, c) && !inseg.fin && CarryAll(isn, list, q)
    requires Ordered(q) && Near(q, c.at)
    ensures Carries(isn, seg, Merge(c, q).0) && CarryAll(isn, next, Merge(c, q).1)
  {
    seg := inseg;
    var seqno, tcplen, i := inseg.seqno, TcpLen(inseg), 0;
    ghost var d := c;
    assert q[0..] == q;
    while i < |list| && Geq(Add(seqno, tcplen), Add(list[i].seqno, list[i].len))
      invariant 0 <= i <= |list| && tcplen == TcpLen(seg)
      invariant Carries(isn, seg, d) && d.at == c.at && d.data == c.data
      invariant d.fin ==> i == |list|
      invariant Swallow(d, q[i..]) == Swallow(c, q)
    {
      WireOrder(isn, d.at, tcplen, q[i].at, list[i].len);
      SwallowStep(d, q, i);
      if list[i].fin {
        seg := seg.(fin := true);
        tcplen := TcpLen(seg);
      }
      d := d.(fin := d.fin || q[i].fin);
      i := i + 1;
    }
    next := list[i..];
    if i < |list| {
      WireOrder(isn, d.at, tcplen, q[i].at, list[i].len);
      WireOrder(isn, d.at, tcplen, q[i].at, 0);
      AddZero(list[i].seqno);
    }
    MergeAt(c, q, d, i);
    if i < |list| {
      if Gt(Add(seqno, tcplen), list[i].seqno) {
        WireSub16(isn, q[i].at, d.at);
        var len := Sub16(list[i].seqno, seqno);
        seg := seg.(len := len, p := Realloc(seg.p, len));
      }
    }
  }

  /** A delivery in progress that began with rcv_nxt at `base`. */
  ghost predicate Draining(w: Flow, base: int) {
    Flowing(w) && Near(w.q, base) && base <= w.nxt < base + 0x2_0000
    && forall i :: 0 <= i < |w.q| ==> |w.q[i].data| < 0x1_0000
  }

  lemma {:induction false} TakeDrains(w: Flow, base: int)
    requires Draining(w, base) && w.q != [] && w.q[0].at == w.nxt
    ensures Draining(Take(w), base) && w.nxt <= Take(w).nxt && Drain(Take(w)) == Drain(w)
    ensures |w.q| > 1 ==> !Take(w).fin
  {
    OrderedSlice(w.q, 1, |w.q|);
    assert |w.q| > 1 ==> w.q[0].End() <= w.q[1].at && !w.q[0].fin;
  }

  lemma {:induction false} DrainDone(w: Flow)
    requires w.q == [] || w.q[0].at != w.nxt
    ensures Drain(w) == w
  {
  }

  lemma {:induction false} StartDrains(st: Rcv, c: Chunk)
    requires QueueInv(st) && Near(st.q, st.nxt) && c.at == st.nxt && c.Len() > 0
    requires |c.data| < 0x1_0000 && forall i :: 0 <= i < |st.q| ==> |st.q[i].data| < 0x1_0000
    ensures Draining(Start(c, st.q), st.nxt)
    ensures QueueInv(Settle(st, Advance(c, st.q))) && Near(Advance(c, st.q).q, Advance(c, st.q).nxt)
  {
    MergeShape(c, st.q);
    var w := Start(c, st.q);
    OrderedSlice(st.q, |st.q| - |w.q|, |st.q|);
    DrainShape(w);
  }

  /** If everything before `i` starts before `at`, the place is `i` or, when `i` too starts
      before `at` and is the last, behind it. */
  lemma {:induction false} BeforeStep(q: seq<Chunk>, at: int, i: nat)
    requires i < |q| && forall j :: 0 <= j < i ==> q[j].at < at
    ensures at <= q[i].at ==> Before(q, at) == i
    ensures q[i].at < at && i + 1 == |q| ==> Before(q, at) == |q|
  {
    if at <= q[i].at {
      BeforeIs(q, at, i);
    } else if i + 1 == |q| {
      BeforeIs(q, at, |q|);
    }
  }

  ghost predicate Below(q: seq<Chunk>, e: int) {
    forall i :: 0 <= i < |q| ==> q[i].at < e
  }

  lemma {:induction false} OrderedBelow(q: seq<Chunk>, e: int)
    requires Ordered(q) && (q != [] ==> q[|q| - 1].at < e)
    ensures Below(q, e)
  {
    assert forall i :: 0 <= i < |q| - 1 ==> q[i].End() <= q[|q| - 1].at;
  }

  lemma {:induction false} CarryConcat(isn: u32, a: seq<Segment>, b: seq<Segment>, p: seq<Chunk>, q: seq<Chunk>)
    requires CarryAll(isn, a, p) && CarryAll(isn, b, q)
    ensures CarryAll(isn, a + b, p + q)
  {
  }

  /** Queueing moves the start of no queued segment. */
  lemma {:induction false} PlaceBelow(q: seq<Chunk>, c: Chunk, edge: int, nxt: int, e: int)
    requires Ordered(q) && Above(q, nxt) && Below(q, e) && c.Len() > 0 && nxt < c.at < edge && c.at < e
    ensures Below(Place(q, c, edge), e)
  {
    hide Merge;
    PlaceOrdered(q, c, edge, nxt);
    var k := Before(q, c.at);
    if !(k < |q| && q[k].at == c.at && |c.data| <= |q[k].data|) && !(k == |q| && q != []) {
      BeforeSplits(q, c.at);
      OrderedSlice(q, k, |q|);
      MergeShape(c, q[k..]);
    }
    OrderedBelow(Place(q, c, edge), e);
  }

  datatype TcpState =
    | ESTABLISHED | FIN_WAIT_1 | FIN_WAIT_2 | CLOSE_WAIT | CLOSING | LAST_ACK | TIME_WAIT
  {
    /** state >= CLOSE_WAIT */
    predicate PeerClosed() { CLOSE_WAIT? || CLOSING? || LAST_ACK? || TIME_WAIT? }

    /** The peer has closed, and the connection waits for us or for our FIN to be acknowledged. */
    predicate Passive() { CLOSE_WAIT? || LAST_ACK? }

    /** Our FIN was queued, and acknowledged. */
    predicate FinSent() { FIN_WAIT_1? || FIN_WAIT_2? || CLOSING? || LAST_ACK? || TIME_WAIT? }
    predicate FinAcked() { FIN_WAIT_2? || TIME_WAIT? }

    /** The state after a segment; `fin` says that the peer's FIN was reached with it, `acked` that
        it acknowledges everything sent, our FIN included. */
    function After(fin: bool, acked: bool): TcpState {
      match this
      case ESTABLISHED => if fin then CLOSE_WAIT else ESTABLISHED
      case FIN_WAIT_1 =>
        if fin then (if acked then TIME_WAIT else CLOSING) else if acked then FIN_WAIT_2 else FIN_WAIT_1
      case FIN_WAIT_2 => if fin then TIME_WAIT else FIN_WAIT_2
      case CLOSING => if acked then TIME_WAIT else CLOSING
      case _ => this
    }

    /** The state after our FIN was queued. */
    function Shut(): TcpState {
      if ESTABLISHED? then FIN_WAIT_1 else if CLOSE_WAIT? then LAST_ACK else this
    }
  }

  /** A state is what became of the two FINs, and which of them was first. */
  lemma {:induction false} StateIs(a: TcpState, b: TcpState)
    requires a.FinSent() == b.FinSent() && a.FinAcked() == b.FinAcked()
    requires a.PeerClosed() == b.PeerClosed() && a.Passive() == b.Passive()
    ensures a == b
  {
  }

  /** Theorem: a segment changes what it tells of: the peer's FIN, and the acknowledgement of ours,
      which in a passive close ends the connection. */
  lemma {:induction false} StateAfter(st: TcpState, fin: bool, acked: bool)
    ensures var st' := st.After(fin, acked);
            && st'.FinSent() == st.FinSent() && st'.PeerClosed() == (st.PeerClosed() || fin)
            && st'.FinAcked() == (st.FinAcked() || (acked && st.FinSent() && !st.Passive()))
            && st'.Passive() == (st.Passive() || (fin && !st.FinSent() && !st.PeerClosed()))
  {
  }

  /** ... and closing sends our FIN. */
  lemma {:induction false} StateShut(st: TcpState)
    ensures var st' := st.Shut();
            && st'.FinSent() && st'.FinAcked() == st.FinAcked()
            && st'.PeerClosed() == st.PeerClosed() && st'.Passive() == st.Passive()
  {
  }

  /** The receiver fields of struct tcp_pcb. */
  class Pcb {
    var state: TcpState
    var rcv_nxt: u32
    var rcv_wnd: u16
    var rcv_ann_wnd: u16
    var rcv_ann_right_edge: u32
    var mss: u16
    var ooseq: seq<Segment>

    /** The same state over stream positions, for a peer that numbers position 0 as `isn`. */
    ghost var isn: u32
    ghost var st: Rcv

    ghost predicate Core()
      reads this
    {
      && QueueInv(st) && CarryAll(isn, ooseq, st.q) && Near(st.q, st.nxt)
      && rcv_nxt == Wire(isn, st.nxt) && rcv_wnd == st.wnd
      && rcv_ann_wnd == st.annWnd && rcv_ann_right_edge == Wire(isn, st.annEdge) && mss == st.mss
    }

    /** The last announcement is less than 126 * 2^24 away, so that edges compare as positions. */
    ghost predicate Recent()
      reads this
    {
      -0x7E00_0000 < st.nxt - st.annEdge < 0x7E00_0000
    }

    ghost predicate Valid()
      reads this
    {
      Core() && (st.closed <==> state.PeerClosed())
    }

    /** tcp_update_rcv_ann_wnd, for rcv_nxt and the announced edge at positions `n` and `e`. */
    method UpdateRcvAnnWnd(ghost n: int, ghost e: int) returns (inflation: u32)
      requires rcv_nxt == Wire(isn, n) && rcv_ann_right_edge == Wire(isn, e)
      requires -0x7F00_0000 < n - e < 0x7F00_0000
      modifies this`rcv_ann_wnd
      ensures rcv_ann_wnd == AnnWindow(n, rcv_wnd, e, mss)
      ensures inflation == if n + rcv_wnd >= e + Min(TCP_WND / 2, mss) then n + rcv_wnd - e else 0
    {
      var newRightEdge := Add(rcv_nxt, rcv_wnd);
      var least := if TCP_WND / 2 < mss then TCP_WND / 2 else mss;
      WireOrder(isn, n, rcv_wnd, e, least);
      WireOrder(isn, n, 0, e, 0);
      AddZero(rcv_nxt);
      AddZero(rcv_ann_right_edge);
      WireAdd(isn, n, rcv_wnd);
      if Geq(newRightEdge, Add(rcv_ann_right_edge, least)) {
        rcv_ann_wnd := rcv_wnd;
        WireSub(isn, n + rcv_wnd, e);
        inflation := Sub(newRightEdge, rcv_ann_right_edge);
      } else {
        if Gt(rcv_nxt, rcv_ann_right_edge) {
          rcv_ann_wnd := 0;
        } else {
          WireSub16Mod(isn, e, n);
          rcv_ann_wnd := Sub16(rcv_ann_right_edge, rcv_nxt);
        }
        inflation := 0;
      }
    }

    /** Account for the first queued segment `c`, which is next in sequence, and unlink it. */
    method TakeFirst(ghost c: Chunk, ghost e: int) returns (cseg: Segment)
      requires ooseq != [] && Carries(isn, ooseq[0], c) && rcv_nxt == Wire(isn, c.at)
      requires rcv_ann_right_edge == Wire(isn, e) && -0x7F00_0000 < c.Next() - e < 0x7F00_0000
      modifies this`rcv_nxt, this`rcv_wnd, this`rcv_ann_wnd, this`ooseq, this`state
      ensures cseg == old(ooseq[0]) && ooseq == old(ooseq)[1..]
      ensures rcv_nxt == Wire(isn, c.Next())
      ensures rcv_wnd == (old(rcv_wnd) - c.Len()) % 0x1_0000
      ensures rcv_ann_wnd == AnnWindow(c.Next(), rcv_wnd, e, mss)
      ensures state == if c.fin && old(state).ESTABLISHED? then CLOSE_WAIT else old(state)
    {
      cseg := ooseq[0];
      WireAdd(isn, c.at, TcpLen(cseg));
      rcv_nxt := Add(rcv_nxt, TcpLen(cseg));
      rcv_wnd := (rcv_wnd - TcpLen(cseg)) % 0x1_0000;
      var _ := UpdateRcvAnnWnd(c.Next(), e);
      if cseg.fin && state.ESTABLISHED? {
        state := CLOSE_WAIT;
      }
      ooseq := ooseq[1..];
    }

    /** Pass up the queued segments that are now in sequence.  `w` is the delivery so far, and
        `base` the position of rcv_nxt when the segment arrived. */
    method DrainOoseq(data: seq<byte>, gotFin: bool, ghost base: int, ghost w: Flow, ghost e: int)
      returns (recv_data: seq<byte>, got_fin: bool)
      requires Draining(w, base) && w.out == data && w.fin == gotFin
      requires CarryAll(isn, ooseq, w.q) && rcv_nxt == Wire(isn, w.nxt)
      requires rcv_ann_right_edge == Wire(isn, e) && -0x7E00_0000 < base - e < 0x7E00_0000
      requires rcv_ann_wnd == AnnWindow(w.nxt, rcv_wnd, e, mss)
      modifies this`rcv_nxt, this`rcv_wnd, this`rcv_ann_wnd, this`ooseq, this`state
      ensures var v := Drain(w);
              && recv_data == v.out && got_fin == v.fin && Draining(v, base)
              && rcv_nxt == Wire(isn, v.nxt) && CarryAll(isn, ooseq, v.q)
              && rcv_wnd == (old(rcv_wnd) - (v.nxt - w.nxt)) % 0x1_0000
              && rcv_ann_wnd == AnnWindow(v.nxt, rcv_wnd, e, mss)
      ensures state == old(state) || (got_fin && old(state).ESTABLISHED? && state.CLOSE_WAIT?)
    {
      hide Drain, AnnWindow, Wire, Ordered;
      recv_data, got_fin := data, gotFin;
      ghost var v := w;
      while ooseq != [] && ooseq[0].seqno == rcv_nxt
        invariant Draining(v, base) && Drain(v) == Drain(w)
        invariant recv_data == v.out && got_fin == v.fin
        invariant CarryAll(isn, ooseq, v.q) && rcv_nxt == Wire(isn, v.nxt)
        invariant rcv_wnd == (old(rcv_wnd) - (v.nxt - w.nxt)) % 0x1_0000
        invariant rcv_ann_wnd == AnnWindow(v.nxt, rcv_wnd, e, mss)
        invariant state == old(state) || (got_fin && old(state).ESTABLISHED? && state.CLOSE_WAIT?)
        decreases |ooseq|
      {
        ghost var c := v.q[0];
        WireEq(isn, c.at, v.nxt);
        TakeDrains(v, base);
        WrapTwice(old(rcv_wnd), v.nxt - w.nxt, c.Len());
        var cseg := TakeFirst(c, e);
        if |cseg.p| > 0 {
          recv_data := recv_data + cseg.p;
        }
        got_fin := got_fin || cseg.fin;
        v := Take(v);
      }
      if ooseq != [] {
        WireEq(isn, v.q[0].at, v.nxt);
      }
      DrainDone(v);
    }

    /** Cut the in-sequence segment to the window and to the out-of-sequence list. */
    method TrimInSequence(segment: Segment, ghost c: Chunk) returns (inseg: Segment)
      requires Core() && Carries(isn, segment, c) && c.at == st.nxt && c.Len() > 0 && rcv_wnd > 0
      modifies this`ooseq
      ensures var w := Start(Clip(c, st.Edge()), st.q);
              && inseg.seqno == rcv_nxt && TcpLen(inseg) == w.nxt - st.nxt
              && inseg.p == w.out && inseg.fin == w.fin && CarryAll(isn, ooseq, w.q)
    {
      inseg := segment;
      if TcpLen(inseg) > rcv_wnd {
        inseg := inseg.(fin := false, len := rcv_wnd, p := Realloc(inseg.p, rcv_wnd));
      }
      ghost var d := Clip(c, st.Edge());
      assert Carries(isn, inseg, d);
      MergeShape(d, st.q);
      if ooseq != [] {
        if inseg.fin {
          ooseq := [];
        } else {
          inseg, ooseq := CutAtOoseq(inseg, ooseq, isn, d, st.q);
        }
      }
    }

    /** Account for the trimmed in-sequence segment and pass up what follows it; `w` is the
        delivery that it starts. */
    method Accept(inseg: Segment, ghost w: Flow)
      returns (recv_data: seq<byte>, got_fin: bool)
      requires Recent() && rcv_nxt == Wire(isn, st.nxt) && rcv_wnd == st.wnd && mss == st.mss
      requires rcv_ann_right_edge == Wire(isn, st.annEdge)
      requires inseg.seqno == rcv_nxt && TcpLen(inseg) == w.nxt - st.nxt
      requires inseg.p == w.out && inseg.fin == w.fin && CarryAll(isn, ooseq, w.q)
      requires Draining(w, st.nxt)
      modifies this`rcv_nxt, this`rcv_wnd, this`rcv_ann_wnd, this`ooseq, this`state
      ensures var v := Drain(w);
              && recv_data == v.out && got_fin == v.fin && CarryAll(isn, ooseq, v.q)
              && rcv_nxt == Wire(isn, v.nxt) && rcv_wnd == Settle(st, v).wnd
              && rcv_ann_wnd == Settle(st, v).annWnd
      ensures state == old(state) || (got_fin && old(state).ESTABLISHED? && state.CLOSE_WAIT?)
    {
      hide Drain, AnnWindow, Wire, Ordered;
      var tcplen := TcpLen(inseg);
      WireAdd(isn, st.nxt, tcplen);
      rcv_nxt := Add(inseg.seqno, tcplen);
      rcv_wnd := (rcv_wnd - tcplen) % 0x1_0000;
      var _ := UpdateRcvAnnWnd(w.nxt, st.annEdge);
      recv_data, got_fin := DrainOoseq(inseg.p, inseg.fin, st.nxt, w, st.annEdge);
      WrapTwice(st.wnd, tcplen, Drain(w).nxt - w.nxt);
    }

    /** tcp_receive, incoming segment next in sequence. */
    method InSequence(segment: Segment, ghost c: Chunk)
      returns (recv_data: seq<byte>, got_fin: bool)
      requires Core() && Recent() && Carries(isn, segment, c)
      requires c.at == st.nxt && c.Len() > 0 && rcv_wnd > 0
      modifies this
      ensures Core() && isn == old(isn)
      ensures st == InOrder(old(st), c).st
      ensures recv_data == InOrder(old(st), c).out && got_fin == InOrder(old(st), c).fin
      ensures state == old(state) || (got_fin && old(state).ESTABLISHED? && state.CLOSE_WAIT?)
    {
      ghost var d := Clip(c, st.Edge());
      StartDrains(st, d);
      var inseg := TrimInSequence(segment, c);
      recv_data, got_fin := Accept(inseg, Start(d, st.q));
      st := Settle(st, Advance(d, st.q));
    }

    /** tcp_receive, incoming segment beyond rcv_nxt: put it on the out-of-sequence list. */
    method OutOfSequence(inseg: Segment, room: bool, ghost c: Chunk)
      requires Core() && !st.closed && Carries(isn, inseg, c)
      requires c.Len() > 0 && st.nxt < c.at < st.Edge()
      modifies this`ooseq, this`st
      ensures Core()
      ensures st == if room then old(st).(q := Place(old(st).q, c, old(st).Edge())) else old(st)
    {
      hide Place, Ordered, Wire, CarryAll;
      if room {
        var list := Queue(inseg, c);
        PlaceOrdered(st.q, c, st.Edge(), st.nxt);
        PlaceBelow(st.q, c, st.Edge(), st.nxt, st.nxt + 0x1_0000);
        ghost var q := Place(st.q, c, st.Edge());
        assert Near(q, st.nxt);
        ooseq := list;
        st := st.(q := q);
      }
    }

    /** The walk over the list: the first element that does not start before `seqno`. */
    method FindPlace(seqno: u32, ghost at: int) returns (i: nat)
      requires Core() && seqno == Wire(isn, at) && st.nxt < at < st.Edge() && ooseq != []
      ensures i <= |ooseq| && i == Before(st.q, at)
    {
      ghost var q := st.q;
      i := 0;
      while true
        invariant i < |ooseq|
        invariant forall j :: 0 <= j < i ==> q[j].at < at
        decreases |ooseq| - i
      {
        var next := ooseq[i];
        WireOrder(isn, at, 0, q[i].at, 0);
        AddZero(seqno);
        AddZero(next.seqno);
        BeforeStep(q, at, i);
        if seqno == next.seqno {
          return;
        }
        if i == 0 {
          if Lt(seqno, next.seqno) {
            return;
          }
        } else {
          WireOrder(isn, at, 0, q[i - 1].at, 1);
          WireOrder(isn, at, 0, q[i].at, -1);
          if Between(seqno, Add(ooseq[i - 1].seqno, 1), Add(next.seqno, -1)) {
            return;
          }
        }
        if i + 1 == |ooseq| && Gt(seqno, next.seqno) {
          i := |ooseq|;
          return;
        }
        i := i + 1;
      }
    }

    /** The list with `inseg` in its place; called when a queue element was allocated. */
    method Queue(inseg: Segment, ghost c: Chunk) returns (list: seq<Segment>)
      requires Core() && Carries(isn, inseg, c) && c.Len() > 0 && st.nxt < c.at < st.Edge()
      ensures CarryAll(isn, list, Place(st.q, c, st.Edge()))
    {
      if ooseq == [] {
        list := [inseg];
        return;
      }
      var i := FindPlace(inseg.seqno, c.at);
      BeforeSplits(st.q, c.at);
      if i == |ooseq| {
        if ooseq[i - 1].fin {
          list := ooseq;
        } else {
          list := AppendLast(inseg, c);
        }
      } else {
        WireEq(isn, c.at, st.q[i].at);
        if inseg.seqno == ooseq[i].seqno && inseg.len <= ooseq[i].len {
          list := ooseq;
        } else {
          list := InsertBefore(i, inseg, c);
        }
      }
    }

    /** Cut the predecessor of position `i` where `inseg` starts, and link `inseg` there. */
    method InsertBefore(i: nat, inseg: Segment, ghost c: Chunk) returns (list: seq<Segment>)
      requires Core() && Carries(isn, inseg, c) && st.nxt < c.at < st.Edge()
      requires i <= |ooseq| && (i > 0 ==> st.q[i - 1].at < c.at)
      requires forall j :: i <= j < |ooseq| ==> c.at <= st.q[j].at
      ensures CarryAll(isn, list, InsertAt(st.q, i, c))
    {
      hide Wire, Merge, TrimLast;
      var front := CutLast(ooseq[..i], inseg.seqno, st.q[..i], c.at);
      OrderedSlice(st.q, i, |st.q|);
      var seg, next := OosInsertSegment(inseg, ooseq[i..], isn, st.nxt, c, st.q[i..]);
      ghost var d, r := Merge(c, st.q[i..]).0, Merge(c, st.q[i..]).1;
      CarryConcat(isn, [seg], next, [d], r);
      CarryConcat(isn, front, [seg] + next, TrimLast(st.q[..i], c.at), [d] + r);
      list := front + ([seg] + next);
    }

    /** Cut the last segment of `front` at sequence number `seqno` if it reaches past it. */
    method CutLast(front: seq<Segment>, seqno: u32, ghost q: seq<Chunk>, ghost e: int)
      returns (list: seq<Segment>)
      requires CarryAll(isn, front, q) && Near(q, st.nxt) && seqno == Wire(isn, e)
      requires st.nxt <= e < st.nxt + 0x1_0000 && (q != [] ==> q[|q| - 1].at <= e)
      ensures CarryAll(isn, list, TrimLast(q, e))
    {
      list := front;
      if front != [] {
        var k := |front| - 1;
        var prev := front[k];
        WireOrder(isn, q[k].at, prev.len, e, 0);
        AddZero(seqno);
        if Gt(Add(prev.seqno, prev.len), seqno) {
          WireSub16(isn, e, q[k].at);
          var len := Sub16(seqno, prev.seqno);
          list := front[..k] + [prev.(len := len, p := Realloc(prev.p, len))];
        }
      }
    }

    /** Link `inseg` behind the whole list, cut to the receive window. */
    method AppendLast(inseg: Segment, ghost c: Chunk) returns (list: seq<Segment>)
      requires Core() && Carries(isn, inseg, c) && st.nxt < c.at < st.Edge()
      requires ooseq != [] && st.q[|st.q| - 1].at <= c.at
      ensures CarryAll(isn, list, Append(st.q, c, st.Edge()))
    {
      var front := CutLast(ooseq, inseg.seqno, st.q, c.at);
      var seg := inseg;
      WireOrder(isn, c.at, TcpLen(inseg), st.nxt, rcv_wnd);
      if Gt(Add(inseg.seqno, TcpLen(inseg)), Add(rcv_nxt, rcv_wnd)) {
        WireAdd(isn, st.nxt, rcv_wnd);
        WireSub16(isn, st.Edge(), c.at);
        var len := Sub16(Add(rcv_nxt, rcv_wnd), inseg.seqno);
        seg := seg.(fin := false, len := len, p := Realloc(seg.p, len));
      }
      list := front + [seg];
    }

    /** The data half of tcp_receive.  `c` is the segment over positions; its start is less than
        127 * 2^24 from rcv_nxt, and its length is that of a TCP payload in an IPv4 packet. */
    method Receive(segment: Segment, room: bool, ghost c: Chunk)
      returns (recv_data: seq<byte>, got_fin: bool)
      requires Valid() && Recent() && Carries(isn, segment, c)
      requires -0x7F00_0000 < c.at - st.nxt < 0x7F00_0000 && segment.len <= 65495
      modifies this
      ensures Core() && isn == old(isn)
      ensures st == Arrive(old(st), c, room).st
      ensures recv_data == Arrive(old(st), c, room).out && got_fin == Arrive(old(st), c, room).fin
      ensures state == old(state) || (got_fin && old(state).ESTABLISHED? && state.CLOSE_WAIT?)
    {
      hide Wire, InOrder, Place, Ordered, CarryAll;
      recv_data, got_fin := [], false;
      var inseg, tcplen := segment, TcpLen(segment);
      if tcplen > 0 && !state.PeerClosed() {
        WireOrder(isn, st.nxt, 0, c.at, 1);
        WireOrder(isn, st.nxt, 0, c.at, tcplen - 1);
        AddZero(rcv_nxt);
        ghost var d := TrimFront(c, st.nxt);
        if Between(rcv_nxt, Add(inseg.seqno, 1), Add(inseg.seqno, tcplen - 1)) {
          WireSub16(isn, st.nxt, c.at);
          var off := Sub16(rcv_nxt, inseg.seqno);
          inseg := Segment(rcv_nxt, inseg.len - off, inseg.p[off..], inseg.fin);
        }
        assert Carries(isn, inseg, d);
        WireOrder(isn, d.at, 0, st.nxt, 0);
        WireOrder(isn, d.at, 0, st.nxt, rcv_wnd - 1);
        AddZero(inseg.seqno);
        if Between(inseg.seqno, rcv_nxt, Add(rcv_nxt, rcv_wnd - 1)) {
          if rcv_nxt == inseg.seqno {
            recv_data, got_fin := InSequence(inseg, d);
          } else {
            OutOfSequence(inseg, room, d);
          }
        }
      }
    }

    /** The states of tcp_process that receive data; `ourFinAcked` says the segment acknowledges
        everything sent, our FIN included. */
    method Process(segment: Segment, room: bool, ourFinAcked: bool, ghost c: Chunk)
      returns (recv_data: seq<byte>, got_fin: bool)
      requires Valid() && Recent() && Carries(isn, segment, c)
      requires -0x7F00_0000 < c.at - st.nxt < 0x7F00_0000 && segment.len <= 65495
      modifies this
      ensures Valid() && isn == old(isn)
      ensures st == Arrive(old(st), c, room).st
      ensures recv_data == Arrive(old(st), c, room).out && got_fin == Arrive(old(st), c, room).fin
      ensures state == old(state).After(got_fin, ourFinAcked)
    {
      var before := state;
      recv_data, got_fin := Receive(segment, room, c);
      match before
      case ESTABLISHED =>
        if got_fin { state := CLOSE_WAIT; }
      case FIN_WAIT_1 =>
        if got_fin {
          state := if ourFinAcked then TIME_WAIT else CLOSING;
        } else if ourFinAcked {
          state := FIN_WAIT_2;
        }
      case FIN_WAIT_2 =>
        if got_fin { state := TIME_WAIT; }
      case CLOSING =>
        if ourFinAcked { state := TIME_WAIT; }
      case _ =>
    }

    /** tcp_recved; a window update is sent at once exactly when the announced edge moves right by a
        quarter of the window or more. */
    method Recved(len: u16) returns (ackNow: bool)
      requires Valid() && Recent()
      modifies this`rcv_wnd, this`rcv_ann_wnd, this`st
      ensures Valid()
      ensures st == ReceiveRuns.Credit(old(st), len, state.Passive())
      ensures ackNow <==> st.Edge() - st.annEdge >= Max(TCP_WND / 4, Min(TCP_WND / 2, mss))
    {
      rcv_wnd := (rcv_wnd + len) % 0x1_0000;
      if rcv_wnd > TCP_WND {
        rcv_wnd := TCP_WND;
      } else if rcv_wnd == 0 {
        if state.CLOSE_WAIT? || state.LAST_ACK? {
          rcv_wnd := TCP_WND;
        }
      }
      var inflation := UpdateRcvAnnWnd(st.nxt, st.annEdge);
      ackNow := inflation >= TCP_WND / 4;
      st := ReceiveRuns.Credit(st, len, state.Passive());
    }

    /** tcp_output sends an acknowledgement: the window it carries is announced. */
    method SendAck()
      requires Valid()
      modifies this`rcv_ann_right_edge, this`st
      ensures Valid() && st == old(st).(annEdge := old(st).nxt + old(st).annWnd)
    {
      hide Wire, CarryAll, Near;
      WireAdd(isn, st.nxt, rcv_ann_wnd);
      rcv_ann_right_edge := Add(rcv_nxt, rcv_ann_wnd);
      st := st.(annEdge := st.nxt + st.annWnd);
    }

    /** The end of the stream is reported to the application, which will not credit the FIN. */
    method ReportFin()
      requires Valid()
      modifies this`rcv_wnd, this`st
      ensures Valid() && st == ReceiveRuns.CreditFin(old(st))
    {
      hide Wire, CarryAll, Near;
      if rcv_wnd != TCP_WND {
        rcv_wnd := (rcv_wnd + 1) % 0x1_0000;
      }
      st := ReceiveRuns.CreditFin(st);
    }

    /** tcp_close_shutdown_fin, once our FIN was queued. */
    method Shut()
      requires Valid()
      modifies this`state
      ensures Valid() && state == old(state).Shut()
    {
      match state
      case ESTABLISHED => state := FIN_WAIT_1;
      case CLOSE_WAIT => state := LAST_ACK;
      case _ =>
    }

    /** The slow timer drops the out-of-sequence list. */
    method DropOoseq()
      requires Valid()
      modifies this`ooseq, this`st
      ensures Valid() && st == old(st).(q := [])
    {
      hide Wire;
      ooseq, st := [], st.(q := []);
    }
  }
}

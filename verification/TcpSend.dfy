/** The sending side as the code runs it: 32-bit sequence numbers, 16-bit counters, loops over the
    segment lists, and fields of the protocol control block updated step by step.  Every method is
    proved to do to the ghost state `st` what SendSpec says. */
module TcpSend {
  import opened SeqNum
  import opened Common
  import opened SendSpec
  import opened SendRuns
  import opened SendWrite
  import opened SendWindow

  /** struct tcp_seg */
  datatype Segment = Segment(seqno: u32, len: u16, p: seq<Buf>, fin: bool)

  function TcpLen(w: Segment): int {
    w.len + if w.fin then 1 else 0
  }

  /** `w` is the segment `g` of a connection numbered from `isn`. */
  ghost predicate Shows(isn: u32, w: Segment, g: Seg) {
    w.seqno == Wire(isn, g.at) && w.len == g.Len() && w.p == g.bufs && w.fin == g.fin
  }

  ghost predicate ShowAll(isn: u32, ws: seq<Segment>, q: seq<Seg>) {
    |ws| == |q| && forall i :: 0 <= i < |ws| ==> Shows(isn, ws[i], q[i])
  }

  /** Everything on the list starts so close to `at` that 32-bit comparisons tell which is first. */
  ghost predicate Close(q: seq<Seg>, at: int) {
    forall i :: 0 <= i < |q| ==> -0x7800_0000 < q[i].at - at < 0x7800_0000
  }

  /** TCP_SEQ_LT on two sequence numbers. */
  lemma {:induction false} WireLt(isn: u32, a: int, b: int)
    requires -0x8000_0000 < a - b < 0x8000_0000
    ensures Lt(Wire(isn, a), Wire(isn, b)) <==> a < b
  {
    WireDiff(isn, a, b);
  }

  /** The loop that finds the place of a segment in a list sorted by sequence number. */
  method InsertSorted(list: seq<Segment>, seg: Segment, ghost isn: u32, ghost q: seq<Seg>, ghost g: Seg)
    returns (out: seq<Segment>, last: bool)
    requires ShowAll(isn, list, q) && Shows(isn, seg, g) && Close(q, g.at)
    ensures ShowAll(isn, out, Insert(q, g)) && (last <==> Before(q, g.at) == |q|)
  {
    hide Joined, Wire, Lt, Insert;
    var k := 0;
    while k < |list| && Lt(list[k].seqno, seg.seqno)
      invariant 0 <= k <= |list|
      invariant forall i :: 0 <= i < k ==> q[i].at < g.at
    {
      WireLt(isn, q[k].at, g.at);
      k := k + 1;
    }
    if k < |list| { WireLt(isn, q[k].at, g.at); }
    assert Before(q, g.at) == k;
    ShowInsert(isn, list, q, seg, g, k);
    out, last := list[..k] + [seg] + list[k..], k == |list|;
  }

  lemma {:induction false} ShowInsert(isn: u32, list: seq<Segment>, q: seq<Seg>, seg: Segment, g: Seg, k: nat)
    requires ShowAll(isn, list, q) && Shows(isn, seg, g) && k <= |q| && Before(q, g.at) == k
    ensures ShowAll(isn, list[..k] + [seg] + list[k..], Insert(q, g))
  {
    hide Joined, Wire, Before, Shows;
  }

  /** A segment just sent goes behind the unacknowledged list or, after a fast retransmission, to
      its place. */
  method FileSegment(list: seq<Segment>, seg: Segment, ghost isn: u32, ghost q: seq<Seg>, ghost g: Seg)
    returns (out: seq<Segment>)
    requires ShowAll(isn, list, q) && Shows(isn, seg, g) && Close(q, g.at)
    ensures ShowAll(isn, out, File(q, g))
  {
    hide Joined, Insert, Before, Wire;
    if list == [] {
      out := [seg];
    } else {
      WireLt(isn, g.at, Tail(q).at);
      if Lt(seg.seqno, list[|list| - 1].seqno) {
        var last;
        out, last := InsertSorted(list, seg, isn, q, g);
      } else {
        out := list + [seg];
      }
    }
  }

  lemma {:induction false} DropStep(q: seq<Seg>, i: nat, ack: int)
    requires i < |q|
    ensures Bytes(q[i..]) == q[i].Len() + Bytes(q[i + 1..]) && Bufs(q[i..]) == |q[i].bufs| + Bufs(q[i + 1..])
    ensures DropAcked(q[i..], ack) == if q[i].Next() <= ack then DropAcked(q[i + 1..], ack) else q[i..]
  {
    assert q[i..][1..] == q[i + 1..];
  }

  /** Take the segments that `ackno` covers off the front; `acked` bytes, `freed` buffers. */
  method FreeCovered(list: seq<Segment>, ackno: u32, ghost isn: u32, ghost q: seq<Seg>, ghost ack: int)
    returns (rest: seq<Segment>, acked: int, freed: int)
    requires ShowAll(isn, list, q) && Close(q, ack) && ackno == Wire(isn, ack)
    ensures ShowAll(isn, rest, DropAcked(q, ack))
    ensures acked == Bytes(q) - Bytes(DropAcked(q, ack)) && freed == Bufs(q) - Bufs(DropAcked(q, ack))
  {
    hide Joined, Bytes, Bufs, DropAcked;
    var i := 0;
    acked, freed := 0, 0;
    assert q[0..] == q;
    while i < |list| && Leq(Add(list[i].seqno, TcpLen(list[i])), ackno)
      invariant 0 <= i <= |list| && DropAcked(q[i..], ack) == DropAcked(q, ack)
      invariant acked == Bytes(q) - Bytes(q[i..]) && freed == Bufs(q) - Bufs(q[i..])
    {
      WireOrder(isn, q[i].at, TcpLen(list[i]), ack, 0);
      AddZero(ackno);
      DropStep(q, i, ack);
      acked, freed, i := acked + list[i].len, freed + |list[i].p|, i + 1;
    }
    if i < |list| {
      WireOrder(isn, q[i].at, TcpLen(list[i]), ack, 0);
      AddZero(ackno);
      DropStep(q, i, ack);
    } else {
      DropNone(q[i..], ack);
    }
    rest := list[i..];
  }

  lemma {:induction false} DropNone(q: seq<Seg>, ack: int)
    requires q == []
    ensures DropAcked(q, ack) == q && Bytes(q) == 0 && Bufs(q) == 0
  {
  }

  // ---------------------------------------------------------------- phases of tcp_write

  /** Phases 1 and 2 of the commit: `p1` bytes into the spare room of the last buffer, `p2` into
      that buffer too, or into a buffer of their own. */
  method TopUp(seg: Segment, r: Request, p1: int, p2: int, extend: bool, ghost isn: u32, ghost g: Seg)
    returns (out: Segment)
    requires Shows(isn, seg, g) && g.bufs != [] && 0 <= p1 <= p1 + p2 <= |r.data| && g.Len() + p1 + p2 < 0x1_0000
    ensures Shows(isn, out, g.(bufs := Longer(g.bufs, r, p1, p2, extend)))
  {
    LongerIs(g.bufs, r, p1, p2, extend);
    out := seg;
    if p1 > 0 {
      out := out.(p := Grow(out.p, r.data[..p1]), len := out.len + p1);
    }
    if p2 > 0 {
      if extend {
        out := out.(p := Grow(out.p, r.data[p1..p1 + p2]), len := out.len + p2);
      } else {
        out := out.(p := out.p + [Fresh(r, p1, r.data[p1..p1 + p2])], len := out.len + p2);
      }
    }
  }

  lemma {:induction false} PiecesStep(made: seq<Seg>, r: Request, pos: int, lbb: int)
    requires 0 <= pos < |r.data| && r.mss > 0
    ensures var n := Min(|r.data| - pos, r.mss);
            var g := Piece(r, pos, n, lbb);
            && made + Pieces(r, pos, lbb) == made + [g] + Pieces(r, pos + n, lbb)
            && Bufs(made + [g]) == Bufs(made) + PerSeg(r)
            && Bufs(made + Pieces(r, pos, lbb)) >= Bufs(made) + PerSeg(r)
            && |Pieces(r, pos, lbb)| >= 1 && g.Len() == n
  {
    hide Joined, Bufs, Piece;
    var n := Min(|r.data| - pos, r.mss);
    var g := Piece(r, pos, n, lbb);
    PieceIs(r, pos, n, lbb);
    assert made + ([g] + Pieces(r, pos + n, lbb)) == made + [g] + Pieces(r, pos + n, lbb);
    SumConcat(made, [g]);
    SumOne(g);
    SumConcat(made + [g], Pieces(r, pos + n, lbb));
  }

  /** Phase 3 so far: the segments `made`, for which `used` allocations were needed. */
  ghost predicate Making(st: Snd, r: Request, q: seq<Seg>, made: seq<Seg>, pos: int, used0: int, used: int,
                         ql0: int, ql: int) {
    && 0 <= pos <= |r.data| && r.mss > 0 && made + Pieces(r, pos, st.lbb) == q
    && used == used0 + Price(r, |made|) <= r.allocs && ql == ql0 + Bufs(made)
    && (made != [] ==> ql <= TCP_SND_QUEUELEN)
  }

  lemma {:induction false} MakingStep(st: Snd, r: Request, q: seq<Seg>, made: seq<Seg>, pos: int,
                                      used0: int, used: int, ql0: int, ql: int)
    requires Making(st, r, q, made, pos, used0, used, ql0, ql) && pos < |r.data|
    ensures var n := Min(|r.data| - pos, r.mss);
            var used', ql' := used + (if r.copy then 2 else 3), ql + PerSeg(r);
            if used' <= r.allocs && ql' <= TCP_SND_QUEUELEN
            then Making(st, r, q, made + [Piece(r, pos, n, st.lbb)], pos + n, used0, used', ql0, ql')
            else q != [] && (used0 + Price(r, |q|) > r.allocs || ql0 + Bufs(q) > TCP_SND_QUEUELEN)
  {
    PiecesStep(made, r, pos, st.lbb);
  }

  lemma {:induction false} NearSent(st: Snd)
    requires Near(st) && st.unsent != []
    ensures Near(SendFirst(st))
  {
    hide Joined;
    var g := st.unsent[0];
    assert g in st.unsent;
    InsertMembers(st.unacked, g, Before(st.unacked, g.at));
  }

  /** What Near says about a segment on a list and the other numbers. */
  lemma {:induction false} NearFirst(st: Snd, g: Seg)
    requires Near(st) && (g in st.unsent || g in st.unacked)
    ensures -0x1000_0000 < g.at - st.una < 0x1000_0000 && -0x7800_0000 < st.nxt - g.Next() < 0x7800_0000
    ensures Close(st.unacked, g.at) && Close(st.unsent, g.at)
  {
    NearClose(st, g.at);
  }

  /** The window test of tcp_output, in 32-bit arithmetic. */
  lemma {:induction false} WireFits(isn: u32, at: int, una: int, len: u16, wnd: int)
    requires -0x1000_0000 < at - una < 0x1000_0000 && 0 <= wnd < 0x1_0000
    ensures Add(Sub(Wire(isn, at), Wire(isn, una)), len) <= wnd <==> 0 <= at - una + len <= wnd
  {
    WireDiff(isn, at, una);
  }

  lemma {:induction false} WireBetween(isn: u32, a: int, b: int, c: int)
    requires -0x7800_0000 < a - b < 0x7800_0000 && -0x7800_0000 < a - c < 0x7800_0000
    ensures Between(Wire(isn, a), Wire(isn, b), Wire(isn, c)) <==> b <= a <= c
  {
    WireDiff(isn, a, b);
    WireDiff(isn, a, c);
  }

  // ---------------------------------------------------------------- the control block

  ghost predicate Numbered(isn: u32, lbb: u32, nxt: u32, una: u32, st: Snd) {
    lbb == Wire(isn, st.lbb) && nxt == Wire(isn, st.nxt) && una == Wire(isn, st.una)
  }

  ghost predicate Counted(buf: u16, qlen: u16, oversize: u16, mss: u16, st: Snd) {
    buf == st.buf && qlen == st.qlen && oversize == st.oversize && mss == st.mss
  }

  ghost predicate Flagged(open: bool, memerr: bool, fin: bool, nodelay: bool, infr: bool, st: Snd) {
    open == st.open && memerr == st.memerr && fin == st.finQueued && nodelay == st.nodelay && infr == st.infr
  }

  class Pcb {
    var unsent: seq<Segment>
    var unacked: seq<Segment>
    var sndLbb: u32
    var sndNxt: u32
    var lastack: u32
    var sndBuf: u16
    var queuelen: u16
    var oversize: u16
    var mss: u16
    var sndWndMax: u16
    var open: bool
    var memerr: bool
    var finQueued: bool
    var nodelay: bool
    var infr: bool
    ghost const isn: u32
    ghost var st: Snd

    /** The fields are those of `st`. */
    ghost predicate Valid()
      reads this
    {
      && ShowAll(isn, unsent, st.unsent) && ShowAll(isn, unacked, st.unacked)
      && Numbered(isn, sndLbb, sndNxt, lastack, st)
      && Counted(sndBuf, queuelen, oversize, mss, st)
      && Flagged(open, memerr, finQueued, nodelay, infr, st)
    }

    /** A connection that just became established, its first byte numbered `first`. */
    constructor (first: u32, mss: u16, wndMax: u16)
      requires mss > 0
      ensures Valid() && Inv(st, []) && Near(st) && Live(st) && isn == first
      ensures st.unsent == [] && st.unacked == [] && st.open
    {
      unsent, unacked := [], [];
      sndLbb, sndNxt, lastack := first, first, first;
      sndBuf, queuelen, oversize := TCP_SND_BUF, 0, 0;
      this.mss, sndWndMax := mss, wndMax;
      open, memerr, finQueued, nodelay, infr := true, false, false, false, false;
      isn := first;
      st := Snd([], [], 0, 0, 0, TCP_SND_BUF, 0, 0, mss, true, false, false, false, false);
    }

    /** tcp_rexmit */
    method Rexmit()
      requires Valid() && Near(st)
      modifies this
      ensures sndWndMax == old(sndWndMax)
      ensures Valid() && st == SendSpec.Rexmit(old(st))
    {
      hide Joined, Wire, Near, Before;
      if unacked != [] {
        ghost var g := st.unacked[0];
        NearFirst(st, g);
        var seg := unacked[0];
        unacked := unacked[1..];
        var last;
        unsent, last := InsertSorted(unsent, seg, isn, st.unsent, g);
        if last { oversize := 0; }
      }
      st := SendSpec.Rexmit(st);
    }

    /** A fast retransmission: TF_INFR is set. */
    method EnterRecovery()
      requires Valid()
      modifies this`infr, this`st
      ensures Valid() && st == old(st).(infr := true)
    {
      hide Wire, ShowAll;
      infr, st := true, st.(infr := true);
    }

    /** tcp_rexmit_rto, before it calls tcp_output */
    method RexmitRto()
      requires Valid()
      modifies this
      ensures sndWndMax == old(sndWndMax)
      ensures Valid() && st == SendSpec.RexmitRto(old(st))
    {
      if unacked != [] {
        unsent := unacked + unsent;
        unacked := [];
      } else {
        assert st.unacked + st.unsent == st.unsent;
      }
      st := SendSpec.RexmitRto(st);
    }

    /** A segment that was sent goes from the one list to the other. */
    method SendOne()
      requires Valid() && Near(st) && unsent != []
      modifies this
      ensures sndWndMax == old(sndWndMax)
      ensures Valid() && Near(st) && st == SendFirst(old(st)) && |unsent| < |old(unsent)|
    {
      hide Joined, Wire, File, Near;
      NearSent(st);
      ghost var g := st.unsent[0];
      NearFirst(st, g);
      var seg := unsent[0];
      unsent := unsent[1..];
      var end := Add(seg.seqno, TcpLen(seg));
      WireAdd(isn, g.at, TcpLen(seg));
      WireLt(isn, st.nxt, g.Next());
      if Lt(sndNxt, end) { sndNxt := end; }
      if TcpLen(seg) > 0 {
        unacked := FileSegment(unacked, seg, isn, st.unacked, g);
      }
      st := SendFirst(st);
    }

    /** tcp_output from its loop on: `wnd` is the smaller of the two windows, `sends` the number of
        segments the network takes before it refuses one. */
    method Output(wnd: u16, sends: nat) returns (ok: bool)
      requires Valid() && Near(st)
      modifies this
      ensures sndWndMax == old(sndWndMax)
      ensures Valid() && st == SendSpec.Output(old(st), wnd, sends) && ok == !st.memerr
    {
      hide Joined, Wire, Near, File, SendSpec.Output, SendFirst;
      ghost var was := st;
      var left := sends;
      while unsent != [] && Add(Sub(unsent[0].seqno, lastack), unsent[0].len) <= wnd
        invariant Valid() && Near(st) && left >= 0 && sndWndMax == old(sndWndMax)
        invariant SendSpec.Output(st, wnd, left) == SendSpec.Output(was, wnd, sends)
        decreases |unsent|
      {
        NearFirst(st, st.unsent[0]);
        WireFits(isn, st.unsent[0].at, st.una, unsent[0].len, wnd);
        OutputStep(st, wnd, left);
        if !(unacked == [] || nodelay || infr || |unsent| > 1 || unsent[0].len >= mss
             || sndBuf == 0 || queuelen >= TCP_SND_QUEUELEN) && !(memerr || finQueued) {
          break;
        }
        if left == 0 {
          memerr := true;
          st := st.(memerr := true);
          return false;
        }
        SendOne();
        left := left - 1;
      }
      OutputStep(st, wnd, left);
      if unsent != [] {
        NearFirst(st, st.unsent[0]);
        WireFits(isn, st.unsent[0].at, st.una, unsent[0].len, wnd);
      } else {
        oversize := 0;
      }
      memerr := false;
      st := SendSpec.Output(st, wnd, left);
      ok := true;
    }

    /** What `ackno` frees of the two lists: the first only if it is new, the second only if it is
        not beyond what was sent. */
    method Freed(ackno: u32, isNew: bool, ghost ack: int)
      returns (rest: seq<Segment>, more: seq<Segment>, acked: int, freed: int)
      requires Valid() && Near(st) && isNew == (st.una < ack <= st.nxt)
      requires ackno == Wire(isn, ack) && -0x6000_0000 < ack - st.una < 0x6000_0000
      ensures ShowAll(isn, rest, Ack(st, ack).unacked) && ShowAll(isn, more, Ack(st, ack).unsent)
      ensures acked == Ack(st, ack).buf - st.buf && freed == st.qlen - Ack(st, ack).qlen
    {
      hide Joined, Bytes, Bufs, DropAcked, Wire;
      NearClose(st, ack);
      WireDiff(isn, ack, st.nxt);
      rest, more, acked, freed := unacked, unsent, 0, 0;
      if isNew {
        rest, acked, freed := FreeCovered(unacked, ackno, isn, st.unacked, ack);
      }
      if Leq(ackno, sndNxt) {
        var a, f;
        more, a, f := FreeCovered(unsent, ackno, isn, st.unsent, ack);
        acked, freed := acked + a, freed + f;
      }
    }

    /** The counters and flags after an acknowledgement. */
    method Credit(ackno: u32, isNew: bool, emptied: bool, acked: int, freed: int, ghost ack: int, ghost after: Snd)
      requires Numbered(isn, sndLbb, sndNxt, lastack, st) && Counted(sndBuf, queuelen, oversize, mss, st)
      requires Flagged(open, memerr, finQueued, nodelay, infr, st) && ackno == Wire(isn, ack)
      requires Credited(st, after, ack, isNew, emptied)
      requires acked == after.buf - st.buf && freed == st.qlen - after.qlen
      modifies this`sndBuf, this`queuelen, this`oversize, this`infr, this`lastack
      ensures Numbered(isn, sndLbb, sndNxt, lastack, after) && Counted(sndBuf, queuelen, oversize, mss, after)
      ensures Flagged(open, memerr, finQueued, nodelay, infr, after)
    {
      hide Wire;
      if isNew {
        infr, lastack := false, ackno;
      }
      if emptied { oversize := 0; }
      sndBuf, queuelen := sndBuf + acked, queuelen - freed;
    }

    /** The acknowledgement half of tcp_receive; `ackno` numbers the position `ack`. */
    method Acknowledge(ackno: u32, ghost ack: int)
      requires Valid() && Near(st) && Accounted(st)
      requires ackno == Wire(isn, ack) && -0x6000_0000 < ack - st.una < 0x6000_0000
      modifies this
      ensures sndWndMax == old(sndWndMax)
      ensures Valid() && st == Ack(old(st), ack)
    {
      hide Ack, Wire, ShowAll, Near, Accounted, Counted, Flagged, Credited;
      NearFields(st, ack);
      WireAdd(isn, st.una, 1);
      WireBetween(isn, ack, st.una + 1, st.nxt);
      AckFields(st, ack);
      var isNew := Between(ackno, Add(lastack, 1), sndNxt);
      var rest, more, acked, freed := Freed(ackno, isNew, ack);
      ShownEmpty(isn, more, Ack(st, ack).unsent);
      ShownEmpty(isn, unsent, st.unsent);
      Credit(ackno, isNew, more == [] && unsent != [], acked, freed, ack, Ack(st, ack));
      unacked, unsent, st := rest, more, Ack(st, ack);
    }

    /** tcp_pbuf_prealloc: the spare room of a buffer for `len` bytes. */
    method PbufPrealloc(r: Request, len: int, max: int, first: bool) returns (spare: int)
      requires Valid() && 0 <= len
      ensures spare == Prealloc(st, r, len, max, first) - len
    {
      var alloc := len;
      if len < max {
        if r.more || (!nodelay && (!first || unsent != [] || unacked != [])) {
          alloc := Min(max, Aligned(len + TCP_OVERSIZE));
        }
      }
      spare := alloc - len;
    }

    /** Phases 1 and 2 of tcp_write: how many bytes go into the spare room of the last unsent
        segment, how many are chained to it, and what room is left. */
    method Phases(r: Request) returns (p1: int, p2: int, extend: bool, spare: int)
      requires Valid() && Ready(st, r)
      ensures p1 == Phase1(st, r) && p2 == Phase2(st, r) && spare == SpareThen(st, r)
      ensures p2 > 0 ==> extend == Extends(st, r)
    {
      hide Joined, Wire;
      p1, p2, extend, spare := 0, 0, false, 0;
      if unsent != [] {
        var last := unsent[|unsent| - 1];
        var space := r.mss - last.len;
        spare := oversize;
        if spare > 0 {
          p1 := Min(space, Min(spare, |r.data|));
          spare, space := spare - p1, space - p1;
        }
        if p1 < |r.data| && space > 0 && last.len > 0 {
          p2 := Min(space, |r.data| - p1);
          if r.copy {
            spare := PbufPrealloc(r, p2, space, true);
          } else {
            var b := last.p[|last.p| - 1];
            extend := b.Rom? && b.addr + |b.data| == r.addr;
          }
        }
      }
    }

    /** Phase 3 of tcp_write: new segments for the data from `pos0` on, or a failure to allocate or
        to keep the queue within its limit. */
    method NewSegments(r: Request, pos0: int, spare0: int, used0: int, ql0: int)
      returns (ok: bool, queue: seq<Segment>, spare: int, ql: int)
      requires Valid() && 0 <= pos0 <= |r.data| < 0x1_0000 && 0 < r.mss < 0x1_0000 && used0 <= r.allocs
      ensures var q := Pieces(r, pos0, st.lbb);
              && (ok <==> used0 + Price(r, |q|) <= r.allocs && (q != [] ==> ql0 + Bufs(q) <= TCP_SND_QUEUELEN))
              && (ok ==> ShowAll(isn, queue, q) && ql == ql0 + Bufs(q) && spare == Spare(st, r, pos0, spare0, true))
              && (ok ==> ql0 <= ql <= Max(ql0, TCP_SND_QUEUELEN))
    {
      hide Joined, Wire, Pieces, Bufs;
      ghost var q, made := Pieces(r, pos0, st.lbb), [];
      var pos, used := pos0, used0;
      ok, queue, spare, ql := true, [], spare0, ql0;
      assert made + q == q && Bufs(made) == 0 by { SumNone(); }
      while pos < |r.data|
        invariant ok && ShowAll(isn, queue, made) && Making(st, r, q, made, pos, used0, used, ql0, ql)
        invariant Spare(st, r, pos, spare, queue == []) == Spare(st, r, pos0, spare0, true)
        decreases |r.data| - pos
      {
        var n := Min(|r.data| - pos, r.mss);
        MakingStep(st, r, q, made, pos, used0, used, ql0, ql);
        PieceIs(r, pos, n, st.lbb);
        WireAdd(isn, st.lbb, pos);
        var b := Fresh(r, pos, r.data[pos..pos + n]);
        var p;
        if r.copy {
          if used == r.allocs { return false, [], 0, 0; }
          spare := PbufPrealloc(r, n, r.mss, queue == []);
          p, used := [b], used + 1;
        } else {
          if used + 1 >= r.allocs { return false, [], 0, 0; }
          p, used := [Ram([]), b], used + 2;
        }
        ql := ql + |p|;
        if ql > TCP_SND_QUEUELEN || used == r.allocs { return false, [], 0, 0; }
        used := used + 1;
        queue := queue + [Segment(Add(sndLbb, pos), n, p, false)];
        made := made + [Piece(r, pos, n, st.lbb)];
        pos := pos + n;
      }
      PiecesEnd(r, pos, st.lbb);
      assert made + [] == made;
    }

    /** Out of memory: nothing changes but the flag. */
    method Fail()
      requires Valid()
      modifies this`memerr, this`st
      ensures Valid() && st == old(st).(memerr := true)
    {
      hide Wire;
      memerr := true;
      st := st.(memerr := true);
    }

    /** The new unsent list: the last segment topped up, and the new segments behind it. */
    method NewList(r: Request, p1: int, p2: int, extend: bool, queue: seq<Segment>) returns (list: seq<Segment>)
      requires Valid() && Ready(st, r) && r.mss < 0x1_0000 && ShowAll(isn, queue, Segmented(st, r))
      requires p1 == Phase1(st, r) && p2 == Phase2(st, r) && (p2 > 0 ==> extend == Extends(st, r))
      ensures ShowAll(isn, list, Committed(st, r).unsent)
    {
      hide Joined, Wire, Bufs, Pieces, Spare;
      list := unsent;
      if list != [] {
        var k := |list| - 1;
        var seg := TopUp(list[k], r, p1, p2, extend, isn, st.unsent[k]);
        list := list[k := seg];
      }
      ShowConcat(isn, list, Topped(st, r), queue, Segmented(st, r));
      list := list + queue;
    }

    /** The commit of tcp_write. */
    method Commit(r: Request, list: seq<Segment>, spare: int, ql: int)
      requires Valid() && Ready(st, r) && ShowAll(isn, list, Committed(st, r).unsent)
      requires spare == Committed(st, r).oversize && ql == Committed(st, r).qlen
      requires 0 <= spare < 0x1_0000 && 0 <= ql < 0x1_0000 && |r.data| <= sndBuf
      modifies this
      ensures sndWndMax == old(sndWndMax)
      ensures Valid() && st == Committed(old(st), r)
    {
      hide Joined, Wire, Bufs, Pieces, Spare, ShowAll, Ready, Committed, Numbered, Counted;
      CommitRest(st, r);
      CommitFields(isn, sndLbb, sndNxt, lastack, sndBuf, queuelen, oversize, mss, st, r, ql, spare);
      unsent, sndLbb, sndBuf := list, Add(sndLbb, |r.data|), sndBuf - |r.data|;
      queuelen, oversize, st := ql, spare, Committed(st, r);
    }

    /** The three phases of tcp_write, which only read the fields: the new list of unsent segments
        with its spare room and queue length, or a failure. */
    method Prepare(r: Request) returns (ok: bool, list: seq<Segment>, left: int, ql: int)
      requires Valid() && Spared(st, st.mss) && Ready(st, r) && r.mss <= mss
      requires r.data != [] ==> queuelen < TCP_SND_QUEUELEN
      ensures ok == Enough(st, r)
      ensures ok ==> ShowAll(isn, list, Committed(st, r).unsent) && 0 <= left < 0x1_0000 && 0 <= ql < 0x1_0000
      ensures ok ==> left == Committed(st, r).oversize && ql == Committed(st, r).qlen
    {
      hide Joined, Pieces, Spare, Bufs, ShowAll, Extends, SpareThen, Numbered, Phase1, Phase2, Committed, Enough,
           Segmented, Chained, Price, Spared;
      ok, list, left, ql := false, [], 0, 0;
      PhasesFit(st, r);
      var p1, p2, extend, spare := Phases(r);
      AppendIs(st, r, p1, p2, extend);
      var chained := if p2 > 0 && !extend then 1 else 0;
      if chained <= r.allocs {
        var queue;
        ok, queue, left, ql := NewSegments(r, p1 + p2, spare, chained, queuelen + chained);
        if ok {
          CommitSpared(st, r, st.mss);
          SpareBound(Committed(st, r));
          list := NewList(r, p1, p2, extend, queue);
        }
      }
    }

    /** tcp_write from its first phase on. */
    method Append(r: Request) returns (err: Err)
      requires Valid() && Spared(st, st.mss) && Ready(st, r) && r.mss <= mss
      requires r.data != [] ==> |r.data| <= sndBuf && queuelen < TCP_SND_QUEUELEN
      modifies this
      ensures sndWndMax == old(sndWndMax)
      ensures Valid()
      ensures (err, st) == if Enough(old(st), r) then (OK, Committed(old(st), r)) else (MEM, old(st).(memerr := true))
    {
      hide Joined, ShowAll, Numbered, Enough, Committed, Spared, Ready;
      var ok, list, left, ql := Prepare(r);
      if ok {
        Commit(r, list, left, ql);
        err := OK;
      } else {
        Fail();
        err := MEM;
      }
    }

    /** tcp_write; `allocs` is the number of allocations that succeed before the first that fails. */
    method Write(data: seq<byte>, addr: int, copy: bool, more: bool, allocs: nat) returns (err: Err)
      requires Valid() && Spared(st, st.mss)
      requires Ready(st, Request(data, addr, copy, more, LocalMss(mss, sndWndMax), allocs))
      modifies this
      ensures sndWndMax == old(sndWndMax)
      ensures Valid() && (err, st) ==
              SendSpec.Write(old(st), Request(data, addr, copy, more, old(LocalMss(mss, sndWndMax)), allocs))
    {
      hide Joined, ShowAll, Numbered, Enough, Committed, Spared, Ready;
      var r := Request(data, addr, copy, more, LocalMss(mss, sndWndMax), allocs);
      if !open {
        return CONN;
      }
      if data != [] && (|data| > sndBuf || queuelen >= TCP_SND_QUEUELEN) {
        Fail();
        return MEM;
      }
      err := Append(r);
    }

    /** A segment with nothing but a FIN goes behind the unsent list; `after` is the state then. */
    method QueueFin(ghost after: Snd)
      requires Valid() && queuelen < 0xFFFF
      requires after.unsent == st.unsent + [Seg(st.lbb, [Ram([])], true)] && after.unacked == st.unacked
      requires Numbered(isn, Add(sndLbb, 1), sndNxt, lastack, after) && Counted(sndBuf, queuelen + 1, 0, mss, after)
      requires Flagged(false, memerr, true, nodelay, infr, after)
      modifies this`unsent, this`oversize, this`sndLbb, this`queuelen, this`finQueued, this`open, this`st
      ensures Valid() && st == after
    {
      hide Wire, Joined, ShowAll, Counted, Numbered, Flagged;
      BareShows(isn, sndLbb, sndNxt, lastack, unsent, st);
      unsent := unsent + [Segment(sndLbb, 0, [Ram([])], true)];
      oversize, sndLbb, queuelen := 0, Add(sndLbb, 1), queuelen + 1;
      finQueued, open, st := true, false, after;
    }

    /** tcp_enqueue_flags for a FIN: a segment of its own. */
    method EnqueueFin(allocs: nat) returns (err: Err)
      requires Valid() && queuelen < 0xFFFF && (st.unsent != [] ==> Tail(st.unsent).fin)
      modifies this
      ensures sndWndMax == old(sndWndMax)
      ensures Valid() && (err, st) == SendSpec.SendFin(old(st), allocs)
    {
      hide Wire, Joined, ShowAll, Counted, Numbered, Flagged, SendSpec.SendFin;
      BareIs(st, allocs);
      if allocs < 2 {
        Fail();
        return MEM;
      }
      BareFlags(open, memerr, finQueued, nodelay, infr, st, allocs);
      BareFields(isn, sndLbb, sndNxt, lastack, sndBuf, queuelen, oversize, mss, st, allocs);
      QueueFin(SendSpec.SendFin(st, allocs).1);
      err := OK;
    }

    /** tcp_send_fin */
    method SendFin(allocs: nat) returns (err: Err)
      requires Valid() && queuelen < 0xFFFF
      modifies this
      ensures sndWndMax == old(sndWndMax)
      ensures Valid() && (err, st) == SendSpec.SendFin(old(st), allocs)
    {
      hide Wire, Joined, ShowAll, Counted, Numbered;
      ShownTail(isn, unsent, st.unsent);
      if unsent == [] || unsent[|unsent| - 1].fin {
        err := EnqueueFin(allocs);
        return;
      }
      FinFields(isn, sndLbb, sndNxt, lastack, sndBuf, queuelen, oversize, mss, st, allocs);
      var k := |unsent| - 1;
      unsent := unsent[k := unsent[k].(fin := true)];
      finQueued, open := true, false;
      st := SendSpec.SendFin(st, allocs).1;
      err := OK;
    }
  }

  lemma {:induction false} OutputStep(st: Snd, wnd: int, left: nat)
    ensures var st' := SendSpec.Output(st, wnd, left);
            if st.unsent == [] then st' == st.(oversize := 0, memerr := false)
            else if !Fits(st, wnd) || Held(st) then st' == st.(memerr := false)
            else if left == 0 then st' == st.(memerr := true)
            else st' == SendSpec.Output(SendFirst(st), wnd, left - 1)
  {
    hide Joined, Fits, Held, SendFirst;
  }

  lemma {:induction false} CommitFields(isn: u32, lbb: u32, nxt: u32, una: u32, buf: u16, qlen: u16, oversize: u16, mss: u16,
                                        st: Snd, r: Request, qlen': u16, oversize': u16)
    requires Ready(st, r) && |r.data| <= buf
    requires Numbered(isn, lbb, nxt, una, st) && Counted(buf, qlen, oversize, mss, st)
    requires oversize' == Committed(st, r).oversize && qlen' == Committed(st, r).qlen
    ensures Numbered(isn, Add(lbb, |r.data|), nxt, una, Committed(st, r))
    ensures Counted(buf - |r.data|, qlen', oversize', mss, Committed(st, r))
  {
    hide Wire, Committed;
    CommitRest(st, r);
    WireAdd(isn, st.lbb, |r.data|);
  }

  lemma {:induction false} BareIs(st: Snd, allocs: nat)
    requires st.unsent != [] ==> Tail(st.unsent).fin
    ensures var (err, st') := SendSpec.SendFin(st, allocs);
            if allocs < 2 then err == MEM && st' == st.(memerr := true)
            else
              && err == OK && st'.unsent == st.unsent + [Seg(st.lbb, [Ram([])], true)] && st'.unacked == st.unacked
              && st'.finQueued && !st'.open && st'.memerr == st.memerr && st'.nodelay == st.nodelay && st'.infr == st.infr
  {
  }

  lemma {:induction false} BareFlags(open: bool, memerr: bool, fin: bool, nodelay: bool, infr: bool, st: Snd, allocs: nat)
    requires (st.unsent != [] ==> Tail(st.unsent).fin) && allocs >= 2 && Flagged(open, memerr, fin, nodelay, infr, st)
    ensures Flagged(false, memerr, true, nodelay, infr, SendSpec.SendFin(st, allocs).1)
  {
    hide SendSpec.SendFin;
    BareIs(st, allocs);
  }

  lemma {:induction false} BareFields(isn: u32, lbb: u32, nxt: u32, una: u32, buf: u16, qlen: u16, oversize: u16, mss: u16,
                                      st: Snd, allocs: nat)
    requires (st.unsent != [] ==> Tail(st.unsent).fin) && allocs >= 2 && qlen < 0xFFFF
    requires Numbered(isn, lbb, nxt, una, st) && Counted(buf, qlen, oversize, mss, st)
    ensures var st' := SendSpec.SendFin(st, allocs).1;
            Numbered(isn, Add(lbb, 1), nxt, una, st') && Counted(buf, qlen + 1, 0, mss, st')
  {
    hide Wire, Joined;
    WireAdd(isn, st.lbb, 1);
  }

  lemma {:induction false} FinFields(isn: u32, lbb: u32, nxt: u32, una: u32, buf: u16, qlen: u16, oversize: u16, mss: u16,
                                     st: Snd, allocs: nat)
    requires st.unsent != [] && !Tail(st.unsent).fin
    requires Numbered(isn, lbb, nxt, una, st) && Counted(buf, qlen, oversize, mss, st)
    ensures var st' := SendSpec.SendFin(st, allocs).1;
            Numbered(isn, lbb, nxt, una, st') && Counted(buf, qlen, oversize, mss, st')
  {
  }

  lemma {:induction false} ShownTail(isn: u32, ws: seq<Segment>, q: seq<Seg>)
    requires ShowAll(isn, ws, q)
    ensures ws == [] <==> q == []
    ensures ws != [] ==> var k := |ws| - 1;
                         && k == |q| - 1 && ws[k].fin == Tail(q).fin
                         && ShowAll(isn, ws[k := ws[k].(fin := true)], q[k := q[k].(fin := true)])
  {
  }

  lemma {:induction false} ShowSnoc(isn: u32, ws: seq<Segment>, q: seq<Seg>, w: Segment, g: Seg)
    requires ShowAll(isn, ws, q) && Shows(isn, w, g)
    ensures ShowAll(isn, ws + [w], q + [g])
  {
  }

  lemma {:induction false} NoData()
    ensures Joined([Ram([])]) == []
  {
    FlatOne([]);
    assert Datas([Ram([])]) == [[]];
  }

  lemma {:induction false} BareShows(isn: u32, lbb: u32, nxt: u32, una: u32, ws: seq<Segment>, st: Snd)
    requires Numbered(isn, lbb, nxt, una, st) && ShowAll(isn, ws, st.unsent)
    ensures ShowAll(isn, ws + [Segment(lbb, 0, [Ram([])], true)], st.unsent + [Seg(st.lbb, [Ram([])], true)])
  {
    hide Wire, Joined, ShowAll;
    NoData();
    ShowSnoc(isn, ws, st.unsent, Segment(lbb, 0, [Ram([])], true), Seg(st.lbb, [Ram([])], true));
  }

  lemma {:induction false} PhasesFit(st: Snd, r: Request)
    requires Ready(st, r)
    ensures var p1, p2 := Phase1(st, r), Phase2(st, r); 0 <= p1 <= p1 + p2 <= |r.data|
  {
    hide Joined;
  }

  /** What the phases of tcp_write amount to. */
  lemma {:induction false} AppendIs(st: Snd, r: Request, p1: int, p2: int, extend: bool)
    requires Ready(st, r) && p1 == Phase1(st, r) && p2 == Phase2(st, r) && (p2 > 0 ==> extend == Extends(st, r))
    requires 0 <= p1 <= p1 + p2 <= |r.data|
    ensures var q, chained := Pieces(r, p1 + p2, st.lbb), if p2 > 0 && !extend then 1 else 0;
            && Segmented(st, r) == q
            && Committed(st, r).qlen == st.qlen + chained + Bufs(q) && Committed(st, r).mss == st.mss
            && Committed(st, r).oversize == Spare(st, r, p1 + p2, SpareThen(st, r), true)
            && (Enough(st, r) <==>
                 && chained + Price(r, |q|) <= r.allocs
                 && (q != [] ==> st.qlen + chained + Bufs(q) <= TCP_SND_QUEUELEN))
  {
    hide Joined, Pieces, Spare, Bufs, Extends, SpareThen, Phase1, Phase2, Price, Topped;
  }

  lemma {:induction false} SpareBound(st: Snd)
    requires Spared(st, st.mss) && st.mss < 0x1_0000
    ensures 0 <= st.oversize < 0x1_0000
  {
  }

  lemma {:induction false} ShowConcat(isn: u32, a: seq<Segment>, p: seq<Seg>, b: seq<Segment>, q: seq<Seg>)
    requires ShowAll(isn, a, p) && ShowAll(isn, b, q)
    ensures ShowAll(isn, a + b, p + q)
  {
  }

  lemma {:induction false} PiecesEnd(r: Request, pos: int, lbb: int)
    requires pos == |r.data| && r.mss > 0
    ensures Pieces(r, pos, lbb) == []
  {
  }

  /** `after` is `st` with what a new acknowledgement, and an emptied unsent list, change. */
  ghost predicate Credited(st: Snd, after: Snd, ack: int, isNew: bool, emptied: bool) {
    && after.lbb == st.lbb && after.nxt == st.nxt && after.una == (if isNew then ack else st.una)
    && after.mss == st.mss && after.open == st.open && after.memerr == st.memerr
    && after.finQueued == st.finQueued && after.nodelay == st.nodelay && after.infr == (st.infr && !isNew)
    && after.oversize == (if emptied then 0 else st.oversize)
    && 0 <= after.buf <= TCP_SND_BUF && 0 <= after.qlen <= TCP_SND_QUEUELEN + 1
  }

  lemma {:induction false} AckFields(st: Snd, ack: int)
    requires Accounted(st)
    ensures Credited(st, Ack(st, ack), ack, st.una < ack <= st.nxt, Ack(st, ack).unsent == [] && st.unsent != [])
  {
    hide Joined, Bytes, Bufs, DropAcked;
    AckShrinks(st, ack);
  }

  lemma {:induction false} NearFields(st: Snd, ack: int)
    requires Near(st) && -0x6000_0000 < ack - st.una < 0x6000_0000
    ensures -0x7800_0000 < ack - st.nxt < 0x7800_0000
  {
  }

  lemma {:induction false} ShownEmpty(isn: u32, ws: seq<Segment>, q: seq<Seg>)
    requires ShowAll(isn, ws, q)
    ensures ws == [] <==> q == []
  {
  }

  lemma {:induction false} NearClose(st: Snd, ack: int)
    requires Near(st) && -0x6000_0000 < ack - st.una < 0x6000_0000
    ensures Close(st.unsent, ack) && Close(st.unacked, ack)
  {
    forall i | 0 <= i < |st.unsent| ensures -0x7800_0000 < st.unsent[i].at - ack < 0x7800_0000 {
      assert st.unsent[i] in st.unsent;
    }
    forall i | 0 <= i < |st.unacked| ensures -0x7800_0000 < st.unacked[i].at - ack < 0x7800_0000 {
      assert st.unacked[i] in st.unacked;
    }
  }
}

/** Runs of the sending side. */
module SendEvents {
  import opened SeqNum
  import opened Common
  import opened SendSpec
  import opened SendRuns
  import opened SendWrite
  import opened SendClose
  import opened SendSorted

  // Any interleaving of writes, close, output, retransmissions and acknowledgements.

  /** What can happen to a connection; `fast` tells a fast retransmission, which sets TF_INFR. */
  datatype Event =
    | Writes(r: Request)
    | Closes(allocs: nat)
    | Outputs(wnd: int, sends: nat)
    | Rexmits(fast: bool)
    | TimesOut
    | Acked(ack: int)

  /** A connection, and everything the application wrote to it. */
  datatype Conn = Conn(st: Snd, s: seq<byte>)

  /** The calls the source admits: the assertions of tcp_write hold, and only an open connection
      is closed. */
  ghost predicate Legal(c: Conn, e: Event) {
    match e
    case Writes(r) => Ready(c.st, r) && r.mss <= c.st.mss
    case Closes(_) => c.st.open
    case _ => true
  }

  function Step(c: Conn, e: Event): Conn
    requires e.Writes? ==> Ready(c.st, e.r)
  {
    match e
    case Writes(r) =>
      var (err, st') := Write(c.st, r);
      Conn(st', if err.OK? then c.s + r.data else c.s)
    case Closes(allocs) => c.(st := SendFin(c.st, allocs).1)
    case Outputs(wnd, sends) => c.(st := Output(c.st, wnd, sends))
    case Rexmits(fast) => c.(st := var st' := Rexmit(c.st); st'.(infr := st'.infr || fast))
    case TimesOut => c.(st := RexmitRto(c.st))
    case Acked(ack) => c.(st := Ack(c.st, ack))
  }

  /** The tail of the unsent list is the end of the stream when the application adds to it. */
  ghost predicate Apt(c: Conn, e: Event) {
    match e
    case Writes(r) => Ready(c.st, r) && Contiguous(c.st, r)
    case Closes(_) => TailLast(c.st)
    case _ => true
  }

  /** The retransmission timer finds the two lists one behind the other. */
  ghost predicate Ordered(c: Conn, e: Event) {
    e.TimesOut? ==> c.st.unacked == [] || c.st.unsent == [] || Tail(c.st.unacked).at < c.st.unsent[0].at
  }

  lemma {:induction false} OutputKeeps(st: Snd, s: seq<byte>, wnd: int, sends: nat)
    requires Inv(st, s)
    ensures Inv(Output(st, wnd, sends), s) && Output(st, wnd, sends).una == st.una
  {
    AllWithin(st, s);
    OutputMoves(st, wnd, sends);
    OutputSpared(st, wnd, sends, st.mss);
    OutputNext(st, wnd, sends, Limit(st.open, s));
    MovedKeeps(st, Output(st, wnd, sends), s);
  }

  lemma {:induction false} RexmitKeeps(st: Snd, s: seq<byte>)
    requires Inv(st, s)
    ensures Inv(Rexmit(st), s)
  {
    hide Joined, Bytes, Bufs, Before, Queued, Covered;
    RexmitMoves(st);
    RexmitSpared(st, st.mss);
    MovedKeeps(st, Rexmit(st), s);
  }

  lemma {:induction false} RtoKeeps(st: Snd, s: seq<byte>)
    requires Inv(st, s)
    ensures Inv(RexmitRto(st), s)
  {
    hide Joined, Bytes, Bufs, Queued, Covered;
    RexmitRtoMoves(st);
    RexmitRtoSpared(st, st.mss);
    MovedKeeps(st, RexmitRto(st), s);
  }

  lemma {:induction false} FlagKeeps(st: Snd, s: seq<byte>, infr: bool)
    requires Inv(st, s)
    ensures Inv(st.(infr := infr), s)
  {
    assert Queued(st.(infr := infr)) == Queued(st);
  }

  lemma {:induction false} WriteKeeps(st: Snd, r: Request, s: seq<byte>)
    requires Inv(st, s) && Ready(st, r) && r.mss <= st.mss && Contiguous(st, r)
    ensures var (err, st') := Write(st, r);
            Inv(st', if err.OK? then s + r.data else s) && st'.una == st.una
  {
    if Write(st, r).0.OK? { CommitKeeps(st, r, s); }
  }

  /** Every event keeps the invariant. */
  lemma {:induction false} StepKeeps(c: Conn, e: Event)
    requires Inv(c.st, c.s) && Legal(c, e) && Apt(c, e)
    ensures Inv(Step(c, e).st, Step(c, e).s) && c.s <= Step(c, e).s && c.st.una <= Step(c, e).st.una
  {
    hide Joined, Bytes, Bufs, Pieces, Spare, Output, Committed, Insert, Before, DropAcked, Inv;
    match e
    case Writes(r) => WriteKeeps(c.st, r, c.s);
    case Closes(allocs) => FinFaithful(c.st, c.s, allocs);
    case Outputs(wnd, sends) => OutputKeeps(c.st, c.s, wnd, sends);
    case Rexmits(fast) =>
      RexmitKeeps(c.st, c.s);
      FlagKeeps(Rexmit(c.st), c.s, Rexmit(c.st).infr || fast);
    case TimesOut => RtoKeeps(c.st, c.s);
    case Acked(ack) => AckKeeps(c.st, ack, c.s);
  }

  lemma {:induction false} StepSorted(c: Conn, e: Event)
    requires Inv(c.st, c.s) && Legal(c, e) && Apt(c, e) && Ordered(c, e)
    requires Sorted(c.st.unsent, c.st.unacked)
    ensures Sorted(Step(c, e).st.unsent, Step(c, e).st.unacked)
  {
    match e
    case Writes(r) => if Write(c.st, r).0.OK? { CommitSorted(c.st, r, c.s); }
    case Closes(allocs) => FinSorted(c.st, c.s, allocs);
    case Outputs(wnd, sends) => OutputSorted(c.st, wnd, sends);
    case Rexmits(_) => RexmitSorted(c.st);
    case TimesOut => RexmitRtoSorted(c.st);
    case Acked(ack) => AckSorted(c.st, ack);
  }

  /** A run in which every call is legal. */
  ghost predicate Runs(c: Conn, es: seq<Event>)
    decreases |es|
  {
    es == [] || (Legal(c, es[0]) && Runs(Step(c, es[0]), es[1..]))
  }

  /** ... and adds at the end of the stream. */
  ghost predicate RunsApt(c: Conn, es: seq<Event>)
    requires Runs(c, es)
    decreases |es|
  {
    es == [] || (Apt(c, es[0]) && RunsApt(Step(c, es[0]), es[1..]))
  }

  ghost predicate RunsOrdered(c: Conn, es: seq<Event>)
    requires Runs(c, es)
    decreases |es|
  {
    es == [] || (Ordered(c, es[0]) && RunsOrdered(Step(c, es[0]), es[1..]))
  }

  ghost function Run(c: Conn, es: seq<Event>): Conn
    requires Runs(c, es)
    decreases |es|
  {
    if es == [] then c else Run(Step(c, es[0]), es[1..])
  }

  /** Theorem: over a run whose writes and close find the unsent list at the end of the stream,
      every number not yet acknowledged is in a queued segment, and every queued segment carries the
      bytes of the stream at its place. */
  lemma {:induction false} RunKeeps(c: Conn, es: seq<Event>)
    requires Inv(c.st, c.s) && Runs(c, es) && RunsApt(c, es)
    ensures Inv(Run(c, es).st, Run(c, es).s) && c.s <= Run(c, es).s && c.st.una <= Run(c, es).st.una
    decreases |es|
  {
    if es != [] {
      StepKeeps(c, es[0]);
      RunKeeps(Step(c, es[0]), es[1..]);
    }
  }

  /** Theorem: if the timer never fires between a failed fast retransmission and the next output,
      both lists stay sorted and free of overlap. */
  lemma {:induction false} RunSorted(c: Conn, es: seq<Event>)
    requires Inv(c.st, c.s) && Runs(c, es) && RunsApt(c, es) && RunsOrdered(c, es) && Sorted(c.st.unsent, c.st.unacked)
    ensures Sorted(Run(c, es).st.unsent, Run(c, es).st.unacked)
    decreases |es|
  {
    if es != [] {
      StepKeeps(c, es[0]);
      StepSorted(c, es[0]);
      RunSorted(Step(c, es[0]), es[1..]);
    }
  }

  lemma {:induction false} ReadsAt(s: seq<byte>, at: int, b: seq<byte>, p: int)
    requires Reads(s, at, b) && at <= p < at + |b|
    ensures b[p - at] == s[p]
  {
  }

  lemma {:induction false} Sought(st: Snd, s: seq<byte>, p: int) returns (g: Seg)
    requires Inv(st, s) && st.una <= p < |s|
    ensures g in st.unsent || g in st.unacked
    ensures g.at <= p < g.End() && g.Data()[p - g.at] == s[p]
  {
    assert Holds(Queued(st), p);
    g :| g in Queued(st) && g.at <= p < g.Next();
    ReadsAt(s, g.at, g.Data(), p);
  }

  /** Theorem: over a run whose writes and close find the unsent list at the end of the stream, every
      byte the peer has not acknowledged is in a queued segment at its place, so it can be sent
      again. */
  lemma {:induction false} Resendable(c: Conn, es: seq<Event>, p: int) returns (g: Seg)
    requires Inv(c.st, c.s) && Runs(c, es) && RunsApt(c, es) && Run(c, es).st.una <= p < |Run(c, es).s|
    ensures g in Run(c, es).st.unsent || g in Run(c, es).st.unacked
    ensures g.at <= p < g.End() && 0 <= p && g.Data()[p - g.at] == Run(c, es).s[p]
  {
    RunKeeps(c, es);
    g := Sought(Run(c, es).st, Run(c, es).s, p);
  }

  // ---------------------------------------------------------------- after a fast retransmission

  function OneByte(at: int, b: byte): Seg {
    Seg(at, [Ram([b])], false)
  }

  /** Two segments of one byte, sent and not acknowledged. */
  function TwoSent(): Conn {
    Conn(Snd([], [OneByte(0, 1), OneByte(1, 2)], 2, 2, 0, TCP_SND_BUF - 2, 2, 0, 4, true,
             false, false, false, false), [1, 2])
  }

  lemma {:induction false} OneByteIs(at: int, b: byte)
    ensures OneByte(at, b).Data() == [b]
  {
    JoinedSnoc([], Ram([b]));
    assert [] + [Ram([b])] == [Ram([b])] && [] + [b] == [b];
  }

  lemma {:induction false} TwoTotals(g: Seg, h: Seg)
    ensures Bytes([g, h]) == g.Len() + h.Len() && Bufs([g, h]) == |g.bufs| + |h.bufs|
  {
    SumConcat([g], [h]);
    SumOne(g);
    SumOne(h);
    assert [g, h] == [g] + [h];
  }

  /** A connection whose queue is two segments that follow each other. */
  lemma {:induction false} PairInv(st: Snd, s: seq<byte>, g: Seg, h: Seg)
    requires st.unsent == [] && st.unacked == [g, h] && st.open && st.oversize == 0 && st.mss > 0
    requires Carries(g, s, st.mss, true) && Carries(h, s, st.mss, true)
    requires g.at == st.una && g.End() == h.at && h.End() == |s| == st.nxt == st.lbb
    requires st.buf == TCP_SND_BUF - g.Len() - h.Len() >= 0
    requires st.qlen == |g.bufs| + |h.bufs| <= TCP_SND_QUEUELEN
    ensures Inv(st, s)
  {
    TwoTotals(g, h);
    assert g in Queued(st) && h in Queued(st);
    forall p | st.una <= p < |s| ensures Holds(Queued(st), p) {
      assert (g.at <= p < g.Next()) || (h.at <= p < h.Next());
    }
  }

  lemma {:induction false} TwoSentInv(c: Conn)
    requires c == TwoSent()
    ensures Inv(c.st, c.s)
  {
    OneByteIs(0, 1);
    OneByteIs(1, 2);
    var s: seq<byte> := [1, 2];
    assert Reads(s, 0, [1]) && Reads(s, 1, [2]);
    PairInv(c.st, s, OneByte(0, 1), OneByte(1, 2));
  }

  lemma {:induction false} TwoSentSorted(c: Conn)
    requires c == TwoSent()
    ensures Sorted(c.st.unsent, c.st.unacked)
  {
    OneByteIs(0, 1);
    OneByteIs(1, 2);
  }

  lemma {:induction false} FastRexmit(c: Conn)
    requires c == TwoSent()
    ensures var st := Step(c, Rexmits(true)).st;
            && st.unsent == [OneByte(0, 1)] && st.unacked == [OneByte(1, 2)]
            && st.lbb == 2 && st.oversize == 0 && st.open && st.buf == TCP_SND_BUF - 2 && st.qlen == 2
            && st.infr && st.una == 0 && st.mss == 4
    ensures Step(c, Rexmits(true)).s == c.s == [1, 2]
  {
    hide Joined, Inv;
    assert c.st.unacked[1..] == [OneByte(1, 2)];
  }

  lemma {:induction false} BehindFirst(st: Snd, s: seq<byte>, r: Request, g: Seg)
    requires st.unsent == [g] && g.at == 0 && g.Len() == 1 && g.bufs != [] && st.oversize == 0 && st.open
    requires |s| == 2 && st.lbb == 2 && r.mss == 4 && 0 < |r.data| <= 3 && r.data[0] != s[1] && r.allocs > 0
    requires st.buf >= 3 && st.qlen < TCP_SND_QUEUELEN
    ensures Ready(st, r) && Write(st, r) == (OK, Committed(st, r)) && !Inv(Committed(st, r), s + r.data)
  {
    assert Segmented(st, r) == [];
    CommitSpoils(st, r, s);
  }

  /** After a fast retransmission that was not sent yet, a write puts its bytes behind the first
      segment and not at the end of the stream. */
  lemma {:induction false} WriteMisplaced(c: Conn, r: Request)
    requires c == TwoSent()
    requires r.mss == 4 && 0 < |r.data| <= 3 && r.data[0] != 2 && r.allocs > 0
    ensures var c' := Step(c, Rexmits(true));
            && Inv(c.st, c.s) && Inv(c'.st, c'.s) && Ready(c'.st, r) && Write(c'.st, r).0 == OK
            && !Inv(Step(c', Writes(r)).st, Step(c', Writes(r)).s)
  {
    hide Joined, Inv, Committed, Pieces, Spare, Insert, Rexmit, Ready, Write, TwoSent;
    TwoSentInv(c);
    StepKeeps(c, Rexmits(true));
    FastRexmit(c);
    OneByteIs(0, 1);
    BehindFirst(Step(c, Rexmits(true)).st, c.s, r, OneByte(0, 1));
  }

  /** ... a close puts the FIN behind the first segment ... */
  lemma {:induction false} FinMisplaced(c: Conn, allocs: nat)
    requires c == TwoSent()
    ensures var c' := Step(c, Rexmits(true));
            && Inv(c'.st, c'.s) && c'.st.open && SendFin(c'.st, allocs).0 == OK
            && !Inv(Step(c', Closes(allocs)).st, Step(c', Closes(allocs)).s)
  {
    hide Joined, Inv, Insert, Rexmit, TwoSent;
    TwoSentInv(c);
    StepKeeps(c, Rexmits(true));
    FastRexmit(c);
    OneByteIs(0, 1);
    FinFaithful(Step(c, Rexmits(true)).st, c.s, allocs);
  }

  /** ... and the retransmission timer leaves the unsent list out of order. */
  lemma {:induction false} TimerUnsorted(c: Conn)
    requires c == TwoSent()
    ensures Sorted(c.st.unsent, c.st.unacked)
    ensures var c' := Step(Step(c, Rexmits(true)), TimesOut); !Sorted(c'.st.unsent, c'.st.unacked)
  {
    hide Joined, Insert, Sorted, TwoSent, Rexmit;
    TwoSentSorted(c);
    RexmitSorted(c.st);
    FastRexmit(c);
    RexmitRtoSorted(Step(c, Rexmits(true)).st);
  }
}

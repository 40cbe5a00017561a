/** What holds over every run of the sending side that the source admits. */
module SendSound {
  import opened SeqNum
  import opened Common
  import opened SendSpec
  import opened SendRuns
  import opened SendWrite
  import opened SendClose
  import opened SendEvents

  /** A segment that is not empty, and not longer than `mss`. */
  ghost predicate Stout(g: Seg, mss: int) {
    g.bufs != [] && 0 < g.TcpLen() && g.Len() <= mss
  }

  ghost predicate AllStout(q: seq<Seg>, mss: int) {
    forall g :: g in q ==> Stout(g, mss)
  }

  /** The books balance; no segment is empty or longer than `mss`, nor is the last unsent one with
      its spare room; and acknowledged numbers were sent. */
  ghost predicate Sound(c: Conn, mss: int) {
    && Accounted(c.st) && Spared(c.st, mss) && 0 < mss <= c.st.mss
    && AllStout(c.st.unsent, mss) && AllStout(c.st.unacked, mss)
    && c.st.una <= c.st.nxt && (c.st.open ==> c.st.lbb == |c.s|)
  }

  // ---------------------------------------------------------------- one step

  lemma {:induction false} MovedStout(st: Snd, st': Snd, mss: int)
    requires Moved(st, st') && AllStout(st.unsent, mss) && AllStout(st.unacked, mss)
    ensures AllStout(st'.unsent, mss) && AllStout(st'.unacked, mss)
  {
    hide Stout, Bytes, Bufs;
    MovedQueued(st, st');
    forall g | g in st'.unsent || g in st'.unacked ensures Stout(g, mss) {
      assert g in Queued(st');
    }
  }

  lemma {:induction false} CommitStout(st: Snd, r: Request, s: seq<byte>, mss: int)
    requires Ready(st, r) && st.lbb == |s| && AllStout(st.unsent, mss)
    ensures AllStout(Committed(st, r).unsent, Max(mss, r.mss))
  {
    hide Joined, Bytes, Bufs, Pieces, Spare, SpareThen, Topped, Stout;
    PiecesStout(r, Phase1(st, r) + Phase2(st, r), s);
    ToppedStout(st, r, mss);
    forall g | g in Committed(st, r).unsent ensures Stout(g, Max(mss, r.mss)) {
      assert g in Segmented(st, r) || g in Topped(st, r);
      StoutMax(g, mss, r.mss);
    }
  }

  lemma {:induction false} StoutMax(g: Seg, a: int, b: int)
    ensures Stout(g, a) || Stout(g, b) || Stout(g, Max(a, b)) ==> Stout(g, Max(a, b))
  {
  }

  lemma {:induction false} PiecesStout(r: Request, pos: int, s: seq<byte>)
    requires 0 <= pos <= |r.data| && r.mss > 0
    ensures forall g :: g in Pieces(r, pos, |s|) ==> Stout(g, r.mss)
  {
    hide Joined, Bytes, Pieces;
    PiecesTile(r, pos, s);
    TilesParts(Pieces(r, pos, |s|), s + r.data, |s| + pos, |s + r.data|, r.mss, PerSeg(r));
  }

  lemma {:induction false} ToppedStout(st: Snd, r: Request, mss: int)
    requires Ready(st, r) && AllStout(st.unsent, mss)
    ensures forall g :: g in Topped(st, r) ==> Stout(g, Max(mss, r.mss))
  {
    hide Joined, Phase1, Phase2, Extends, Longer;
    if st.unsent != [] {
      ToppedIs(st, r);
      assert Stout(Tail(st.unsent), mss);
      forall g | g in Topped(st, r) ensures Stout(g, Max(mss, r.mss)) {
        assert g == Tail(Topped(st, r)) || g in st.unsent;
      }
    }
  }

  lemma {:induction false} RoomMore(st: Snd, mss: int, more: int)
    requires Spared(st, mss) && mss <= more
    ensures Spared(st, more)
  {
  }

  lemma {:induction false} StoutMore(q: seq<Seg>, mss: int, more: int)
    requires AllStout(q, mss) && mss <= more
    ensures AllStout(q, more)
  {
  }

  lemma {:induction false} WriteSound(c: Conn, r: Request, mss: int)
    requires Sound(c, mss) && Legal(c, Writes(r))
    ensures Sound(Step(c, Writes(r)), Max(mss, r.mss))
  {
    hide Joined, Bytes, Bufs, Committed, Ready, Spared, AllStout, Queued;
    var more := Max(mss, r.mss);
    RoomMore(c.st, mss, c.st.mss);
    RoomMore(c.st, mss, more);
    StoutMore(c.st.unsent, mss, more);
    StoutMore(c.st.unacked, mss, more);
    if Write(c.st, r).0.OK? {
      CommitRest(c.st, r);
      CommitAccounted(c.st, r, c.s);
      CommitSpared(c.st, r, more);
      CommitStout(c.st, r, c.s, mss);
    } else {
      FlagSpared(c.st, more);
    }
  }

  lemma {:induction false} FlagSpared(st: Snd, mss: int)
    requires Spared(st, mss)
    ensures Spared(st.(memerr := true), mss)
  {
  }

  lemma {:induction false} MarkedStout(u: seq<Seg>, mss: int)
    requires u != [] && AllStout(u, mss)
    ensures AllStout(Marked(u), mss)
  {
    hide Joined;
    assert Stout(Tail(u), mss);
    forall g | g in Marked(u) ensures Stout(g, mss) {
      assert g in u || g == Tail(u).(fin := true);
    }
  }

  lemma {:induction false} BareStout(u: seq<Seg>, at: int, mss: int)
    requires AllStout(u, mss) && mss > 0
    ensures AllStout(u + [Bare(at)], mss)
  {
    BareEmpty(at);
  }

  lemma {:induction false} FinSound(c: Conn, allocs: nat, mss: int)
    requires Sound(c, mss) && c.st.open
    ensures Sound(Step(c, Closes(allocs)), mss)
  {
    hide Joined, Bytes, Bufs, AllStout, Accounted;
    FinAccounted(c.st, allocs);
    if c.st.unsent != [] && !Tail(c.st.unsent).fin {
      MarkedStout(c.st.unsent, mss);
    } else {
      BareStout(c.st.unsent, c.st.lbb, mss);
    }
  }

  lemma {:induction false} NoneEmptyIs(q: seq<Seg>, mss: int)
    requires AllStout(q, mss)
    ensures NoneEmpty(q)
  {
    forall i | 0 <= i < |q| ensures q[i].TcpLen() > 0 { assert q[i] in q; }
  }

  /** snd_nxt only grows. */
  lemma {:induction false} OutputGrows(st: Snd, wnd: int, sends: nat)
    ensures st.nxt <= Output(st, wnd, sends).nxt
    decreases |st.unsent|
  {
    hide Joined, File;
    if st.unsent != [] && Fits(st, wnd) && !Held(st) && sends > 0 {
      OutputGrows(SendFirst(st), wnd, sends - 1);
    }
  }

  lemma {:induction false} OutputSound(c: Conn, wnd: int, sends: nat, mss: int)
    requires Sound(c, mss)
    ensures Sound(Step(c, Outputs(wnd, sends)), mss)
  {
    hide Joined, Bytes, Bufs, AllStout, Spared, Output;
    NoneEmptyIs(c.st.unsent, mss);
    OutputMoves(c.st, wnd, sends);
    OutputSpared(c.st, wnd, sends, mss);
    OutputGrows(c.st, wnd, sends);
    MovedStout(c.st, Output(c.st, wnd, sends), mss);
  }

  lemma {:induction false} RexmitSound(c: Conn, fast: bool, mss: int)
    requires Sound(c, mss)
    ensures Sound(Step(c, Rexmits(fast)), mss)
  {
    hide Joined, Bytes, Bufs, AllStout, Insert;
    RexmitMoves(c.st);
    RexmitSpared(c.st, mss);
    MovedStout(c.st, Rexmit(c.st), mss);
  }

  lemma {:induction false} TimeoutSound(c: Conn, mss: int)
    requires Sound(c, mss)
    ensures Sound(Step(c, TimesOut), mss)
  {
    hide Joined, Bytes, Bufs, AllStout, Spared;
    RexmitRtoMoves(c.st);
    RexmitRtoSpared(c.st, mss);
    MovedStout(c.st, RexmitRto(c.st), mss);
  }

  lemma {:induction false} AckSound(c: Conn, ack: int, mss: int)
    requires Sound(c, mss)
    ensures Sound(Step(c, Acked(ack)), mss)
  {
    hide Joined, Bytes, Bufs, Spared, Accounted, DropAcked, Stout;
    AckShrinks(c.st, ack);
    AckSpared(c.st, ack, mss);
    DropShrinks(c.st.unacked, ack);
    DropShrinks(c.st.unsent, ack);
  }

  /** The largest segment limit there was after event `e`. */
  function Bound(e: Event, mss: int): int {
    if e.Writes? then Max(mss, e.r.mss) else mss
  }

  lemma {:induction false} StepSound(c: Conn, e: Event, mss: int)
    requires Sound(c, mss) && Legal(c, e)
    ensures Sound(Step(c, e), Bound(e, mss))
  {
    hide Sound, Legal, Step;
    match e
    case Writes(r) => WriteSound(c, r, mss);
    case Closes(allocs) => LegalFin(c, allocs); FinSound(c, allocs, mss);
    case Outputs(wnd, sends) => OutputSound(c, wnd, sends, mss);
    case Rexmits(fast) => RexmitSound(c, fast, mss);
    case TimesOut => TimeoutSound(c, mss);
    case Acked(ack) => AckSound(c, ack, mss);
  }

  lemma {:induction false} LegalFin(c: Conn, allocs: nat)
    requires Legal(c, Closes(allocs))
    ensures c.st.open
  {
  }

  // ---------------------------------------------------------------- whole runs

  function Bounds(es: seq<Event>, mss: int): int {
    if es == [] then mss else Bounds(es[1..], Bound(es[0], mss))
  }

  /** Theorem: over any interleaving of writes, close, output, retransmissions, timeouts and
      acknowledgements, wherever the writes put their bytes, the send-buffer space plus the queued
      bytes is TCP_SND_BUF, the queue length is the number of queued buffers, and no segment is empty
      or longer than the segment limits there were. */
  lemma {:induction false} RunSound(c: Conn, es: seq<Event>, mss: int)
    requires Sound(c, mss) && Runs(c, es)
    ensures Sound(Run(c, es), Bounds(es, mss))
    decreases |es|
  {
    hide Sound, Step;
    if es != [] {
      StepSound(c, es[0], mss);
      RunSound(Step(c, es[0]), es[1..], Bound(es[0], mss));
    }
  }

  /** Theorem: after any such run an acknowledgement, old, new or out of range, frees no segment that
      holds a number not yet acknowledged. */
  lemma {:induction false} RunSpares(c: Conn, es: seq<Event>, mss: int, ack: int, g: Seg)
    requires Sound(c, mss) && Runs(c, es)
    requires g in Queued(Run(c, es).st) && g.Next() > Ack(Run(c, es).st, ack).una
    ensures g in Queued(Ack(Run(c, es).st, ack))
  {
    RunSound(c, es, mss);
    AckSurvives(Run(c, es).st, ack, g);
  }

  // ---------------------------------------------------------------- when tcp_write may be called

  /** The assertions of tcp_write hold exactly when the last unsent segment with its spare room is
      within the segment limit. */
  lemma {:induction false} ReadyIff(c: Conn, r: Request, mss: int)
    requires Sound(c, mss) && r.mss > 0 && |r.data| < 0x1_0000
    ensures Ready(c.st, r) <==> (c.st.unsent == [] || Tail(c.st.unsent).Len() + c.st.oversize <= r.mss)
  {
    hide Joined, Accounted;
    if c.st.unsent != [] { assert Tail(c.st.unsent) in c.st.unsent; }
  }

  lemma {:induction false} BoundsBelow(es: seq<Event>, mss: int, top: int)
    requires mss <= top && forall i :: 0 <= i < |es| && es[i].Writes? ==> es[i].r.mss <= top
    ensures Bounds(es, mss) <= top
    decreases |es|
  {
    if es != [] { BoundsBelow(es[1..], Bound(es[0], mss), top); }
  }

  /** Theorem: after any run, a write whose segment limit is not below those of the writes before it
      meets the assertions of tcp_write. */
  lemma {:induction false} RunReady(c: Conn, es: seq<Event>, mss: int, r: Request)
    requires Sound(c, mss) && Runs(c, es) && mss <= r.mss && |r.data| < 0x1_0000
    requires forall i :: 0 <= i < |es| && es[i].Writes? ==> es[i].r.mss <= r.mss
    ensures Ready(Run(c, es).st, r)
  {
    hide Joined, Accounted, Legal, Step;
    RunSound(c, es, mss);
    BoundsBelow(es, mss, r.mss);
    var c', m := Run(c, es), Bounds(es, mss);
    ReadyIff(c', r, m);
    if c'.st.unsent != [] { assert Stout(Tail(c'.st.unsent), m); }
  }

  /** The segment limit falls while the largest window grows exactly when a window too small to
      halve gives way to one whose half is below the segment size. */
  lemma {:induction false} LimitFalls(mss: u16, wnd: u16, wnd': u16)
    requires wnd <= wnd'
    ensures LocalMss(mss, wnd') < LocalMss(mss, wnd) <==> wnd < 2 <= wnd' && wnd' / 2 < mss
  {
  }

  /** A connection on which nothing was written yet. */
  function Unused(mss: int): Conn {
    Conn(Snd([], [], 0, 0, 0, TCP_SND_BUF, 0, 0, mss, true, false, false, false, false), [])
  }

  lemma {:induction false} UnusedSound(mss: int)
    requires mss > 0
    ensures Sound(Unused(mss), mss)
  {
  }

  lemma {:induction false} OnePiece(r: Request, n: int)
    requires 0 < n == |r.data| <= r.mss
    ensures var q := Pieces(r, 0, 0); |q| == 1 && q[0].Len() == n && Bufs(q) == PerSeg(r)
  {
    hide Joined;
    PieceIs(r, 0, n, 0);
    assert Pieces(r, 0, 0) == [Piece(r, 0, n, 0)] + Pieces(r, n, 0);
    SumOne(Piece(r, 0, n, 0));
    assert [Piece(r, 0, n, 0)] + [] == [Piece(r, 0, n, 0)];
  }

  lemma {:induction false} FirstWrite(c: Conn, r: Request)
    requires c == Unused(4) && r.mss == 4 == |r.data| && r.copy && r.allocs >= 2
    ensures Runs(c, [Writes(r)])
    ensures var st := Run(c, [Writes(r)]).st; |st.unsent| == 1 && st.unsent[0].Len() == 4
  {
    hide Joined, Pieces, Bufs, Spare;
    OnePiece(r, 4);
    assert [Writes(r)][1..] == [];
    assert [] + Pieces(r, 0, 0) == Pieces(r, 0, 0);
  }

  /** Four bytes are written before the peer offered a window, then it offers one of four: the next
      write fails the assertion of tcp_write. */
  lemma {:induction false} WriteUnready(c: Conn, r: Request, r': Request)
    requires c == Unused(4) && r.mss == LocalMss(4, 0) == |r.data| && r.copy && r.allocs >= 2
    requires r'.mss == LocalMss(4, 4) && |r'.data| < 0x1_0000
    ensures Sound(c, 4) && Runs(c, [Writes(r)]) && !Ready(Run(c, [Writes(r)]).st, r')
  {
    hide Joined, Pieces, Bufs, Spare, Committed, Sound;
    UnusedSound(4);
    FirstWrite(c, r);
  }

  // ---------------------------------------------------------------- a state of SendEvents is reached

  /** One byte written behind an empty unsent list. */
  lemma {:induction false} WriteOne(st: Snd, r: Request, b: byte)
    requires st.unsent == [] && st.oversize == 0 && st.open && st.buf > 0 && st.qlen < TCP_SND_QUEUELEN
    requires r.data == [b] && r.copy && r.mss == 4 && r.allocs == 2
    ensures Ready(st, r)
    ensures var st' := st.(unsent := [OneByte(st.lbb, b)], lbb := st.lbb + 1, buf := st.buf - 1, qlen := st.qlen + 1,
                           oversize := Prealloc(st, r, 1, 4, true) - 1);
            Write(st, r) == (OK, st')
  {
    hide Joined, Prealloc;
    var g := OneByte(st.lbb, b);
    assert r.data[0..1] == [b];
    assert Pieces(r, 0, st.lbb) == [Piece(r, 0, 1, st.lbb)] + Pieces(r, 1, st.lbb);
    assert Pieces(r, 0, st.lbb) == [g];
    SumOne(g);
    assert [] + [g] == [g];
    assert Spare(st, r, 0, 0, true) == Spare(st, r, 1, Prealloc(st, r, 1, 4, true) - 1, false);
  }

  /** The only unsent segment is sent. */
  lemma {:induction false} SendOnly(st: Snd, g: Seg)
    requires st.unsent == [g] && 0 <= g.at - st.una + g.Len() <= 100 && g.TcpLen() > 0 && !Held(st)
    ensures Output(st, 100, 1) ==
            st.(unsent := [], unacked := File(st.unacked, g), nxt := Max(st.nxt, g.Next()), oversize := 0, memerr := false)
  {
    hide Joined, File, Held;
    assert [g][1..] == [];
    assert Output(st, 100, 1) == Output(SendFirst(st), 100, 0);
  }

  /** A write that needs a segment for which there is no memory. */
  lemma {:induction false} WriteFails(st: Snd, r: Request, g: Seg)
    requires st.unsent == [g] && g.bufs != [] && g.Len() == 1 && st.oversize == 3 && st.open
    requires |r.data| == 5 <= st.buf && r.mss == 4 && r.allocs == 0 && st.qlen < TCP_SND_QUEUELEN
    ensures Ready(st, r) && Write(st, r) == (MEM, st.(memerr := true))
  {
    hide Joined, Bufs, Spare;
    assert |Pieces(r, 3, st.lbb)| > 0;
  }

  function Ask(data: seq<byte>, allocs: nat): Request {
    Request(data, 0, true, false, 4, allocs)
  }

  /** Write, output, write, a write that fails, output. */
  function Prelude(): seq<Event> {
    [Writes(Ask([1], 2)), Outputs(100, 1), Writes(Ask([2], 2)), Writes(Ask([3, 3, 3, 3, 3], 0)), Outputs(100, 1)]
  }

  lemma {:induction false} FirstSentIs(c: Conn)
    requires c == Unused(4)
    ensures Legal(c, Prelude()[0])
    ensures Step(Step(c, Prelude()[0]), Prelude()[1]) ==
            Conn(Snd([], [OneByte(0, 1)], 1, 1, 0, TCP_SND_BUF - 1, 1, 0, 4, true, false, false, false, false), [1])
  {
    hide Joined, Spare, Pieces, Committed, Output, Write;
    var r, g := Ask([1], 2), OneByte(0, 1);
    WriteOne(c.st, r, 1);
    OneByteIs(0, 1);
    var c1 := Step(c, Prelude()[0]);
    assert c1.s == [] + [1] == [1];
    assert c1.st.unsent == [g] && c1.st.oversize == 0;
    SendOnly(c1.st, g);
    assert File([], g) == [] + [g] == [g];
  }

  lemma {:induction false} SecondSentIs(c: Conn)
    requires c.st == Snd([], [OneByte(0, 1)], 1, 1, 0, TCP_SND_BUF - 1, 1, 0, 4, true, false, false, false, false) && c.s == [1]
    ensures Legal(c, Prelude()[2]) && Legal(Step(c, Prelude()[2]), Prelude()[3])
    ensures Step(Step(Step(c, Prelude()[2]), Prelude()[3]), Prelude()[4]) == TwoSent()
  {
    hide Joined, Spare, Pieces, Committed, Output, Write;
    var r, g := Ask([2], 2), OneByte(1, 2);
    WriteOne(c.st, r, 2);
    OneByteIs(1, 2);
    var c1 := Step(c, Prelude()[2]);
    assert c1.s == [1] + [2] == [1, 2];
    assert c1.st.unsent == [g] && c1.st.oversize == 3;
    WriteFails(c1.st, Ask([3, 3, 3, 3, 3], 0), g);
    var c2 := Step(c1, Prelude()[3]);
    SendOnly(c2.st, g);
    assert File([OneByte(0, 1)], g) == [OneByte(0, 1)] + [g] == [OneByte(0, 1), g];
  }

  lemma {:induction false} RunCons(c: Conn, e: Event, es: seq<Event>)
    requires Legal(c, e) && Runs(Step(c, e), es)
    ensures Runs(c, [e] + es) && Run(c, [e] + es) == Run(Step(c, e), es)
  {
    hide Step;
    assert ([e] + es)[1..] == es && ([e] + es)[0] == e;
  }

  lemma {:induction false} RunNone(c: Conn)
    ensures Runs(c, []) && Run(c, []) == c
  {
  }

  lemma {:induction false} RunFive(c: Conn, a: Event, b: Event, d: Event, e: Event, f: Event)
    requires Legal(c, a) && Legal(Step(c, a), b)
    requires var c2 := Step(Step(c, a), b); Legal(c2, d) && Legal(Step(c2, d), e) && Legal(Step(Step(c2, d), e), f)
    ensures Runs(c, [a, b, d, e, f])
    ensures Run(c, [a, b, d, e, f]) == Step(Step(Step(Step(Step(c, a), b), d), e), f)
  {
    hide Step, Runs, Run, Ready;
    assert [f] + [] == [f] && [e] + [f] == [e, f] && [d] + [e, f] == [d, e, f];
    assert [b] + [d, e, f] == [b, d, e, f] && [a] + [b, d, e, f] == [a, b, d, e, f];
    var c2 := Step(Step(c, a), b);
    RunNone(Step(Step(Step(c2, d), e), f));
    RunCons(Step(Step(c2, d), e), f, []);
    RunCons(Step(c2, d), e, [f]);
    RunCons(c2, d, [e, f]);
    RunCons(Step(c, a), b, [d, e, f]);
    RunCons(c, a, [b, d, e, f]);
  }

  /** The state from which SendEvents shows what a fast retransmission can lead to is reached. */
  lemma {:induction false} TwoSentReached(c: Conn)
    requires c == Unused(4)
    ensures Runs(c, Prelude()) && Run(c, Prelude()) == TwoSent()
  {
    hide Step, TwoSent, Unused, Ready;
    FirstSentIs(c);
    var es := Prelude();
    SecondSentIs(Step(Step(c, es[0]), es[1]));
    RunFive(c, es[0], es[1], es[2], es[3], es[4]);
  }
}

/** What is queued is what the peer has not acknowledged, and spans a short range of numbers. */
module SendWindow {
  import opened SeqNum
  import opened Common
  import opened SendSpec
  import opened SendRuns
  import opened SendWrite
  import opened SendClose
  import opened SendSorted
  import opened SendEvents

  /** No queued segment is acknowledged altogether. */
  ghost predicate Live(st: Snd) {
    forall g :: g in Queued(st) ==> st.una < g.Next()
  }

  // ---------------------------------------------------------------- acknowledgements free all they cover

  lemma {:induction false} DropExact(q: seq<Seg>, ack: int, g: Seg)
    requires Rising(q) && g in q
    ensures g in DropAcked(q, ack) <==> g.Next() > ack
  {
    DropIs(q, ack);
    if g.Next() > ack {
      DropMembers(q, ack, g);
    }
  }

  /** Theorem: from sorted lists, a new acknowledgement frees exactly the segments it covers, and ends a
      fast retransmission. */
  lemma {:induction false} AckExact(st: Snd, ack: int, g: Seg)
    requires Sorted(st.unsent, st.unacked) && st.una < ack <= st.nxt
    requires g in Queued(st)
    ensures g in Queued(Ack(st, ack)) <==> g.Next() > ack
    ensures Ack(st, ack).una == ack && !Ack(st, ack).infr
  {
    hide Joined, Bytes, Bufs;
    AckParts(st, ack, g);
    if g in st.unsent { DropExact(st.unsent, ack, g); }
    if g in st.unacked { DropExact(st.unacked, ack, g); }
  }

  /** ... and one of anything that was sent frees the unsent segments that it covers, which a timeout had
      put back. */
  lemma {:induction false} AckUnsent(st: Snd, ack: int, g: Seg)
    requires Rising(st.unsent) && ack <= st.nxt && g in st.unsent
    ensures g in Ack(st, ack).unsent <==> g.Next() > ack
  {
    hide Joined, Bytes, Bufs;
    DropExact(st.unsent, ack, g);
  }

  /** An acknowledgement changes the lists, lastack, the counters and the spare room, and ends a fast
      retransmission. */
  lemma {:induction false} AckFrame(st: Snd, ack: int)
    ensures var st' := Ack(st, ack);
            st' == st.(unsent := st'.unsent, unacked := st'.unacked, una := st'.una, buf := st'.buf, qlen := st'.qlen,
                       oversize := st'.oversize, infr := st'.infr)
    ensures Ack(st, ack).unsent != [] ==> Ack(st, ack).oversize == st.oversize
  {
    hide Joined, Bytes, Bufs, DropAcked;
    DropIs(st.unsent, ack);
  }

  /** Theorem: an acknowledgement of what was acknowledged before, or never sent, changes nothing. */
  lemma {:induction false} AckStale(st: Snd, ack: int)
    requires Live(st) && !(st.una < ack <= st.nxt)
    ensures Ack(st, ack) == st
  {
    hide Joined, Bytes, Bufs;
    if st.unsent != [] { assert st.unsent[0] in Queued(st); }
  }

  /** A segment that is left on a list was on that list. */
  lemma {:induction false} AckParts(st: Snd, ack: int, g: Seg)
    ensures g in Ack(st, ack).unsent ==> g in st.unsent
    ensures g in Ack(st, ack).unacked ==> g in st.unacked
  {
    hide Joined, Bytes, Bufs;
    DropIs(st.unsent, ack);
    DropIs(st.unacked, ack);
  }

  lemma {:induction false} AckLive(st: Snd, ack: int)
    requires Live(st) && Sorted(st.unsent, st.unacked)
    ensures Live(Ack(st, ack))
  {
    forall g | g in Queued(Ack(st, ack)) ensures Ack(st, ack).una < g.Next() {
      AckParts(st, ack, g);
      assert g in Queued(st);
      if st.una < ack <= st.nxt { AckExact(st, ack, g); }
    }
  }

  lemma {:induction false} MovedLive(st: Snd, st': Snd)
    requires Live(st) && Moved(st, st')
    ensures Live(st')
  {
    MovedQueued(st, st');
  }

  lemma {:induction false} CommitLive(st: Snd, r: Request, s: seq<byte>)
    requires Inv(st, s) && Accepts(st, r) && Live(st)
    ensures Live(Committed(st, r))
  {
    hide Joined, Bytes, Bufs, Pieces, Spare;
    var st', pos := Committed(st, r), Phase1(st, r) + Phase2(st, r);
    PiecesTile(r, pos, s);
    TilesParts(Segmented(st, r), s + r.data, |s| + pos, |s + r.data|, r.mss, PerSeg(r));
    if st.unsent != [] {
      ToppedIs(st, r);
      assert Tail(st.unsent) in Queued(st);
    }
    forall g | g in Queued(st') ensures st.una < g.Next() {
      if g !in Queued(st) && g !in Segmented(st, r) { assert g in Topped(st, r); }
    }
  }

  lemma {:induction false} FinLive(st: Snd, s: seq<byte>, allocs: nat)
    requires Inv(st, s) && st.open && Live(st)
    ensures Live(SendFin(st, allocs).1)
  {
    BareEmpty(st.lbb);
    if st.unsent != [] { assert Tail(st.unsent) in Queued(st); }
    forall g | g in Queued(SendFin(st, allocs).1) ensures st.una < g.Next() {
      assert g in Queued(st) || g == Bare(st.lbb) || (st.unsent != [] && g == Tail(st.unsent).(fin := true));
    }
  }

  lemma {:induction false} StepLive(c: Conn, e: Event)
    requires Inv(c.st, c.s) && Legal(c, e) && Live(c.st) && Sorted(c.st.unsent, c.st.unacked)
    ensures Live(Step(c, e).st)
  {
    hide Joined, Bytes, Bufs, Pieces, Spare, Output, Committed, Insert, Before, DropAcked;
    match e
    case Writes(r) => if Write(c.st, r).0.OK? { CommitLive(c.st, r, c.s); }
    case Closes(allocs) => FinLive(c.st, c.s, allocs);
    case Outputs(wnd, sends) =>
      AllWithin(c.st, c.s);
      OutputMoves(c.st, wnd, sends);
      MovedLive(c.st, Output(c.st, wnd, sends));
    case Rexmits(_) =>
      RexmitMoves(c.st);
      MovedLive(c.st, Rexmit(c.st));
    case TimesOut =>
      RexmitRtoMoves(c.st);
      MovedLive(c.st, RexmitRto(c.st));
    case Acked(ack) => AckLive(c.st, ack);
  }

  // ---------------------------------------------------------------- what is sent

  /** Everything on the unacknowledged list lies below snd_nxt. */
  ghost predicate Sent(st: Snd) {
    forall g :: g in st.unacked ==> g.Next() <= st.nxt
  }

  lemma {:induction false} FirstSent(st: Snd)
    requires Sent(st) && st.unsent != []
    ensures Sent(SendFirst(st)) && SendFirst(st).una == st.una
    ensures forall g :: g in SendFirst(st).unacked ==> g in st.unacked || g == st.unsent[0]
  {
    hide Joined, Insert, Before;
    FileMembers(st.unacked, st.unsent[0]);
  }

  /** Theorem: what tcp_output sends, it counts in snd_nxt. */
  lemma {:induction false} OutputSent(st: Snd, wnd: int, sends: nat)
    requires Sent(st)
    ensures Sent(Output(st, wnd, sends))
    decreases |st.unsent|
  {
    hide Joined, File;
    if st.unsent != [] && Fits(st, wnd) && !Held(st) && sends > 0 {
      FirstSent(st);
      OutputSent(SendFirst(st), wnd, sends - 1);
    }
  }

  /** Theorem: tcp_output sends no segment that ends outside the window. */
  lemma {:induction false} OutputWithin(st: Snd, wnd: int, sends: nat, g: Seg)
    requires Sent(st) && g in Output(st, wnd, sends).unacked && g !in st.unacked
    ensures 0 <= g.End() - st.una <= wnd
    decreases |st.unsent|
  {
    hide Joined, File;
    if st.unsent != [] && Fits(st, wnd) && !Held(st) && sends > 0 {
      FirstSent(st);
      if g != st.unsent[0] { OutputWithin(SendFirst(st), wnd, sends - 1, g); }
    }
  }

  /** Theorem: as long as the network takes segments, tcp_output stops only at the end of the list,
      at the window, or where Nagle holds the next segment back. */
  lemma {:induction false} OutputStops(st: Snd, wnd: int, sends: nat)
    requires sends >= |st.unsent|
    ensures var st' := Output(st, wnd, sends); st'.unsent == [] || !Fits(st', wnd) || Held(st')
    decreases |st.unsent|
  {
    hide Joined, File;
    if st.unsent != [] && Fits(st, wnd) && !Held(st) {
      OutputStops(SendFirst(st), wnd, sends - 1);
    }
  }

  // ---------------------------------------------------------------- the Nagle algorithm

  lemma {:induction false} FirstFrame(st: Snd)
    requires st.unsent != []
    ensures var f := SendFirst(st);
            f == st.(unsent := st.unsent[1..], unacked := f.unacked, nxt := Max(st.nxt, st.unsent[0].Next()))
  {
    hide Joined, File;
  }

  /** `u` is the end of the list `q`. */
  ghost predicate Suffix(u: seq<Seg>, q: seq<Seg>) {
    |u| <= |q| && u == q[|q| - |u|..]
  }

  lemma {:induction false} SuffixOn(u: seq<Seg>, q: seq<Seg>)
    requires q != [] && Suffix(u, q[1..])
    ensures Suffix(u, q) && |u| < |q|
  {
  }

  lemma {:induction false} SuffixSelf(q: seq<Seg>)
    ensures Suffix(q, q)
  {
  }

  /** Output keeps the end of the unsent list. */
  lemma {:induction false} OutputLeaves(st: Snd, wnd: int, sends: nat)
    ensures Suffix(Output(st, wnd, sends).unsent, st.unsent)
    decreases |st.unsent|
  {
    hide Joined, SendFirst, Fits, Held, Suffix;
    SuffixSelf(st.unsent);
    if st.unsent != [] && Fits(st, wnd) && !Held(st) && sends > 0 {
      FirstFrame(st);
      OutputLeaves(SendFirst(st), wnd, sends - 1);
      SuffixOn(Output(st, wnd, sends).unsent, st.unsent);
    }
  }

  /** It changes nothing but the lists, snd_nxt, the failure flag and, when all is sent, the spare room. */
  lemma {:induction false} OutputFrame(st: Snd, wnd: int, sends: nat)
    ensures var st' := Output(st, wnd, sends);
            st' == st.(unsent := st'.unsent, unacked := st'.unacked, nxt := st'.nxt, oversize := st'.oversize, memerr := st'.memerr)
    ensures Output(st, wnd, sends).unsent != [] ==> Output(st, wnd, sends).oversize == st.oversize
    decreases |st.unsent|
  {
    hide Joined, SendFirst, Fits, Held;
    if st.unsent != [] && Fits(st, wnd) && !Held(st) && sends > 0 {
      FirstFrame(st);
      OutputFrame(SendFirst(st), wnd, sends - 1);
    }
  }

  /** Theorem: a segment inside the window that tcp_output leaves, with a network that takes all, is the
      last one and not a full one, with others not acknowledged, and none of the reasons to send it at
      once: no TF_NODELAY, no retransmission, no earlier failure, no FIN, and room in buffer and
      queue. */
  lemma {:induction false} OutputNagle(st: Snd, wnd: int, sends: nat)
    requires sends >= |st.unsent|
    ensures var st' := Output(st, wnd, sends);
            st'.unsent != [] && 0 <= st'.unsent[0].End() - st'.una <= wnd ==>
              && st'.unacked != [] && |st'.unsent| == 1 && st'.unsent[0].Len() < st'.mss
              && !st.nodelay && !st.infr && !st.memerr && !st.finQueued
              && st.buf != 0 && st.qlen < TCP_SND_QUEUELEN
    decreases |st.unsent|
  {
    hide Joined, File;
    if st.unsent != [] && Fits(st, wnd) && !Held(st) {
      OutputNagle(SendFirst(st), wnd, sends - 1);
    }
  }

  lemma {:induction false} Filed(st: Snd)
    requires st.unsent != [] && st.unsent[0].TcpLen() > 0
    ensures SendFirst(st).unacked != []
  {
    hide Joined, Insert;
    FileMembers(st.unacked, st.unsent[0]);
    assert st.unsent[0] in SendFirst(st).unacked;
  }

  /** Theorem: and such a segment is held back, however many are sent before it. */
  lemma {:induction false} NagleHolds(st: Snd, wnd: int, sends: nat)
    requires NoneEmpty(st.unsent) && st.unsent != [] && (st.unacked != [] || |st.unsent| > 1)
    requires Tail(st.unsent).Len() < st.mss && !st.nodelay && !st.infr && !st.memerr && !st.finQueued
    requires st.buf != 0 && st.qlen < TCP_SND_QUEUELEN
    ensures Output(st, wnd, sends).unsent != []
    decreases |st.unsent|
  {
    hide Joined, File;
    if Fits(st, wnd) && !Held(st) && sends > 0 {
      assert |st.unsent| > 1;
      Filed(st);
      assert Tail(SendFirst(st).unsent) == Tail(st.unsent);
      NagleHolds(SendFirst(st), wnd, sends - 1);
    }
  }

  /** Theorem: tcp_output reports a failure exactly when the network takes fewer segments than it would
      send. */
  lemma {:induction false} OutputFails(st: Snd, wnd: int, sends: nat)
    ensures Output(st, wnd, sends).memerr <==>
            Output(st, wnd, sends).unsent != Output(st, wnd, |st.unsent|).unsent
    decreases |st.unsent|
  {
    hide Joined, File, Fits, Held;
    if st.unsent != [] && Fits(st, wnd) && !Held(st) {
      if sends > 0 {
        OutputFails(SendFirst(st), wnd, sends - 1);
      } else {
        OutputLeaves(SendFirst(st), wnd, |st.unsent| - 1);
      }
    }
  }

  /** `now` is the last of `was` and the ends of the first `n` segments. */
  ghost predicate Latest(q: seq<Seg>, n: int, was: int, now: int) {
    && 0 <= n <= |q| && was <= now && (forall i :: 0 <= i < n ==> q[i].Next() <= now)
    && (now == was || exists i :: 0 <= i < n && q[i].Next() == now)
  }

  lemma {:induction false} LatestOn(q: seq<Seg>, n: int, was: int, now: int)
    requires q != [] && Latest(q[1..], n, Max(was, q[0].Next()), now)
    ensures Latest(q, n + 1, was, now)
  {
    hide Joined;
    var r := q[1..];
    assert forall i :: 0 < i < |q| ==> q[i] == r[i - 1];
    if now != Max(was, q[0].Next()) {
      var i :| 0 <= i < n && r[i].Next() == now;
      assert q[i + 1].Next() == now;
    }
  }

  lemma {:induction false} LatestNone(q: seq<Seg>, was: int)
    ensures Latest(q, 0, was, was)
  {
  }

  /** Theorem: snd_nxt is where it was or at the end of a segment that was sent, whichever is last. */
  lemma {:induction false} OutputCounts(st: Snd, wnd: int, sends: nat)
    ensures var st' := Output(st, wnd, sends); Latest(st.unsent, |st.unsent| - |st'.unsent|, st.nxt, st'.nxt)
    decreases |st.unsent|
  {
    hide Joined, SendFirst, Fits, Held, Latest;
    LatestNone(st.unsent, st.nxt);
    if st.unsent != [] && Fits(st, wnd) && !Held(st) && sends > 0 {
      FirstFrame(st);
      OutputCounts(SendFirst(st), wnd, sends - 1);
      var st' := Output(st, wnd, sends);
      LatestOn(st.unsent, |st.unsent| - 1 - |st'.unsent|, st.nxt, st'.nxt);
    }
  }

  lemma {:induction false} StepSent(c: Conn, e: Event)
    requires Legal(c, e) && Sent(c.st)
    ensures Sent(Step(c, e).st)
  {
    hide Joined, Bytes, Bufs, Pieces, Spare, Output, Insert, Before, DropAcked;
    match e
    case Outputs(wnd, sends) => OutputSent(c.st, wnd, sends);
    case Acked(ack) =>
      forall g | g in Ack(c.st, ack).unacked ensures g.Next() <= c.st.nxt { AckParts(c.st, ack, g); }
    case _ =>
  }

  // ---------------------------------------------------------------- the range of numbers in use

  ghost function Range(lo: int, hi: int): (r: set<int>)
    ensures forall p :: p in r <==> lo <= p < hi
    decreases hi - lo
  {
    if lo >= hi then {} else Range(lo, hi - 1) + {hi - 1}
  }

  lemma {:induction false} RangeSize(lo: int, hi: int)
    requires lo <= hi
    ensures |Range(lo, hi)| == hi - lo
    decreases hi - lo
  {
    if lo < hi { RangeSize(lo, hi - 1); }
  }

  /** The numbers that the segments of a list hold. */
  ghost function Numbers(q: seq<Seg>): set<int> {
    if q == [] then {} else Range(q[0].at, q[0].Next()) + Numbers(q[1..])
  }

  lemma {:induction false} NumbersSize(q: seq<Seg>)
    requires forall g :: g in q ==> g.bufs != []
    ensures |Numbers(q)| <= Bytes(q) + Bufs(q)
    decreases |q|
  {
    if q != [] {
      assert q[0] in q;
      RangeSize(q[0].at, q[0].Next());
      NumbersSize(q[1..]);
    }
  }

  lemma {:induction false} NumbersHas(q: seq<Seg>, g: Seg, p: int)
    requires g in q && g.at <= p < g.Next()
    ensures p in Numbers(q)
    decreases |q|
  {
    if g != q[0] { NumbersHas(q[1..], g, p); }
  }

  /** Theorem: the numbers not yet acknowledged span no more than the send buffer and the queue. */
  lemma {:induction false} Spans(st: Snd, s: seq<byte>)
    requires Inv(st, s)
    ensures Limit(st.open, s) - st.una <= TCP_SND_BUF + TCP_SND_QUEUELEN + 1
  {
    var lo, hi := st.una, Limit(st.open, s);
    var ns := Numbers(st.unsent) + Numbers(st.unacked);
    forall g | g in st.unsent || g in st.unacked ensures g.bufs != [] { assert g in Queued(st); }
    NumbersSize(st.unsent);
    NumbersSize(st.unacked);
    forall p | p in Range(lo, hi) ensures p in ns {
      assert Holds(Queued(st), p);
      var g :| g in Queued(st) && g.at <= p < g.Next();
      if g in st.unsent { NumbersHas(st.unsent, g, p); } else { NumbersHas(st.unacked, g, p); }
    }
    RangeSize(lo, hi);
    SubsetSize(Range(lo, hi), ns);
  }

  /** All numbers in use are so close to `una` that 32-bit comparisons tell their order. */
  ghost predicate Near(st: Snd) {
    && st.una <= st.nxt < st.una + 0x1000_0000
    && (forall g :: g in st.unsent || g in st.unacked ==>
         st.una - 0x1000_0000 < g.at && g.Next() < st.una + 0x1000_0000)
  }

  lemma {:induction false} NearIs(st: Snd, s: seq<byte>)
    requires Inv(st, s) && Live(st) && st.mss < 0x1_0000
    ensures Near(st)
  {
    Spans(st, s);
    forall g | g in st.unsent || g in st.unacked
      ensures st.una - 0x1000_0000 < g.at && g.Next() < st.una + 0x1000_0000
    {
      assert g in Queued(st);
    }
  }

  /** Theorem: in any run that keeps the lists sorted, every number in use stays close to the first
      one not acknowledged. */
  lemma {:induction false} RunNear(c: Conn, es: seq<Event>)
    requires Inv(c.st, c.s) && Runs(c, es) && RunsApt(c, es) && RunsOrdered(c, es) && Sorted(c.st.unsent, c.st.unacked)
    requires Live(c.st) && Sent(c.st) && c.st.mss < 0x1_0000
    ensures Live(Run(c, es).st) && Sent(Run(c, es).st) && Near(Run(c, es).st)
    decreases |es|
  {
    if es == [] {
      NearIs(c.st, c.s);
    } else {
      StepKeeps(c, es[0]);
      StepSorted(c, es[0]);
      StepLive(c, es[0]);
      StepSent(c, es[0]);
      StepMss(c, es[0]);
      RunNear(Step(c, es[0]), es[1..]);
    }
  }

  lemma {:induction false} StepMss(c: Conn, e: Event)
    requires Inv(c.st, c.s) && Legal(c, e)
    ensures Step(c, e).st.mss == c.st.mss
  {
    if e.Outputs? {
      AllWithin(c.st, c.s);
      OutputMoves(c.st, e.wnd, e.sends);
    }
  }
}

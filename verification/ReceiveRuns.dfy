/** Whole runs of the receiving side. */
module ReceiveRuns {
  import opened SeqNum
  import opened Common
  import opened Reassembly

  // Segments in any order, window credits, acknowledgements sent, the FIN reported, and the
  // out-of-sequence queue dropped on a timeout.

  datatype Event =
    | Segment(c: Chunk, room: bool)
    | Recved(len: u16, passive: bool)
    | SendAck
    | FinSeen
    | DropQueue

  /** A connection with its history: the bytes passed up, how many of them the application has
      credited back, and whether a FIN was received but not yet reported. */
  datatype Conn = Conn(rcv: Rcv, delivered: seq<byte>, credited: nat, finPending: bool)

  /** The window update of tcp_recved; `passive` is CLOSE_WAIT or LAST_ACK. */
  function Credit(st: Rcv, len: u16, passive: bool): Rcv {
    var w := (st.wnd + len) % 0x1_0000;
    Announce(st.(wnd := if w > TCP_WND || (w == 0 && passive) then TCP_WND else w))
  }

  /** The window correction tcp_input makes for the sequence number of the FIN. */
  function CreditFin(st: Rcv): Rcv {
    if st.wnd == TCP_WND then st else st.(wnd := (st.wnd + 1) % 0x1_0000)
  }

  function Step(k: Conn, e: Event): (k': Conn)
    requires QueueInv(k.rcv)
    ensures QueueInv(k'.rcv) && k'.rcv.nxt >= k.rcv.nxt && k.delivered <= k'.delivered
  {
    match e
    case Segment(c, room) =>
      ArriveQueue(k.rcv, c, room);
      var o := Arrive(k.rcv, c, room);
      k.(rcv := o.st, delivered := k.delivered + o.out, finPending := k.finPending || o.fin)
    case Recved(len, passive) =>
      k.(rcv := Credit(k.rcv, len, passive), credited := k.credited + len)
    case SendAck => k.(rcv := k.rcv.(annEdge := k.rcv.nxt + k.rcv.annWnd))
    case FinSeen => if k.finPending then k.(rcv := CreditFin(k.rcv), finPending := false) else k
    case DropQueue => k.(rcv := k.rcv.(q := []))
  }

  function Run(k: Conn, es: seq<Event>): (k': Conn)
    requires QueueInv(k.rcv)
    ensures QueueInv(k'.rcv) && k'.rcv.nxt >= k.rcv.nxt && k.delivered <= k'.delivered
    decreases |es|
  {
    if es == [] then k else Run(Step(k, es[0]), es[1..])
  }

  // ---------------------------------------------------------------- delivery

  ghost predicate Delivering(k: Conn, s: seq<byte>) {
    StreamInv(k.rcv, s) && k.delivered == s[..Min(k.rcv.nxt, |s|)]
  }

  /** Every segment of the run carries bytes of `s`; nothing is said of order, loss,
      duplication, overlap, window or memory. */
  ghost predicate FromStream(es: seq<Event>, s: seq<byte>) {
    forall i :: 0 <= i < |es| && es[i].Segment? ==> Agrees(es[i].c, s)
  }

  lemma {:induction false} StepDelivers(k: Conn, e: Event, s: seq<byte>)
    requires Delivering(k, s) && (e.Segment? ==> Agrees(e.c, s))
    ensures Delivering(Step(k, e), s)
  {
    hide Arrive, Ordered, Above, AnnWindow;
    if e.Segment? {
      ArriveDelivers(k.rcv, e.c, e.room, s);
      PrefixOn(s, Min(k.rcv.nxt, |s|), Min(Arrive(k.rcv, e.c, e.room).st.nxt, |s|));
    } else {
      OtherDelivers(k, e, s);
    }
  }

  lemma {:induction false} PrefixOn(s: seq<byte>, a: int, b: int)
    requires 0 <= a <= b <= |s|
    ensures s[..a] + s[a..b] == s[..b]
  {
  }

  lemma {:induction false} OtherDelivers(k: Conn, e: Event, s: seq<byte>)
    requires Delivering(k, s) && !e.Segment?
    ensures Delivering(Step(k, e), s)
  {
    hide Arrive, Ordered, Above, AnnWindow, Agrees;
  }

  /** Theorem: over any run, what was passed up is the stream up to rcv_nxt, each byte once. */
  lemma {:induction false} RunDelivers(k: Conn, es: seq<Event>, s: seq<byte>)
    requires Delivering(k, s) && FromStream(es, s)
    ensures Delivering(Run(k, es), s)
    decreases |es|
  {
    if es != [] {
      StepDelivers(k, es[0], s);
      assert FromStream(es[1..], s);
      RunDelivers(Step(k, es[0]), es[1..], s);
    }
  }

  // ---------------------------------------------------------------- the announced window

  function Outstanding(k: Conn): int {
    |k.delivered| - k.credited + if k.finPending then 1 else 0
  }

  /** Window plus what the application still holds is TCP_WND; the queue is inside the window;
      announcing now moves the announced edge right, and not past rcv_nxt + rcv_wnd. */
  ghost predicate WindowInv(k: Conn) {
    && k.credited <= |k.delivered| && k.rcv.wnd + Outstanding(k) == TCP_WND
    && (k.finPending ==> k.rcv.closed) && Within(k.rcv.q, k.rcv.Edge())
    && k.rcv.annEdge <= k.rcv.nxt + k.rcv.annWnd <= k.rcv.Edge()
  }

  /** tcp_recved takes a zero window for an overflowed one: crediting nothing opens it fully. */
  predicate CreditJumps(st: Rcv, len: u16, passive: bool) {
    passive && st.wnd == 0 && len == 0
  }

  /** The peer does not overrun the window and the application credits only what it got. */
  ghost predicate InWindow(k: Conn, e: Event) {
    match e
    case Segment(c, room) => !Overruns(k.rcv, c, room)
    case Recved(len, passive) =>
      len <= |k.delivered| - k.credited && !CreditJumps(k.rcv, len, passive)
    case _ => true
  }

  ghost predicate RunInWindow(k: Conn, es: seq<Event>)
    requires QueueInv(k.rcv)
    decreases |es|
  {
    es != [] ==> InWindow(k, es[0]) && RunInWindow(Step(k, es[0]), es[1..])
  }

  lemma {:induction false} AnnounceEdge(st: Rcv)
    requires st.annEdge <= st.Edge()
    ensures st.annEdge <= st.nxt + Announce(st).annWnd <= st.Edge()
  {
  }

  lemma {:induction false} SegmentWindow(k: Conn, c: Chunk, room: bool, s: seq<byte>)
    requires Delivering(k, s) && Agrees(c, s) && WindowInv(k) && !Overruns(k.rcv, c, room)
    ensures var k' := Step(k, Segment(c, room));
            WindowInv(k') && k'.rcv.annEdge == k.rcv.annEdge && k'.rcv.Edge() == k.rcv.Edge()
  {
    ArriveDelivers(k.rcv, c, room, s);
    ArriveWindow(k.rcv, c, room, s);
    ArriveAnnounces(k.rcv, c, room);
    var o := Arrive(k.rcv, c, room);
    assert o.st.nxt - k.rcv.nxt == |o.out| + if o.fin then 1 else 0;
    AnnounceEdge(o.st);
  }

  lemma {:induction false} RecvedWindow(k: Conn, len: u16, passive: bool)
    requires QueueInv(k.rcv) && WindowInv(k) && InWindow(k, Recved(len, passive))
    ensures var k' := Step(k, Recved(len, passive));
            WindowInv(k') && k'.rcv.annEdge == k.rcv.annEdge && k.rcv.Edge() <= k'.rcv.Edge()
  {
    CreditExact(k.rcv, len, passive);
    var st := k.rcv.(wnd := k.rcv.wnd + len);
    assert Credit(k.rcv, len, passive) == Announce(st);
    AnnounceEdge(st);
  }

  lemma {:induction false} StepWindow(k: Conn, e: Event, s: seq<byte>)
    requires Delivering(k, s) && (e.Segment? ==> Agrees(e.c, s))
    requires WindowInv(k) && InWindow(k, e)
    ensures WindowInv(Step(k, e)) && k.rcv.annEdge <= Step(k, e).rcv.annEdge
    ensures k.rcv.Edge() <= Step(k, e).rcv.Edge()
  {
    match e
    case Segment(c, room) => SegmentWindow(k, c, room, s);
    case Recved(len, passive) => RecvedWindow(k, len, passive);
    case SendAck =>
    case FinSeen =>
    case DropQueue =>
  }

  /** After a segment the window to announce is up to date, or nothing it depends on changed. */
  lemma {:induction false} ArriveAnnounces(st: Rcv, c: Chunk, room: bool)
    requires QueueInv(st)
    ensures var st' := Arrive(st, c, room).st;
            && st'.annEdge == st.annEdge && st'.mss == st.mss
            && (st'.annWnd == Announce(st').annWnd
                || (st'.annWnd == st.annWnd && st'.nxt == st.nxt && st'.wnd == st.wnd))
  {
  }

  /** Theorem: over any run in the window, the right edge of the announced window never moves
      left and never passes rcv_nxt + rcv_wnd, and no window space is lost or invented. */
  lemma {:induction false} RunWindow(k: Conn, es: seq<Event>, s: seq<byte>)
    requires Delivering(k, s) && FromStream(es, s) && WindowInv(k) && RunInWindow(k, es)
    ensures WindowInv(Run(k, es)) && k.rcv.annEdge <= Run(k, es).rcv.annEdge
    decreases |es|
  {
    if es != [] {
      StepDelivers(k, es[0], s);
      StepWindow(k, es[0], s);
      assert FromStream(es[1..], s);
      RunWindow(Step(k, es[0]), es[1..], s);
    }
  }

  /** The least step by which the announced edge moves: a segment, or half the window. */
  function LeastStep(st: Rcv): int {
    Max(1, Min(TCP_WND / 2, st.mss))
  }

  /** Less than the least step of the window is withheld from the peer, but for the number of a FIN
      that was reported. */
  ghost predicate Opened(k: Conn) {
    k.rcv.Edge() - (k.rcv.nxt + k.rcv.annWnd) < LeastStep(k.rcv) + if k.rcv.closed && !k.finPending then 1 else 0
  }

  /** Theorem: the announced edge stays, or moves by a segment or half the window at least; only when
      rcv_nxt has passed it does it move by less, to a window of 0. */
  lemma {:induction false} AnnounceSteps(st: Rcv)
    requires st.annEdge <= st.Edge()
    ensures var e := st.nxt + Announce(st).annWnd;
            e == Max(st.nxt, st.annEdge) || (e == st.Edge() && e - st.annEdge >= Min(TCP_WND / 2, st.mss))
  {
  }

  lemma {:induction false} AnnounceOpens(st: Rcv)
    requires st.annEdge <= st.Edge()
    ensures st.Edge() - (st.nxt + Announce(st).annWnd) < LeastStep(st)
  {
  }

  lemma {:induction false} StepOpened(k: Conn, e: Event, s: seq<byte>)
    requires Delivering(k, s) && (e.Segment? ==> Agrees(e.c, s)) && WindowInv(k) && InWindow(k, e) && Opened(k)
    ensures Opened(Step(k, e)) && Step(k, e).rcv.mss == k.rcv.mss
  {
    hide Arrive, AnnWindow;
    match e
    case Segment(c, room) =>
      ArriveDelivers(k.rcv, c, room, s);
      ArriveWindow(k.rcv, c, room, s);
      ArriveAnnounces(k.rcv, c, room);
      AnnounceOpens(Arrive(k.rcv, c, room).st);
    case Recved(len, passive) =>
      CreditExact(k.rcv, len, passive);
      AnnounceOpens(k.rcv.(wnd := k.rcv.wnd + len));
    case SendAck =>
    case FinSeen =>
    case DropQueue =>
  }

  /** Theorem: over any run in the window, less than a segment of the window, or than half of it, is
      withheld from the peer. */
  lemma {:induction false} RunOpened(k: Conn, es: seq<Event>, s: seq<byte>)
    requires Delivering(k, s) && FromStream(es, s) && WindowInv(k) && RunInWindow(k, es) && Opened(k)
    ensures Opened(Run(k, es)) && Run(k, es).rcv.mss == k.rcv.mss
    decreases |es|
  {
    hide Step, Opened;
    if es != [] {
      StepDelivers(k, es[0], s);
      StepWindow(k, es[0], s);
      StepOpened(k, es[0], s);
      assert FromStream(es[1..], s);
      RunOpened(Step(k, es[0]), es[1..], s);
    }
  }

  /** Theorem: when the application has credited all that it got, the next acknowledgement opens at
      least half the window, and all of it but less than a segment. */
  lemma {:induction false} RunReopens(k: Conn, es: seq<Event>, s: seq<byte>)
    requires Delivering(k, s) && FromStream(es, s) && WindowInv(k) && RunInWindow(k, es) && Opened(k)
    requires var k' := Run(k, es); k'.credited == |k'.delivered| && !k'.rcv.closed
    ensures var st := Step(Run(k, es), SendAck).rcv;
            TCP_WND / 2 <= st.annEdge - st.nxt <= TCP_WND && st.annEdge - st.nxt > TCP_WND - LeastStep(st)
  {
    RunWindow(k, es, s);
    RunOpened(k, es, s);
  }

  /** The peer sends nothing past the edge last announced to it. */
  ghost predicate RunAnnounced(k: Conn, es: seq<Event>)
    requires QueueInv(k.rcv)
    decreases |es|
  {
    es != [] ==> (es[0].Segment? ==> es[0].c.Next() <= k.rcv.annEdge) && RunAnnounced(Step(k, es[0]), es[1..])
  }

  /** rcv_nxt and the queue are below the announced edge. */
  ghost predicate Below(k: Conn) {
    k.rcv.nxt <= k.rcv.annEdge && Within(k.rcv.q, k.rcv.annEdge)
  }

  lemma {:induction false} WithinMore(q: seq<Chunk>, e: int, e': int)
    requires Within(q, e) && e <= e'
    ensures Within(q, e')
  {
  }

  lemma {:induction false} StepBelow(k: Conn, e: Event, s: seq<byte>)
    requires Delivering(k, s) && (e.Segment? ==> Agrees(e.c, s) && e.c.Next() <= k.rcv.annEdge)
    requires WindowInv(k) && Below(k)
    ensures Below(Step(k, e))
  {
    hide Arrive;
    match e
    case Segment(c, room) =>
      ArriveEnds(k.rcv, c, room, s, k.rcv.annEdge);
      ArriveAnnounces(k.rcv, c, room);
    case Recved(len, passive) =>
    case SendAck => WithinMore(k.rcv.q, k.rcv.annEdge, k.rcv.nxt + k.rcv.annWnd);
    case FinSeen =>
    case DropQueue =>
  }

  /** Theorem: as long as the peer sends nothing past the edge announced to it, rcv_nxt stays below
      that edge, by no more than the window: so 32-bit comparisons of the two are exact. */
  lemma {:induction false} RunRecent(k: Conn, es: seq<Event>, s: seq<byte>)
    requires Delivering(k, s) && FromStream(es, s) && WindowInv(k) && RunInWindow(k, es)
    requires RunAnnounced(k, es) && Below(k)
    ensures 0 <= Run(k, es).rcv.annEdge - Run(k, es).rcv.nxt <= TCP_WND
    decreases |es|
  {
    hide Step;
    if es != [] {
      StepDelivers(k, es[0], s);
      StepWindow(k, es[0], s);
      StepBelow(k, es[0], s);
      assert FromStream(es[1..], s);
      RunRecent(Step(k, es[0]), es[1..], s);
    }
  }

  /** tcp_recved adds in 16 bits: the right edge stays or moves right exactly when the sum does
      not wrap, or wraps to zero in a passive close. */
  lemma {:induction false} CreditEdge(st: Rcv, len: u16, passive: bool)
    requires st.wnd <= TCP_WND
    ensures Credit(st, len, passive).Edge() >= st.Edge() <==>
            st.wnd + len < 0x1_0000 || (passive && st.wnd + len == 0x1_0000)
  {
  }

  /** A credit within the space taken is added exactly, except for the jump. */
  lemma {:induction false} CreditExact(st: Rcv, len: u16, passive: bool)
    requires st.wnd + len <= TCP_WND
    ensures Credit(st, len, passive).wnd == st.wnd + len <==> !CreditJumps(st, len, passive)
  {
  }

  /** Crediting nothing to a zero window in a passive close opens it fully. */
  lemma {:induction false} CreditOpens(st: Rcv)
    requires st.wnd == 0
    ensures CreditJumps(st, 0, true) && Credit(st, 0, true).wnd == TCP_WND
  {
  }

  /** Four bytes queued past a two-byte window, then the gap closes. */
  lemma {:induction false} OverrunAt(st: Rcv, p: int, far: Chunk, near: Chunk)
    requires st.nxt == p && st.wnd == 2 && st.q == [] && !st.closed
    requires far == Chunk(p + 1, [1, 2, 3, 4], false) && near == Chunk(p, [9], false)
    ensures Overruns(st, far, true) && Arrive(st, far, true).st == st.(q := [far])
    ensures Arrive(st.(q := [far]), near, true).st.wnd == 65533
  {
    assert Merge(far, []) == (far, []);
    assert Merge(near, [far]) == (near, [far]);
    assert [far][1..] == [];
    assert Drain(Flow(near.data, p + 1, [far], false)).nxt == p + 5;
    assert Advance(near, [far]).nxt == p + 5;
  }

  /** A connection on which nothing was received yet. */
  function Fresh(): Conn {
    Conn(Rcv(0, TCP_WND, [], false, TCP_WND, TCP_WND, 536), [], 0, false)
  }

  lemma {:induction false} FillWindow(k: Conn, c: Chunk)
    requires k == Fresh() && c.at == 0 && |c.data| == TCP_WND - 2 && !c.fin
    ensures var st := Step(k, Segment(c, true)).rcv;
            st.nxt == TCP_WND - 2 && st.wnd == 2 && st.q == [] && !st.closed
    ensures WindowInv(k) && WindowInv(Step(k, Segment(c, true)))
  {
    assert Merge(c, []) == (c, []);
    assert Advance(c, []) == Flow(c.data, TCP_WND - 2, [], false);
  }

  /** An overrun breaks the window: all but two bytes of it are taken, four bytes are queued past
      those, then the gap closes, and rcv_wnd wraps to 65533. */
  lemma {:induction false} OverrunWraps(k: Conn, c: Chunk, far: Chunk, near: Chunk)
    requires k == Fresh() && c.at == 0 && |c.data| == TCP_WND - 2 && !c.fin
    requires far == Chunk(TCP_WND - 1, [1, 2, 3, 4], false) && near == Chunk(TCP_WND - 2, [9], false)
    ensures var k' := Step(k, Segment(c, true));
            && WindowInv(k) && WindowInv(k') && Overruns(k'.rcv, far, true)
            && Step(Step(k', Segment(far, true)), Segment(near, true)).rcv.wnd == 65533
  {
    hide Arrive, WindowInv, Overruns;
    FillWindow(k, c);
    OverrunAt(Step(k, Segment(c, true)).rcv, TCP_WND - 2, far, near);
  }
}

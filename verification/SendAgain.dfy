/** What is sent again. */
module SendAgain {
  import opened SeqNum
  import opened Common
  import opened SendSpec
  import opened SendRuns
  import opened SendSorted
  import opened SendEvents
  import opened SendWindow
  import EndToEnd

  /** The segment holds the first number not acknowledged. */
  predicate HoldsUna(st: Snd, g: Seg) {
    g.at <= st.una < g.Next()
  }

  /** The first number not acknowledged is in the first segment of one of the lists. */
  lemma {:induction false} UnaFirst(st: Snd, s: seq<byte>)
    requires Inv(st, s) && Sorted(st.unsent, st.unacked) && Live(st) && st.una < Limit(st.open, s)
    ensures (st.unsent != [] && HoldsUna(st, st.unsent[0])) || (st.unacked != [] && HoldsUna(st, st.unacked[0]))
  {
    hide Joined, Bytes, Bufs;
    assert Holds(Queued(st), st.una);
    var g :| g in Queued(st) && g.at <= st.una < g.Next();
    if g in st.unsent {
      FirstOf(st.unsent, g);
      assert st.unsent[0] in Queued(st);
    } else {
      FirstOf(st.unacked, g);
      assert st.unacked[0] in Queued(st);
    }
  }

  lemma {:induction false} FirstOf(q: seq<Seg>, g: Seg)
    requires Rising(q) && g in q
    ensures q != [] && (g == q[0] || q[0].Next() <= g.at)
  {
    var i :| 0 <= i < |q| && q[i] == g;
  }

  /** Of the first segments of the two lists, the one with the lower number holds it. */
  lemma {:induction false} UnaLower(st: Snd, s: seq<byte>)
    requires Inv(st, s) && Sorted(st.unsent, st.unacked) && Live(st) && st.una < Limit(st.open, s)
    ensures st.unacked != [] ==>
              (HoldsUna(st, st.unacked[0]) <==> st.unsent == [] || st.unacked[0].at < st.unsent[0].at)
    ensures st.unsent != [] ==>
              (HoldsUna(st, st.unsent[0]) <==> st.unacked == [] || st.unsent[0].at < st.unacked[0].at)
  {
    hide Joined, Bytes, Bufs, Inv;
    UnaFirst(st, s);
    if st.unacked != [] { assert st.unacked[0] in st.unacked && st.unacked[0] in Queued(st); }
    if st.unsent != [] { assert st.unsent[0] in st.unsent && st.unsent[0] in Queued(st); }
    assert st.unacked != [] && st.unsent != [] ==> Clear(st.unsent[0], st.unacked[0]);
  }

  /** A first unsent segment that holds it is sent, if the window takes a full segment and Nagle does
      not hold it back. */
  lemma {:induction false} FirstGoes(st: Snd, wnd: int, mss: int)
    requires st.unsent != [] && HoldsUna(st, st.unsent[0]) && st.unsent[0].Len() <= mss <= wnd
    requires st.unacked == [] || st.infr
    ensures var e := EndToEnd.Emits(st, wnd, 1); |e| == 1 && e[0] == st.unsent[0]
  {
    hide Joined, File;
    assert EndToEnd.Emits(SendFirst(st), wnd, 0) == [];
  }

  /** The first of the segments sent is one that holds it. */
  predicate Resends(st: Snd, e: seq<Seg>) {
    e != [] && HoldsUna(st, e[0])
  }

  lemma {:induction false} QueuedLen(st: Snd, s: seq<byte>, g: Seg)
    requires Inv(st, s) && (g in st.unsent || g in st.unacked)
    ensures g.Len() <= st.mss
  {
    assert g in Queued(st);
  }

  lemma {:induction false} FirstEmitted(st: Snd, wnd: int)
    ensures var e := EndToEnd.Emits(st, wnd, 1); e != [] ==> st.unsent != [] && e[0] == st.unsent[0]
  {
    hide Joined, SendFirst, Fits, Held;
  }

  /** Theorem: the retransmission timer puts every segment that was sent on the unsent list again; and
      the next output begins with the first number not acknowledged, as long as the window takes a
      full segment, exactly when a segment that was sent holds that number, or none was sent. */
  lemma {:induction false} TimerResends(st: Snd, s: seq<byte>, wnd: int)
    requires Inv(st, s) && Sorted(st.unsent, st.unacked) && Live(st) && st.una < Limit(st.open, s) && wnd >= st.mss
    ensures RexmitRto(st).unacked == [] && forall g :: g in st.unacked ==> g in RexmitRto(st).unsent
    ensures Resends(st, EndToEnd.Emits(RexmitRto(st), wnd, 1)) <==>
            st.unacked == [] || st.unsent == [] || st.unacked[0].at < st.unsent[0].at
  {
    hide Joined, Bytes, Bufs, Inv, Sorted, Live, EndToEnd.Emits;
    var st' := RexmitRto(st);
    UnaLower(st, s);
    UnaFirst(st, s);
    FirstEmitted(st', wnd);
    assert st'.unsent[0] == if st.unacked != [] then st.unacked[0] else st.unsent[0];
    QueuedLen(st, s, st'.unsent[0]);
    if HoldsUna(st', st'.unsent[0]) { FirstGoes(st', wnd, st.mss); }
  }

  lemma {:induction false} InsertFirst(q: seq<Seg>, g: Seg)
    ensures Insert(q, g) != [] && Insert(q, g)[0] == if q != [] && q[0].at < g.at then q[0] else g
  {
    hide Joined;
  }

  /** Theorem: a fast retransmission takes the first segment that was sent; and the next output begins
      with the first number not acknowledged, whatever the order of the lists, as long as the window
      takes a full segment. */
  lemma {:induction false} RexmitResends(st: Snd, s: seq<byte>, wnd: int)
    requires Inv(st, s) && Sorted(st.unsent, st.unacked) && Live(st) && st.una < Limit(st.open, s) && wnd >= st.mss
    requires st.unacked != []
    ensures Rexmit(st).unacked == st.unacked[1..] && st.unacked[0] in Rexmit(st).unsent
    ensures st.unsent != [] && Tail(Rexmit(st).unsent) == Tail(st.unsent) ==> Rexmit(st).oversize == st.oversize
    ensures Resends(st, EndToEnd.Emits(Rexmit(st).(infr := true), wnd, 1))
  {
    hide Joined, Bytes, Bufs, Inv, Sorted, Live, EndToEnd.Emits, Insert;
    var st' := Rexmit(st).(infr := true);
    UnaLower(st, s);
    UnaFirst(st, s);
    InsertFirst(st.unsent, st.unacked[0]);
    FileMembers(st.unsent, st.unacked[0]);
    QueuedLen(st, s, st'.unsent[0]);
    if st.unsent != [] { RexmitRoom(st); }
    FirstGoes(st', wnd, st.mss);
  }

  /** The spare room stays with the last unsent segment. */
  lemma {:induction false} RexmitRoom(st: Snd)
    requires Sorted(st.unsent, st.unacked) && st.unacked != [] && st.unsent != []
    ensures Tail(Rexmit(st).unsent) == Tail(st.unsent) ==> Rexmit(st).oversize == st.oversize
  {
    hide Joined;
    var g := st.unacked[0];
    assert g in st.unacked && Tail(st.unsent) in st.unsent;
    assert Clear(Tail(st.unsent), g);
    assert Before(st.unsent, g.at) == |st.unsent| ==> Tail(Rexmit(st).unsent) == g;
  }

  /** Theorem: after any run that keeps the lists sorted, as long as something is not acknowledged, the
      timer and then output, with a window for a full segment, send the first such number again,
      unless a fast retransmission of it still waits to be sent. */
  lemma {:induction false} RunResends(c: Conn, es: seq<Event>, wnd: int)
    requires Inv(c.st, c.s) && Runs(c, es) && RunsApt(c, es) && RunsOrdered(c, es) && Sorted(c.st.unsent, c.st.unacked)
    requires Live(c.st) && Sent(c.st) && c.st.mss < 0x1_0000
    requires var c' := Run(c, es); c'.st.una < Limit(c'.st.open, c'.s) && wnd >= c'.st.mss
    ensures var st := Run(c, es).st;
            Resends(st, EndToEnd.Emits(RexmitRto(st), wnd, 1)) <==>
            st.unacked == [] || st.unsent == [] || st.unacked[0].at < st.unsent[0].at
  {
    hide Inv, Sorted, Live, Sent, Resends, EndToEnd.Emits, RexmitRto;
    RunKeeps(c, es);
    RunSorted(c, es);
    RunNear(c, es);
    TimerResends(Run(c, es).st, Run(c, es).s, wnd);
  }

  /** Two segments were sent, the fast retransmission of the first waits, and the timer fires: output
      begins with the second. */
  lemma {:induction false} TimerSkips(c: Conn, wnd: int)
    requires c == TwoSent() && wnd >= 4
    ensures var st := Step(c, Rexmits(true)).st;
            st.una == 0 && !Resends(st, EndToEnd.Emits(RexmitRto(st), wnd, 1))
  {
    hide Joined, EndToEnd.Emits, TwoSent, Insert, Rexmit;
    FastRexmit(c);
    FirstEmitted(RexmitRto(Step(c, Rexmits(true)).st), wnd);
  }
}

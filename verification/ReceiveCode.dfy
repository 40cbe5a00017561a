/** The receiving code over whole runs. */
module ReceiveCode {
  import opened SeqNum
  import opened Common
  import opened Reassembly
  import opened ReceiveRuns
  import opened TcpReceive

  /** What happens to a control block; `acked` says that the segment acknowledges our FIN. */
  datatype Input =
    | Arrives(segment: TcpReceive.Segment, room: bool, acked: bool)
    | Credits(len: u16)
    | Announces
    | Reports
    | Forgets
    | Shuts

  /** A connection of the model, and the state of the protocol. */
  datatype Model = Model(k: Conn, state: TcpState)

  /** The event of the model, for a segment that is the chunk `c`. */
  ghost function EventOf(i: Input, c: Chunk, state: TcpState): ReceiveRuns.Event
    requires !i.Shuts?
  {
    match i
    case Arrives(_, room, _) => ReceiveRuns.Segment(c, room)
    case Credits(len) => ReceiveRuns.Recved(len, state.Passive())
    case Announces => ReceiveRuns.SendAck
    case Reports => ReceiveRuns.FinSeen
    case Forgets => ReceiveRuns.DropQueue
  }

  ghost function Next(m: Model, i: Input, c: Chunk): (m': Model)
    requires QueueInv(m.k.rcv)
    ensures QueueInv(m'.k.rcv)
  {
    match i
    case Shuts => m.(state := m.state.Shut())
    case Arrives(_, room, acked) =>
      Model(Step(m.k, EventOf(i, c, m.state)), m.state.After(Arrive(m.k.rcv, c, room).fin, acked))
    case _ => m.(k := Step(m.k, EventOf(i, c, m.state)))
  }

  /** The run of the model, for segments that are the chunks `cs`. */
  ghost function After(m: Model, ins: seq<Input>, cs: seq<Chunk>): (m': Model)
    requires QueueInv(m.k.rcv) && |cs| == |ins|
    ensures QueueInv(m'.k.rcv)
    decreases |ins|
  {
    if ins == [] then m else After(Next(m, ins[0], cs[0]), ins[1..], cs[1..])
  }

  /** Positions so close that 32-bit comparisons are exact: the edge announced, and the start of a
      segment, which is that of a TCP payload in an IPv4 packet and carries the chunk `c`. */
  ghost predicate Close(isn: u32, st: Rcv, i: Input, c: Chunk) {
    && (i.Arrives? || i.Credits? ==> -0x7E00_0000 < st.nxt - st.annEdge < 0x7E00_0000)
    && (i.Arrives? ==>
         && Carries(isn, i.segment, c) && i.segment.len <= 65495
         && -0x7F00_0000 < c.at - st.nxt < 0x7F00_0000)
  }

  ghost predicate RunClose(isn: u32, m: Model, ins: seq<Input>, cs: seq<Chunk>)
    requires QueueInv(m.k.rcv) && |cs| == |ins|
    decreases |ins|
  {
    ins != [] ==> Close(isn, m.k.rcv, ins[0], cs[0]) && RunClose(isn, Next(m, ins[0], cs[0]), ins[1..], cs[1..])
  }

  /** Every segment carries bytes of the stream `s`. */
  ghost predicate OfStream(ins: seq<Input>, cs: seq<Chunk>, s: seq<byte>) {
    |cs| == |ins| && forall i :: 0 <= i < |ins| && ins[i].Arrives? ==> Agrees(cs[i], s)
  }

  lemma {:induction false} NextDelivers(m: Model, i: Input, c: Chunk, s: seq<byte>)
    requires Delivering(m.k, s) && (i.Arrives? ==> Agrees(c, s))
    ensures Delivering(Next(m, i, c).k, s)
  {
    hide Delivering, Step, Agrees, Arrive;
    if !i.Shuts? {
      DeliveringQueue(m.k, s);
      StepDelivers(m.k, EventOf(i, c, m.state), s);
    }
  }

  lemma {:induction false} DeliveringQueue(k: Conn, s: seq<byte>)
    requires Delivering(k, s)
    ensures QueueInv(k.rcv) && k.rcv.nxt >= 0 && k.delivered == s[..Min(k.rcv.nxt, |s|)]
  {
  }

  // ---------------------------------------------------------------- the code

  /** One event; `pending` says that a FIN was received and not reported yet. */
  method Perform(p: Pcb, i: Input, pending: bool, ghost c: Chunk, ghost m: Model)
    returns (data: seq<byte>, pending': bool)
    requires p.Valid() && p.st == m.k.rcv && p.state == m.state && pending == m.k.finPending && QueueInv(m.k.rcv)
    requires Close(p.isn, m.k.rcv, i, c)
    modifies p
    ensures p.Valid() && p.isn == old(p.isn)
    ensures var m' := Next(m, i, c);
            && p.st == m'.k.rcv && p.state == m'.state && pending' == m'.k.finPending
            && m'.k.delivered == m.k.delivered + data
  {
    hide Arrive, Credit, CreditFin, Wire, CarryAll, TcpReceive.Near;
    data, pending' := [], pending;
    match i {
      case Arrives(segment, room, acked) =>
        var fin;
        data, fin := p.Process(segment, room, acked, c);
        pending' := pending || fin;
      case Credits(len) =>
        var _ := p.Recved(len);
      case Announces => p.SendAck();
      case Reports =>
        if pending {
          p.ReportFin();
          pending' := false;
        }
      case Forgets => p.DropOoseq();
      case Shuts => p.Shut();
    }
  }

  /** Theorem: over any run of segments lost, repeated, reordered, overlapping, or outside the window,
      of credits, acknowledgements, timeouts and closes, as long as the numbers that the code compares
      are close to each other, the bytes that it passes up are the peer's stream up to rcv_nxt, each
      once. */
  method PerformAll(p: Pcb, ins: seq<Input>, ghost cs: seq<Chunk>, ghost m: Model, ghost s: seq<byte>)
    returns (data: seq<byte>)
    requires p.Valid() && p.st == m.k.rcv && p.state == m.state && !m.k.finPending
    requires QueueInv(m.k.rcv) && Delivering(m.k, s) && OfStream(ins, cs, s) && RunClose(p.isn, m, ins, cs)
    modifies p
    ensures p.Valid() && p.isn == old(p.isn)
    ensures p.st == After(m, ins, cs).k.rcv && p.state == After(m, ins, cs).state
    ensures 0 <= p.st.nxt && m.k.delivered + data == s[..Min(p.st.nxt, |s|)] && p.rcv_nxt == Wire(p.isn, p.st.nxt)
  {
    hide Close, Agrees, TcpReceive.Near, Wire, CarryAll, QueueInv, Next, After, RunClose, Delivering;
    data := [];
    var pending := false;
    ghost var m' := m;
    assert ins[0..] == ins && cs[0..] == cs && m.k.delivered + [] == m.k.delivered;
    for i := 0 to |ins|
      invariant p.Valid() && p.isn == old(p.isn) && p.st == m'.k.rcv && p.state == m'.state
      invariant pending == m'.k.finPending && QueueInv(m'.k.rcv) && Delivering(m'.k, s)
      invariant RunClose(p.isn, m', ins[i..], cs[i..]) && After(m', ins[i..], cs[i..]) == After(m, ins, cs)
      invariant m'.k.delivered == m.k.delivered + data
    {
      RunNext(p.isn, m', ins, cs, i);
      NextDelivers(m', ins[i], cs[i], s);
      DeliveringQueue(Next(m', ins[i], cs[i]).k, s);
      var more;
      more, pending := Perform(p, ins[i], pending, cs[i], m');
      m' := Next(m', ins[i], cs[i]);
      assert m.k.delivered + data + more == m.k.delivered + (data + more);
      data := data + more;
    }
    assert ins[|ins|..] == [] && cs[|ins|..] == [];
    AfterNone(m');
    DeliveringQueue(m'.k, s);
  }

  lemma {:induction false} RunNext(isn: u32, m: Model, ins: seq<Input>, cs: seq<Chunk>, i: nat)
    requires QueueInv(m.k.rcv) && i < |ins| == |cs| && RunClose(isn, m, ins[i..], cs[i..])
    ensures Close(isn, m.k.rcv, ins[i], cs[i]) && RunClose(isn, Next(m, ins[i], cs[i]), ins[i + 1..], cs[i + 1..])
    ensures After(m, ins[i..], cs[i..]) == After(Next(m, ins[i], cs[i]), ins[i + 1..], cs[i + 1..])
  {
    hide Next, Close;
    assert ins[i..][1..] == ins[i + 1..] && cs[i..][1..] == cs[i + 1..];
  }

  lemma {:induction false} AfterNone(m: Model)
    requires QueueInv(m.k.rcv)
    ensures After(m, [], []) == m
  {
  }

  // ---------------------------------------------------------------- the state of the protocol

  /** The application closes in a run. */
  predicate Closes(ins: seq<Input>) {
    exists i :: 0 <= i < |ins| && ins[i].Shuts?
  }

  lemma {:induction false} ClosesMore(ins: seq<Input>)
    requires ins != []
    ensures Closes(ins) <==> ins[0].Shuts? || Closes(ins[1..])
  {
    if Closes(ins) {
      var i :| 0 <= i < |ins| && ins[i].Shuts?;
      if i > 0 { assert ins[1..][i - 1].Shuts?; }
    }
    if Closes(ins[1..]) {
      var i :| 0 <= i < |ins[1..]| && ins[1..][i].Shuts?;
      assert ins[i + 1].Shuts?;
    }
  }

  lemma {:induction false} NextState(m: Model, i: Input, c: Chunk, s: seq<byte>)
    requires Delivering(m.k, s) && QueueInv(m.k.rcv) && (i.Arrives? ==> Agrees(c, s))
    requires m.state.PeerClosed() <==> m.k.rcv.closed
    ensures var m' := Next(m, i, c);
            && (m'.state.FinSent() <==> m.state.FinSent() || i.Shuts?)
            && (m'.state.PeerClosed() <==> m'.k.rcv.closed)
  {
    hide Arrive, Agrees, Credit, CreditFin;
    if i.Shuts? {
      StateShut(m.state);
    } else if i.Arrives? {
      ArriveDelivers(m.k.rcv, c, i.room, s);
      StateAfter(m.state, Arrive(m.k.rcv, c, i.room).fin, i.acked);
    } else {
      CreditsOpen(m.k.rcv);
    }
  }

  lemma {:induction false} CreditsOpen(st: Rcv)
    ensures forall len, passive :: Credit(st, len, passive).closed == st.closed
    ensures CreditFin(st).closed == st.closed
  {
  }

  /** Theorem: after any run of an established connection the state of the protocol tells whether the
      application closed, and whether the end of the peer's stream was reached. */
  lemma {:induction false} Teardown(m: Model, ins: seq<Input>, cs: seq<Chunk>, s: seq<byte>)
    requires Delivering(m.k, s) && QueueInv(m.k.rcv) && OfStream(ins, cs, s)
    requires m.state.PeerClosed() <==> m.k.rcv.closed
    ensures var m' := After(m, ins, cs);
            && (m'.state.FinSent() <==> m.state.FinSent() || Closes(ins))
            && (m'.state.PeerClosed() <==> m'.k.rcv.closed) && (m'.state.PeerClosed() <==> m'.k.rcv.nxt == |s| + 1)
    decreases |ins|
  {
    hide Next, Closes, Agrees;
    if ins != [] {
      ClosesMore(ins);
      NextState(m, ins[0], cs[0], s);
      NextDelivers(m, ins[0], cs[0], s);
      Teardown(Next(m, ins[0], cs[0]), ins[1..], cs[1..], s);
    } else {
      ClosesNone();
    }
  }

  lemma {:induction false} ClosesNone()
    ensures !Closes([])
  {
  }

  // ---------------------------------------------------------------- a peer that respects the window

  /** What holds between two events if the peer sends nothing past the edge announced to it. */
  ghost predicate Settled(k: Conn, s: seq<byte>) {
    Delivering(k, s) && WindowInv(k) && ReceiveRuns.Below(k)
  }

  /** The peer sends nothing past the edge announced to it, nothing that is 127 * 2^24 numbers old,
      and the application credits only what it got. */
  ghost predicate Fair(isn: u32, m: Model, i: Input, c: Chunk) {
    && (i.Shuts? || InWindow(m.k, EventOf(i, c, m.state)))
    && (i.Arrives? ==>
         && Carries(isn, i.segment, c) && i.segment.len <= 65495
         && c.Next() <= m.k.rcv.annEdge && m.k.rcv.nxt - 0x7F00_0000 < c.at)
  }

  ghost predicate RunFair(isn: u32, m: Model, ins: seq<Input>, cs: seq<Chunk>)
    requires QueueInv(m.k.rcv) && |cs| == |ins|
    decreases |ins|
  {
    ins != [] ==> Fair(isn, m, ins[0], cs[0]) && RunFair(isn, Next(m, ins[0], cs[0]), ins[1..], cs[1..])
  }

  lemma {:induction false} NextSettled(isn: u32, m: Model, i: Input, c: Chunk, s: seq<byte>)
    requires Settled(m.k, s) && QueueInv(m.k.rcv) && Fair(isn, m, i, c) && (i.Arrives? ==> Agrees(c, s))
    ensures Settled(Next(m, i, c).k, s)
  {
    hide Delivering, WindowInv, ReceiveRuns.Below, Step, Agrees, Arrive, InWindow, Carries;
    if !i.Shuts? {
      var e := EventOf(i, c, m.state);
      StepDelivers(m.k, e, s);
      StepWindow(m.k, e, s);
      StepBelow(m.k, e, s);
    }
  }

  lemma {:induction false} SettledClose(isn: u32, m: Model, i: Input, c: Chunk, s: seq<byte>)
    requires Settled(m.k, s) && Fair(isn, m, i, c)
    ensures Close(isn, m.k.rcv, i, c)
  {
    hide Delivering, Carries, InWindow;
  }

  /** Theorem: with a peer that sends nothing past the edge announced to it the numbers stay close to
      each other all along. */
  lemma {:induction false} FairClose(isn: u32, m: Model, ins: seq<Input>, cs: seq<Chunk>, s: seq<byte>)
    requires Settled(m.k, s) && QueueInv(m.k.rcv) && OfStream(ins, cs, s) && RunFair(isn, m, ins, cs)
    ensures RunClose(isn, m, ins, cs)
    decreases |ins|
  {
    hide Settled, Fair, Close, Next, Agrees;
    if ins != [] {
      SettledClose(isn, m, ins[0], cs[0], s);
      NextSettled(isn, m, ins[0], cs[0], s);
      FairClose(isn, Next(m, ins[0], cs[0]), ins[1..], cs[1..], s);
    }
  }
}

/** The two halves joined. */
module EndToEnd {
  import opened SeqNum
  import opened Common
  import opened SendSpec
  import opened SendRuns
  import SendEvents
  import SendWrite
  import Reassembly
  import ReceiveRuns

  // When what the receiver passes up is what the sender's application wrote.

  /** The segment as it travels. */
  function Sent(g: Seg): Reassembly.Chunk {
    Reassembly.Chunk(g.at, g.Data(), g.fin)
  }

  /** The segments that tcp_output hands to the network. */
  function Emits(st: Snd, wnd: int, sends: nat): seq<Seg>
    decreases |st.unsent|
  {
    if st.unsent == [] || !Fits(st, wnd) || Held(st) || sends == 0 then []
    else [st.unsent[0]] + Emits(SendFirst(st), wnd, sends - 1)
  }

  /** ... are the first of the unsent list, and tcp_output leaves the others on it. */
  lemma {:induction false} EmitsFirst(st: Snd, wnd: int, sends: nat)
    ensures st.unsent == Emits(st, wnd, sends) + Output(st, wnd, sends).unsent
    decreases |st.unsent|
  {
    hide Joined, File, Fits, Held;
    if st.unsent != [] && Fits(st, wnd) && !Held(st) && sends > 0 {
      EmitsFirst(SendFirst(st), wnd, sends - 1);
      assert st.unsent == [st.unsent[0]] + st.unsent[1..];
    }
  }

  /** Everything a run puts on the network. */
  ghost function Wire(c: SendEvents.Conn, es: seq<SendEvents.Event>): seq<Seg>
    requires SendEvents.Runs(c, es)
    decreases |es|
  {
    if es == [] then []
    else
      (if es[0].Outputs? then Emits(c.st, es[0].wnd, es[0].sends) else [])
      + Wire(SendEvents.Step(c, es[0]), es[1..])
  }

  lemma {:induction false} EmitsQueued(st: Snd, wnd: int, sends: nat, g: Seg)
    requires g in Emits(st, wnd, sends)
    ensures g in st.unsent
    decreases |st.unsent|
  {
    hide Joined, File;
    if g != st.unsent[0] { EmitsQueued(SendFirst(st), wnd, sends - 1, g); }
  }

  // ---------------------------------------------------------------- a closed sender

  lemma {:induction false} StepClosed(c: SendEvents.Conn, e: SendEvents.Event)
    requires Inv(c.st, c.s) && SendEvents.Legal(c, e) && !c.st.open
    ensures !SendEvents.Step(c, e).st.open && SendEvents.Step(c, e).s == c.s
  {
    hide Joined, Bytes, Bufs, Output, Insert, DropAcked, Committed;
    if e.Outputs? {
      AllSome(c.st, c.s);
      OutputMoves(c.st, e.wnd, e.sends);
    }
  }

  lemma {:induction false} AllSome(st: Snd, s: seq<byte>)
    requires Inv(st, s)
    ensures NoneEmpty(st.unsent)
  {
    hide Joined, Bytes, Bufs;
    forall i | 0 <= i < |st.unsent| ensures st.unsent[i].TcpLen() > 0 { assert st.unsent[i] in Queued(st); }
  }

  lemma {:induction false} RunClosed(c: SendEvents.Conn, es: seq<SendEvents.Event>)
    requires Inv(c.st, c.s) && SendEvents.Runs(c, es) && SendEvents.RunsApt(c, es) && !c.st.open
    ensures !SendEvents.Run(c, es).st.open && SendEvents.Run(c, es).s == c.s
    decreases |es|
  {
    hide Inv;
    if es != [] {
      StepClosed(c, es[0]);
      SendEvents.StepKeeps(c, es[0]);
      RunClosed(SendEvents.Step(c, es[0]), es[1..]);
    }
  }

  // ---------------------------------------------------------------- the segments agree with the stream

  /** `s` can be what the application has written in the end: nothing less than what it wrote, and no
      more once it closed. */
  ghost predicate Extends(c: SendEvents.Conn, s: seq<byte>) {
    c.s <= s && (!c.st.open ==> s == c.s)
  }

  lemma {:induction false} QueuedAgrees(c: SendEvents.Conn, g: Seg, s: seq<byte>)
    requires Inv(c.st, c.s) && g in c.st.unsent && Extends(c, s)
    ensures Reassembly.Agrees(Sent(g), s)
  {
    hide Joined, Bytes, Bufs;
    assert g in Queued(c.st);
    assert c.s[g.at..g.End()] == s[g.at..g.End()];
  }

  /** Every segment of a run whose writes and close find the unsent list at the end of the stream
      carries the bytes that the application has written there in the end. */
  lemma {:induction false} WireAgrees(c: SendEvents.Conn, es: seq<SendEvents.Event>, s: seq<byte>, g: Seg)
    requires Inv(c.st, c.s) && SendEvents.Runs(c, es) && SendEvents.RunsApt(c, es)
    requires g in Wire(c, es) && Extends(SendEvents.Run(c, es), s)
    ensures Reassembly.Agrees(Sent(g), s)
    decreases |es|
  {
    hide Inv, Joined, Emits;
    var e, rest := es[0], Wire(SendEvents.Step(c, es[0]), es[1..]);
    SendEvents.StepKeeps(c, e);
    if g in rest {
      WireAgrees(SendEvents.Step(c, e), es[1..], s, g);
    } else {
      EmitsQueued(c.st, e.wnd, e.sends, g);
      SendEvents.RunKeeps(c, es);
      if !c.st.open { RunClosed(c, es); }
      QueuedAgrees(c, g, s);
    }
  }

  // ---------------------------------------------------------------- end to end

  /** A receiver that has got nothing yet. */
  ghost predicate Fresh(k: ReceiveRuns.Conn) {
    k.rcv.nxt == 0 && k.rcv.q == [] && !k.rcv.closed && k.delivered == []
  }

  /** The network delivers what was sent: in any order, any number of times, or not at all. */
  ghost predicate Carried(rs: seq<ReceiveRuns.Event>, wire: seq<Seg>) {
    forall i :: 0 <= i < |rs| && rs[i].Segment? ==> exists g :: g in wire && rs[i].c == Sent(g)
  }

  lemma {:induction false} Delivers(c: SendEvents.Conn, es: seq<SendEvents.Event>, k: ReceiveRuns.Conn,
                                    rs: seq<ReceiveRuns.Event>, s: seq<byte>)
    requires Inv(c.st, c.s) && SendEvents.Runs(c, es) && SendEvents.RunsApt(c, es)
    requires Fresh(k) && Carried(rs, Wire(c, es)) && Extends(SendEvents.Run(c, es), s)
    ensures ReceiveRuns.Delivering(k, s) && ReceiveRuns.Delivering(ReceiveRuns.Run(k, rs), s)
  {
    hide Inv, Joined, Wire, ReceiveRuns.Step;
    forall i | 0 <= i < |rs| && rs[i].Segment? ensures Reassembly.Agrees(rs[i].c, s) {
      var g :| g in Wire(c, es) && rs[i].c == Sent(g);
      WireAgrees(c, es, s, g);
    }
    ReceiveRuns.RunDelivers(k, rs, s);
  }

  /** Theorem: if the writes and the close of the sender find the unsent list at the end of the stream,
      then, whatever the network loses, repeats or puts out of order, the bytes passed up to the
      receiving application are a prefix of those the sending application wrote; and when the end of
      the stream is reported, they are all of them, and the sender has closed. */
  lemma {:induction false} EndToEnd(c: SendEvents.Conn, es: seq<SendEvents.Event>, k: ReceiveRuns.Conn,
                                    rs: seq<ReceiveRuns.Event>)
    requires Inv(c.st, c.s) && SendEvents.Runs(c, es) && SendEvents.RunsApt(c, es)
    requires Fresh(k) && Reassembly.QueueInv(k.rcv) && Carried(rs, Wire(c, es))
    ensures var c', k' := SendEvents.Run(c, es), ReceiveRuns.Run(k, rs);
            && k'.delivered <= c'.s
            && (k'.rcv.closed ==> k'.delivered == c'.s && !c'.st.open)
  {
    hide Inv, Joined, Wire, ReceiveRuns.Step;
    var s := SendEvents.Run(c, es).s;
    Delivers(c, es, k, rs, s);
    if SendEvents.Run(c, es).st.open {
      Delivers(c, es, k, rs, s + [0]);
    }
  }

  // ---------------------------------------------------------------- after a fast retransmission

  lemma {:induction false} LegalCons(c: SendEvents.Conn, e: SendEvents.Event, es: seq<SendEvents.Event>)
    requires SendEvents.Legal(c, e) && SendEvents.Runs(SendEvents.Step(c, e), es)
    ensures SendEvents.Runs(c, [e] + es) && SendEvents.Run(c, [e] + es) == SendEvents.Run(SendEvents.Step(c, e), es)
    ensures Wire(c, [e] + es) ==
            (if e.Outputs? then Emits(c.st, e.wnd, e.sends) else []) + Wire(SendEvents.Step(c, e), es)
  {
    hide SendEvents.Step, SendEvents.Legal, Emits;
    assert ([e] + es)[1..] == es && ([e] + es)[0] == e;
  }

  /** The first unsent segment is all that is sent. */
  lemma {:induction false} EmitsOne(st: Snd, g: Seg)
    requires st.unsent == [g] && g.at == st.una && g.Len() <= 100 && st.infr
    ensures Emits(st, 100, 1) == [g]
  {
    hide Joined, File;
    assert Emits(SendFirst(st), 100, 0) == [];
  }

  /** The write of SendEvents.WriteMisplaced. */
  lemma {:induction false} Misplaced(st: Snd, r: Request, g: Seg)
    requires st.unsent == [g] && g.at == 0 && g.Data() == [1] && g.bufs != [] && !g.fin && st.oversize == 0 && st.open
    requires r.mss == 4 && 0 < |r.data| <= 3 && r.allocs > 0 && st.buf >= 3 && st.qlen < TCP_SND_QUEUELEN
    ensures Ready(st, r) && Write(st, r) == (OK, Committed(st, r))
    ensures var u := Committed(st, r).unsent; |u| == 1 && u[0].at == 0 && u[0].Data() == [1] + r.data && !u[0].fin
  {
    hide Joined, Spare, Longer;
    SendWrite.ToppedIs(st, r);
    assert Segmented(st, r) == [];
    assert r.data[..|r.data|] == r.data;
  }

  lemma {:induction false} OneDelivered(k: ReceiveRuns.Conn, d: seq<byte>)
    requires k == ReceiveRuns.Fresh() && 0 < |d| <= 4
    ensures Fresh(k) && Reassembly.QueueInv(k.rcv)
    ensures ReceiveRuns.Step(k, ReceiveRuns.Segment(Reassembly.Chunk(0, d, false), true)).delivered == d
  {
    var c := Reassembly.Chunk(0, d, false);
    assert Reassembly.Merge(c, []) == (c, []);
    assert Reassembly.Advance(c, []) == Reassembly.Flow(d, |d|, [], false);
    assert [] + d == d;
  }

  /** A fast retransmission, a write, then output. */
  function Misstep(r: Request): seq<SendEvents.Event> {
    [SendEvents.Rexmits(true)] + ([SendEvents.Writes(r)] + ([SendEvents.Outputs(100, 1)] + []))
  }

  lemma {:induction false} Missent(c: SendEvents.Conn, r: Request) returns (g: Seg)
    requires c == SendEvents.TwoSent()
    requires r.mss == 4 && 0 < |r.data| <= 3 && r.allocs > 0
    ensures SendEvents.Runs(c, Misstep(r)) && SendEvents.Run(c, Misstep(r)).s == [1, 2] + r.data
    ensures g in Wire(c, Misstep(r)) && Sent(g) == Reassembly.Chunk(0, [1] + r.data, false)
  {
    hide Joined, Inv, Committed, Emits, SendEvents.TwoSent, Wire, Ready, Rexmit, Insert;
    var c1 := SendEvents.Step(c, SendEvents.Rexmits(true));
    SendEvents.FastRexmit(c);
    SendEvents.OneByteIs(0, 1);
    Misplaced(c1.st, r, SendEvents.OneByte(0, 1));
    var c2 := SendEvents.Step(c1, SendEvents.Writes(r));
    SendWrite.CommitRest(c1.st, r);
    g := c2.st.unsent[0];
    assert c2.st.unsent == [g];
    EmitsOne(c2.st, g);
    LegalCons(c2, SendEvents.Outputs(100, 1), []);
    LegalCons(c1, SendEvents.Writes(r), [SendEvents.Outputs(100, 1)] + []);
    LegalCons(c, SendEvents.Rexmits(true), [SendEvents.Writes(r)] + ([SendEvents.Outputs(100, 1)] + []));
  }

  /** After a fast retransmission that was not sent yet, a write, then output: the receiver passes up
      the new bytes in place of the second one written. */
  lemma {:induction false} Misdelivered(c: SendEvents.Conn, r: Request, k: ReceiveRuns.Conn)
    requires c == SendEvents.TwoSent() && k == ReceiveRuns.Fresh()
    requires r.mss == 4 && 0 < |r.data| <= 3 && r.data[0] != 2 && r.allocs > 0
    ensures SendEvents.Runs(c, Misstep(r)) && Fresh(k) && Reassembly.QueueInv(k.rcv)
    ensures var rs := [ReceiveRuns.Segment(Reassembly.Chunk(0, [1] + r.data, false), true)];
            && Carried(rs, Wire(c, Misstep(r)))
            && !(ReceiveRuns.Run(k, rs).delivered <= SendEvents.Run(c, Misstep(r)).s)
  {
    hide Joined, SendEvents.TwoSent, ReceiveRuns.Step, ReceiveRuns.Fresh, Wire, Misstep, SendEvents.Run, SendEvents.Runs, Sent;
    var g := Missent(c, r);
    var rs := [ReceiveRuns.Segment(Reassembly.Chunk(0, [1] + r.data, false), true)];
    assert rs[0].c == Sent(g);
    OneDelivered(k, [1] + r.data);
    assert rs[1..] == [];
    assert ([1] + r.data)[1] != ([1, 2] + r.data)[1];
  }
}

/** The sending code over whole runs. */
module SendCode {
  import opened SeqNum
  import opened Common
  import opened SendSpec
  import opened SendRuns
  import opened SendWrite
  import opened SendSorted
  import opened SendEvents
  import opened SendSound
  import opened SendWindow
  import opened TcpSend

  datatype Op =
    | Puts(data: seq<byte>, addr: int, copy: bool, more: bool, allocs: nat)
    | Shuts(allocs: nat)
    | Pushes(wnd: u16, sends: nat)
    | Resends(fast: bool)
    | Expires
    | Acks(ackno: u32)

  /** What happens to a control block, and the window that the peer has offered before. */
  datatype Input = Input(offer: u16, op: Op)

  /** snd_wnd_max after an offer. */
  function Widest(wndMax: u16, offer: u16): u16 {
    if wndMax < offer then offer else wndMax
  }

  /** The event of the model; `ack` is the position that an acknowledgement numbers. */
  ghost function EventOf(op: Op, mss: u16, wndMax: u16, ack: int): Event {
    match op
    case Puts(data, addr, copy, more, allocs) =>
      Writes(Request(data, addr, copy, more, LocalMss(mss, wndMax), allocs))
    case Shuts(allocs) => Closes(allocs)
    case Pushes(wnd, sends) => Outputs(wnd, sends)
    case Resends(fast) => Rexmits(fast)
    case Expires => TimesOut
    case Acks(_) => Acked(ack)
  }

  ghost function EventsOf(ins: seq<Input>, acks: seq<int>, mss: u16, wndMax: u16): (es: seq<Event>)
    requires |acks| == |ins|
    ensures |es| == |ins|
    decreases |ins|
  {
    if ins == [] then []
    else
      var w := Widest(wndMax, ins[0].offer);
      [EventOf(ins[0].op, mss, w, acks[0])] + EventsOf(ins[1..], acks[1..], mss, w)
  }

  /** All numbers in use, and that of an acknowledgement, are so close to lastack that 32-bit
      comparisons are exact. */
  ghost predicate Close(c: Conn, e: Event) {
    Near(c.st) && (e.Acked? ==> -0x6000_0000 < e.ack - c.st.una < 0x6000_0000)
  }

  ghost predicate RunsClose(c: Conn, es: seq<Event>)
    requires Runs(c, es)
    decreases |es|
  {
    es == [] || (Close(c, es[0]) && RunsClose(Step(c, es[0]), es[1..]))
  }

  lemma {:induction false} RunsNext(c: Conn, es: seq<Event>)
    requires es != [] && Runs(c, es) && RunsClose(c, es)
    ensures Legal(c, es[0]) && Close(c, es[0]) && Runs(Step(c, es[0]), es[1..]) && RunsClose(Step(c, es[0]), es[1..])
    ensures Run(c, es) == Run(Step(c, es[0]), es[1..])
  {
    hide Step, Close;
  }

  /** What the methods ask for. */
  lemma {:induction false} SoundAllows(c: Conn, mss: int)
    requires Sound(c, mss)
    ensures Accounted(c.st) && Spared(c.st, c.st.mss) && c.st.qlen < 0xFFFF
  {
    hide AllStout, Bytes, Bufs;
    RoomMore(c.st, mss, c.st.mss);
  }

  lemma {:induction false} SoundMss(c: Conn, e: Event, mss: int)
    requires Sound(c, mss) && Legal(c, e)
    ensures Step(c, e).st.mss == c.st.mss
  {
    hide Joined, Bytes, Bufs, Accounted, Spared, AllStout, Output;
    if e.Outputs? {
      NoneEmptyIs(c.st.unsent, mss);
      OutputMoves(c.st, e.wnd, e.sends);
    }
  }

  // ---------------------------------------------------------------- the code

  /** One event. */
  method Perform(p: Pcb, op: Op, ghost ack: int, ghost c: Conn, ghost mss: int)
    requires p.Valid() && p.st == c.st && Sound(c, mss) && (op.Acks? ==> op.ackno == Wire(p.isn, ack))
    requires var e := EventOf(op, p.mss, p.sndWndMax, ack); Legal(c, e) && Close(c, e)
    modifies p
    ensures p.Valid() && p.st == Step(c, EventOf(op, old(p.mss), old(p.sndWndMax), ack)).st
    ensures p.sndWndMax == old(p.sndWndMax)
  {
    hide Sound, ShowAll, Numbered, Near, Wire, LocalMss, SendSpec.Output, SendSpec.Rexmit, SendSpec.RexmitRto,
         SendSpec.SendFin, Ack, SendSpec.Write, Ready, Spared, Accounted;
    SoundAllows(c, mss);
    match op {
      case Puts(data, addr, copy, more, allocs) =>
        var _ := p.Write(data, addr, copy, more, allocs);
      case Shuts(allocs) =>
        var _ := p.SendFin(allocs);
      case Pushes(wnd, sends) =>
        var _ := p.Output(wnd, sends);
      case Resends(fast) =>
        p.Rexmit();
        if fast {
          p.EnterRecovery();
        }
      case Expires => p.RexmitRto();
      case Acks(ackno) => p.Acknowledge(ackno, ack);
    }
  }

  /** Theorem: over any legal run, wherever its writes put their bytes, as long as the numbers that the
      code compares are close to each other, the state of the code is that of the model: the books
      balance, and no segment is empty or above the segment limits there were. */
  method PerformAll(p: Pcb, ins: seq<Input>, ghost acks: seq<int>, ghost c: Conn, ghost mss: int)
    requires p.Valid() && p.st == c.st && Sound(c, mss) && |acks| == |ins|
    requires forall i :: 0 <= i < |ins| && ins[i].op.Acks? ==> ins[i].op.ackno == Wire(p.isn, acks[i])
    requires var es := EventsOf(ins, acks, p.mss, p.sndWndMax); Runs(c, es) && RunsClose(c, es)
    modifies p
    ensures var es := EventsOf(ins, acks, old(p.mss), old(p.sndWndMax));
            p.Valid() && p.st == Run(c, es).st && Sound(Run(c, es), Bounds(es, mss))
  {
    hide Sound, Step, Run, Runs, RunsClose, ShowAll, Numbered, Wire, EventOf, Close;
    ghost var es, c', mss' := EventsOf(ins, acks, p.mss, p.sndWndMax), c, mss;
    ghost var rest := acks;
    RunSound(c, es, mss);
    assert ins[0..] == ins;
    for i := 0 to |ins|
      invariant p.Valid() && p.st == c'.st && Sound(c', mss') && rest == acks[i..]
      invariant es == EventsOf(ins[i..], rest, p.mss, p.sndWndMax) && Runs(c', es) && RunsClose(c', es)
      invariant Run(c', es) == Run(c, EventsOf(ins, acks, old(p.mss), old(p.sndWndMax)))
    {
      EventsNext(ins, acks, i, p.mss, p.sndWndMax);
      RunsNext(c', es);
      StepSound(c', es[0], mss');
      SoundMss(c', es[0], mss');
      p.sndWndMax := Widest(p.sndWndMax, ins[i].offer);
      Perform(p, ins[i].op, acks[i], c', mss');
      mss' := Bound(es[0], mss');
      c', es, rest := Step(c', es[0]), es[1..], acks[i + 1..];
    }
    RunDone(c', es);
  }

  lemma {:induction false} RunDone(c: Conn, es: seq<Event>)
    requires es == [] && Runs(c, es)
    ensures Run(c, es) == c
  {
  }

  lemma {:induction false} EventsNext(ins: seq<Input>, acks: seq<int>, i: nat, mss: u16, wndMax: u16)
    requires i < |ins| == |acks|
    ensures var es, w := EventsOf(ins[i..], acks[i..], mss, wndMax), Widest(wndMax, ins[i].offer);
            es != [] && es[0] == EventOf(ins[i].op, mss, w, acks[i])
            && es[1..] == EventsOf(ins[i + 1..], acks[i + 1..], mss, w)
  {
    hide EventOf, Widest;
    assert ins[i..][1..] == ins[i + 1..] && acks[i..][1..] == acks[i + 1..];
  }

  // ---------------------------------------------------------------- runs that keep the lists in order

  /** Every write and close finds the unsent list at the end of the stream, the timer finds the two
      lists one behind the other, and acknowledgement numbers are less than 3 * 2^29 from lastack. */
  ghost predicate Orderly(c: Conn, es: seq<Event>)
    decreases |es|
  {
    es != [] ==>
      && Legal(c, es[0]) && Apt(c, es[0]) && Ordered(c, es[0])
      && (es[0].Acked? ==> -0x6000_0000 < es[0].ack - c.st.una < 0x6000_0000)
      && Orderly(Step(c, es[0]), es[1..])
  }

  /** What holds between two events of such a run. */
  ghost predicate Settled(c: Conn) {
    && Inv(c.st, c.s) && Sorted(c.st.unsent, c.st.unacked) && Live(c.st) && Sent(c.st) && c.st.mss < 0x1_0000
  }

  lemma {:induction false} StepSettled(c: Conn, e: Event)
    requires Settled(c) && Legal(c, e) && Apt(c, e) && Ordered(c, e)
    ensures Settled(Step(c, e))
  {
    hide Inv, Sorted, Live, Sent, Step, Legal, Apt, Ordered;
    StepKeeps(c, e);
    StepSorted(c, e);
    StepLive(c, e);
    StepSent(c, e);
    StepMss(c, e);
  }

  lemma {:induction false} SettledNear(c: Conn)
    requires Settled(c)
    ensures Near(c.st)
  {
    hide Sorted, Live, Near, Inv;
    NearIs(c.st, c.s);
  }

  /** Theorem: over such a run the numbers stay close to each other all along, and the queue of the
      model, so that of the code, is a faithful, sorted image of what the application wrote. */
  lemma {:induction false} OrderlyClose(c: Conn, es: seq<Event>)
    requires Settled(c) && Orderly(c, es)
    ensures Runs(c, es) && RunsClose(c, es) && Settled(Run(c, es))
    decreases |es|
  {
    hide Settled, Step, Apt, Ordered, Near;
    if es != [] {
      StepSettled(c, es[0]);
      SettledNear(c);
      OrderlyClose(Step(c, es[0]), es[1..]);
    }
  }
}

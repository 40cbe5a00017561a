/** What tcp_write accepts, and the buffers it makes. */
module SendAccept {
  import opened SeqNum
  import opened Common
  import opened SendSpec
  import opened SendRuns
  import opened SendWrite
  import opened SendClose
  import opened SendSorted
  import opened SendEvents
  import opened SendSound

  // ---------------------------------------------------------------- the last unsent segment

  /** There is data in the last unsent segment, if there is one. */
  ghost predicate Begun(st: Snd) {
    st.unsent != [] ==> Tail(st.unsent).Len() > 0
  }

  /** The bytes of a request that the last unsent segment takes: as many as the limit allows. */
  function Fill(st: Snd, r: Request): int {
    if st.unsent == [] then 0 else Min(|r.data|, r.mss - Tail(st.unsent).Len())
  }

  /** Phases 1 and 2 fill the last segment, and use up its spare room before they chain a buffer. */
  lemma {:induction false} PhasesFill(st: Snd, r: Request)
    requires Ready(st, r) && Begun(st)
    ensures Phase1(st, r) + Phase2(st, r) == Fill(st, r)
    ensures Phase1(st, r) == Min(st.oversize, |r.data|) && (Phase2(st, r) > 0 <==> Fill(st, r) > st.oversize)
  {
    hide Joined;
  }

  // ---------------------------------------------------------------- the number of new segments

  /** `n` bytes make `k` segments of at most `mss` bytes. */
  predicate Makes(n: int, mss: int, k: int) {
    if n == 0 then k == 0 else k >= 1 && (k - 1) * mss < n <= k * mss
  }

  lemma {:induction false} MakesNext(n: int, mss: int, k: int)
    requires n > mss > 0 && Makes(n - mss, mss, k)
    ensures Makes(n, mss, k + 1)
  {
    assert (k - 1) * mss == k * mss - mss && (k + 1) * mss == k * mss + mss;
  }

  lemma {:induction false} MakesOnce(n: int, mss: int, k: int, l: int)
    requires mss > 0 && Makes(n, mss, k) && Makes(n, mss, l)
    ensures k == l
  {
    if k < l { Monotone(k, l - 1, mss); }
    if l < k { Monotone(l, k - 1, mss); }
  }

  lemma {:induction false} Monotone(a: int, b: int, mss: int)
    requires a <= b && mss > 0
    ensures a * mss <= b * mss
  {
  }

  lemma {:induction false} PiecesMake(r: Request, pos: int, lbb: int)
    requires 0 <= pos <= |r.data| && r.mss > 0
    ensures Makes(|r.data| - pos, r.mss, |Pieces(r, pos, lbb)|)
    ensures Bufs(Pieces(r, pos, lbb)) == PerSeg(r) * |Pieces(r, pos, lbb)|
    decreases |r.data| - pos
  {
    hide Joined, Bufs, Piece, Makes, PerSeg;
    if pos == |r.data| {
      SumNone();
      MakesNone(r.mss);
    } else {
      var n := Min(|r.data| - pos, r.mss);
      var q := Pieces(r, pos + n, lbb);
      PiecesMake(r, pos + n, lbb);
      BufsFirst(r, pos, n, q, lbb);
      assert PerSeg(r) * (|q| + 1) == PerSeg(r) * |q| + PerSeg(r);
      if n == r.mss < |r.data| - pos { MakesNext(|r.data| - pos, r.mss, |q|); } else { MakesLast(|r.data| - pos, r.mss, |q|); }
    }
  }

  lemma {:induction false} MakesNone(mss: int)
    ensures Makes(0, mss, 0)
  {
  }

  lemma {:induction false} MakesLast(n: int, mss: int, k: int)
    requires 0 < n <= mss && Makes(0, mss, k)
    ensures Makes(n, mss, k + 1)
  {
  }

  /** The data is not copied, and follows in memory what the last buffer of the last segment, `b`, refers
      to. */
  predicate Continues(b: Buf, r: Request) {
    !r.copy && b.Rom? && b.addr + |b.data| == r.addr
  }

  /** The last buffer of the unsent list. */
  function LastBuf(st: Snd): Buf
    requires st.unsent != [] && Tail(st.unsent).bufs != []
  {
    Tail(st.unsent).bufs[|Tail(st.unsent).bufs| - 1]
  }

  lemma {:induction false} ExtendsIs(st: Snd, r: Request)
    requires st.unsent != [] && Tail(st.unsent).bufs != []
    ensures Extends(st, r) <==> Continues(LastBuf(st), r)
  {
  }

  /** What is allocated for a request that makes `k` segments: a buffer and a segment each, and without
      copying one buffer more; and a buffer for what is chained to the last segment. */
  function Needs(r: Request, chained: int, k: int): int {
    chained + (if r.copy then 2 * k else 3 * k)
  }

  function Adds(r: Request, chained: int, k: int): int {
    chained + (if r.copy then k else 2 * k)
  }

  /** Theorem: a write succeeds exactly when the connection is open, the data fits the send buffer, the
      queue has a place and takes the buffers it needs, and there is memory for them.  `k` is the
      number of segments that are needed for what the last segment does not take. */
  lemma {:induction false} WriteAccepted(st: Snd, r: Request, k: int)
    requires Ready(st, r) && Begun(st) && Makes(|r.data| - Fill(st, r), r.mss, k)
    ensures var c := if Fill(st, r) > st.oversize && !Continues(LastBuf(st), r) then 1 else 0;
            Write(st, r).0 == OK <==>
              && st.open
              && (r.data != [] ==>
                   && |r.data| <= st.buf && st.qlen < TCP_SND_QUEUELEN && Needs(r, c, k) <= r.allocs
                   && (k > 0 ==> st.qlen + Adds(r, c, k) <= TCP_SND_QUEUELEN))
    ensures Write(st, r).0 == CONN <==> !st.open
  {
    hide Joined, Bufs, Pieces, Extends, Makes, Fill, Committed;
    var pos := Phase1(st, r) + Phase2(st, r);
    PhasesFill(st, r);
    PiecesMake(r, pos, st.lbb);
    MakesOnce(|r.data| - pos, r.mss, k, |Pieces(r, pos, st.lbb)|);
    if st.unsent != [] { ExtendsIs(st, r); }
    if r.data == [] { NothingFills(st, r, k); }
  }

  lemma {:induction false} NothingFills(st: Snd, r: Request, k: int)
    requires Ready(st, r) && r.data == [] && Makes(|r.data| - Fill(st, r), r.mss, k)
    ensures Fill(st, r) == 0 && k == 0
  {
    hide Joined;
  }

  // ---------------------------------------------------------------- the spare room

  /** Room is made for more data: it was announced, or Nagle may wait for it. */
  predicate Expects(st: Snd, r: Request, first: bool) {
    r.more || (!st.nodelay && (!first || st.unsent != [] || st.unacked != []))
  }

  lemma {:induction false} PreallocRoom(st: Snd, r: Request, len: int, max: int, first: bool)
    requires 0 <= len <= max
    ensures var n := Prealloc(st, r, len, max, first);
            if Expects(st, r, first) then Min(max, len + TCP_OVERSIZE) <= n <= max else n == len
  {
  }

  lemma {:induction false} SpareLast(st: Snd, r: Request, pos: int, spare: int, first: bool)
    requires 0 <= pos < |r.data| && r.mss > 0
    ensures var q := Pieces(r, pos, st.lbb);
            && q != [] && 0 <= Tail(q).Len() <= r.mss
            && Spare(st, r, pos, spare, first) ==
               if r.copy then Prealloc(st, r, Tail(q).Len(), r.mss, first && |q| == 1) - Tail(q).Len() else spare
    decreases |r.data| - pos
  {
    hide Joined, Piece, Prealloc;
    var n := Min(|r.data| - pos, r.mss);
    PieceIs(r, pos, n, st.lbb);
    var q := Pieces(r, pos + n, st.lbb);
    var left := if r.copy then Prealloc(st, r, n, r.mss, first) - n else spare;
    if pos + n < |r.data| {
      SpareLast(st, r, pos + n, left, false);
      assert Tail(Pieces(r, pos, st.lbb)) == Tail(q);
    }
  }

  /** Theorem: data that fits the spare room of the last segment is put there.  Otherwise, with a copy,
      the last segment gets room up to the segment limit, or for TCP_OVERSIZE bytes at least, when
      more data may come, and none when not; data that is not copied leaves no room. */
  lemma {:induction false} WriteSpare(st: Snd, r: Request)
    requires Ready(st, r) && Begun(st) && Spared(st, st.mss)
    ensures var st' := Committed(st, r);
            if |r.data| <= st.oversize then st'.oversize == st.oversize - |r.data|
            else if !r.copy then st'.oversize == 0
            else
              && st'.unsent != []
              && var n := Tail(st'.unsent).Len();
                 if Expects(st, r, |Segmented(st, r)| <= 1)
                 then Min(r.mss, n + TCP_OVERSIZE) <= n + st'.oversize <= r.mss
                 else st'.oversize == 0
  {
    hide Joined, Bufs, Pieces, Spare, Chained, Extends, Longer, Prealloc;
    var st', pos := Committed(st, r), Phase1(st, r) + Phase2(st, r);
    PhasesFill(st, r);
    ToppedRoom(st, r);
    if pos < |r.data| {
      var q := Segmented(st, r);
      SpareLast(st, r, pos, SpareThen(st, r), true);
      PreallocRoom(st, r, Tail(q).Len(), r.mss, |q| == 1);
      assert Tail(st'.unsent) == Tail(q);
    } else {
      NoPieces(st, r, pos, SpareThen(st, r), true);
      if st.unsent != [] {
        ToppedIs(st, r);
        assert st'.unsent == Topped(st, r);
        if Phase2(st, r) > 0 {
          PreallocRoom(st, r, Phase2(st, r), r.mss - Tail(st.unsent).Len() - Phase1(st, r), true);
        }
      }
    }
  }

  lemma {:induction false} NoPieces(st: Snd, r: Request, pos: int, spare: int, first: bool)
    requires pos == |r.data| && r.mss > 0
    ensures Pieces(r, pos, st.lbb) == [] && Spare(st, r, pos, spare, first) == spare
  {
  }

  // ---------------------------------------------------------------- data that is not copied

  /** A buffer that refers to memory shows what is there. */
  ghost predicate Refers(mem: int -> byte, b: Buf) {
    b.Rom? ==> forall i :: 0 <= i < |b.data| ==> b.data[i] == mem(b.addr + i)
  }

  ghost predicate AllRefer(mem: int -> byte, q: seq<Seg>) {
    forall g, b :: g in q && b in g.bufs ==> Refers(mem, b)
  }

  /** The data of a request that is not copied is what is in memory. */
  ghost predicate Told(mem: int -> byte, r: Request) {
    !r.copy ==> forall i :: 0 <= i < |r.data| ==> r.data[i] == mem(r.addr + i)
  }

  lemma {:induction false} FreshRefers(mem: int -> byte, r: Request, pos: int, n: int)
    requires Told(mem, r) && 0 <= pos <= pos + n <= |r.data|
    ensures Refers(mem, Fresh(r, pos, r.data[pos..pos + n]))
  {
  }

  lemma {:induction false} GrowRefers(mem: int -> byte, bufs: seq<Buf>, r: Request, n: int)
    requires bufs != [] && Told(mem, r) && 0 <= n <= |r.data| && (forall b :: b in bufs ==> Refers(mem, b))
    requires var b := bufs[|bufs| - 1]; b.Ram? || (!r.copy && b.addr + |b.data| == r.addr)
    ensures forall b :: b in Grow(bufs, r.data[..n]) ==> Refers(mem, b)
  {
    var k := |bufs| - 1;
    var was, now := bufs[k], Grow(bufs, r.data[..n])[k];
    assert was in bufs;
    assert Refers(mem, now) by {
      if now.Rom? {
        forall i | 0 <= i < |now.data| ensures now.data[i] == mem(now.addr + i) {
          if i >= |was.data| { assert r.data[i - |was.data|] == mem(r.addr + (i - |was.data|)); }
        }
      }
    }
    forall b | b in Grow(bufs, r.data[..n]) ensures Refers(mem, b) {
      assert b == now || b in bufs;
    }
  }

  lemma {:induction false} LongerRefers(mem: int -> byte, bufs: seq<Buf>, r: Request, p1: int, p2: int, extend: bool)
    requires bufs != [] && Told(mem, r) && 0 <= p1 <= p1 + p2 <= |r.data| && (forall b :: b in bufs ==> Refers(mem, b))
    requires p1 > 0 ==> bufs[|bufs| - 1].Ram?
    requires extend ==> p1 == 0 && !r.copy && var b := bufs[|bufs| - 1]; b.Rom? && b.addr + |b.data| == r.addr
    ensures forall b :: b in Longer(bufs, r, p1, p2, extend) ==> Refers(mem, b)
  {
    hide Refers, Told;
    if p1 > 0 { GrowRefers(mem, bufs, r, p1); }
    if p2 > 0 && extend {
      GrowRefers(mem, bufs, r, p2);
      assert r.data[p1..p1 + p2] == r.data[..p2];
    } else {
      FreshRefers(mem, r, p1, p2);
    }
  }

  lemma {:induction false} PiecesRefer(mem: int -> byte, r: Request, pos: int, lbb: int)
    requires Told(mem, r) && 0 <= pos <= |r.data| && r.mss > 0
    ensures AllRefer(mem, Pieces(r, pos, lbb))
    decreases |r.data| - pos
  {
    hide Refers, Told;
    if pos < |r.data| {
      var n := Min(|r.data| - pos, r.mss);
      PiecesRefer(mem, r, pos + n, lbb);
      FreshRefers(mem, r, pos, n);
      NoneRefers(mem);
    }
  }

  lemma {:induction false} NoneRefers(mem: int -> byte)
    ensures Refers(mem, Ram([]))
  {
  }

  /** The last segment gets other buffers, and segments follow it. */
  lemma {:induction false} ListRefers(mem: int -> byte, q: seq<Seg>, g: Seg)
    requires q != [] && AllRefer(mem, q) && (forall b :: b in g.bufs ==> Refers(mem, b))
    ensures AllRefer(mem, q[|q| - 1 := g])
  {
    hide Refers;
    var p := q[|q| - 1 := g];
    forall h, b | h in p && b in h.bufs ensures Refers(mem, b) {
      if h != g { assert h in q; }
    }
  }

  lemma {:induction false} ConcatRefers(mem: int -> byte, p: seq<Seg>, q: seq<Seg>)
    requires AllRefer(mem, p) && AllRefer(mem, q)
    ensures AllRefer(mem, p + q)
  {
    hide Refers;
  }

  lemma {:induction false} ToppedRefers(mem: int -> byte, st: Snd, r: Request)
    requires Ready(st, r) && Spared(st, st.mss) && AllRefer(mem, st.unsent) && Told(mem, r) && st.unsent != []
    ensures AllRefer(mem, Topped(st, r))
  {
    hide Joined, Refers, Told, Longer, SpareThen;
    var g := Tail(st.unsent);
    assert g in st.unsent;
    ToppedRoom(st, r);
    LongerRefers(mem, g.bufs, r, Phase1(st, r), Phase2(st, r), Extends(st, r));
    ListRefers(mem, st.unsent, g.(bufs := Longer(g.bufs, r, Phase1(st, r), Phase2(st, r), Extends(st, r))));
  }

  lemma {:induction false} CommitRefers(mem: int -> byte, st: Snd, r: Request)
    requires Ready(st, r) && Spared(st, st.mss) && AllRefer(mem, st.unsent) && Told(mem, r)
    ensures AllRefer(mem, Committed(st, r).unsent)
  {
    hide Joined, AllRefer, Told, Pieces, Bufs, Spare, Longer, Chained, SpareThen, Extends;
    PiecesRefer(mem, r, Phase1(st, r) + Phase2(st, r), st.lbb);
    if st.unsent != [] { ToppedRefers(mem, st, r); }
    ConcatRefers(mem, Topped(st, r), Segmented(st, r));
  }

  ghost predicate Referring(mem: int -> byte, st: Snd) {
    AllRefer(mem, st.unsent) && AllRefer(mem, st.unacked)
  }

  lemma {:induction false} SubsetRefers(mem: int -> byte, st: Snd, st': Snd)
    requires Referring(mem, st) && Queued(st') <= Queued(st)
    ensures Referring(mem, st')
  {
    hide Refers;
    forall g, b | (g in st'.unsent || g in st'.unacked) && b in g.bufs ensures Refers(mem, b) {
      assert g in Queued(st');
      assert g in Queued(st);
    }
  }

  lemma {:induction false} BareRefers(mem: int -> byte, at: int)
    ensures AllRefer(mem, [Bare(at)])
  {
  }

  lemma {:induction false} TailRefers(mem: int -> byte, q: seq<Seg>)
    requires q != [] && AllRefer(mem, q)
    ensures forall b :: b in Tail(q).bufs ==> Refers(mem, b)
  {
    assert Tail(q) in q;
  }

  lemma {:induction false} FinRefers(mem: int -> byte, st: Snd, allocs: nat)
    requires Referring(mem, st)
    ensures Referring(mem, SendFin(st, allocs).1)
  {
    hide Refers, Joined, AllRefer;
    BareRefers(mem, st.lbb);
    ConcatRefers(mem, st.unsent, [Bare(st.lbb)]);
    if st.unsent != [] {
      TailRefers(mem, st.unsent);
      ListRefers(mem, st.unsent, Tail(st.unsent).(fin := true));
    }
  }

  lemma {:induction false} StepRefers(mem: int -> byte, c: Conn, e: Event, mss: int)
    requires Sound(c, mss) && Legal(c, e) && Referring(mem, c.st) && (e.Writes? ==> Told(mem, e.r))
    ensures Referring(mem, Step(c, e).st)
  {
    hide Joined, Bytes, Bufs, Output, Committed, Insert, DropAcked, Told, AllRefer, AllStout, Pieces, Spare;
    match e
    case Writes(r) =>
      if Write(c.st, r).0.OK? {
        RoomMore(c.st, mss, c.st.mss);
        CommitRefers(mem, c.st, r);
        CommitRest(c.st, r);
      }
    case Closes(allocs) => FinRefers(mem, c.st, allocs);
    case Outputs(wnd, sends) =>
      NoneEmptyIs(c.st.unsent, mss);
      OutputMoves(c.st, wnd, sends);
      MovedQueued(c.st, Output(c.st, wnd, sends));
      SubsetRefers(mem, c.st, Output(c.st, wnd, sends));
    case Rexmits(_) =>
      RexmitMoves(c.st);
      MovedQueued(c.st, Rexmit(c.st));
      SubsetRefers(mem, c.st, Rexmit(c.st));
    case TimesOut =>
      RexmitRtoMoves(c.st);
      MovedQueued(c.st, RexmitRto(c.st));
      SubsetRefers(mem, c.st, RexmitRto(c.st));
    case Acked(ack) =>
      AckShrinks(c.st, ack);
      SubsetRefers(mem, c.st, Ack(c.st, ack));
  }

  /** Theorem: as long as the application leaves alone what it gave without a copy, every buffer that
      refers to memory shows the bytes that were written, over any legal run. */
  lemma {:induction false} RunRefers(mem: int -> byte, c: Conn, es: seq<Event>, mss: int)
    requires Sound(c, mss) && Runs(c, es) && Referring(mem, c.st)
    requires forall i :: 0 <= i < |es| && es[i].Writes? ==> Told(mem, es[i].r)
    ensures Referring(mem, Run(c, es).st)
    decreases |es|
  {
    hide Sound, Step, Referring, Told;
    if es != [] {
      StepSound(c, es[0], mss);
      StepRefers(mem, c, es[0], mss);
      RunRefers(mem, Step(c, es[0]), es[1..], Bound(es[0], mss));
    }
  }
}

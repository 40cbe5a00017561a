/** What every step of the sending side keeps, and what holds after any run of them. */
module SendRuns {
  import opened SeqNum
  import opened Common
  import opened SendSpec

  // ---------------------------------------------------------------- invariants

  /** The segments on either list. */
  ghost function Queued(st: Snd): set<Seg> {
    (set g | g in st.unacked) + (set g | g in st.unsent)
  }

  /** Send-buffer space plus queued bytes is TCP_SND_BUF, and the queue length is the number of
      queued buffers, within its limit but for a FIN. */
  ghost predicate Accounted(st: Snd) {
    && st.buf + Bytes(st.unsent) + Bytes(st.unacked) == TCP_SND_BUF && 0 <= st.buf
    && st.qlen == Bufs(st.unsent) + Bufs(st.unacked)
    && st.qlen <= TCP_SND_QUEUELEN + if st.open then 0 else 1
  }

  /** The segment carries bytes of the stream `s`, its FIN is the end of `s`, and it is neither
      empty nor longer than `mss`. */
  ghost predicate Carries(g: Seg, s: seq<byte>, mss: int, open: bool) {
    && Reads(s, g.at, g.Data()) && g.bufs != [] && 0 < g.TcpLen() && g.Len() <= mss
    && (g.fin ==> !open && g.End() == |s|)
  }

  /** The end of the numbers in use: behind the data, and behind the FIN once that is queued. */
  function Limit(open: bool, s: seq<byte>): int {
    |s| + if open then 0 else 1
  }

  ghost predicate Holds(qs: set<Seg>, p: int) {
    exists g :: g in qs && g.at <= p < g.Next()
  }

  /** Every number from `una` on is in a queued segment. */
  ghost predicate Covered(qs: set<Seg>, una: int, limit: int) {
    forall p :: una <= p < limit ==> Holds(qs, p)
  }

  /** Room for `n` bytes, up to `mss`, in the last buffer of the list, which the stack owns. */
  ghost predicate Room(u: seq<Seg>, n: int, mss: int) {
    u != [] && n <= mss - Tail(u).Len() && Tail(u).bufs != [] && Tail(u).bufs[|Tail(u).bufs| - 1].Ram?
  }

  ghost predicate Spared(st: Snd, mss: int) {
    0 <= st.oversize && (st.oversize > 0 ==> Room(st.unsent, st.oversize, mss))
  }

  /** The state of a connection over which the application has written the bytes `s`. */
  ghost predicate Inv(st: Snd, s: seq<byte>) {
    && Accounted(st) && Spared(st, st.mss) && st.mss > 0
    && (forall g :: g in Queued(st) ==> Carries(g, s, st.mss, st.open))
    && Covered(Queued(st), st.una, Limit(st.open, s))
    && 0 <= st.una <= st.nxt <= Limit(st.open, s)
    && (st.open ==> st.lbb == |s|)
  }

  // ---------------------------------------------------------------- sums over lists

  lemma {:induction false} SumConcat(a: seq<Seg>, b: seq<Seg>)
    ensures Bytes(a + b) == Bytes(a) + Bytes(b) && Bufs(a + b) == Bufs(a) + Bufs(b)
    decreases |a|
  {
    if a == [] {
      assert a + b == b;
    } else {
      assert (a + b)[1..] == a[1..] + b;
      SumConcat(a[1..], b);
    }
  }

  lemma {:induction false} SumOne(g: Seg)
    ensures Bytes([g]) == g.Len() && Bufs([g]) == |g.bufs|
  {
    assert [g][1..] == [];
  }

  lemma {:induction false} SumInsert(q: seq<Seg>, g: Seg, k: nat)
    requires k <= |q|
    ensures Bytes(q[..k] + [g] + q[k..]) == Bytes(q) + g.Len()
    ensures Bufs(q[..k] + [g] + q[k..]) == Bufs(q) + |g.bufs|
  {
    assert q == q[..k] + q[k..];
    SumConcat(q[..k], q[k..]);
    SumConcat(q[..k] + [g], q[k..]);
    SumConcat(q[..k], [g]);
    SumOne(g);
  }

  /** The last segment is replaced. */
  lemma {:induction false} SumTail(q: seq<Seg>, g: Seg)
    requires q != []
    ensures Bytes(q[|q| - 1 := g]) == Bytes(q) - Tail(q).Len() + g.Len()
    ensures Bufs(q[|q| - 1 := g]) == Bufs(q) - |Tail(q).bufs| + |g.bufs|
  {
    var k := |q| - 1;
    assert q == q[..k] + [q[k]] && q[k := g] == q[..k] + [g];
    SumConcat(q[..k], [q[k]]);
    SumConcat(q[..k], [g]);
    SumOne(q[k]);
    SumOne(g);
  }

  // ---------------------------------------------------------------- retransmission and output

  lemma {:induction false} InsertMembers(q: seq<Seg>, g: Seg, k: nat)
    requires k <= |q|
    ensures forall x :: x in q[..k] + [g] + q[k..] <==> x in q || x == g
    ensures multiset(q[..k] + [g] + q[k..]) == multiset(q) + multiset{g}
  {
    assert q == q[..k] + q[k..];
  }

  /** The same segments on two lists, perhaps in other places. */
  ghost predicate Shuffled(u: seq<Seg>, a: seq<Seg>, u': seq<Seg>, a': seq<Seg>) {
    && multiset(u') + multiset(a') == multiset(u) + multiset(a)
    && Bytes(u') + Bytes(a') == Bytes(u) + Bytes(a) && Bufs(u') + Bufs(a') == Bufs(u) + Bufs(a)
  }

  /** ... and nothing else different that counts. */
  ghost predicate Moved(st: Snd, st': Snd) {
    && Shuffled(st.unsent, st.unacked, st'.unsent, st'.unacked)
    && st'.buf == st.buf && st'.qlen == st.qlen && st'.una == st.una && st'.lbb == st.lbb
    && st'.mss == st.mss && st'.open == st.open
  }

  lemma {:induction false} MovedQueued(st: Snd, st': Snd)
    requires Moved(st, st')
    ensures Queued(st') == Queued(st)
  {
    forall g ensures g in Queued(st') <==> g in Queued(st) {
      assert g in Queued(st) <==> g in multiset(st.unsent) + multiset(st.unacked);
      assert g in Queued(st') <==> g in multiset(st'.unsent) + multiset(st'.unacked);
    }
  }

  lemma {:induction false} MovedKeeps(st: Snd, st': Snd, s: seq<byte>)
    requires Inv(st, s) && Moved(st, st') && Spared(st', st.mss) && st.nxt <= st'.nxt <= Limit(st.open, s)
    ensures Inv(st', s)
  {
    MovedQueued(st, st');
  }

  lemma {:induction false} InsertShuffles(u: seq<Seg>, a: seq<Seg>)
    requires a != []
    ensures Shuffled(u, a, Insert(u, a[0]), a[1..])
  {
    var g, k := a[0], Before(u, a[0].at);
    assert a == [g] + a[1..];
    SumInsert(u, g, k);
    InsertMembers(u, g, k);
  }

  lemma {:induction false} FileShuffles(u: seq<Seg>, a: seq<Seg>)
    requires u != []
    ensures Shuffled(u, a, u[1..], File(a, u[0]))
  {
    var g := u[0];
    var k := if a != [] && g.at < Tail(a).at then Before(a, g.at) else |a|;
    assert a[..|a|] + [g] + a[|a|..] == a + [g];
    assert u == [g] + u[1..];
    SumInsert(a, g, k);
    InsertMembers(a, g, k);
  }

  /** tcp_rexmit moves a segment from one list to the other, loses or adds nothing, and changes nothing
      else but the spare room. */
  lemma {:induction false} RexmitMoves(st: Snd)
    ensures Moved(st, Rexmit(st))
    ensures var st' := Rexmit(st); st' == st.(unsent := st'.unsent, unacked := st'.unacked, oversize := st'.oversize)
  {
    if st.unacked != [] {
      InsertShuffles(st.unsent, st.unacked);
    }
  }

  lemma {:induction false} RexmitSpared(st: Snd, mss: int)
    requires Spared(st, mss)
    ensures Spared(Rexmit(st), mss)
  {
    if st.unacked != [] {
      var g, k := st.unacked[0], Before(st.unsent, st.unacked[0].at);
      assert k < |st.unsent| ==> Tail(Insert(st.unsent, g)) == Tail(st.unsent);
    }
  }

  /** tcp_rexmit_rto moves segments, and changes nothing else. */
  lemma {:induction false} RexmitRtoMoves(st: Snd)
    ensures Moved(st, RexmitRto(st))
    ensures var st' := RexmitRto(st); st' == st.(unsent := st'.unsent, unacked := st'.unacked)
  {
    hide Joined, Bytes, Bufs;
    SumConcat(st.unacked, st.unsent);
    assert multiset(st.unacked + st.unsent) == multiset(st.unacked) + multiset(st.unsent);
    SumNone();
  }

  lemma {:induction false} SumNone()
    ensures Bytes([]) == 0 && Bufs([]) == 0
  {
  }

  lemma {:induction false} RexmitRtoSpared(st: Snd, mss: int)
    requires Spared(st, mss)
    ensures Spared(RexmitRto(st), mss)
  {
    hide Joined;
    assert st.unsent != [] ==> Tail(st.unacked + st.unsent) == Tail(st.unsent);
  }

  lemma {:induction false} SendFirstMoves(st: Snd)
    requires st.unsent != [] && st.unsent[0].TcpLen() > 0
    ensures Moved(st, SendFirst(st))
  {
    FileShuffles(st.unsent, st.unacked);
  }

  lemma {:induction false} SendFirstSpared(st: Snd, mss: int)
    requires Spared(st, mss) && |st.unsent| > 1
    ensures Spared(SendFirst(st), mss)
  {
    assert Tail(st.unsent[1..]) == Tail(st.unsent);
  }

  ghost predicate NoneEmpty(q: seq<Seg>) {
    forall i :: 0 <= i < |q| ==> q[i].TcpLen() > 0
  }

  /** Theorem: tcp_output, stopped by the window, by Nagle, or by a send that fails at any
      segment, leaves the same segments on the two lists. */
  lemma {:induction false} OutputMoves(st: Snd, wnd: int, sends: nat)
    requires NoneEmpty(st.unsent)
    ensures Moved(st, Output(st, wnd, sends))
    decreases |st.unsent|
  {
    hide Joined, Bytes, Bufs, File;
    if st.unsent != [] && Fits(st, wnd) && !Held(st) && sends > 0 {
      SendFirstMoves(st);
      OutputMoves(SendFirst(st), wnd, sends - 1);
    }
  }

  lemma {:induction false} OutputSpared(st: Snd, wnd: int, sends: nat, mss: int)
    requires Spared(st, mss)
    ensures Spared(Output(st, wnd, sends), mss)
    decreases |st.unsent|
  {
    hide Joined, Insert, Before;
    if st.unsent != [] && Fits(st, wnd) && !Held(st) && sends > 0 && |st.unsent| > 1 {
      SendFirstSpared(st, mss);
      OutputSpared(SendFirst(st), wnd, sends - 1, mss);
    }
  }

  ghost predicate AllBelow(q: seq<Seg>, limit: int) {
    forall i :: 0 <= i < |q| ==> q[i].Next() <= limit
  }

  lemma {:induction false} SentNext(st: Snd, limit: int)
    requires st.unsent != [] && st.nxt <= limit && AllBelow(st.unsent, limit)
    ensures st.nxt <= SendFirst(st).nxt <= limit && AllBelow(SendFirst(st).unsent, limit)
  {
  }

  lemma {:induction false} OutputNext(st: Snd, wnd: int, sends: nat, limit: int)
    requires st.nxt <= limit && AllBelow(st.unsent, limit)
    ensures st.nxt <= Output(st, wnd, sends).nxt <= limit
    decreases |st.unsent|
  {
    hide Joined, Insert, Before;
    if st.unsent != [] && Fits(st, wnd) && !Held(st) && sends > 0 {
      SentNext(st, limit);
      OutputNext(SendFirst(st), wnd, sends - 1, limit);
      assert Output(st, wnd, sends) == Output(SendFirst(st), wnd, sends - 1);
    } else {
      assert Output(st, wnd, sends).nxt == st.nxt;
    }
  }

  // ---------------------------------------------------------------- acknowledgements

  lemma {:induction false} DropIs(q: seq<Seg>, ack: int)
    ensures var r := DropAcked(q, ack);
            && |r| <= |q| && r == q[|q| - |r|..]
            && (forall i :: 0 <= i < |q| - |r| ==> q[i].Next() <= ack)
            && (r != [] ==> r[0].Next() > ack)
    ensures Bytes(DropAcked(q, ack)) <= Bytes(q) && Bufs(DropAcked(q, ack)) <= Bufs(q)
    decreases |q|
  {
    if q != [] && q[0].Next() <= ack {
      DropIs(q[1..], ack);
      var r := DropAcked(q, ack);
      assert forall i :: 0 < i < |q| - |r| ==> q[i] == q[1..][i - 1];
    }
  }

  lemma {:induction false} DropMembers(q: seq<Seg>, ack: int, g: Seg)
    requires g in q && g.Next() > ack
    ensures g in DropAcked(q, ack)
  {
    DropIs(q, ack);
    var r := DropAcked(q, ack);
    var i :| 0 <= i < |q| && q[i] == g;
    assert r[i - (|q| - |r|)] == g;
  }

  lemma {:induction false} AckSurvives(st: Snd, ack: int, g: Seg)
    requires g in Queued(st) && g.Next() > Ack(st, ack).una && st.una <= st.nxt
    ensures g in Queued(Ack(st, ack))
  {
    if g.Next() > ack {
      if g in st.unacked { DropMembers(st.unacked, ack, g); } else { DropMembers(st.unsent, ack, g); }
    }
  }

  lemma {:induction false} AckCovered(st: Snd, ack: int, limit: int)
    requires Covered(Queued(st), st.una, limit) && st.una <= st.nxt
    ensures Covered(Queued(Ack(st, ack)), Ack(st, ack).una, limit)
  {
    var st' := Ack(st, ack);
    forall p | st'.una <= p < limit ensures Holds(Queued(st'), p) {
      assert Holds(Queued(st), p);
      var g :| g in Queued(st) && g.at <= p < g.Next();
      AckSurvives(st, ack, g);
    }
  }

  lemma {:induction false} DropShrinks(q: seq<Seg>, ack: int)
    ensures var r := DropAcked(q, ack);
            && (forall g :: g in r ==> g in q) && (r != [] ==> q != [] && Tail(r) == Tail(q))
            && Bytes(r) <= Bytes(q) && Bufs(r) <= Bufs(q)
  {
    hide Joined, Bytes, Bufs, DropAcked;
    DropIs(q, ack);
  }

  lemma {:induction false} AckShrinks(st: Snd, ack: int)
    ensures Queued(Ack(st, ack)) <= Queued(st)
    ensures Accounted(st) ==> Accounted(Ack(st, ack))
  {
    hide Joined, Bytes, Bufs, DropAcked;
    DropShrinks(st.unacked, ack);
    DropShrinks(st.unsent, ack);
  }

  lemma {:induction false} AckSpared(st: Snd, ack: int, mss: int)
    requires Spared(st, mss)
    ensures Spared(Ack(st, ack), mss)
  {
    hide Joined, Bytes, Bufs, DropAcked;
    DropShrinks(st.unsent, ack);
  }

  /** Theorem: an acknowledgement, old, new or out of range, frees no segment that holds a number
      not yet acknowledged. */
  lemma {:induction false} AckKeeps(st: Snd, ack: int, s: seq<byte>)
    requires Inv(st, s)
    ensures Inv(Ack(st, ack), s) && st.una <= Ack(st, ack).una
    ensures forall g :: g in Queued(st) && g.Next() > Ack(st, ack).una ==> g in Queued(Ack(st, ack))
  {
    forall g | g in Queued(st) && g.Next() > Ack(st, ack).una ensures g in Queued(Ack(st, ack)) {
      AckSurvives(st, ack, g);
    }
    AckShrinks(st, ack);
    AckSpared(st, ack, st.mss);
    AckCovered(st, ack, Limit(st.open, s));
  }

  // ---------------------------------------------------------------- closing

  /** The last unsent segment, if any, is the last of the stream. */
  ghost predicate TailLast(st: Snd) {
    st.unsent != [] ==> Tail(st.unsent).End() == st.lbb
  }

  ghost predicate Outlives(g: Seg, qs': set<Seg>) {
    exists x :: x in qs' && x.at <= g.at && g.Next() <= x.Next()
  }

  lemma {:induction false} OutlivesKeeps(qs: set<Seg>, qs': set<Seg>, una: int, limit: int)
    requires Covered(qs, una, limit)
    requires forall g :: g in qs ==> Outlives(g, qs')
    ensures Covered(qs', una, limit)
  {
    forall p | una <= p < limit ensures Holds(qs', p) {
      assert Holds(qs, p);
      var g :| g in qs && g.at <= p < g.Next();
      assert Outlives(g, qs');
    }
  }
}

/** The two segment lists stay sorted and free of overlap. */
module SendSorted {
  import opened SeqNum
  import opened Common
  import opened SendSpec
  import opened SendRuns
  import opened SendWrite
  import opened SendClose

  /** Two segments without a number in common. */
  predicate Clear(g: Seg, h: Seg) {
    g.Next() <= h.at || h.Next() <= g.at
  }

  /** Non-empty segments, each behind the one before it. */
  ghost predicate Rising(q: seq<Seg>) {
    && (forall g :: g in q ==> g.TcpLen() > 0)
    && (forall i, j :: 0 <= i < j < |q| ==> q[i].Next() <= q[j].at)
  }

  ghost predicate AllClear(q: seq<Seg>, g: Seg) {
    forall h :: h in q ==> Clear(g, h)
  }

  ghost predicate Disjoint(u: seq<Seg>, a: seq<Seg>) {
    forall g, h :: g in u && h in a ==> Clear(g, h)
  }

  /** Both lists are sorted and no number is on both. */
  ghost predicate Sorted(u: seq<Seg>, a: seq<Seg>) {
    Rising(u) && Rising(a) && Disjoint(u, a)
  }

  // ---------------------------------------------------------------- moving a segment

  lemma {:induction false} RisingConcat(a: seq<Seg>, b: seq<Seg>)
    requires Rising(a) && Rising(b) && (a != [] && b != [] ==> Tail(a).Next() <= b[0].at)
    ensures Rising(a + b)
  {
    var q := a + b;
    forall i, j | 0 <= i < j < |q| ensures q[i].Next() <= q[j].at {
      if i < |a| <= j {
        assert a[i] in a && b[j - |a|] in b && Tail(a) in a && b[0] in b;
      }
    }
  }

  lemma {:induction false} RisingPart(q: seq<Seg>, k: int)
    requires Rising(q) && 0 <= k <= |q|
    ensures Rising(q[..k]) && Rising(q[k..])
  {
  }

  lemma {:induction false} InsertRising(q: seq<Seg>, g: Seg)
    requires Rising(q) && AllClear(q, g) && g.TcpLen() > 0
    ensures Rising(Insert(q, g))
  {
    var k := Before(q, g.at);
    RisingPart(q, k);
    assert k > 0 ==> Tail(q[..k]) == q[k - 1] && q[k - 1] in q;
    assert k < |q| ==> q[k..][0] == q[k] && q[k] in q;
    RisingConcat(q[..k], [g]);
    RisingConcat(q[..k] + [g], q[k..]);
  }

  lemma {:induction false} FileRising(q: seq<Seg>, g: Seg)
    requires Rising(q) && AllClear(q, g) && g.TcpLen() > 0
    ensures Rising(File(q, g))
  {
    if q != [] && g.at < Tail(q).at {
      InsertRising(q, g);
    } else {
      forall i | 0 <= i < |q| ensures q[i].Next() <= g.at {
        assert Tail(q) in q && q[i] in q;
      }
    }
  }

  lemma {:induction false} FileMembers(q: seq<Seg>, g: Seg)
    ensures forall x :: x in File(q, g) <==> x in q || x == g
    ensures forall x :: x in Insert(q, g) <==> x in q || x == g
  {
    InsertMembers(q, g, Before(q, g.at));
  }

  lemma {:induction false} RestClear(q: seq<Seg>)
    requires Rising(q) && q != []
    ensures Rising(q[1..]) && AllClear(q[1..], q[0])
  {
  }

  lemma {:induction false} SendFirstSorted(u: seq<Seg>, a: seq<Seg>)
    requires Sorted(u, a) && u != []
    ensures Sorted(u[1..], File(a, u[0]))
  {
    RestClear(u);
    assert u[0] in u;
    FileRising(a, u[0]);
    FileMembers(a, u[0]);
  }

  lemma {:induction false} InsertSorted(u: seq<Seg>, a: seq<Seg>)
    requires Sorted(u, a) && a != []
    ensures Sorted(Insert(u, a[0]), a[1..])
  {
    RestClear(a);
    assert a[0] in a;
    InsertRising(u, a[0]);
    FileMembers(u, a[0]);
  }

  /** Theorem: tcp_rexmit keeps both lists sorted. */
  lemma {:induction false} RexmitSorted(st: Snd)
    requires Sorted(st.unsent, st.unacked)
    ensures Sorted(Rexmit(st).unsent, Rexmit(st).unacked)
  {
    if st.unacked != [] { InsertSorted(st.unsent, st.unacked); }
  }

  lemma {:induction false} SentSorted(st: Snd)
    requires Sorted(st.unsent, st.unacked) && st.unsent != []
    ensures Sorted(SendFirst(st).unsent, SendFirst(st).unacked)
  {
    assert st.unsent[0] in st.unsent;
    SendFirstSorted(st.unsent, st.unacked);
  }

  /** Theorem: so does tcp_output, wherever it stops. */
  lemma {:induction false} OutputSorted(st: Snd, wnd: int, sends: nat)
    requires Sorted(st.unsent, st.unacked)
    ensures Sorted(Output(st, wnd, sends).unsent, Output(st, wnd, sends).unacked)
    decreases |st.unsent|
  {
    hide Joined, Insert, Before;
    if st.unsent != [] && Fits(st, wnd) && !Held(st) && sends > 0 {
      SentSorted(st);
      OutputSorted(SendFirst(st), wnd, sends - 1);
      assert Output(st, wnd, sends) == Output(SendFirst(st), wnd, sends - 1);
    } else {
      assert Output(st, wnd, sends).unsent == st.unsent && Output(st, wnd, sends).unacked == st.unacked;
    }
  }

  lemma {:induction false} ConcatRising(a: seq<Seg>, u: seq<Seg>)
    requires Sorted(u, a)
    ensures Rising(a + u) <==> a == [] || u == [] || Tail(a).at < u[0].at
  {
    if a != [] && u != [] {
      assert Tail(a) in a && u[0] in u && (a + u)[|a| - 1] == Tail(a) && (a + u)[|a|] == u[0];
      if Tail(a).at < u[0].at { RisingConcat(a, u); }
    } else {
      RisingConcat(a, u);
    }
  }

  /** Theorem: tcp_rexmit_rto puts the unacknowledged list in front of the unsent list as it is,
      so the result is sorted exactly when the two lists follow each other. */
  lemma {:induction false} RexmitRtoSorted(st: Snd)
    requires Sorted(st.unsent, st.unacked)
    ensures var st' := RexmitRto(st);
            Sorted(st'.unsent, st'.unacked) <==>
            st.unacked == [] || st.unsent == [] || Tail(st.unacked).at < st.unsent[0].at
  {
    ConcatRising(st.unacked, st.unsent);
  }

  lemma {:induction false} DropRising(q: seq<Seg>, ack: int)
    requires Rising(q)
    ensures Rising(DropAcked(q, ack)) && forall g :: g in DropAcked(q, ack) ==> g in q
  {
    hide Joined, Bytes, Bufs, DropAcked, Rising;
    DropIs(q, ack);
    RisingPart(q, |q| - |DropAcked(q, ack)|);
  }

  /** Theorem: an acknowledgement takes segments off the front of each list. */
  lemma {:induction false} AckSorted(st: Snd, ack: int)
    requires Sorted(st.unsent, st.unacked)
    ensures Sorted(Ack(st, ack).unsent, Ack(st, ack).unacked)
  {
    hide Joined, Bytes, Bufs, DropAcked, Rising;
    DropRising(st.unacked, ack);
    DropRising(st.unsent, ack);
  }

  // ---------------------------------------------------------------- writing and closing

  lemma {:induction false} TilesRising(q: seq<Seg>, s: seq<byte>, lo: int, hi: int, mss: int, n: nat)
    requires Tiles(q, s, lo, hi, mss, n)
    ensures Rising(q) && forall g :: g in q ==> lo <= g.at
    decreases |q|
  {
    TilesParts(q, s, lo, hi, mss, n);
    if q != [] {
      TilesRising(q[1..], s, q[0].End(), hi, mss, n);
      RisingConcat([q[0]], q[1..]);
      assert q == [q[0]] + q[1..];
    }
  }

  lemma {:induction false} GrownRising(u: seq<Seg>, g': Seg)
    requires Rising(u) && u != [] && g'.at == Tail(u).at && g'.TcpLen() > 0
    ensures Rising(u[|u| - 1 := g'])
  {
    var u' := u[|u| - 1 := g'];
    forall i, j | 0 <= i < j < |u'| ensures u'[i].Next() <= u'[j].at {
      assert u[i].Next() <= u[j].at;
    }
  }

  /** The last segment grows, if at all, from the end `limit` of everything queued. */
  lemma {:induction false} GrownSorted(u: seq<Seg>, a: seq<Seg>, g': Seg, limit: int)
    requires Sorted(u, a) && u != [] && g'.at == Tail(u).at && Tail(u).Next() <= g'.Next()
    requires g'.Next() == Tail(u).Next() || Tail(u).Next() == limit
    requires forall h :: h in a ==> h.Next() <= limit
    ensures Sorted(u[|u| - 1 := g'], a)
  {
    assert Tail(u) in u;
    GrownRising(u, g');
    forall g, h | g in u[|u| - 1 := g'] && h in a ensures Clear(g, h) {
      if g == g' { assert Clear(Tail(u), h); } else { assert g in u; }
    }
  }

  lemma {:induction false} BehindSorted(u: seq<Seg>, a: seq<Seg>, q: seq<Seg>, limit: int)
    requires Sorted(u, a) && Rising(q)
    requires forall g :: g in q ==> limit <= g.at
    requires forall h :: h in u || h in a ==> h.Next() <= limit
    ensures Sorted(u + q, a)
  {
    assert u != [] ==> Tail(u) in u;
    assert q != [] ==> q[0] in q;
    RisingConcat(u, q);
  }

  /** What a queue of an open stream promises about the ends of its segments. */
  lemma {:induction false} AllWithin(st: Snd, s: seq<byte>)
    requires Inv(st, s)
    ensures forall g :: g in st.unsent || g in st.unacked ==> 0 < g.TcpLen() && g.Next() <= Limit(st.open, s)
  {
    forall g | g in st.unsent || g in st.unacked ensures 0 < g.TcpLen() && g.Next() <= Limit(st.open, s) {
      assert g in Queued(st);
    }
  }

  lemma {:induction false} ToppedSorted(st: Snd, r: Request, s: seq<byte>)
    requires Inv(st, s) && Accepts(st, r) && Contiguous(st, r) && Sorted(st.unsent, st.unacked)
    ensures Sorted(Topped(st, r), st.unacked)
    ensures forall h :: h in Topped(st, r) ==> h.Next() <= |s| + Phase1(st, r) + Phase2(st, r)
  {
    AllWithin(st, s);
    if st.unsent != [] {
      ToppedIs(st, r);
      assert Tail(st.unsent) in st.unsent && Tail(st.unsent) in Queued(st);
      GrownSorted(st.unsent, st.unacked, Tail(Topped(st, r)), |s|);
    }
  }

  lemma {:induction false} PiecesSorted(u: seq<Seg>, a: seq<Seg>, r: Request, pos: int, s: seq<byte>)
    requires Sorted(u, a) && 0 <= pos <= |r.data| && r.mss > 0
    requires forall h :: h in u || h in a ==> h.Next() <= |s| + pos
    ensures Sorted(u + Pieces(r, pos, |s|), a)
  {
    PiecesTile(r, pos, s);
    TilesRising(Pieces(r, pos, |s|), s + r.data, |s| + pos, |s + r.data|, r.mss, PerSeg(r));
    BehindSorted(u, a, Pieces(r, pos, |s|), |s| + pos);
  }

  lemma {:induction false} AcceptsLbb(st: Snd, r: Request, s: seq<byte>)
    requires Inv(st, s) && Accepts(st, r)
    ensures st.lbb == |s| && Limit(st.open, s) == |s|
  {
  }

  /** Theorem: a contiguous write keeps both lists sorted. */
  lemma {:induction false} CommitSorted(st: Snd, r: Request, s: seq<byte>)
    requires Inv(st, s) && Accepts(st, r) && Contiguous(st, r) && Sorted(st.unsent, st.unacked)
    ensures Sorted(Committed(st, r).unsent, Committed(st, r).unacked)
  {
    hide Joined, Bytes, Bufs, Pieces, Spare, Sorted, Topped, SpareThen, Chained, Inv, Extends, Enough, Longer;
    AcceptsLbb(st, r, s);
    AllWithin(st, s);
    ToppedSorted(st, r, s);
    PiecesSorted(Topped(st, r), st.unacked, r, Phase1(st, r) + Phase2(st, r), s);
  }

  lemma {:induction false} MarkedSorted(u: seq<Seg>, a: seq<Seg>, limit: int)
    requires Sorted(u, a) && u != [] && !Tail(u).fin && Tail(u).End() == limit
    requires forall h :: h in a ==> h.Next() <= limit
    ensures Sorted(Marked(u), a)
  {
    GrownSorted(u, a, Tail(u).(fin := true), limit);
  }

  lemma {:induction false} BareSorted(a: seq<Seg>, at: int)
    requires Rising(a) && forall h :: h in a ==> h.Next() <= at
    ensures Sorted([Bare(at)], a)
  {
    BareEmpty(at);
  }

  lemma {:induction false} FinSorted(st: Snd, s: seq<byte>, allocs: nat)
    requires Inv(st, s) && st.open && TailLast(st) && Sorted(st.unsent, st.unacked)
    ensures var st' := SendFin(st, allocs).1; Sorted(st'.unsent, st'.unacked)
  {
    AllWithin(st, s);
    if st.unsent != [] {
      assert Tail(st.unsent) in Queued(st);
      MarkedSorted(st.unsent, st.unacked, |s|);
    } else {
      BareSorted(st.unacked, |s|);
      assert [] + [Bare(|s|)] == [Bare(|s|)];
    }
  }
}

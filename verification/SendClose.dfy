/** tcp_send_fin: when the FIN marks the end of the application's stream. */
module SendClose {
  import opened SeqNum
  import opened Common
  import opened SendSpec
  import opened SendRuns

  /** The list with FIN on its last segment. */
  function Marked(u: seq<Seg>): seq<Seg>
    requires u != []
  {
    u[|u| - 1 := Tail(u).(fin := true)]
  }

  /** A segment with nothing but a FIN. */
  function Bare(at: int): Seg {
    Seg(at, [Ram([])], true)
  }

  lemma {:induction false} BareEmpty(at: int)
    ensures Bare(at).Data() == []
  {
    FlatOne([]);
    assert Datas([Ram([])]) == [[]];
  }

  lemma {:induction false} MarkedCarries(u: seq<Seg>, s: seq<byte>, mss: int)
    requires u != [] && Tail(u).End() == |s|
    requires forall g :: g in u ==> Carries(g, s, mss, true)
    ensures forall g :: g in Marked(u) ==> Carries(g, s, mss, false)
  {
    assert Tail(u) in u;
    forall g | g in Marked(u) ensures Carries(g, s, mss, false) {
      assert g == Tail(u).(fin := true) || g in u;
    }
  }

  lemma {:induction false} MarkedOutlives(u: seq<Seg>, g: Seg)
    requires u != [] && g in u
    ensures exists x :: x in Marked(u) && x.at <= g.at && g.Next() <= x.Next()
  {
    var i :| 0 <= i < |u| && u[i] == g;
    assert Marked(u)[i] in Marked(u);
  }

  lemma {:induction false} BareAdds(u: seq<Seg>, at: int)
    ensures Bytes(u + [Bare(at)]) == Bytes(u) && Bufs(u + [Bare(at)]) == Bufs(u) + 1
  {
    SumConcat(u, [Bare(at)]);
    SumOne(Bare(at));
    BareEmpty(at);
  }

  lemma {:induction false} FinAccounted(st: Snd, allocs: nat)
    requires Accounted(st) && st.open
    ensures Accounted(SendFin(st, allocs).1)
  {
    hide Joined, Bytes, Bufs;
    if st.unsent != [] && !Tail(st.unsent).fin {
      SumTail(st.unsent, Tail(st.unsent).(fin := true));
    } else {
      BareAdds(st.unsent, st.lbb);
    }
  }

  lemma {:induction false} FinCarries(st: Snd, u: seq<Seg>, s: seq<byte>)
    requires Inv(st, s) && st.open
    requires if st.unsent == [] then u == [Bare(|s|)] else u == Marked(st.unsent) && TailLast(st)
    ensures var qs := Queued(st.(unsent := u));
            && (forall g :: g in qs ==> Carries(g, s, st.mss, false)) && Holds(qs, |s|)
            && (forall g :: g in Queued(st) ==> Outlives(g, qs))
  {
    BareEmpty(|s|);
    assert Tail(u) in u;
    if st.unsent != [] {
      MarkedCarries(st.unsent, s, st.mss);
      forall g | g in st.unsent ensures Outlives(g, Queued(st.(unsent := u))) {
        MarkedOutlives(st.unsent, g);
        var x :| x in u && x.at <= g.at && g.Next() <= x.Next();
        assert x in Queued(st.(unsent := u));
      }
    }
  }

  /** Theorem: queueing the FIN marks the end of the stream exactly when the last unsent segment,
      if any, is the end of the stream; when it runs out of memory it only says so. */
  lemma {:induction false} FinFaithful(st: Snd, s: seq<byte>, allocs: nat)
    requires Inv(st, s) && st.open
    ensures var (err, st') := SendFin(st, allocs);
            && (err.OK? ==> (Inv(st', s) <==> TailLast(st)))
            && (!err.OK? ==> st' == st.(memerr := true) && Inv(st', s))
  {
    hide Joined, Bytes, Bufs, Inv;
    var (err, st') := SendFin(st, allocs);
    if err.OK? && TailLast(st) {
      FinKeeps(st, s, allocs);
    } else if err.OK? {
      FinSpoils(st, s, allocs);
    } else {
      FlagInv(st, s);
    }
  }

  /** Theorem: closing fails exactly when the FIN needs a segment of its own and there is no memory for
      one; otherwise one FIN more is queued, and nothing can be written any more. */
  lemma {:induction false} FinAccepted(st: Snd, allocs: nat)
    ensures var (err, st') := SendFin(st, allocs);
            && (err == OK <==> (st.unsent != [] && !Tail(st.unsent).fin) || allocs >= 2)
            && (err == OK ==>
                 && st'.unsent != [] && Tail(st'.unsent).fin
                 && st' == st.(unsent := st'.unsent, lbb := st'.lbb, qlen := st'.qlen, oversize := st'.oversize,
                               open := false, finQueued := true)
                 && Bytes(st'.unsent) == Bytes(st.unsent)
                 && Bufs(st'.unsent) == Bufs(st.unsent) + if st.unsent != [] && !Tail(st.unsent).fin then 0 else 1)
  {
    hide Joined, Bytes, Bufs;
    if st.unsent != [] && !Tail(st.unsent).fin {
      SumTail(st.unsent, Tail(st.unsent).(fin := true));
    } else {
      BareAdds(st.unsent, st.lbb);
    }
  }

  lemma {:induction false} FlagInv(st: Snd, s: seq<byte>)
    requires Inv(st, s)
    ensures Inv(st.(memerr := true), s)
  {
    hide Joined, Bytes, Bufs;
    assert Queued(st.(memerr := true)) == Queued(st);
  }

  lemma {:induction false} FinKeeps(st: Snd, s: seq<byte>, allocs: nat)
    requires Inv(st, s) && st.open && TailLast(st) && SendFin(st, allocs).0.OK?
    ensures Inv(SendFin(st, allocs).1, s)
  {
    hide Joined, Bytes, Bufs, Carries, Accounted, Outlives, Spared, Covered, Holds, Queued;
    var st' := SendFin(st, allocs).1;
    FinTail(st, s);
    FinAccounted(st, allocs);
    FinSpared(st, allocs);
    FinCarries(st, st'.unsent, s);
    FinQueued(st, st');
    FinCovers(Queued(st), Queued(st'), st.una, |s|);
  }

  lemma {:induction false} FinSpared(st: Snd, allocs: nat)
    requires Spared(st, st.mss)
    ensures Spared(SendFin(st, allocs).1, st.mss)
  {
    hide Joined;
  }

  lemma {:induction false} FinCovers(qs: set<Seg>, qs': set<Seg>, una: int, n: int)
    requires Covered(qs, una, n) && (forall g :: g in qs ==> Outlives(g, qs')) && Holds(qs', n)
    ensures Covered(qs', una, n + 1)
  {
    hide Outlives, Holds;
    OutlivesKeeps(qs, qs', una, n);
  }

  lemma {:induction false} FinQueued(st: Snd, st': Snd)
    requires st'.unacked == st.unacked
    ensures Queued(st') == Queued(st.(unsent := st'.unsent))
  {
  }

  /** An open connection has no FIN queued. */
  lemma {:induction false} FinTail(st: Snd, s: seq<byte>)
    requires Inv(st, s) && st.open
    ensures st.unsent != [] ==> !Tail(st.unsent).fin
  {
    hide Joined, Bytes, Bufs;
    assert st.unsent != [] ==> Tail(st.unsent) in Queued(st);
  }

  lemma {:induction false} FinSpoils(st: Snd, s: seq<byte>, allocs: nat)
    requires Inv(st, s) && st.open && !TailLast(st)
    ensures !Inv(SendFin(st, allocs).1, s)
  {
    hide Joined, Bytes, Bufs, Accounted;
    FinTail(st, s);
    var st' := SendFin(st, allocs).1;
    assert Tail(st'.unsent) in Queued(st');
  }
}

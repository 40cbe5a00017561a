/** tcp_write as a transaction. */
module SendWrite {
  import opened SeqNum
  import opened Common
  import opened SendSpec
  import opened SendRuns

  // What it adds when it succeeds, and exactly when the result is again a faithful queue of the
  // application's stream.

  /** The data of a list of segments, in order. */
  function Payload(q: seq<Seg>): seq<byte> {
    if q == [] then [] else q[0].Data() + Payload(q[1..])
  }

  lemma {:induction false} PayloadConcat(a: seq<Seg>, b: seq<Seg>)
    ensures Payload(a + b) == Payload(a) + Payload(b)
    decreases |a|
  {
    if a == [] {
      assert a + b == b;
    } else {
      assert (a + b)[1..] == a[1..] + b;
      PayloadConcat(a[1..], b);
    }
  }

  lemma {:induction false} PayloadOne(g: Seg)
    ensures Payload([g]) == g.Data()
  {
    assert [g][1..] == [] && g.Data() + [] == g.Data();
  }

  // ---------------------------------------------------------------- the last segment

  lemma {:induction false} JoinedSnoc(bufs: seq<Buf>, b: Buf)
    ensures Joined(bufs + [b]) == Joined(bufs) + b.data
  {
    FlatConcat(Datas(bufs), [b.data]);
    FlatOne(b.data);
    assert Datas(bufs + [b]) == Datas(bufs) + [b.data];
  }

  lemma {:induction false} JoinedGrow(bufs: seq<Buf>, d: seq<byte>)
    requires bufs != []
    ensures Joined(Grow(bufs, d)) == Joined(bufs) + d && |Grow(bufs, d)| == |bufs|
  {
    hide Joined;
    var k := |bufs| - 1;
    JoinedSnoc(bufs[..k], bufs[k]);
    JoinedSnoc(bufs[..k], Grow(bufs, d)[k]);
    assert bufs == bufs[..k] + [bufs[k]] && Grow(bufs, d) == bufs[..k] + [Grow(bufs, d)[k]];
    assert Joined(bufs[..k]) + (bufs[k].data + d) == Joined(bufs[..k]) + bufs[k].data + d;
  }

  /** Phases 1 and 2 append the first bytes of the request to the last segment. */
  lemma {:induction false} LongerIs(bufs: seq<Buf>, r: Request, p1: int, p2: int, extend: bool)
    requires bufs != [] && 0 <= p1 <= p1 + p2 <= |r.data|
    ensures Joined(Longer(bufs, r, p1, p2, extend)) == Joined(bufs) + r.data[..p1 + p2]
    ensures |Longer(bufs, r, p1, p2, extend)| == |bufs| + if p2 > 0 && !extend then 1 else 0
  {
    hide Joined;
    var a, d := r.data[..p1], r.data[p1..p1 + p2];
    var b := if p1 > 0 then Grow(bufs, a) else bufs;
    assert Joined(b) == Joined(bufs) + a && |b| == |bufs| by { JoinedGrow(bufs, a); }
    assert Joined(b) + d == Joined(bufs) + r.data[..p1 + p2] by {
      assert a + d == r.data[..p1 + p2];
      assert Joined(bufs) + a + d == Joined(bufs) + (a + d);
    }
    if p2 == 0 {
      assert Joined(b) + d == Joined(b);
    } else if extend {
      JoinedGrow(b, d);
    } else {
      JoinedSnoc(b, Fresh(r, p1, d));
    }
  }

  // ---------------------------------------------------------------- the new segments

  /** A data segment of the stream `s`, at most `mss` long and in `n` buffers. */
  ghost predicate Part(g: Seg, s: seq<byte>, mss: int, n: nat) {
    Reads(s, g.at, g.Data()) && !g.fin && |g.bufs| == n && 0 < g.Len() <= mss
  }

  /** The segments `q` are parts of `s` that run from `lo` to `hi` without gap. */
  ghost predicate Tiles(q: seq<Seg>, s: seq<byte>, lo: int, hi: int, mss: int, n: nat) {
    if q == [] then lo == hi
    else q[0].at == lo && Part(q[0], s, mss, n) && Tiles(q[1..], s, q[0].End(), hi, mss, n)
  }

  lemma {:induction false} PieceIs(r: Request, pos: int, n: int, lbb: int)
    requires 0 <= pos <= pos + n <= |r.data|
    ensures var g := Piece(r, pos, n, lbb);
            g.at == lbb + pos && g.Data() == r.data[pos..pos + n] && !g.fin && |g.bufs| == PerSeg(r)
  {
    var b := Fresh(r, pos, r.data[pos..pos + n]);
    JoinedSnoc([], b);
    JoinedSnoc([], Ram([]));
    JoinedSnoc([Ram([])], b);
    assert [] + [b] == [b] && [] + [Ram([])] == [Ram([])] && [Ram([])] + [b] == [Ram([]), b];
    assert [] + b.data == b.data;
  }

  function PerSeg(r: Request): nat {
    if r.copy then 1 else 2
  }

  lemma {:induction false} PiecePart(r: Request, pos: int, n: int, s: seq<byte>)
    requires 0 <= pos < pos + n <= |r.data| && n <= r.mss
    ensures Part(Piece(r, pos, n, |s|), s + r.data, r.mss, PerSeg(r))
    ensures Piece(r, pos, n, |s|).End() == |s| + pos + n
  {
    PieceIs(r, pos, n, |s|);
    assert r.data[pos..pos + n] == (s + r.data)[|s| + pos..|s| + pos + n];
  }

  lemma {:induction false} PiecesTile(r: Request, pos: int, s: seq<byte>)
    requires 0 <= pos <= |r.data| && r.mss > 0
    ensures Tiles(Pieces(r, pos, |s|), s + r.data, |s| + pos, |s + r.data|, r.mss, PerSeg(r))
    decreases |r.data| - pos
  {
    hide Joined, Part, Piece;
    if pos < |r.data| {
      var n := Min(|r.data| - pos, r.mss);
      PieceIs(r, pos, n, |s|);
      PiecePart(r, pos, n, s);
      PiecesTile(r, pos + n, s);
      assert Pieces(r, pos, |s|)[1..] == Pieces(r, pos + n, |s|);
    }
  }

  lemma {:induction false} TilesParts(q: seq<Seg>, s: seq<byte>, lo: int, hi: int, mss: int, n: nat)
    requires Tiles(q, s, lo, hi, mss, n)
    ensures lo <= hi && Bytes(q) == hi - lo
    ensures forall g :: g in q ==> Part(g, s, mss, n) && lo <= g.at && g.End() <= hi
    decreases |q|
  {
    if q != [] {
      TilesParts(q[1..], s, q[0].End(), hi, mss, n);
      assert forall g :: g in q ==> g == q[0] || g in q[1..];
    }
  }

  lemma {:induction false} TilesPayload(q: seq<Seg>, s: seq<byte>, lo: int, hi: int, mss: int, n: nat)
    requires Tiles(q, s, lo, hi, mss, n) && 0 <= lo <= hi <= |s|
    ensures Payload(q) == s[lo..hi]
    decreases |q|
  {
    hide Joined, Bytes, Reads;
    if q != [] {
      TilesParts(q[1..], s, q[0].End(), hi, mss, n);
      TilesPayload(q[1..], s, q[0].End(), hi, mss, n);
      SplitAt(s, lo, q[0].End(), hi);
      ReadsIs(s, lo, q[0].Data());
    }
  }

  lemma {:induction false} ReadsIs(s: seq<byte>, at: int, b: seq<byte>)
    requires Reads(s, at, b)
    ensures 0 <= at <= at + |b| <= |s| && s[at..at + |b|] == b
  {
  }

  lemma {:induction false} SplitAt(s: seq<byte>, lo: int, mid: int, hi: int)
    requires 0 <= lo <= mid <= hi <= |s|
    ensures s[lo..hi] == s[lo..mid] + s[mid..hi]
  {
  }

  lemma {:induction false} TilesCover(q: seq<Seg>, s: seq<byte>, lo: int, hi: int, mss: int, n: nat, p: int)
    requires Tiles(q, s, lo, hi, mss, n) && lo <= p < hi
    ensures exists g :: g in q && g.at <= p < g.Next()
    decreases |q|
  {
    if p < q[0].End() {
      assert q[0] in q;
    } else {
      TilesCover(q[1..], s, q[0].End(), hi, mss, n, p);
      var g :| g in q[1..] && g.at <= p < g.Next();
      assert g in q;
    }
  }

  // ---------------------------------------------------------------- the transaction

  lemma {:induction false} ToppedIs(st: Snd, r: Request)
    requires Ready(st, r) && st.unsent != []
    ensures var g, g', pos := Tail(st.unsent), Tail(Topped(st, r)), Phase1(st, r) + Phase2(st, r);
            && Topped(st, r) == st.unsent[|st.unsent| - 1 := g']
            && g'.at == g.at && g'.fin == g.fin && g'.Data() == g.Data() + r.data[..pos]
            && g'.Len() <= r.mss && |g'.bufs| == |g.bufs| + Chained(st, r)
  {
    LongerIs(Tail(st.unsent).bufs, r, Phase1(st, r), Phase2(st, r), Extends(st, r));
  }

  lemma {:induction false} PiecesPayload(r: Request, pos: int, s: seq<byte>)
    requires 0 <= pos <= |r.data| && r.mss > 0
    ensures Payload(Pieces(r, pos, |s|)) == r.data[pos..]
  {
    PiecesTile(r, pos, s);
    TilesPayload(Pieces(r, pos, |s|), s + r.data, |s| + pos, |s + r.data|, r.mss, PerSeg(r));
    assert (s + r.data)[|s| + pos..|s + r.data|] == r.data[pos..];
  }

  lemma {:induction false} PiecesBytes(r: Request, pos: int, s: seq<byte>)
    requires 0 <= pos <= |r.data| && r.mss > 0
    ensures Bytes(Pieces(r, pos, |s|)) == |r.data| - pos
  {
    PiecesTile(r, pos, s);
    TilesParts(Pieces(r, pos, |s|), s + r.data, |s| + pos, |s + r.data|, r.mss, PerSeg(r));
  }

  lemma {:induction false} PayloadTail(q: seq<Seg>, g: Seg, d: seq<byte>)
    requires q != [] && g.Data() == Tail(q).Data() + d
    ensures Payload(q[|q| - 1 := g]) == Payload(q) + d
  {
    var k := |q| - 1;
    assert q == q[..k] + [q[k]] && q[k := g] == q[..k] + [g];
    PayloadConcat(q[..k], [q[k]]);
    PayloadConcat(q[..k], [g]);
    PayloadOne(q[k]);
    PayloadOne(g);
    assert Payload(q[..k]) + (q[k].Data() + d) == Payload(q[..k]) + q[k].Data() + d;
  }

  lemma {:induction false} TopPayload(st: Snd, r: Request)
    requires Ready(st, r)
    ensures Payload(Topped(st, r)) == Payload(st.unsent) + r.data[..Phase1(st, r) + Phase2(st, r)]
  {
    if st.unsent != [] {
      ToppedIs(st, r);
      PayloadTail(st.unsent, Tail(Topped(st, r)), r.data[..Phase1(st, r) + Phase2(st, r)]);
    }
  }

  lemma {:induction false} TopTotals(st: Snd, r: Request)
    requires Ready(st, r)
    ensures Bytes(Topped(st, r)) == Bytes(st.unsent) + Phase1(st, r) + Phase2(st, r)
    ensures Bufs(Topped(st, r)) == Bufs(st.unsent) + Chained(st, r)
  {
    if st.unsent != [] {
      ToppedIs(st, r);
      SumTail(st.unsent, Tail(Topped(st, r)));
    }
  }

  lemma {:induction false} Rejoin(p: seq<byte>, d: seq<byte>, k: int)
    requires 0 <= k <= |d|
    ensures p + d[..k] + d[k..] == p + d
  {
    assert d == d[..k] + d[k..];
    assert p + (d[..k] + d[k..]) == p + d[..k] + d[k..];
  }

  lemma {:induction false} JoinPayload(u: seq<Seg>, t: seq<Seg>, r: Request, pos: int, s: seq<byte>)
    requires 0 <= pos <= |r.data| && r.mss > 0 && Payload(t) == Payload(u) + r.data[..pos]
    ensures Payload(t + Pieces(r, pos, |s|)) == Payload(u) + r.data
  {
    PiecesPayload(r, pos, s);
    PayloadConcat(t, Pieces(r, pos, |s|));
    Rejoin(Payload(u), r.data, pos);
  }

  lemma {:induction false} CommitPayload(st: Snd, r: Request, s: seq<byte>)
    requires Ready(st, r) && st.lbb == |s|
    ensures Payload(Committed(st, r).unsent) == Payload(st.unsent) + r.data
  {
    hide Joined, Payload, Pieces, Spare, SpareThen, Topped, Extends, Chained, Bufs;
    TopPayload(st, r);
    JoinPayload(st.unsent, Topped(st, r), r, Phase1(st, r) + Phase2(st, r), s);
  }

  /** What a commit leaves alone. */
  lemma {:induction false} CommitRest(st: Snd, r: Request)
    requires Ready(st, r)
    ensures var st' := Committed(st, r);
            && st'.unacked == st.unacked && st'.una == st.una && st'.nxt == st.nxt && st'.mss == st.mss
            && st'.open == st.open && st'.lbb == st.lbb + |r.data| && st'.buf == st.buf - |r.data|
            && st'.memerr == st.memerr && st'.finQueued == st.finQueued && st'.nodelay == st.nodelay && st'.infr == st.infr
  {
  }

  lemma {:induction false} CommitAccounted(st: Snd, r: Request, s: seq<byte>)
    requires Ready(st, r) && st.lbb == |s| && Accounted(st)
    requires st.open && Enough(st, r) && (r.data != [] ==> |r.data| <= st.buf && st.qlen < TCP_SND_QUEUELEN)
    ensures Accounted(Committed(st, r))
  {
    hide Joined, Bytes, Pieces, Spare, Topped, SpareThen, Extends;
    PiecesBytes(r, Phase1(st, r) + Phase2(st, r), s);
    TopTotals(st, r);
    SumConcat(Topped(st, r), Segmented(st, r));
  }

  /** Theorem: a write that succeeds adds exactly the bytes given to the unsent data, accounts for
      them, respects the queue limit, and touches no segment already sent; one that fails changes
      nothing but the out-of-memory flag. */
  lemma {:induction false} WriteTransaction(st: Snd, r: Request, s: seq<byte>)
    requires Ready(st, r) && Accounted(st) && (st.open ==> st.lbb == |s|)
    ensures var (err, st') := Write(st, r);
            && (err.OK? ==>
                 && Payload(st'.unsent) == Payload(st.unsent) + r.data && st'.unacked == st.unacked
                 && Accounted(st') && st'.qlen <= TCP_SND_QUEUELEN && 0 <= st'.buf
                 && st'.lbb == st.lbb + |r.data|)
            && (err.MEM? ==> st' == st.(memerr := true))
            && (err.CONN? ==> st' == st && !st.open)
  {
    if Write(st, r).0.OK? {
      CommitPayload(st, r, s);
      CommitAccounted(st, r, s);
    }
  }

  // ---------------------------------------------------------------- when the queue stays faithful

  lemma {:induction false} LongerOwned(bufs: seq<Buf>, r: Request, p1: int, p2: int, extend: bool)
    requires bufs != [] && 0 <= p1 <= p1 + p2 <= |r.data|
    requires if p2 > 0 then r.copy && !extend else bufs[|bufs| - 1].Ram?
    ensures var b := Longer(bufs, r, p1, p2, extend); b != [] && b[|b| - 1].Ram?
  {
  }

  /** The room there is after phases 1 and 2. */
  lemma {:induction false} ToppedRoom(st: Snd, r: Request)
    requires Ready(st, r) && Spared(st, st.mss)
    ensures 0 <= SpareThen(st, r) && (SpareThen(st, r) > 0 ==> Room(Topped(st, r), SpareThen(st, r), r.mss))
    ensures Phase1(st, r) + Phase2(st, r) < |r.data| ==> SpareThen(st, r) == 0
    ensures Extends(st, r) ==> Phase1(st, r) == 0
  {
    if st.unsent != [] {
      ToppedIs(st, r);
      if SpareThen(st, r) > 0 {
        LongerOwned(Tail(st.unsent).bufs, r, Phase1(st, r), Phase2(st, r), Extends(st, r));
      }
    }
  }

  lemma {:induction false} CutSpare(st: Snd, r: Request, pos: int, spare: int, first: bool)
    requires 0 <= pos <= |r.data| && r.mss > 0 && 0 <= spare && (pos < |r.data| ==> spare == 0)
    ensures var spare', q := Spare(st, r, pos, spare, first), Pieces(r, pos, st.lbb);
            if q == [] then spare' == spare else 0 <= spare' && (spare' > 0 ==> Room(q, spare', r.mss))
    decreases |r.data| - pos
  {
    hide Joined, Piece, Room, Prealloc;
    if pos < |r.data| {
      var n := Min(|r.data| - pos, r.mss);
      var left, rest := if r.copy then Prealloc(st, r, n, r.mss, first) - n else spare, Pieces(r, pos + n, st.lbb);
      CutSpare(st, r, pos + n, left, false);
      PieceRoom(r, pos, n, st.lbb, left);
      if rest != [] { RoomBehind(Piece(r, pos, n, st.lbb), rest, Spare(st, r, pos + n, left, false), r.mss); }
      assert [Piece(r, pos, n, st.lbb)] + [] == [Piece(r, pos, n, st.lbb)];
    }
  }

  lemma {:induction false} PieceRoom(r: Request, pos: int, n: int, lbb: int, left: int)
    requires 0 <= pos <= pos + n <= |r.data| && left <= r.mss - n && (left > 0 ==> r.copy)
    ensures left > 0 ==> Room([Piece(r, pos, n, lbb)], left, r.mss)
  {
    hide Joined;
    PieceIs(r, pos, n, lbb);
  }

  lemma {:induction false} RoomBehind(g: Seg, q: seq<Seg>, n: int, mss: int)
    requires q != []
    ensures Room(q, n, mss) ==> Room([g] + q, n, mss)
  {
    assert Tail([g] + q) == Tail(q);
  }

  lemma {:induction false} PiecesSpared(st: Snd, r: Request, t: seq<Seg>, pos: int, spare: int)
    requires 0 <= pos <= |r.data| && 0 < r.mss && 0 <= spare && (pos < |r.data| ==> spare == 0)
    requires spare > 0 ==> Room(t, spare, r.mss)
    ensures var spare' := Spare(st, r, pos, spare, true);
            0 <= spare' && (spare' > 0 ==> Room(t + Pieces(r, pos, st.lbb), spare', r.mss))
  {
    CutSpare(st, r, pos, spare, true);
    if pos == |r.data| { assert t + Pieces(r, pos, st.lbb) == t; }
  }

  lemma {:induction false} CommitSpared(st: Snd, r: Request, mss: int)
    requires Ready(st, r) && Spared(st, st.mss) && r.mss <= mss
    ensures Spared(Committed(st, r), mss)
  {
    ToppedRoom(st, r);
    PiecesSpared(st, r, Topped(st, r), Phase1(st, r) + Phase2(st, r), SpareThen(st, r));
  }

  lemma {:induction false} ReadsMore(s: seq<byte>, d: seq<byte>, at: int, b: seq<byte>)
    requires Reads(s, at, b)
    ensures Reads(s + d, at, b)
  {
    assert (s + d)[at..at + |b|] == s[at..at + |b|];
  }

  lemma {:induction false} ReadsOn(s: seq<byte>, d: seq<byte>, at: int, b: seq<byte>, k: int)
    requires Reads(s, at, b) && 0 <= k <= |d| && (k == 0 || at + |b| == |s|)
    ensures Reads(s + d, at, b + d[..k])
  {
    if k == 0 {
      ReadsMore(s, d, at, b);
      assert b + d[..k] == b;
    } else {
      assert b + d[..k] == (s + d)[at..at + |b| + k];
    }
  }

  lemma {:induction false} CarriesMore(g: Seg, s: seq<byte>, d: seq<byte>, mss: int)
    requires Carries(g, s, mss, true)
    ensures Carries(g, s + d, mss, true)
  {
    ReadsMore(s, d, g.at, g.Data());
  }

  /** A segment whose replacement is as good, in a list with more segments behind. */
  lemma {:induction false} TopKeeps(u: seq<Seg>, g': Seg, s: seq<byte>, d: seq<byte>, k: int, mss: int)
    requires u != [] && 0 <= k <= |d| && (k == 0 || Tail(u).End() == |s|)
    requires forall g :: g in u ==> Carries(g, s, mss, true)
    requires var g := Tail(u);
             g'.at == g.at && g'.fin == g.fin && g'.Data() == g.Data() + d[..k] && g'.Len() <= mss && g'.bufs != []
    ensures forall g :: g in u[|u| - 1 := g'] ==> Carries(g, s + d, mss, true)
  {
    assert Tail(u) in u;
    ReadsOn(s, d, Tail(u).at, Tail(u).Data(), k);
    forall g | g in u[|u| - 1 := g'] ensures Carries(g, s + d, mss, true) {
      if g != g' { CarriesMore(g, s, d, mss); }
    }
  }

  lemma {:induction false} PiecesCarry(r: Request, pos: int, s: seq<byte>, mss: int)
    requires 0 <= pos <= |r.data| && 0 < r.mss <= mss
    ensures forall g :: g in Pieces(r, pos, |s|) ==> Carries(g, s + r.data, mss, true)
  {
    PiecesTile(r, pos, s);
    TilesParts(Pieces(r, pos, |s|), s + r.data, |s| + pos, |s + r.data|, r.mss, PerSeg(r));
  }

  lemma {:induction false} CommitCarries(st: Snd, r: Request, s: seq<byte>)
    requires Ready(st, r) && r.mss <= st.mss && st.open && st.lbb == |s|
    requires TailLast(st) || Phase1(st, r) + Phase2(st, r) == 0
    requires forall g :: g in st.unsent ==> Carries(g, s, st.mss, true)
    ensures forall g :: g in Committed(st, r).unsent ==> Carries(g, s + r.data, st.mss, true)
  {
    var pos := Phase1(st, r) + Phase2(st, r);
    if st.unsent != [] {
      ToppedIs(st, r);
      TopKeeps(st.unsent, Tail(Topped(st, r)), s, r.data, pos, st.mss);
    }
    PiecesCarry(r, pos, s, st.mss);
  }

  /** The number `p` of the request is in a segment of the new list. */
  lemma {:induction false} NewHeld(st: Snd, r: Request, s: seq<byte>, p: int)
    requires Ready(st, r) && st.lbb == |s| <= p < |s + r.data|
    requires TailLast(st) || Phase1(st, r) + Phase2(st, r) == 0
    ensures exists g :: g in Committed(st, r).unsent && g.at <= p < g.Next()
  {
    hide Joined, Pieces, Spare, SpareThen, Extends, Chained, Bufs, Longer;
    var pos, q := Phase1(st, r) + Phase2(st, r), Segmented(st, r);
    if p < |s| + pos {
      ToppedIs(st, r);
      assert Tail(Topped(st, r)) in Committed(st, r).unsent;
    } else {
      PiecesTile(r, pos, s);
      TilesCover(q, s + r.data, |s| + pos, |s + r.data|, r.mss, PerSeg(r), p);
      var g :| g in q && g.at <= p < g.Next();
      assert g in Committed(st, r).unsent;
    }
  }

  lemma {:induction false} CommitOutlives(st: Snd, r: Request, g: Seg)
    requires Ready(st, r) && g in Queued(st)
    ensures Outlives(g, Queued(Committed(st, r)))
  {
    hide Joined, Pieces, Spare, SpareThen, Phase1, Phase2, Extends, Longer, Chained, Bufs;
    var st' := Committed(st, r);
    if g in st.unacked {
      assert g in Queued(st');
    } else {
      ToppedIs(st, r);
      var i :| 0 <= i < |st.unsent| && st.unsent[i] == g;
      assert st'.unsent[i] == Topped(st, r)[i];
      assert st'.unsent[i] in Queued(st');
    }
  }

  lemma {:induction false} CommitCovered(st: Snd, r: Request, s: seq<byte>)
    requires Ready(st, r) && st.lbb == |s| && Covered(Queued(st), st.una, |s|)
    requires TailLast(st) || Phase1(st, r) + Phase2(st, r) == 0
    ensures Covered(Queued(Committed(st, r)), st.una, |s + r.data|)
  {
    var qs := Queued(Committed(st, r));
    forall g | g in Queued(st) ensures Outlives(g, qs) {
      CommitOutlives(st, r, g);
    }
    OutlivesKeeps(Queued(st), qs, st.una, |s|);
    forall p | st.una <= p < |s + r.data| ensures Holds(qs, p) {
      if p >= |s| {
        NewHeld(st, r, s, p);
        var g :| g in Committed(st, r).unsent && g.at <= p < g.Next();
        assert g in qs;
      }
    }
  }

  /** What a successful write checks before it starts. */
  ghost predicate Accepts(st: Snd, r: Request) {
    && st.open && Ready(st, r) && r.mss <= st.mss && Enough(st, r)
    && (r.data != [] ==> |r.data| <= st.buf && st.qlen < TCP_SND_QUEUELEN)
  }

  /** The bytes, if any, that are put behind the last unsent segment belong there. */
  ghost predicate Contiguous(st: Snd, r: Request) {
    TailLast(st) || Phase1(st, r) + Phase2(st, r) == 0
  }

  lemma {:induction false} CommitKeeps(st: Snd, r: Request, s: seq<byte>)
    requires Inv(st, s) && Accepts(st, r) && Contiguous(st, r)
    ensures Inv(Committed(st, r), s + r.data)
  {
    CommitAccounted(st, r, s);
    CommitSpared(st, r, st.mss);
    CommitCarries(st, r, s);
    CommitCovered(st, r, s);
    forall g | g in st.unacked ensures Carries(g, s + r.data, st.mss, true) {
      assert g in Queued(st);
      CarriesMore(g, s, r.data, st.mss);
    }
  }

  lemma {:induction false} SameShape(r: Request, d: seq<byte>, pos: int, lbb: int)
    requires |d| == |r.data| && 0 <= pos <= |d| && r.mss > 0
    ensures var q, q' := Pieces(r, pos, lbb), Pieces(r.(data := d), pos, lbb);
            |q| == |q'| && Bufs(q) == Bufs(q')
    decreases |d| - pos
  {
    hide Joined, Bufs, Piece;
    if pos < |d| {
      var n := Min(|d| - pos, r.mss);
      SameShape(r, d, pos + n, lbb);
      BufsFirst(r, pos, n, Pieces(r, pos + n, lbb), lbb);
      BufsFirst(r.(data := d), pos, n, Pieces(r.(data := d), pos + n, lbb), lbb);
    }
  }

  lemma {:induction false} BufsFirst(r: Request, pos: int, n: int, q: seq<Seg>, lbb: int)
    requires 0 <= pos <= pos + n <= |r.data|
    ensures Bufs([Piece(r, pos, n, lbb)] + q) == PerSeg(r) + Bufs(q)
  {
    hide Joined, Bufs;
    PieceIs(r, pos, n, lbb);
    SumConcat([Piece(r, pos, n, lbb)], q);
    SumOne(Piece(r, pos, n, lbb));
  }

  lemma {:induction false} SameAccepts(st: Snd, r: Request, d: seq<byte>)
    requires Accepts(st, r) && |d| == |r.data|
    ensures Accepts(st, r.(data := d)) && Contiguous(st, r.(data := d)) == Contiguous(st, r)
  {
    hide Joined, Bufs, Pieces;
    SameShape(r, d, Phase1(st, r) + Phase2(st, r), st.lbb);
  }

  lemma {:induction false} ReadsNext(s: seq<byte>, d: seq<byte>, at: int, b: seq<byte>, c: seq<byte>)
    requires Reads(s + d, at, b + c) && 0 <= at && at + |b| < |s| && c != []
    ensures c[0] == s[at + |b|]
  {
    assert (b + c)[|b|] == (s + d)[at..at + |b + c|][|b|];
  }

  lemma {:induction false} TailReads(st: Snd, r: Request, s: seq<byte>)
    requires Ready(st, r) && st.unsent != [] && Inv(Committed(st, r), s)
    ensures var g := Tail(st.unsent);
            Reads(s, g.at, g.Data() + r.data[..Phase1(st, r) + Phase2(st, r)])
  {
    ToppedIs(st, r);
    var g' := Tail(Topped(st, r));
    assert g' in Committed(st, r).unsent && g' in Queued(Committed(st, r));
  }

  /** A write whose first byte is not the one that belongs behind the last unsent segment. */
  lemma {:induction false} CommitSpoils(st: Snd, r: Request, s: seq<byte>)
    requires Ready(st, r) && !Contiguous(st, r)
    requires 0 <= Tail(st.unsent).at && Tail(st.unsent).End() < |s| && r.data != []
    requires r.data[0] != s[Tail(st.unsent).End()]
    ensures !Inv(Committed(st, r), s + r.data)
  {
    var g := Tail(st.unsent);
    if Inv(Committed(st, r), s + r.data) {
      TailReads(st, r, s + r.data);
      ReadsNext(s, r.data, g.at, g.Data(), r.data[..Phase1(st, r) + Phase2(st, r)]);
    }
  }

  /** Theorem: an accepted write leaves a faithful queue of the stream, whatever its bytes, exactly
      when the last unsent segment ends the stream or takes none of them. */
  lemma {:induction false} WriteFaithful(st: Snd, r: Request, s: seq<byte>)
    requires Inv(st, s) && Accepts(st, r)
    ensures Contiguous(st, r) <==>
            forall d :: |d| == |r.data| ==> Inv(Committed(st, r.(data := d)), s + d)
  {
    if Contiguous(st, r) {
      forall d | |d| == |r.data| ensures Inv(Committed(st, r.(data := d)), s + d) {
        SameAccepts(st, r, d);
        CommitKeeps(st, r.(data := d), s);
      }
    } else {
      assert Tail(st.unsent) in Queued(st);
      var b := if s[Tail(st.unsent).End()] == 0 then 1 else 0;
      var d := seq(|r.data|, _ => b);
      SameAccepts(st, r, d);
      CommitSpoils(st, r.(data := d), s);
    }
  }
}

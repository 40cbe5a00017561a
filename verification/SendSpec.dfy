/** The sending side of a TCP connection over absolute stream positions: tcp_write, tcp_send_fin,
    tcp_output, tcp_rexmit, tcp_rexmit_rto and the acknowledgement half of tcp_receive.

    Positions are unbounded integers; TcpSend refines these functions with 32-bit sequence
    numbers and loops. */
module SendSpec {
  import opened SeqNum
  import opened Common

  const TCP_MSS := 1460
  const TCP_SND_BUF := 5840      // 4 * TCP_MSS
  const TCP_SND_QUEUELEN := 16   // (4 * TCP_SND_BUF + TCP_MSS - 1) / TCP_MSS
  const TCP_OVERSIZE := TCP_MSS

  /** A packet buffer: a copy of the data, or a reference to it at address `addr`. */
  datatype Buf = Ram(data: seq<byte>) | Rom(data: seq<byte>, addr: int)

  function Datas(bufs: seq<Buf>): seq<seq<byte>> {
    seq(|bufs|, i requires 0 <= i < |bufs| => bufs[i].data)
  }

  function Joined(bufs: seq<Buf>): seq<byte> {
    Flat(Datas(bufs))
  }

  /** A segment at stream position `at`; FIN, if set, occupies the position after the data. */
  datatype Seg = Seg(at: int, bufs: seq<Buf>, fin: bool) {
    function Data(): seq<byte> { Joined(bufs) }
    function Len(): nat { |Data()| }
    function End(): int { at + Len() }
    /** TCP_TCPLEN */
    function TcpLen(): nat { Len() + if fin then 1 else 0 }
    function Next(): int { at + TcpLen() }
  }

  function Bytes(q: seq<Seg>): nat {
    if q == [] then 0 else q[0].Len() + Bytes(q[1..])
  }

  /** Number of packet buffers on a list. */
  function Bufs(q: seq<Seg>): nat {
    if q == [] then 0 else |q[0].bufs| + Bufs(q[1..])
  }

  /** The sender's half of a connection.  `una` is the position of lastack; `open` says the
      state allows tcp_write; `memerr`, `finQueued`, `nodelay` and `infr` are flags. */
  datatype Snd = Snd(unsent: seq<Seg>, unacked: seq<Seg>, lbb: int, nxt: int, una: int,
                     buf: int, qlen: int, oversize: int, mss: int, open: bool,
                     memerr: bool, finQueued: bool, nodelay: bool, infr: bool)

  // ---------------------------------------------------------------- tcp_write

  /** What tcp_write was asked for; `mss` is the local segment limit and `allocs` the number of
      allocations that succeed before the first that fails. */
  datatype Request = Request(data: seq<byte>, addr: int, copy: bool, more: bool, mss: int, allocs: nat)

  /** The segment limit of a write: half the largest window ever offered, if that is less. */
  function LocalMss(mss: u16, wndMax: u16): (m: u16)
    ensures m <= mss && (m == mss || 2 * (m + 1) > wndMax)
    ensures if wndMax < 2 then m == mss else 2 * m <= wndMax
  {
    var m := if wndMax / 2 < mss then wndMax / 2 else mss;
    if m == 0 then mss else m
  }

  datatype Err = OK | CONN | MEM

  function Tail(q: seq<Seg>): Seg
    requires q != []
  {
    q[|q| - 1]
  }

  /** Bytes that go into the preallocated room of the last unsent segment. */
  function Phase1(st: Snd, r: Request): int {
    if st.unsent == [] || st.oversize == 0 then 0
    else Min(r.mss - Tail(st.unsent).Len(), Min(st.oversize, |r.data|))
  }

  /** Bytes that are chained to the last unsent segment. */
  function Phase2(st: Snd, r: Request): int {
    if st.unsent == [] then 0
    else
      var tail, pos := Tail(st.unsent), Phase1(st, r);
      var space := r.mss - tail.Len() - pos;
      if pos < |r.data| && space > 0 && tail.Len() > 0 then Min(space, |r.data| - pos) else 0
  }

  /** The last buffer ends where the caller's data starts: it can be extended. */
  predicate Extends(st: Snd, r: Request) {
    && !r.copy && st.unsent != [] && Tail(st.unsent).bufs != []
    && var b := Tail(st.unsent).bufs[|Tail(st.unsent).bufs| - 1];
       b.Rom? && b.addr + |b.data| == r.addr
  }

  /** `data` added to the end of the last buffer. */
  function Grow(bufs: seq<Buf>, data: seq<byte>): seq<Buf>
    requires bufs != []
  {
    var k := |bufs| - 1;
    bufs[k := bufs[k].(data := bufs[k].data + data)]
  }

  /** A new buffer for `data`, which is at offset `pos` of the request. */
  function Fresh(r: Request, pos: int, data: seq<byte>): Buf {
    if r.copy then Ram(data) else Rom(data, r.addr + pos)
  }

  /** The last unsent segment with `p1` bytes in its spare room and `p2` more behind. */
  function Longer(bufs: seq<Buf>, r: Request, p1: int, p2: int, extend: bool): seq<Buf>
    requires bufs != [] && 0 <= p1 <= p1 + p2 <= |r.data|
  {
    var b := if p1 > 0 then Grow(bufs, r.data[..p1]) else bufs;
    if p2 == 0 then b
    else if extend then Grow(b, r.data[p1..p1 + p2])
    else b + [Fresh(r, p1, r.data[p1..p1 + p2])]
  }

  /** LWIP_MEM_ALIGN_SIZE: the next multiple of 4. */
  function Aligned(n: nat): (r: nat)
    ensures n <= r < n + 4
  {
    if n == 0 then 0 else if n < 4 then 4 else 4 + Aligned(n - 4)
  }

  /** Size of the buffer that tcp_pbuf_prealloc takes for `len` bytes, at most `max`. */
  function Prealloc(st: Snd, r: Request, len: int, max: int, first: bool): (n: int)
    requires 0 <= len
    ensures len <= max ==> len <= n <= max
  {
    if len < max && (r.more || (!st.nodelay && (!first || st.unsent != [] || st.unacked != [])))
    then Min(max, Aligned(len + TCP_OVERSIZE)) else len
  }

  /** The segment for the bytes from `pos` up to `pos + n`. */
  function Piece(r: Request, pos: int, n: int, lbb: int): Seg
    requires 0 <= pos <= pos + n <= |r.data|
  {
    var b := Fresh(r, pos, r.data[pos..pos + n]);
    Seg(lbb + pos, if r.copy then [b] else [Ram([]), b], false)
  }

  /** Phase 3: the data from `pos` on, cut into segments. */
  function Pieces(r: Request, pos: int, lbb: int): seq<Seg>
    requires 0 <= pos <= |r.data| && r.mss > 0
    decreases |r.data| - pos
  {
    if pos == |r.data| then []
    else
      var n := Min(|r.data| - pos, r.mss);
      [Piece(r, pos, n, lbb)] + Pieces(r, pos + n, lbb)
  }

  /** Spare room behind the last segment made in phase 3; `spare` and `first` tell of the room
      there was before and whether no segment was made yet. */
  function Spare(st: Snd, r: Request, pos: int, spare: int, first: bool): int
    requires 0 <= pos <= |r.data| && r.mss > 0
    decreases |r.data| - pos
  {
    if pos == |r.data| then spare
    else
      var n := Min(|r.data| - pos, r.mss);
      Spare(st, r, pos + n, if r.copy then Prealloc(st, r, n, r.mss, first) - n else spare, false)
  }

  /** Spare room after phases 1 and 2. */
  function SpareThen(st: Snd, r: Request): int {
    var p1, p2 := Phase1(st, r), Phase2(st, r);
    if st.unsent == [] then 0
    else if p2 > 0 && r.copy then Prealloc(st, r, p2, r.mss - Tail(st.unsent).Len() - p1, true) - p2
    else st.oversize - p1
  }

  /** What phase 2 allocates: nothing, or one buffer. */
  function Chained(st: Snd, r: Request): nat {
    if Phase2(st, r) > 0 && !Extends(st, r) then 1 else 0
  }

  /** The assertions of tcp_write about the last unsent segment. */
  predicate Ready(st: Snd, r: Request) {
    && r.mss > 0 && |r.data| < 0x1_0000
    && (st.unsent != [] ==>
         && Tail(st.unsent).bufs != [] && Tail(st.unsent).Len() <= r.mss
         && 0 <= st.oversize <= r.mss - Tail(st.unsent).Len())
    && (st.unsent == [] ==> st.oversize == 0)
  }

  /** The list of unsent segments after phases 1 and 2. */
  function Topped(st: Snd, r: Request): seq<Seg>
    requires Ready(st, r)
  {
    if st.unsent == [] then []
    else
      var k := |st.unsent| - 1;
      st.unsent[k := st.unsent[k].(bufs :=
        Longer(st.unsent[k].bufs, r, Phase1(st, r), Phase2(st, r), Extends(st, r)))]
  }

  /** The new segments of a write in which nothing fails. */
  function Segmented(st: Snd, r: Request): seq<Seg>
    requires Ready(st, r)
  {
    Pieces(r, Phase1(st, r) + Phase2(st, r), st.lbb)
  }

  function Committed(st: Snd, r: Request): Snd
    requires Ready(st, r)
  {
    var q := Segmented(st, r);
    st.(unsent := Topped(st, r) + q, lbb := st.lbb + |r.data|, buf := st.buf - |r.data|,
        qlen := st.qlen + Chained(st, r) + Bufs(q),
        oversize := Spare(st, r, Phase1(st, r) + Phase2(st, r), SpareThen(st, r), true))
  }

  /** Allocations for `n` new segments: buffers and the segment structure. */
  function Price(r: Request, n: nat): nat {
    if r.copy then 2 * n else 3 * n
  }

  /** Every allocation succeeds and the queue stays within its limit. */
  predicate Enough(st: Snd, r: Request)
    requires Ready(st, r)
  {
    var q := Segmented(st, r);
    && Chained(st, r) + Price(r, |q|) <= r.allocs
    && (q != [] ==> st.qlen + Chained(st, r) + Bufs(q) <= TCP_SND_QUEUELEN)
  }

  /** tcp_write */
  function Write(st: Snd, r: Request): (Err, Snd)
    requires Ready(st, r)
  {
    if !st.open then (CONN, st)
    else if r.data != [] && (|r.data| > st.buf || st.qlen >= TCP_SND_QUEUELEN) then
      (MEM, st.(memerr := true))
    else if Enough(st, r) then (OK, Committed(st, r))
    else (MEM, st.(memerr := true))
  }

  // ---------------------------------------------------------------- closing and sending

  /** tcp_send_fin, and tcp_enqueue_flags when the FIN needs a segment of its own; on success the
      caller leaves the states that allow tcp_write. */
  function SendFin(st: Snd, allocs: nat): (Err, Snd) {
    if st.unsent != [] && !Tail(st.unsent).fin then
      var k := |st.unsent| - 1;
      (OK, st.(unsent := st.unsent[k := st.unsent[k].(fin := true)], finQueued := true, open := false))
    else if allocs < 2 then (MEM, st.(memerr := true))
    else
      (OK, st.(unsent := st.unsent + [Seg(st.lbb, [Ram([])], true)], oversize := 0,
               lbb := st.lbb + 1, qlen := st.qlen + 1, finQueued := true, open := false))
  }

  /** Number of leading segments that start before position `at`. */
  function Before(q: seq<Seg>, at: int): (k: nat)
    ensures k <= |q|
    ensures forall i :: 0 <= i < k ==> q[i].at < at
    ensures k < |q| ==> at <= q[k].at
  {
    if q == [] || at <= q[0].at then 0 else 1 + Before(q[1..], at)
  }

  function Insert(q: seq<Seg>, s: Seg): seq<Seg> {
    var k := Before(q, s.at);
    q[..k] + [s] + q[k..]
  }

  /** A segment just sent goes on the unacknowledged list: behind it, or to its place. */
  function File(q: seq<Seg>, s: Seg): seq<Seg> {
    if q != [] && s.at < Tail(q).at then Insert(q, s) else q + [s]
  }

  /** The Nagle algorithm holds the first unsent segment back. */
  predicate Held(st: Snd)
    requires st.unsent != []
  {
    && !(st.unacked == [] || st.nodelay || st.infr || |st.unsent| > 1 || st.unsent[0].Len() >= st.mss
         || st.buf == 0 || st.qlen >= TCP_SND_QUEUELEN)
    && !(st.memerr || st.finQueued)
  }

  /** The first unsent segment is inside the window `wnd`. */
  predicate Fits(st: Snd, wnd: int)
    requires st.unsent != []
  {
    0 <= st.unsent[0].at - st.una + st.unsent[0].Len() <= wnd
  }

  /** The first unsent segment is sent. */
  function SendFirst(st: Snd): Snd
    requires st.unsent != []
  {
    var s := st.unsent[0];
    st.(unsent := st.unsent[1..], nxt := Max(st.nxt, s.Next()),
        unacked := if s.TcpLen() > 0 then File(st.unacked, s) else st.unacked)
  }

  /** tcp_output from its loop on; `sends` is the number of segments the network takes before it
      refuses one. */
  function Output(st: Snd, wnd: int, sends: nat): Snd
    decreases |st.unsent|
  {
    if st.unsent == [] then st.(oversize := 0, memerr := false)
    else if !Fits(st, wnd) || Held(st) then st.(memerr := false)
    else if sends == 0 then st.(memerr := true)
    else Output(SendFirst(st), wnd, sends - 1)
  }

  /** tcp_rexmit: the first unacknowledged segment goes back to the unsent list. */
  function Rexmit(st: Snd): Snd {
    if st.unacked == [] then st
    else
      var u := Insert(st.unsent, st.unacked[0]);
      st.(unacked := st.unacked[1..], unsent := u,
          oversize := if Before(st.unsent, st.unacked[0].at) == |st.unsent| then 0 else st.oversize)
  }

  /** tcp_rexmit_rto, before it calls tcp_output. */
  function RexmitRto(st: Snd): Snd {
    st.(unsent := st.unacked + st.unsent, unacked := [])
  }

  /** Drop the leading segments that `ack` covers. */
  function DropAcked(q: seq<Seg>, ack: int): seq<Seg> {
    if q != [] && q[0].Next() <= ack then DropAcked(q[1..], ack) else q
  }

  /** The acknowledgement half of tcp_receive. */
  function Ack(st: Snd, ack: int): Snd {
    var isNew := st.una < ack <= st.nxt;
    var a := if isNew then DropAcked(st.unacked, ack) else st.unacked;
    var u := if ack <= st.nxt then DropAcked(st.unsent, ack) else st.unsent;
    st.(una := if isNew then ack else st.una, unacked := a, unsent := u,
        oversize := if u == [] && st.unsent != [] then 0 else st.oversize,
        infr := st.infr && !isNew,
        buf := st.buf + (Bytes(st.unacked) - Bytes(a)) + (Bytes(st.unsent) - Bytes(u)),
        qlen := st.qlen - (Bufs(st.unacked) - Bufs(a)) - (Bufs(st.unsent) - Bufs(u)))
  }
}

/** The ring buffer of the FTP server, sfifo_init and sfifo_write, and its consumer send_data.

    Positions run from 0 to the size, both included; the number of bytes in the buffer is the
    difference of the positions under the mask `size - 1`. */
module Sfifo {
  import opened SeqNum
  import opened Common

  // ---------------------------------------------------------------- masks

  predicate PowerOf2(size: nat) {
    size == 1 || (size > 1 && size % 2 == 0 && PowerOf2(size / 2))
  }

  /** `d & (size - 1)` in two's complement, for a power of 2: the low bits of `d`. */
  function Masked(d: int, size: nat): nat
    decreases size
  {
    if size <= 1 then 0 else d % 2 + 2 * Masked(d / 2, size / 2)
  }

  lemma {:induction false} MaskSmall(d: int, size: nat)
    requires PowerOf2(size) && 0 <= d < size
    ensures Masked(d, size) == d
    decreases size
  {
    if size > 1 { MaskSmall(d / 2, size / 2); }
  }

  lemma {:induction false} MaskPeriod(d: int, size: nat)
    requires PowerOf2(size)
    ensures Masked(d + size, size) == Masked(d, size)
    decreases size
  {
    if size > 1 {
      var h := size / 2;
      Halved(d, h);
      MaskPeriod(d / 2, h);
    }
  }

  lemma {:induction false} Halved(d: int, h: nat)
    ensures (d + 2 * h) % 2 == d % 2 && (d + 2 * h) / 2 == d / 2 + h
  {
  }

  /** The true number of bytes between two positions. */
  function Distance(r: int, w: int, size: int): int {
    if w - r == size || r - w == size then 0 else if w >= r then w - r else w - r + size
  }

  /** Theorem: the masked difference is the true count, also when a position rests at `size`. */
  lemma {:induction false} MaskedDistance(r: int, w: int, size: nat)
    requires PowerOf2(size) && 0 <= r <= size && 0 <= w <= size
    ensures Masked(w - r, size) == Distance(r, w, size)
  {
    MaskPeriod(w - r, size);
    MaskPeriod(w - r - size, size);
    if size > 0 { MaskSmall(0, size); }
    MaskSmall(Distance(r, w, size), size);
  }

  // ---------------------------------------------------------------- contents

  /** The bytes between the positions. */
  function Content(buf: seq<byte>, r: nat, w: nat): seq<byte>
    requires r <= |buf| && w <= |buf|
  {
    if r <= w then if w - r == |buf| then [] else buf[r..w] else buf[r..] + buf[..w]
  }

  lemma {:induction false} ContentSize(buf: seq<byte>, r: nat, w: nat)
    requires r <= |buf| && w <= |buf|
    ensures |Content(buf, r, w)| == Distance(r, w, |buf|)
  {
  }

  /** Bytes written at the write position, without reaching the end of the buffer. */
  lemma {:induction false} Appends(buf: seq<byte>, r: nat, w: nat, data: seq<byte>)
    requires r <= |buf| && w + |data| <= |buf| && |data| < |buf| - Distance(r, w, |buf|)
    ensures Content(Splice(buf, w, data), r, w + |data|) == Content(buf, r, w) + data
  {
    var b := Splice(buf, w, data);
    if data == [] {
      assert b == buf && Content(buf, r, w) + [] == Content(buf, r, w);
    } else if r <= w && w - r < |buf| {
      assert b[r..w + |data|] == buf[r..w] + data;
    } else if r == 0 && w == |buf| {
      assert false;
    } else {
      assert b[r..] == buf[r..] && b[..w + |data|] == buf[..w] + data;
      assert buf[r..] + (buf[..w] + data) == buf[r..] + buf[..w] + data;
    }
  }

  /** The write position at the end of the buffer is the one at its start. */
  lemma {:induction false} WrapWrite(buf: seq<byte>, r: nat)
    requires r <= |buf|
    ensures Content(buf, r, |buf|) == Content(buf, r, 0)
  {
    assert buf[r..|buf|] == buf[r..] + buf[..0];
  }

  lemma {:induction false} Cut(s: seq<byte>, a: nat, b: nat, c: nat)
    requires a <= b <= c <= |s|
    ensures s[a..c] == s[a..b] + s[b..c]
  {
  }

  lemma {:induction false} CutTail(s: seq<byte>, a: nat, b: nat)
    requires a <= b <= |s|
    ensures s[a..] == s[a..b] + s[b..]
  {
  }

  lemma {:induction false} Regroup(a: seq<byte>, b: seq<byte>, c: seq<byte>)
    ensures a + b + c == a + (b + c)
  {
  }

  lemma {:induction false} RemovesLow(buf: seq<byte>, r: nat, w: nat, n: nat)
    requires w <= |buf| && r + n <= w && w - r < |buf|
    ensures Content(buf, r, w) == buf[r..r + n] + Content(buf, r + n, w)
  {
    Cut(buf, r, r + n, w);
  }

  lemma {:induction false} RemovesHigh(buf: seq<byte>, r: nat, w: nat, n: nat)
    requires w < r && r + n <= |buf|
    ensures Content(buf, r, w) == buf[r..r + n] + Content(buf, r + n, w)
  {
    CutTail(buf, r, r + n);
    Regroup(buf[r..r + n], buf[r + n..], buf[..w]);
  }

  /** Bytes taken at the read position, without passing the end of the buffer. */
  lemma {:induction false} Removes(buf: seq<byte>, r: nat, w: nat, n: nat)
    requires w <= |buf| && r + n <= |buf| && n <= Distance(r, w, |buf|)
    ensures Content(buf, r, w) == buf[r..r + n] + Content(buf, r + n, w)
  {
    hide Content;
    if n == 0 {
      Regroup([], [], Content(buf, r, w));
    } else if r <= w {
      RemovesLow(buf, r, w, n);
    } else {
      RemovesHigh(buf, r, w, n);
    }
  }

  lemma {:induction false} WrapRead(buf: seq<byte>, w: nat)
    requires w <= |buf|
    ensures Content(buf, |buf|, w) == Content(buf, 0, w)
  {
    assert buf[|buf|..] + buf[..w] == buf[0..w];
  }

  // ---------------------------------------------------------------- the buffer

  /** memcpy into the buffer. */
  method CopyIn(a: array<byte>, at: nat, data: seq<byte>)
    requires at + |data| <= a.Length
    modifies a
    ensures a[..] == Splice(old(a[..]), at, data)
  {
    forall k | 0 <= k < |data| {
      a[at + k] := data[k];
    }
  }

  class Fifo {
    const buffer: array<byte>
    var readpos: nat
    var writepos: nat
    /** Every byte ever accepted by Write, and every byte TCP took. */
    ghost var accepted: seq<byte>
    ghost var sent: seq<byte>

    ghost predicate Valid()
      reads this, buffer
    {
      && PowerOf2(buffer.Length) && readpos <= buffer.Length && writepos <= buffer.Length
      && accepted == sent + Content(buffer[..], readpos, writepos)
    }

    ghost function Held(): seq<byte>
      requires Valid()
      reads this, buffer
    {
      Content(buffer[..], readpos, writepos)
    }

    /** sfifo_init: the least power of 2 that is greater than `want`. */
    constructor (want: int)
      requires want < 0x4000_0000
      ensures Valid() && fresh(buffer) && accepted == [] && sent == []
      ensures want < buffer.Length < 0x8000_0000 && (buffer.Length == 1 || buffer.Length / 2 <= want)
    {
      var size := 1;
      while size <= want
        invariant PowerOf2(size) && 1 <= size < 0x8000_0000 && (size == 1 || size / 2 <= want)
        decreases want - size
      {
        size := size * 2;
      }
      buffer := new byte[size](_ => 0);
      readpos, writepos, accepted, sent := 0, 0, [], [];
    }

    /** sfifo_used */
    method Used() returns (n: nat)
      requires Valid()
      ensures n == |Held()| < buffer.Length
    {
      MaskedDistance(readpos, writepos, buffer.Length);
      ContentSize(buffer[..], readpos, writepos);
      n := Masked(writepos - readpos, buffer.Length);
    }

    /** sfifo_write: takes as many bytes as there is room for. */
    method Write(data: seq<byte>) returns (total: nat)
      requires Valid()
      modifies this, buffer
      ensures Valid() && sent == old(sent)
      ensures total == Min(|data|, buffer.Length - 1 - |old(Held())|)
      ensures Held() == old(Held()) + data[..total]
    {
      hide Content, PowerOf2;
      var used := Used();
      total := Min(|data|, buffer.Length - 1 - used);
      ghost var held := Held();
      var i, rest := writepos, data[..total];
      ContentSize(buffer[..], readpos, writepos);
      if i + total > buffer.Length {
        var n := buffer.Length - i;
        Appends(buffer[..], readpos, i, rest[..n]);
        CopyIn(buffer, i, rest[..n]);
        WrapWrite(buffer[..], readpos);
        Rejoins(held, rest, n);
        rest, i := rest[n..], 0;
        ContentSize(buffer[..], readpos, 0);
      }
      Appends(buffer[..], readpos, i, rest);
      CopyIn(buffer, i, rest);
      writepos := i + |rest|;
      accepted := accepted + data[..total];
      Regroup(sent, held, data[..total]);
    }

    /** The next `n` bytes, up to the end of the buffer at most, go to TCP. */
    method Pass(n: nat) returns (part: seq<byte>)
      requires Valid() && readpos + n <= buffer.Length && n <= |Held()|
      modifies this`readpos, this`sent
      ensures Valid() && sent == old(sent) + part && |part| == n && readpos == old(readpos) + n
      ensures old(Held()) == part + Held()
    {
      hide Content, PowerOf2;
      ghost var buf := buffer[..];
      ContentSize(buf, readpos, writepos);
      Removes(buf, readpos, writepos, n);
      part := buffer[readpos..readpos + n];
      Regroup(sent, part, Content(buf, readpos + n, writepos));
      readpos, sent := readpos + n, sent + part;
    }

    /** The read position goes from the end of the buffer to its start. */
    method Rewind()
      requires Valid() && readpos == buffer.Length
      modifies this`readpos
      ensures Valid() && Held() == old(Held()) && readpos == 0
    {
      hide Content, PowerOf2;
      WrapRead(buffer[..], writepos);
      readpos := 0;
    }

    /** send_data: passes on what TCP has room for, in two parts if the data runs over the end of
        the buffer; `ok1` and `ok2` say whether tcp_write accepts the first and the second part.
        What was accepted is gone from the buffer, and nothing else. */
    method SendData(sndbuf: u16, ok1: bool, ok2: bool) returns (taken: seq<byte>)
      requires Valid()
      modifies this
      ensures Valid() && accepted == old(accepted) && sent == old(sent) + taken
      ensures old(Held()) == taken + Held()
      ensures var n, upper := Min(sndbuf, |old(Held())|), buffer.Length - old(readpos);
              |taken| == if n > upper then (if !ok1 then 0 else if !ok2 then upper else n) else if ok2 then n else 0
    {
      hide Content, PowerOf2;
      taken := [];
      var used := Used();
      if used > 0 {
        var len := Min(sndbuf, used);
        if readpos + len > buffer.Length {
          if !ok1 { return; }
          var n := buffer.Length - readpos;
          taken := Pass(n);
          Rewind();
          len := len - n;
        }
        if !ok2 { return; }
        var part := Pass(len);
        Regroup(old(sent), taken, part);
        Regroup(taken, part, Held());
        taken := taken + part;
      }
    }
  }

  // ---------------------------------------------------------------- sizes

  /** `x << 1` in 32 bits. */
  function Twice(x: int): int {
    var y := 2 * x;
    if y >= 0x8000_0000 then y - 0x1_0000_0000 else if y < -0x8000_0000 then y + 0x1_0000_0000 else y
  }

  /** The size that sfifo_init tries after `i` doublings. */
  function Tried(i: nat): int {
    if i == 0 then 1 else Twice(Tried(i - 1))
  }

  ghost predicate Possible(x: int) {
    x == 0 || x == -0x8000_0000 || (0 < x <= 0x4000_0000 && PowerOf2(x))
  }

  lemma {:induction false} TwicePossible(x: int)
    requires Possible(x)
    ensures Possible(Twice(x))
    ensures 0 < x < 0x4000_0000 ==> Twice(x) == 2 * x
  {
    if 0 < x {
      TopPower(x);
      assert 2 * x / 2 == x && 2 * x % 2 == 0;
    }
  }

  lemma {:induction false} TriedBound(i: nat)
    ensures Possible(Tried(i)) && (0 < Tried(i) < 0x4000_0000 ==> Tried(i + 1) == 2 * Tried(i))
  {
    hide Possible;
    if i > 0 { TriedBound(i - 1); } else { OnePossible(); }
    TwicePossible(Tried(if i > 0 then i - 1 else 0));
    TwicePossible(Tried(i));
  }

  lemma {:induction false} OnePossible()
    ensures Possible(1)
  {
  }

  lemma {:induction false} Times16(x: nat)
    requires PowerOf2(x)
    ensures PowerOf2(16 * x)
  {
    hide PowerOf2;
    Double(x);
    Double(2 * x);
    Double(4 * x);
    Double(8 * x);
  }

  lemma {:induction false} Double(x: nat)
    requires PowerOf2(x)
    ensures PowerOf2(2 * x)
  {
    assert 2 * x / 2 == x && 2 * x % 2 == 0 && x > 0;
  }

  lemma {:induction false} TopIs()
    ensures PowerOf2(0x4000_0000)
  {
    assert PowerOf2(4);
    hide PowerOf2;
    Times16(0x4);
    Times16(0x40);
    Times16(0x400);
    Times16(0x4000);
    Times16(0x4_0000);
    Times16(0x40_0000);
    Times16(0x400_0000);
  }

  /** Between 2^29 and 2^30 there is no power of 2. */
  lemma {:induction false} TopPower(x: int)
    requires 0 < x ==> PowerOf2(x)
    ensures 0 < x && 2 * x > 0x4000_0000 && x <= 0x4000_0000 ==> x == 0x4000_0000
  {
    hide PowerOf2;
    TopIs();
    if 0 < x <= 0x4000_0000 { PowerGap(x, 0x4000_0000); }
  }

  lemma {:induction false} PowerGap(x: nat, p: nat)
    requires PowerOf2(x) && PowerOf2(p) && x <= p
    ensures x == p || 2 * x <= p
    decreases p
  {
    if 1 < x < p { PowerGap(x / 2, p / 2); }
  }

  lemma {:induction false} Reaches(want: int, i: nat) returns (j: nat)
    requires want < 0x4000_0000 && 0 < Tried(i)
    ensures Tried(j) > want
    decreases want - Tried(i)
  {
    TriedBound(i);
    if Tried(i) > want { j := i; } else { j := Reaches(want, i + 1); }
  }

  /** Theorem: the search for a size ends exactly when less than 2^30 bytes are asked for. */
  lemma {:induction false} InitEnds(want: int)
    ensures (exists i: nat :: Tried(i) > want) <==> want < 0x4000_0000
  {
    if want < 0x4000_0000 {
      var j := Reaches(want, 0);
    } else {
      forall i: nat ensures Tried(i) <= want { TriedBound(i); }
    }
  }

  /** For 2^30 bytes the search goes on for ever. */
  lemma {:induction false} InitLoops(i: nat)
    ensures Tried(i) <= 0x4000_0000
  {
    InitEnds(0x4000_0000);
  }

  lemma {:induction false} Rejoins(a: seq<byte>, b: seq<byte>, n: nat)
    requires n <= |b|
    ensures a + b[..n] + b[n..] == a + b
  {
    Regroup(a, b[..n], b[n..]);
    assert b == b[..n] + b[n..];
  }
}

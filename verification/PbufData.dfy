/** Access to the bytes of a chain of packet buffers, each operation against the flat bytes of the
    chain: pbuf_copy, pbuf_copy_partial, pbuf_take, pbuf_take_at, pbuf_get_at, pbuf_memcmp and
    pbuf_memfind. */
module PbufData {
  import opened SeqNum
  import opened Common

  /** The bytes before buffer `k`. */
  function Start(ch: seq<seq<byte>>, k: nat): nat
    requires k <= |ch|
  {
    |Flat(ch[..k])|
  }

  /** Where buffer `k` lies in the flat bytes. */
  lemma {:induction false} Split(ch: seq<seq<byte>>, k: nat)
    requires k < |ch|
    ensures Start(ch, k + 1) == Start(ch, k) + |ch[k]| <= |Flat(ch)|
    ensures Flat(ch) == Flat(ch[..k]) + ch[k] + Flat(ch[k + 1..])
    ensures Flat(ch)[Start(ch, k)..Start(ch, k + 1)] == ch[k]
    ensures Flat(ch)[Start(ch, k)..] == Flat(ch[k..])
  {
    var a, b := ch[..k], ch[k + 1..];
    assert ch[..k + 1] == a + [ch[k]] && ch == ch[..k + 1] + b && ch == a + ch[k..];
    FlatConcat(a, [ch[k]]);
    FlatOne(ch[k]);
    FlatConcat(ch[..k + 1], b);
    FlatConcat(a, ch[k..]);
  }

  lemma {:induction false} Ends(ch: seq<seq<byte>>)
    ensures Start(ch, 0) == 0 && Start(ch, |ch|) == |Flat(ch)|
  {
    assert ch[..|ch|] == ch;
  }

  // ---------------------------------------------------------------- reading

  /** pbuf_skip_const: the buffer in which the offset lies, and the offset in it. */
  method Skip(ch: seq<seq<byte>>, offset: nat) returns (k: nat, left: nat)
    ensures k <= |ch| && Start(ch, k) + left == offset
    ensures k < |ch| ==> left < |ch[k]| && offset < |Flat(ch)|
    ensures k == |ch| ==> offset >= |Flat(ch)|
  {
    hide Flat;
    k, left := 0, offset;
    Ends(ch);
    while k < |ch| && |ch[k]| <= left
      invariant k <= |ch| && Start(ch, k) + left == offset
    {
      Split(ch, k);
      left := left - |ch[k]|;
      k := k + 1;
    }
    if k < |ch| { Split(ch, k); }
  }

  /** pbuf_try_get_at */
  method TryGetAt(ch: seq<seq<byte>>, offset: nat) returns (r: int)
    ensures r == if offset < |Flat(ch)| then Flat(ch)[offset] else -1
  {
    hide Flat;
    var k, left := Skip(ch, offset);
    if k < |ch| && |ch[k]| > left {
      Split(ch, k);
      assert Flat(ch)[Start(ch, k)..Start(ch, k + 1)][left] == Flat(ch)[offset];
      return ch[k][left];
    }
    return -1;
  }

  /** The bytes from `offset` on, at most `len` of them. */
  function Slice(s: seq<byte>, offset: nat, len: nat): seq<byte> {
    s[Min(offset, |s|)..Min(offset + len, |s|)]
  }

  /** pbuf_copy_partial */
  method CopyPartial(ch: seq<seq<byte>>, len: nat, offset: nat) returns (out: seq<byte>)
    ensures out == Slice(Flat(ch), offset, len)
  {
    hide Flat;
    var k: nat, off: nat, left: nat := 0, offset, len;
    out := [];
    Ends(ch);
    ghost var s := Flat(ch);
    while left != 0 && k < |ch|
      invariant k <= |ch| && left + |out| == len
      invariant Start(ch, k) <= |s| && out == Slice(s, offset, |out|)
      invariant if out == [] then Start(ch, k) + off == offset else off == 0 && (left == 0 || offset + |out| == Start(ch, k))
    {
      Split(ch, k);
      if off != 0 && off >= |ch[k]| {
        off := off - |ch[k]|;
      } else {
        var n: nat := Min(|ch[k]| - off, left);
        CopyStep(s, offset, out, Start(ch, k), ch[k], off, n);
        out, left, off := out + ch[k][off..off + n], left - n, 0;
      }
      k := k + 1;
    }
  }

  lemma {:induction false} CopyStep(s: seq<byte>, offset: nat, out: seq<byte>, at: nat, b: seq<byte>, off: nat, n: nat)
    requires at + |b| <= |s| && b == s[at..at + |b|] && off + n <= |b|
    requires out == Slice(s, offset, |out|) && offset + |out| == at + off
    ensures out + b[off..off + n] == Slice(s, offset, |out| + n)
  {
    SubSlice(s, at, at + |b|, off, off + n);
  }

  lemma {:induction false} SubSlice(s: seq<byte>, a: nat, b: nat, c: nat, d: nat)
    requires c <= d && a + d <= b <= |s|
    ensures s[a..b][c..d] == s[a + c..a + d]
  {
    var l, r := s[a..b][c..d], s[a + c..a + d];
    assert |l| == |r| && forall i :: 0 <= i < |l| ==> l[i] == s[a + c + i] && r[i] == s[a + c + i];
  }

  /** The first `i` bytes of `s2` are those of `s` at `offset`. */
  ghost predicate Agree(s: seq<byte>, offset: nat, s2: seq<byte>, i: nat) {
    i <= |s2| && offset + i <= |s| && s[offset..offset + i] == s2[..i]
  }

  lemma {:induction false} AgreeOn(s: seq<byte>, offset: nat, s2: seq<byte>, i: nat)
    requires Agree(s, offset, s2, i) && i < |s2| && offset + i < |s|
    ensures Agree(s, offset, s2, i + 1) <==> s[offset + i] == s2[i]
  {
    assert s[offset..offset + i + 1] == s[offset..offset + i] + [s[offset + i]];
    assert s2[..i + 1] == s2[..i] + [s2[i]];
    assert s[offset..offset + i + 1][i] == s[offset + i];
  }

  lemma {:induction false} AgreeLess(s: seq<byte>, offset: nat, s2: seq<byte>, i: nat, j: nat)
    requires Agree(s, offset, s2, j) && i <= j
    ensures Agree(s, offset, s2, i)
  {
    SubSlice(s, offset, offset + j, 0, i);
    SubSlice(s2, 0, j, 0, i);
    assert s2[0..j] == s2[..j] && s2[0..i] == s2[..i];
  }

  /** pbuf_memcmp: 0 if the bytes at `offset` are `s2`, 0xFFFF if the chain is too short, and
      otherwise the first difference, counted from 1. */
  method Memcmp(ch: seq<seq<byte>>, offset: nat, s2: seq<byte>) returns (r: nat)
    requires |s2| < 0x1_0000
    ensures offset + |s2| > |Flat(ch)| ==> r == 0xFFFF
    ensures offset + |s2| <= |Flat(ch)| ==>
              && r <= |s2| && (r == 0 <==> Agree(Flat(ch), offset, s2, |s2|))
              && (r > 0 ==> Agree(Flat(ch), offset, s2, r - 1) && Flat(ch)[offset + r - 1] != s2[r - 1])
  {
    hide Flat, Agree;
    var total := Length(ch);
    if total < offset + |s2| {
      return 0xFFFF;
    }
    ghost var s := Flat(ch);
    var k, start := Skip(ch, offset);
    if k < |ch| { Split(ch, k); }
    var i: nat := 0;
    AgreeNone(s, offset, s2);
    while i < |s2|
      invariant i <= |s2| && Agree(s, offset, s2, i)
    {
      var a := TryGetAt(ch[k..], start + i);
      TailAt(ch, k, start + i);
      AgreeOn(s, offset, s2, i);
      if a != s2[i] {
        if Agree(s, offset, s2, |s2|) { AgreeLess(s, offset, s2, i + 1, |s2|); }
        return i + 1;
      }
      i := i + 1;
    }
    return 0;
  }

  lemma {:induction false} AgreeNone(s: seq<byte>, offset: nat, s2: seq<byte>)
    requires offset <= |s|
    ensures Agree(s, offset, s2, 0)
  {
  }

  lemma {:induction false} TailAt(ch: seq<seq<byte>>, k: nat, i: nat)
    requires k < |ch| && Start(ch, k) + i < |Flat(ch)|
    ensures i < |Flat(ch[k..])| && Flat(ch[k..])[i] == Flat(ch)[Start(ch, k) + i]
  {
    hide Flat, Start;
    Split(ch, k);
    assert Flat(ch)[Start(ch, k)..][i] == Flat(ch)[Start(ch, k) + i];
  }

  /** tot_len of the first buffer. */
  method Length(ch: seq<seq<byte>>) returns (n: nat)
    ensures n == |Flat(ch)|
  {
    hide Flat;
    n := 0;
    Ends(ch);
    for k := 0 to |ch|
      invariant n == Start(ch, k)
    {
      Split(ch, k);
      n := n + |ch[k]|;
    }
  }

  ghost predicate Occurs(s: seq<byte>, mem: seq<byte>, i: int) {
    0 <= i && Agree(s, i, mem, |mem|)
  }

  /** pbuf_memfind: the least offset, from `start` on, at which `mem` occurs, or 0xFFFF. */
  method Memfind(ch: seq<seq<byte>>, mem: seq<byte>, start: nat) returns (r: nat)
    requires |Flat(ch)| < 0xFFFF && |mem| < 0x1_0000
    ensures r != 0xFFFF ==> start <= r && Occurs(Flat(ch), mem, r)
    ensures forall i :: start <= i < r ==> !Occurs(Flat(ch), mem, i)
    ensures r == 0xFFFF ==> forall i :: start <= i ==> !Occurs(Flat(ch), mem, i)
  {
    hide Flat;
    var total := Length(ch);
    if total >= |mem| + start {
      var max, i := total - |mem|, start;
      while i <= max
        invariant start <= i <= max + 1 && forall j :: start <= j < i ==> !Occurs(Flat(ch), mem, j)
      {
        var plus := Memcmp(ch, i, mem);
        if plus == 0 {
          return i;
        }
        i := i + 1;
      }
    }
    return 0xFFFF;
  }

  // ---------------------------------------------------------------- writing

  ghost predicate SameShape(a: seq<seq<byte>>, b: seq<seq<byte>>) {
    |a| == |b| && forall i :: 0 <= i < |a| ==> |a[i]| == |b[i]|
  }

  /** Writing into one buffer writes into the flat bytes. */
  lemma {:induction false} SpliceFlat(ch: seq<seq<byte>>, k: nat, off: nat, data: seq<byte>)
    requires k < |ch| && off + |data| <= |ch[k]|
    ensures var ch' := ch[k := Splice(ch[k], off, data)];
            && SameShape(ch, ch') && Start(ch, k) + off + |data| <= |Flat(ch)|
            && Flat(ch') == Splice(Flat(ch), Start(ch, k) + off, data)
  {
    var ch' := ch[k := Splice(ch[k], off, data)];
    var a, b, c := Flat(ch[..k]), ch[k], Flat(ch[k + 1..]);
    Split(ch, k);
    Split(ch', k);
    assert ch'[..k] == ch[..k] && ch'[k + 1..] == ch[k + 1..];
    SpliceMiddle(a, b, c, off, data);
  }

  lemma {:induction false} SpliceMiddle(a: seq<byte>, b: seq<byte>, c: seq<byte>, off: nat, data: seq<byte>)
    requires off + |data| <= |b|
    ensures Splice(a + b + c, |a| + off, data) == a + Splice(b, off, data) + c
  {
    var s, at := a + b + c, |a| + off;
    assert s[..at] == a + b[..off];
    assert s[at + |data|..] == b[off + |data|..] + c;
  }

  /** Two writes, one behind the other. */
  lemma {:induction false} SpliceTwice(s: seq<byte>, at: nat, x: seq<byte>, y: seq<byte>)
    requires at + |x| + |y| <= |s|
    ensures Splice(Splice(s, at, x), at + |x|, y) == Splice(s, at, x + y)
  {
  }

  /** The starts of the buffers depend on their lengths alone. */
  lemma {:induction false} SameStart(a: seq<seq<byte>>, b: seq<seq<byte>>, k: nat)
    requires SameShape(a, b) && k <= |a|
    ensures Start(a, k) == Start(b, k)
    decreases k
  {
    if k > 0 {
      SameStart(a, b, k - 1);
      Split(a, k - 1);
      Split(b, k - 1);
    } else {
      Ends(a);
      Ends(b);
    }
  }

  /** Theorem: what is written is read back, and everything else is as before. */
  lemma {:induction false} TakeThenCopy(s: seq<byte>, at: nat, data: seq<byte>, i: nat)
    requires at + |data| <= |s| && i < |s|
    ensures Slice(Splice(s, at, data), at, |data|) == data
    ensures i < at || i >= at + |data| ==> Splice(s, at, data)[i] == s[i]
  {
  }

  /** `now` is `was` with the first `c` bytes of `data` written at `at`. */
  ghost predicate Written(was: seq<seq<byte>>, now: seq<seq<byte>>, at: nat, data: seq<byte>, c: nat) {
    && SameShape(was, now) && c <= |data| && at + |data| <= |Flat(was)|
    && Flat(now) == Splice(Flat(was), at, data[..c])
  }

  /** The next `n` bytes go into buffer `k` at offset `off`. */
  lemma {:induction false} WriteOn(was: seq<seq<byte>>, now: seq<seq<byte>>, at: nat, data: seq<byte>, c: nat,
                                   k: nat, off: nat, n: nat)
    requires Written(was, now, at, data, c) && k < |was| && Start(was, k) + off == at + c
    requires off + n <= |now[k]| && c + n <= |data|
    ensures Written(was, now[k := Splice(now[k], off, data[c..c + n])], at, data, c + n)
  {
    SameStart(was, now, k);
    SpliceFlat(now, k, off, data[c..c + n]);
    SpliceTwice(Flat(was), at, data[..c], data[c..c + n]);
    assert data[..c] + data[c..c + n] == data[..c + n];
  }

  lemma {:induction false} WriteEnds(was: seq<seq<byte>>, now: seq<seq<byte>>, at: nat, data: seq<byte>)
    requires at + |data| <= |Flat(was)|
    ensures Written(was, was, at, data, 0)
    ensures Written(was, now, at, data, |data|) ==> SameShape(was, now) && Flat(now) == Splice(Flat(was), at, data)
  {
    assert data[..|data|] == data && data[..0] == [];
  }

  datatype Err = OK | ARG | MEM | VAL

  ghost predicate NoEmpty(ch: seq<seq<byte>>) {
    forall i :: 0 <= i < |ch| ==> ch[i] != []
  }

  /** A chain whose buffers are written to. */
  class Packet {
    var bufs: seq<seq<byte>>

    ghost function Bytes(): seq<byte>
      reads this
    {
      Flat(bufs)
    }

    /** The loop of pbuf_take, from buffer `k0` on. */
    method TakeFrom(k0: nat, data: seq<byte>)
      requires k0 <= |bufs| && Start(bufs, k0) + |data| <= |Bytes()|
      modifies this
      ensures SameShape(old(bufs), bufs) && Bytes() == Splice(old(Bytes()), Start(old(bufs), k0), data)
    {
      hide Flat, Start, Written, Splice;
      ghost var was, at := bufs, Start(bufs, k0);
      WriteEnds(was, bufs, at, data);
      Ends(was);
      var k: nat, c: nat := k0, 0;
      while c < |data|
        invariant k0 <= k <= |bufs| && c <= |data| && |bufs| == |was| && Written(was, bufs, at, data, c)
        invariant c == |data| || Start(was, k) == at + c
        decreases |bufs| - k
      {
        assert k < |bufs|;
        Split(was, k);
        WrittenShape(was, bufs, at, data, c, k);
        var n: nat := Min(|data| - c, |bufs[k]|);
        WriteOn(was, bufs, at, data, c, k, 0, n);
        bufs := bufs[k := Splice(bufs[k], 0, data[c..c + n])];
        c, k := c + n, k + 1;
      }
      WriteEnds(was, bufs, at, data);
    }

    /** pbuf_take */
    method Take(data: seq<byte>) returns (err: Err)
      modifies this
      ensures SameShape(old(bufs), bufs) && (err == OK <==> |data| <= |old(Bytes())|)
      ensures err == OK ==> Bytes() == Splice(old(Bytes()), 0, data)
      ensures err != OK ==> err == MEM && bufs == old(bufs)
    {
      var total := Length(bufs);
      if total < |data| {
        return MEM;
      }
      Ends(bufs);
      TakeFrom(0, data);
      return OK;
    }

    /** pbuf_take_at */
    method TakeAt(data: seq<byte>, offset: nat) returns (err: Err)
      modifies this
      ensures SameShape(old(bufs), bufs)
      ensures err == OK <==> offset < |old(Bytes())| && offset + |data| <= |old(Bytes())|
      ensures err == OK ==> Bytes() == Splice(old(Bytes()), offset, data)
      ensures err != OK ==> err == MEM && bufs == old(bufs)
    {
      hide Flat, Splice;
      var k, left := Skip(bufs, offset);
      if k < |bufs| {
        Split(bufs, k);
        var tail := Length(bufs[k..]);
        if tail >= left + |data| {
          var n := Min(|bufs[k]| - left, |data|);
          ghost var was := bufs;
          SpliceFlat(bufs, k, left, data[..n]);
          bufs := bufs[k := Splice(bufs[k], left, data[..n])];
          if n < |data| {
            SameStart(was, bufs, k + 1);
            SpliceSize(Flat(was), offset, data[..n]);
            TakeFrom(k + 1, data[n..]);
            SpliceTwice(Flat(was), offset, data[..n], data[n..]);
          }
          assert data[..n] + data[n..] == data && (n == |data| ==> data[..n] == data);
          return OK;
        }
      }
      return MEM;
    }

    /** pbuf_copy: the bytes of `from` into the head of this chain, as much at a time as the current
        buffers of the two chains have in common. */
    method CopyFrom(from: seq<seq<byte>>) returns (err: Err)
      modifies this
      ensures SameShape(old(bufs), bufs)
      ensures err == OK ==> |Flat(from)| <= |old(Bytes())| && Bytes() == Splice(old(Bytes()), 0, Flat(from))
      ensures NoEmpty(from) && NoEmpty(old(bufs)) ==>
              (err == OK <==> from != [] && bufs != [] && |Flat(from)| <= |old(Bytes())|)
    {
      hide Flat, Start, Written, Splice, SameShape;
      ShapeSelf(bufs);
      var size := Length(from);
      var room := Length(bufs);
      if bufs == [] || from == [] || room < size {
        return ARG;
      }
      ghost var was, src, c: nat := bufs, Flat(from), 0;
      var t: nat, ot: nat, f: nat, of: nat := 0, 0, 0, 0;
      Ends(was);
      Ends(from);
      WriteEnds(was, bufs, 0, src);
      while f < |from|
        invariant f <= |from| && t <= |bufs| == |was| && c <= |src| && Written(was, bufs, 0, src, c)
        invariant f < |from| ==> t < |bufs| && of <= |from[f]| && ot <= |was[t]| && Start(was, t) + ot == c
        invariant Start(from, f) + of == c && (f == |from| ==> of == 0)
        decreases |from| - f + |bufs| - t
      {
        Split(from, f);
        Split(was, t);
        WrittenShape(was, bufs, 0, src, c, t);
        var n: nat := Min(|from[f]| - of, |bufs[t]| - ot);
        SubSlice(src, Start(from, f), Start(from, f + 1), of, of + n);
        WriteOn(was, bufs, 0, src, c, t, ot, n);
        bufs := bufs[t := Splice(bufs[t], ot, from[f][of..of + n])];
        of, ot, c := of + n, ot + n, c + n;
        WrittenShape(was, bufs, 0, src, c, t);
        if of >= |from[f]| {
          of, f := 0, f + 1;
        }
        if ot == |bufs[t]| {
          ot, t := 0, t + 1;
          if t == |bufs| && f < |from| {
            CopyRoom(from, f, of, was, c);
            return ARG;
          }
        }
        if f < |from| {
          OnlyLast(from, f);
          var tail := Length(from[f..]);
          if |from[f]| == tail && f + 1 < |from| {
            return VAL;
          }
        }
        if t < |bufs| {
          OnlyLast(was, t);
          WrittenShape(was, bufs, 0, src, c, t);
          var tail := Length(bufs[t..]);
          if |bufs[t]| == tail && t + 1 < |bufs| {
            return VAL;
          }
        }
      }
      Ends(from);
      WriteEnds(was, bufs, 0, src);
      return OK;
    }
  }

  lemma {:induction false} ShapeSelf(a: seq<seq<byte>>)
    ensures SameShape(a, a)
  {
  }

  lemma {:induction false} SpliceSize(s: seq<byte>, at: nat, data: seq<byte>)
    requires at + |data| <= |s|
    ensures |Splice(s, at, data)| == |s|
  {
  }

  lemma {:induction false} WrittenShape(was: seq<seq<byte>>, now: seq<seq<byte>>, at: nat, data: seq<byte>, c: nat, k: nat)
    requires Written(was, now, at, data, c) && k < |was|
    ensures |now| == |was| && |now[k]| == |was[k]| && |Flat(now[k..])| == |Flat(was[k..])| && SameShape(was, now)
  {
    SameTail(was, now, k);
  }

  /** In a chain without empty buffers only the last is as long as all from it on. */
  lemma {:induction false} OnlyLast(ch: seq<seq<byte>>, k: nat)
    requires k < |ch|
    ensures NoEmpty(ch) && |ch[k]| == |Flat(ch[k..])| ==> k + 1 == |ch|
  {
    Split(ch, k);
    if k + 1 < |ch| { Split(ch, k + 1); }
  }

  lemma {:induction false} SameTail(a: seq<seq<byte>>, b: seq<seq<byte>>, k: nat)
    requires SameShape(a, b) && k < |a|
    ensures |Flat(a[k..])| == |Flat(b[k..])|
  {
    Split(a, k);
    Split(b, k);
    SameStart(a, b, k);
    SameStart(a, b, |a|);
    Ends(a);
    Ends(b);
  }

  /** A target that is used up is as long as what was copied, and there is more to come. */
  lemma {:induction false} CopyRoom(from: seq<seq<byte>>, f: nat, of: nat, to: seq<seq<byte>>, c: nat)
    requires f < |from| && of <= |from[f]| && Start(from, f) + of == c && Start(to, |to|) == c && |Flat(from)| <= |Flat(to)|
    ensures NoEmpty(from) && of < |from[f]| ==> false
  {
    Split(from, f);
    Ends(to);
  }
}

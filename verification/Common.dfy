/** Small definitions that several components share. */
module Common {
  import opened SeqNum

  function Min(a: int, b: int): int { if a <= b then a else b }
  function Max(a: int, b: int): int { if a >= b then a else b }

  /** A pointer to a list element. */
  datatype Link = Null | To(id: nat)

  ghost predicate NoDup(q: seq<nat>) {
    forall i, j :: 0 <= i < j < |q| ==> q[i] != q[j]
  }

  /** `s` with `data` written at `at`. */
  function Splice(s: seq<byte>, at: nat, data: seq<byte>): seq<byte>
    requires at + |data| <= |s|
  {
    s[..at] + data + s[at + |data|..]
  }

  /** The stream `s` has the bytes `b` at position `at`. */
  ghost predicate Reads(s: seq<byte>, at: int, b: seq<byte>) {
    0 <= at && at + |b| <= |s| && b == s[at..at + |b|]
  }

  /** The bytes of a chain of buffers. */
  function Flat(ch: seq<seq<byte>>): seq<byte> {
    if ch == [] then [] else ch[0] + Flat(ch[1..])
  }

  lemma {:induction false} FlatConcat(a: seq<seq<byte>>, b: seq<seq<byte>>)
    ensures Flat(a + b) == Flat(a) + Flat(b)
    decreases |a|
  {
    if a == [] {
      assert a + b == b;
    } else {
      assert (a + b)[1..] == a[1..] + b;
      FlatConcat(a[1..], b);
      assert a[0] + (Flat(a[1..]) + Flat(b)) == a[0] + Flat(a[1..]) + Flat(b);
    }
  }

  lemma {:induction false} FlatOne(b: seq<byte>)
    ensures Flat([b]) == b
  {
    assert [b][1..] == [] && b + [] == b;
  }

  lemma {:induction false} SubsetSize<T>(a: set<T>, b: set<T>)
    requires a <= b
    ensures |a| <= |b|
  {
    assert b == a + (b - a);
  }
}

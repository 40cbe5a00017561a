/** Names in DNS messages (section 4.1.4 of RFC 1035): the encoding that dns_send writes, and the
    loops of dns_compare_name and dns_skip_name that read names back. */
module DnsNames {
  import opened SeqNum

  const DOT: byte := 46
  const NONE := 0xFFFF
  const MAX_NAME := 255   // DNS_MAX_NAME_LENGTH - 1

  // ---------------------------------------------------------------- encoding

  /** The end of the label of `name` that starts at `i`. */
  function LabelEnd(name: seq<byte>, i: nat): (d: nat)
    requires i <= |name|
    ensures i <= d <= |name| && (d < |name| ==> name[d] == DOT) && forall j :: i <= j < d ==> name[j] != DOT
    decreases |name| - i
  {
    if i == |name| || name[i] == DOT then i else LabelEnd(name, i + 1)
  }

  /** The labels from `i` on, each behind its length, and the empty label of the root. */
  function Encode(name: seq<byte>, i: nat): seq<byte>
    requires i <= |name| <= MAX_NAME
    decreases |name| - i, 1
  {
    var d := LabelEnd(name, i);
    [d - i] + (name[i..d] + Rest(name, d))
  }

  /** What follows the label that ends at `d`. */
  function Rest(name: seq<byte>, d: nat): seq<byte>
    requires d <= |name| <= MAX_NAME
    decreases |name| - d, 0
  {
    if d == |name| then [0] else Encode(name, d + 1)
  }

  /** Every label is of 1 to 63 bytes. */
  ghost predicate Proper(name: seq<byte>, i: nat)
    requires i <= |name|
    decreases |name| - i
  {
    var d := LabelEnd(name, i);
    1 <= d - i <= 63 && (d < |name| ==> Proper(name, d + 1))
  }

  lemma {:induction false} Label(out: seq<byte>, name: seq<byte>, i: nat, d: nat)
    requires i <= d <= |name| <= MAX_NAME && d == LabelEnd(name, i)
    ensures out + Encode(name, i) == out + [d - i] + name[i..d] + Rest(name, d)
  {
    var a, b, c := [d - i], name[i..d], Rest(name, d);
    assert out + (a + (b + c)) == out + a + b + c;
  }

  /** The loops of dns_send over the host name. */
  method EncodeName(name: seq<byte>) returns (out: seq<byte>)
    requires |name| <= MAX_NAME
    ensures out == Encode(name, 0)
  {
    hide Encode;
    var i, d := 0, 0;
    out := [];
    assert [] + Encode(name, 0) == Encode(name, 0);
    while d < |name| || i == 0
      invariant 0 <= d <= |name| && 0 <= i <= |name| + 1
      invariant i <= |name| && (d < |name| || i == 0) ==> out + Encode(name, i) == Encode(name, 0)
      invariant i > 0 ==> i == d + 1 && out + Rest(name, d) == Encode(name, 0)
      decreases |name| + 1 - i
    {
      d := i;
      while d < |name| && name[d] != DOT
        invariant i <= d <= |name| && forall j :: i <= j < d ==> name[j] != DOT
      {
        d := d + 1;
      }
      assert d == LabelEnd(name, i);
      Label(out, name, i, d);
      out := out + [d - i] + name[i..d];
      i := d + 1;
    }
    out := out + [0];
  }

  // ---------------------------------------------------------------- reading back

  /** `pkt` holds the bytes `b` at `at`. */
  ghost predicate Holds(pkt: seq<byte>, at: nat, b: seq<byte>) {
    at + |b| <= |pkt| && pkt[at..at + |b|] == b
  }

  lemma {:induction false} HoldsAt(pkt: seq<byte>, at: nat, b: seq<byte>, k: nat)
    requires Holds(pkt, at, b) && k < |b|
    ensures at + k < |pkt| && pkt[at + k] == b[k]
  {
  }

  lemma {:induction false} HoldsRest(pkt: seq<byte>, at: nat, a: seq<byte>, b: seq<byte>)
    requires Holds(pkt, at, a + b)
    ensures Holds(pkt, at, a) && Holds(pkt, at + |a|, b)
  {
    var s := pkt[at..at + |a + b|];
    assert s[..|a|] == a && s[|a|..] == b;
    assert pkt[at..at + |a|] == s[..|a|] && pkt[at + |a|..at + |a| + |b|] == s[|a|..];
  }

  /** The encoding of the labels from `i` on: its first label, and what follows. */
  lemma {:induction false} HoldsLabel(pkt: seq<byte>, at: nat, name: seq<byte>, i: nat)
    requires i <= |name| <= MAX_NAME && Holds(pkt, at, Encode(name, i))
    ensures var d := LabelEnd(name, i);
            && at < |pkt| && pkt[at] == d - i && Holds(pkt, at + 1, name[i..d])
            && Holds(pkt, at + 1 + (d - i), Rest(name, d)) && |Encode(name, i)| == 1 + (d - i) + |Rest(name, d)|
  {
    var d := LabelEnd(name, i);
    HoldsRest(pkt, at, [d - i], name[i..d] + Rest(name, d));
    HoldsAt(pkt, at, [d - i], 0);
    HoldsRest(pkt, at + 1, name[i..d], Rest(name, d));
  }

  /** What follows a label: the root, or a label that is not empty. */
  lemma {:induction false} HoldsNext(pkt: seq<byte>, at: nat, name: seq<byte>, d: nat)
    requires d <= |name| <= MAX_NAME && Holds(pkt, at, Rest(name, d)) && (d < |name| ==> Proper(name, d + 1))
    ensures at < |pkt| && (pkt[at] == 0 <==> d == |name|)
    ensures if d == |name| then |Rest(name, d)| == 1 else Rest(name, d) == Encode(name, d + 1)
  {
    if d < |name| { HoldsLabel(pkt, at, name, d + 1); } else { HoldsAt(pkt, at, [0], 0); }
  }

  /** pbuf_try_get_at on the flat bytes of the packet. */
  function TryGet(pkt: seq<byte>, at: nat): int {
    if at < |pkt| then pkt[at] else -1
  }

  lemma {:induction false} HoldsOne(pkt: seq<byte>, at: nat, query: seq<byte>, q: nat, k: nat)
    requires q + k < |query| && Holds(pkt, at, query[q..q + k])
    ensures Holds(pkt, at, query[q..q + k + 1]) <==> at + k < |pkt| && pkt[at + k] == query[q + k]
  {
    assert query[q..q + k + 1] == query[q..q + k] + [query[q + k]];
    if at + k < |pkt| { assert pkt[at..at + k + 1] == pkt[at..at + k] + [pkt[at + k]]; }
  }

  lemma {:induction false} HoldsLess(pkt: seq<byte>, at: nat, query: seq<byte>, q: nat, k: nat, n: nat)
    requires k <= n && q + n <= |query| && Holds(pkt, at, query[q..q + n])
    ensures Holds(pkt, at, query[q..q + k])
  {
    assert query[q..q + n] == query[q..q + k] + query[q + k..q + n];
    HoldsRest(pkt, at, query[q..q + k], query[q + k..q + n]);
  }

  /** One label of dns_compare_name: `n` bytes at `at` against those of `query` at `q`. */
  method CompareLabel(query: seq<byte>, q: nat, pkt: seq<byte>, at: nat, n: nat) returns (same: bool)
    requires at <= |pkt| && (n > 0 || q <= |query|)
    ensures same <==> q + n <= |query| && Holds(pkt, at, query[q..q + n])
  {
    hide Holds;
    var k := 0;
    if q <= |query| { HoldsNone(pkt, at, query, q); }
    while k < n
      invariant 0 <= k <= n && (q + k <= |query| ==> Holds(pkt, at, query[q..q + k])) && (k > 0 ==> q + k <= |query|)
    {
      if q + k < |query| { HoldsOne(pkt, at, query, q, k); }
      if TryGet(pkt, at + k) < 0 || q + k >= |query| || query[q + k] != TryGet(pkt, at + k) {
        if q + n <= |query| && Holds(pkt, at, query[q..q + n]) { HoldsLess(pkt, at, query, q, k + 1, n); }
        return false;
      }
      k := k + 1;
    }
    return true;
  }

  lemma {:induction false} HoldsNone(pkt: seq<byte>, at: nat, query: seq<byte>, q: nat)
    requires at <= |pkt| && q <= |query|
    ensures Holds(pkt, at, query[q..q + 0])
  {
  }

  /** The text of a name in a packet: the bytes of its labels with SEP between them; or that there is
      none, for a name that is compressed or cut off. */
  datatype Spelling = NoName | Text(text: seq<int>)

  const SEP := -1

  function Spelled(pkt: seq<byte>, at: nat): Spelling
    decreases |pkt| - at
  {
    if at >= |pkt| || pkt[at] >= 0xC0 || at + 1 + pkt[at] >= |pkt| then NoName
    else Behind(LabelAt(pkt, at), Follows(pkt, at))
  }

  /** The bytes of the label at `at`. */
  function LabelAt(pkt: seq<byte>, at: nat): seq<int>
    requires at < |pkt| && at + 1 + pkt[at] <= |pkt|
  {
    pkt[at + 1..at + 1 + pkt[at]]
  }

  /** What follows the label at `at`: nothing, or SEP and the text from there on. */
  function Follows(pkt: seq<byte>, at: nat): Spelling
    requires at < |pkt| && at + 1 + pkt[at] < |pkt|
    decreases |pkt| - at, 0
  {
    var next := at + 1 + pkt[at];
    if pkt[next] == 0 then Text([]) else Behind([SEP], Spelled(pkt, next))
  }

  function Behind(front: seq<int>, s: Spelling): Spelling {
    if s == NoName then NoName else Text(front + s.text)
  }

  /** The text agrees with the query, but for what stands at its separators and behind it. */
  ghost predicate Alike(text: seq<int>, query: seq<byte>) {
    |text| <= |query| && forall k :: 0 <= k < |text| ==> text[k] == SEP || text[k] == query[k]
  }

  lemma {:induction false} AlikeMore(done: seq<int>, query: seq<byte>, pkt: seq<byte>, at: nat)
    requires at < |pkt| && at + 1 + pkt[at] <= |pkt| && Alike(done, query)
    ensures var q, n := |done|, pkt[at];
            Alike(done + LabelAt(pkt, at), query) <==> q + n <= |query| && Holds(pkt, at + 1, query[q..q + n])
  {
    var q, n, part := |done|, pkt[at], LabelAt(pkt, at);
    if q + n <= |query| {
      assert Holds(pkt, at + 1, query[q..q + n]) ==> part == query[q..q + n];
      if Alike(done + part, query) {
        forall k | 0 <= k < n ensures part[k] == query[q..q + n][k] {
          assert (done + part)[q + k] == query[q + k];
        }
      }
    }
  }

  lemma {:induction false} AlikeLess(a: seq<int>, b: seq<int>, query: seq<byte>)
    requires Alike(a + b, query)
    ensures Alike(a, query)
  {
    forall k | 0 <= k < |a| ensures a[k] == SEP || a[k] == query[k] { assert (a + b)[k] == a[k]; }
  }

  lemma {:induction false} AlikeSep(a: seq<int>, query: seq<byte>)
    requires Alike(a, query) && |a| < |query|
    ensures Alike(a + [SEP], query)
  {
  }

  lemma {:induction false} BehindBoth(a: seq<int>, b: seq<int>, s: Spelling)
    ensures Behind(a, Behind(b, s)) == Behind(a + b, s)
  {
    if s != NoName { assert a + (b + s.text) == a + b + s.text; }
  }

  /** What dns_compare_name makes of a text. */
  ghost function Verdict(s: Spelling, query: seq<byte>, start: nat): nat {
    if s != NoName && Alike(s.text, query) then start + |s.text| + 2 else NONE
  }

  /** The labels before `at` are `done`, with a separator behind each, and agree with the query. */
  ghost predicate Comparing(pkt: seq<byte>, start: nat, at: nat, query: seq<byte>, done: seq<int>) {
    && at == start + |done| && Spelled(pkt, start) == Behind(done, Spelled(pkt, at))
    && (done == [] || (at < |pkt| && pkt[at] != 0)) && (|done| <= |query| ==> Alike(done, query))
    && |done| <= |query| + 1
  }

  lemma {:induction false} CompareStarts(pkt: seq<byte>, start: nat, query: seq<byte>)
    ensures Comparing(pkt, start, start, query, [])
  {
    var s := Spelled(pkt, start);
    assert s != NoName ==> [] + s.text == s.text;
  }

  lemma {:induction false} CompareFails(pkt: seq<byte>, start: nat, at: nat, query: seq<byte>, done: seq<int>)
    requires Comparing(pkt, start, at, query, done)
    requires at >= |pkt| || pkt[at] >= 0xC0 || at + 1 + pkt[at] >= |pkt|
    ensures Verdict(Spelled(pkt, start), query, start) == NONE
  {
    hide Alike;
  }

  lemma {:induction false} CompareSplit(pkt: seq<byte>, start: nat, at: nat, query: seq<byte>, done: seq<int>)
    requires Comparing(pkt, start, at, query, done) && at < |pkt| && pkt[at] < 0xC0 && at + 1 + pkt[at] < |pkt|
    ensures Spelled(pkt, start) == Behind(done + LabelAt(pkt, at), Follows(pkt, at))
  {
    hide Alike;
    BehindBoth(done, LabelAt(pkt, at), Follows(pkt, at));
  }

  /** One more label: it differs, it is the last, or the comparison goes on. */
  lemma {:induction false} CompareStep(pkt: seq<byte>, start: nat, at: nat, query: seq<byte>, done: seq<int>)
    requires Comparing(pkt, start, at, query, done) && at < |pkt| && pkt[at] < 0xC0 && at + 1 + pkt[at] < |pkt|
    ensures var q, n, next := |done|, pkt[at], at + 1 + pkt[at];
            var same := q + n <= |query| && Holds(pkt, at + 1, query[q..q + n]);
            var v := Verdict(Spelled(pkt, start), query, start);
            && (!same ==> v == NONE) && (same && pkt[next] == 0 ==> v == next + 1)
            && (same && pkt[next] != 0 ==> Comparing(pkt, start, next, query, done + LabelAt(pkt, at) + [SEP]))
  {
    hide Alike, Holds, Spelled;
    var front, rest := done + LabelAt(pkt, at), Follows(pkt, at);
    CompareSplit(pkt, start, at, query, done);
    if |done| + pkt[at] <= |query| {
      AlikeMore(done, query, pkt, at);
      if |front| < |query| && Alike(front, query) { AlikeSep(front, query); }
    }
    if rest != NoName && Alike(front + rest.text, query) {
      AlikeLess(front, rest.text, query);
      AlikeShort(front, query);
    }
    BehindBoth(front, [SEP], Spelled(pkt, at + 1 + pkt[at]));
    assert front + [] == front;
  }

  lemma {:induction false} AlikeShort(a: seq<int>, query: seq<byte>)
    requires Alike(a, query)
    ensures |a| <= |query|
  {
  }

  /** dns_compare_name: the offset behind the name at `start`, exactly when its text agrees with the query
      and its terminator, but for what stands at the separators and behind. */
  method CompareName(name: seq<byte>, pkt: seq<byte>, start: nat) returns (r: nat)
    requires |name| <= MAX_NAME && |pkt| < NONE
    ensures r == Verdict(Spelled(pkt, start), name + [0], start)
  {
    hide Holds, Alike, Spelled, Verdict, Behind;
    var query := name + [0];
    var q: nat, at: nat, n: int := 0, start, 1;
    ghost var done: seq<int> := [];
    CompareStarts(pkt, start, query);
    while n != 0
      invariant q == |done| && (n != 0 ==> Comparing(pkt, start, at, query, done))
      invariant n == 0 ==> at + 1 == Verdict(Spelled(pkt, start), query, start)
      decreases if n == 0 then 0 else 1, |pkt| - at
    {
      n := TryGet(pkt, at);
      if n < 0 || n >= 0xC0 || at + 1 + n >= |pkt| {
        CompareFails(pkt, start, at, query, done);
      } else {
        CompareStep(pkt, start, at, query, done);
        done := done + LabelAt(pkt, at) + [SEP];
      }
      at := at + 1;
      if n < 0 || n >= 0xC0 { return NONE; }
      var same := CompareLabel(query, q, pkt, at, n);
      if !same { return NONE; }
      at, q := at + n, q + n + 1;
      n := TryGet(pkt, at);
      if n < 0 { return NONE; }
    }
    r := at + 1;
  }

  /** The text that a name spells. */
  function Marks(name: seq<byte>): seq<int> {
    seq(|name|, k requires 0 <= k < |name| => if name[k] == DOT then SEP else name[k])
  }

  lemma {:induction false} MarksLabel(name: seq<byte>, i: nat)
    requires i <= |name|
    ensures var d := LabelEnd(name, i);
            && (forall k :: i <= k < d ==> Marks(name)[k] == name[k] != SEP) && (d < |name| ==> Marks(name)[d] == SEP)
  {
  }

  /** The encoding of the labels from `i` on is at `at`: this label, and then the rest. */
  lemma {:induction false} HoldsBoth(pkt: seq<byte>, at: nat, name: seq<byte>, i: nat)
    requires i <= |name| <= MAX_NAME
    ensures var d := LabelEnd(name, i);
            Holds(pkt, at, Encode(name, i)) <==>
            && at < |pkt| && pkt[at] == d - i && Holds(pkt, at + 1, name[i..d]) && Holds(pkt, at + 1 + (d - i), Rest(name, d))
  {
    var d := LabelEnd(name, i);
    var a, b, c := [d - i], name[i..d], Rest(name, d);
    if Holds(pkt, at, Encode(name, i)) {
      HoldsLabel(pkt, at, name, i);
    } else if at < |pkt| && pkt[at] == d - i && Holds(pkt, at + 1, b) && Holds(pkt, at + 1 + (d - i), c) {
      assert pkt[at..at + 1] == a;
      HoldsJoin(pkt, at + 1, b, c);
      HoldsJoin(pkt, at, a, b + c);
    }
  }

  lemma {:induction false} HoldsJoin(pkt: seq<byte>, at: nat, a: seq<byte>, b: seq<byte>)
    requires Holds(pkt, at, a) && Holds(pkt, at + |a|, b)
    ensures Holds(pkt, at, a + b)
  {
    assert pkt[at..at + |a| + |b|] == pkt[at..at + |a|] + pkt[at + |a|..at + |a| + |b|];
  }

  lemma {:induction false} SpelledEncoded(pkt: seq<byte>, at: nat, name: seq<byte>, i: nat)
    requires i <= |name| <= MAX_NAME && Proper(name, i) && Holds(pkt, at, Encode(name, i))
    ensures i <= |Marks(name)| && Spelled(pkt, at) == Text(Marks(name)[i..])
    decreases |name| - i
  {
    hide Holds, Encode, Rest, Marks, LabelAt, LabelEnd, Spelled, Follows;
    MarksSize(name);
    var d := LabelEnd(name, i);
    var next, m := at + 1 + (d - i), Marks(name);
    MarksLabel(name, i);
    HoldsLabel(pkt, at, name, i);
    HoldsNext(pkt, next, name, d);
    LabelIs(pkt, at, name, i);
    SpelledBy(pkt, at);
    if d < |name| {
      SpelledEncoded(pkt, next, name, d + 1);
      MarksSplit(m, i, d);
    } else {
      assert m[i..] == m[i..d] + [];
    }
  }

  lemma {:induction false} MarksSplit(m: seq<int>, i: nat, d: nat)
    requires i <= d < |m| && m[d] == SEP
    ensures m[i..] == m[i..d] + ([SEP] + m[d + 1..])
  {
  }

  lemma {:induction false} SpelledBy(pkt: seq<byte>, at: nat)
    requires at < |pkt| && pkt[at] < 0xC0 && at + 1 + pkt[at] < |pkt|
    ensures Spelled(pkt, at) == Behind(LabelAt(pkt, at), Follows(pkt, at))
    ensures Follows(pkt, at) ==
            if pkt[at + 1 + pkt[at]] == 0 then Text([]) else Behind([SEP], Spelled(pkt, at + 1 + pkt[at]))
  {
    hide LabelAt;
  }

  lemma {:induction false} LabelIs(pkt: seq<byte>, at: nat, name: seq<byte>, i: nat)
    requires i <= |name| && at < |pkt| && pkt[at] == LabelEnd(name, i) - i && at + 1 + pkt[at] <= |pkt|
    ensures Holds(pkt, at + 1, name[i..LabelEnd(name, i)]) <==> LabelAt(pkt, at) == Marks(name)[i..LabelEnd(name, i)]
  {
    hide LabelEnd;
    MarksLabel(name, i);
    var d := LabelEnd(name, i);
    var m, n, part := Marks(name)[i..d], name[i..d], LabelAt(pkt, at);
    assert |m| == |n| == |part|;
    forall k | 0 <= k < |m| ensures m[k] == n[k] { assert m[k] == Marks(name)[i + k] && n[k] == name[i + k]; }
    assert m == n;
  }

  /** The text from `at` on starts with the label that is there. */
  lemma {:induction false} SpelledLabel(pkt: seq<byte>, at: nat, m: seq<int>, e: nat)
    requires Spelled(pkt, at) == Text(m) && e <= |m|
    requires (forall k :: 0 <= k < e ==> m[k] != SEP) && (e < |m| ==> m[e] == SEP)
    ensures at < |pkt| && pkt[at] == e && at + 1 + e < |pkt| && LabelAt(pkt, at) == m[..e]
    ensures pkt[at + 1 + e] == 0 <==> e == |m|
    ensures e < |m| ==> Spelled(pkt, at + 1 + e) == Text(m[e + 1..])
  {
    var part, rest := LabelAt(pkt, at), Follows(pkt, at);
    assert m == part + rest.text;
    assert forall k :: 0 <= k < |part| ==> m[k] == part[k];
    assert pkt[at + 1 + pkt[at]] != 0 ==> m[|part|] == SEP;
    assert |part| == e;
    if e < |m| { assert m[e + 1..] == rest.text[1..]; }
  }

  lemma {:induction false} EncodedSpelled(pkt: seq<byte>, at: nat, name: seq<byte>, i: nat)
    requires i <= |name| <= MAX_NAME && Proper(name, i) && Spelled(pkt, at) == Text(Marks(name)[i..])
    ensures Holds(pkt, at, Encode(name, i))
    decreases |name| - i
  {
    hide Encode, Spelled, LabelAt, Marks;
    MarksSize(name);
    var d, m := LabelEnd(name, i), Marks(name)[i..];
    MarksLabel(name, i);
    forall k | 0 <= k < d - i ensures m[k] != SEP { assert m[k] == Marks(name)[i + k]; }
    SpelledLabel(pkt, at, m, d - i);
    assert m[..d - i] == Marks(name)[i..d];
    LabelIs(pkt, at, name, i);
    if d < |name| {
      assert m[d - i + 1..] == Marks(name)[d + 1..];
      EncodedSpelled(pkt, at + 1 + (d - i), name, d + 1);
    }
    HoldsBoth(pkt, at, name, i);
  }

  lemma {:induction false} MarksSize(name: seq<byte>)
    ensures |Marks(name)| == |name|
  {
  }

  /** Theorem: a packet has the encoding of a proper name exactly when the name in it has the same text,
      with separators where the name has dots. */
  lemma {:induction false} EncodesIff(pkt: seq<byte>, at: nat, name: seq<byte>)
    requires |name| <= MAX_NAME && Proper(name, 0)
    ensures Holds(pkt, at, Encode(name, 0)) <==> Spelled(pkt, at) == Text(Marks(name))
  {
    hide Holds, Spelled, Encode, Proper;
    assert Marks(name)[0..] == Marks(name);
    if Holds(pkt, at, Encode(name, 0)) {
      SpelledEncoded(pkt, at, name, 0);
    } else if Spelled(pkt, at) == Text(Marks(name)) {
      EncodedSpelled(pkt, at, name, 0);
    }
  }

  /** Theorem: so every proper name is accepted where its encoding is, up to its end. */
  lemma {:induction false} EncodingAccepted(pkt: seq<byte>, at: nat, name: seq<byte>)
    requires |name| <= MAX_NAME && Proper(name, 0) && Holds(pkt, at, Encode(name, 0))
    ensures Verdict(Spelled(pkt, at), name + [0], at) == at + |name| + 2
  {
    hide Holds, Spelled, Encode, Proper;
    EncodesIff(pkt, at, name);
  }

  /** Two labels of one letter, for a name of three letters without a dot: accepted, though its encoding
      is another. */
  lemma {:induction false} DotUnchecked(name: seq<byte>, pkt: seq<byte>)
    requires name == [97, 120, 98] && pkt == [1, 97, 1, 98, 0]
    ensures Verdict(Spelled(pkt, 0), name + [0], 0) == 5 && Proper(name, 0) && !Holds(pkt, 0, Encode(name, 0))
  {
    assert Spelled(pkt, 2) == Text([98]);
    assert Spelled(pkt, 0) == Text([97, SEP, 98]);
    assert LabelEnd(name, 0) == 3;
    EncodesIff(pkt, 0, name);
    assert Marks(name)[1] == 120;
  }

  // ---------------------------------------------------------------- skipping

  /** The end of the name at `at`, as section 4.1.4 of RFC 1035 defines it: behind the empty label or
      behind a pointer; -1 if the packet ends before the empty label or the first byte of the
      pointer.  Length bytes from 64 to 191, which that section reserves, count as labels, as they do
      in the code, and the second byte of a pointer is not looked at. */
  function NameEnd(pkt: seq<byte>, at: nat): int
    decreases |pkt| - at
  {
    if at >= |pkt| then -1
    else if pkt[at] >= 0xC0 then at + 2
    else if pkt[at] == 0 then at + 1
    else NameEnd(pkt, at + 1 + pkt[at])
  }

  function EndOr(e: int): int {
    if e < 0 then NONE else e
  }

  /** dns_skip_name: the end of the name at `start`, or 0xFFFF if there is none, exactly when the
      name is not the root alone; then it is the end of what follows the root. */
  method SkipName(pkt: seq<byte>, start: nat) returns (r: nat)
    requires |pkt| < NONE - 1
    ensures r == EndOr(NameEnd(pkt, start)) <==> start >= |pkt| || pkt[start] != 0
    ensures start < |pkt| && pkt[start] == 0 ==> r == EndOr(NameEnd(pkt, start + 1))
  {
    r := NONE;
    var at, n := start, 1;
    ghost var root := start < |pkt| && pkt[start] == 0;
    ghost var base := if root then start + 1 else start;
    EndBeyond(pkt, start + 1);
    while n != 0
      invariant r == NONE && start <= at && ((at > start || !root) && n != 0 ==> NameEnd(pkt, at) == NameEnd(pkt, base))
      invariant n == 0 ==> at + 1 == NameEnd(pkt, base)
      invariant n == 0 ==> start < at < |pkt|
      invariant at == start || n == TryGet(pkt, at)
      decreases if n == 0 then 0 else 1, |pkt| - at
    {
      n := TryGet(pkt, at);
      at := at + 1;
      if n < 0 { return; }
      if n >= 0xC0 { return at + 1; }
      if at + n >= |pkt| { return; }
      at := at + n;
      n := TryGet(pkt, at);
      if n < 0 { return; }
    }
    r := at + 1;
  }

  lemma {:induction false} EndBeyond(pkt: seq<byte>, at: nat)
    ensures NameEnd(pkt, at) < 0 || NameEnd(pkt, at) > at
    ensures NameEnd(pkt, at) <= |pkt| + 1
    decreases |pkt| - at
  {
    if at < |pkt| && 0 < pkt[at] < 0xC0 { EndBeyond(pkt, at + 1 + pkt[at]); }
  }

  /** Theorem: the end of a proper name's encoding is found where the encoding ends. */
  lemma {:induction false} EncodeEnd(pkt: seq<byte>, at: nat, name: seq<byte>, i: nat)
    requires i <= |name| <= MAX_NAME && Proper(name, i) && Holds(pkt, at, Encode(name, i))
    ensures NameEnd(pkt, at) == at + |Encode(name, i)|
    decreases |name| - i
  {
    hide Holds, LabelEnd, Encode, Rest;
    var d := LabelEnd(name, i);
    HoldsLabel(pkt, at, name, i);
    HoldsNext(pkt, at + 1 + (d - i), name, d);
    if d < |name| { EncodeEnd(pkt, at + 1 + (d - i), name, d + 1); }
  }
}

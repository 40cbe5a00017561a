/** The table of the DNS resolver, and runs of it. */
module Dns {
  import opened SeqNum
  import opened Common

  // dns_enqueue, dns_check_entry, dns_call_found and the outcomes of dns_recv, in the configuration
  // with random transaction numbers, random source ports and shared requests for the same name.

  const TABLE_SIZE := 4      // DNS_TABLE_SIZE, DNS_MAX_REQUESTS and DNS_MAX_SOURCE_PORTS
  const MAX_SERVERS := 2
  const MAX_RETRIES := 4
  const MAX_TTL := 604800

  datatype State = Unused | New | Asking | Done

  datatype Entry = Entry(state: State, seqno: byte, tmr: byte, retries: byte, server: byte, txid: u16,
                         pcb: byte, ttl: u32, name: seq<byte>)

  /** A slot for a callback; `id` stands for the callback and its argument. */
  datatype Req = Free | Pending(id: nat, idx: nat)

  type Table = seq<Entry>

  // ---------------------------------------------------------------- callbacks

  function IdOf(q: Req): multiset<nat> {
    if q.Pending? then multiset{q.id} else multiset{}
  }

  /** The callbacks that wait. */
  function Waiting(reqs: seq<Req>): multiset<nat> {
    if reqs == [] then multiset{} else IdOf(reqs[0]) + Waiting(reqs[1..])
  }

  predicate For(q: Req, idx: nat) { q.Pending? && q.idx == idx }

  /** The callbacks that wait for entry `idx`. */
  function WaitingFor(reqs: seq<Req>, idx: nat): multiset<nat> {
    if reqs == [] then multiset{}
    else (if For(reqs[0], idx) then IdOf(reqs[0]) else multiset{}) + WaitingFor(reqs[1..], idx)
  }

  /** The slots after the callbacks for entry `idx` were called. */
  function Flushed(reqs: seq<Req>, idx: nat): seq<Req> {
    if reqs == [] then [] else [if For(reqs[0], idx) then Free else reqs[0]] + Flushed(reqs[1..], idx)
  }

  lemma {:induction false} FlushedIs(reqs: seq<Req>, idx: nat)
    ensures |Flushed(reqs, idx)| == |reqs|
    ensures forall r :: 0 <= r < |reqs| ==> Flushed(reqs, idx)[r] == if For(reqs[r], idx) then Free else reqs[r]
    decreases |reqs|
  {
    if reqs != [] {
      FlushedIs(reqs[1..], idx);
      forall r | 0 <= r < |reqs| ensures Flushed(reqs, idx)[r] == if For(reqs[r], idx) then Free else reqs[r] {
        if r > 0 { assert reqs[1..][r - 1] == reqs[r]; }
      }
    }
  }

  lemma {:induction false} ForNone(reqs: seq<Req>, idx: nat)
    requires reqs == []
    ensures WaitingFor(reqs, idx) == multiset{}
  {
  }

  lemma {:induction false} Regroup(a: multiset<nat>, b: multiset<nat>, c: multiset<nat>)
    ensures a + b + c == a + (c + b)
  {
  }

  lemma {:induction false} ForStep(reqs: seq<Req>, i: nat, idx: nat)
    requires i < |reqs|
    ensures WaitingFor(reqs[i..], idx) ==
            (if For(reqs[i], idx) then IdOf(reqs[i]) else multiset{}) + WaitingFor(reqs[i + 1..], idx)
  {
    assert reqs[i..][1..] == reqs[i + 1..];
  }

  /** Every callback that waited is called or waits on. */
  lemma {:induction false} FlushedWaiting(reqs: seq<Req>, idx: nat)
    ensures Waiting(Flushed(reqs, idx)) + WaitingFor(reqs, idx) == Waiting(reqs)
    decreases |reqs|
  {
    if reqs != [] {
      FlushedWaiting(reqs[1..], idx);
      assert Flushed(reqs, idx)[1..] == Flushed(reqs[1..], idx);
    }
  }

  lemma {:induction false} WaitingPut(reqs: seq<Req>, r: nat, q: Req)
    requires r < |reqs| && reqs[r] == Free
    ensures Waiting(reqs[r := q]) == Waiting(reqs) + IdOf(q)
    decreases |reqs|
  {
    hide Waiting, IdOf;
    WaitingStep(reqs);
    WaitingStep(reqs[r := q]);
    if r > 0 {
      assert reqs[r := q][1..] == reqs[1..][r - 1 := q];
      WaitingPut(reqs[1..], r - 1, q);
      assert IdOf(reqs[0]) + (Waiting(reqs[1..]) + IdOf(q)) == IdOf(reqs[0]) + Waiting(reqs[1..]) + IdOf(q);
    } else {
      assert reqs[r := q][1..] == reqs[1..];
      IdOfFree();
      assert IdOf(q) + Waiting(reqs[1..]) == multiset{} + Waiting(reqs[1..]) + IdOf(q);
    }
  }

  lemma {:induction false} WaitingStep(reqs: seq<Req>)
    requires reqs != []
    ensures Waiting(reqs) == IdOf(reqs[0]) + Waiting(reqs[1..])
  {
  }

  lemma {:induction false} IdOfFree()
    ensures IdOf(Free) == multiset{}
  {
  }

  lemma {:induction false} WaitingNone(reqs: seq<Req>)
    requires forall r :: 0 <= r < |reqs| ==> reqs[r] == Free
    ensures Waiting(reqs) == multiset{}
    decreases |reqs|
  {
    if reqs != [] { WaitingNone(reqs[1..]); }
  }

  /** A callback that waits, waits for some entry. */
  lemma {:induction false} WaitingHas(reqs: seq<Req>, r: nat)
    requires r < |reqs| && reqs[r].Pending?
    ensures reqs[r].id in WaitingFor(reqs, reqs[r].idx)
    decreases |reqs|
  {
    if r > 0 { WaitingHas(reqs[1..], r - 1); }
  }

  // ---------------------------------------------------------------- slots freed, callbacks called

  /** The slots of `a` that are free in `b`. */
  function Gone(a: seq<Req>, b: seq<Req>): seq<Req>
    requires |a| == |b|
  {
    seq(|a|, r requires 0 <= r < |a| => if b[r] == Free then a[r] else Free)
  }

  /** Slots were freed, none filled. */
  ghost predicate Freed(a: seq<Req>, b: seq<Req>) {
    |a| == |b| && forall r :: 0 <= r < |a| ==> b[r] == a[r] || b[r] == Free
  }

  /** Slots were freed, and exactly their callbacks were called. */
  ghost predicate Flows(reqs: seq<Req>, called: multiset<nat>, reqs': seq<Req>, called': multiset<nat>) {
    Freed(reqs, reqs') && called' == called + Waiting(Gone(reqs, reqs'))
  }

  lemma {:induction false} FlowNone(reqs: seq<Req>, called: multiset<nat>)
    ensures Flows(reqs, called, reqs, called)
  {
    WaitingNone(Gone(reqs, reqs));
    assert called + multiset{} == called;
  }

  lemma {:induction false} GoneFlushed(reqs: seq<Req>, idx: nat)
    requires |Flushed(reqs, idx)| == |reqs|
    ensures Waiting(Gone(reqs, Flushed(reqs, idx))) == WaitingFor(reqs, idx)
    decreases |reqs|
  {
    if reqs != [] {
      FlushedIs(reqs[1..], idx);
      GoneFlushed(reqs[1..], idx);
      assert Flushed(reqs, idx)[1..] == Flushed(reqs[1..], idx);
      assert Gone(reqs, Flushed(reqs, idx))[1..] == Gone(reqs[1..], Flushed(reqs[1..], idx));
    }
  }

  lemma {:induction false} FlowFlush(reqs: seq<Req>, called: multiset<nat>, idx: nat)
    ensures Flows(reqs, called, Flushed(reqs, idx), called + WaitingFor(reqs, idx))
  {
    FlushedIs(reqs, idx);
    GoneFlushed(reqs, idx);
  }

  lemma {:induction false} FreedTail(a: seq<Req>, b: seq<Req>)
    requires Freed(a, b) && a != []
    ensures Freed(a[1..], b[1..])
  {
  }

  lemma {:induction false} GoneStep(a: seq<Req>, b: seq<Req>)
    requires |a| == |b| > 0
    ensures Waiting(Gone(a, b)) == IdOf(if b[0] == Free then a[0] else Free) + Waiting(Gone(a[1..], b[1..]))
  {
    assert Gone(a, b)[1..] == Gone(a[1..], b[1..]);
  }

  lemma {:induction false} AgedStep(a: seq<Req>, born: seq<int>, n: int)
    requires |a| == |born| > 0
    ensures Waiting(Aged(a, born, n)) == IdOf(if born[0] < n then a[0] else Free) + Waiting(Aged(a[1..], born[1..], n))
  {
    assert Aged(a, born, n)[1..] == Aged(a[1..], born[1..], n);
  }

  lemma {:induction false} GoneTrans(a: seq<Req>, b: seq<Req>, c: seq<Req>)
    requires Freed(a, b) && Freed(b, c)
    ensures |a| == |b| == |c| && Freed(a, c) && Waiting(Gone(a, c)) == Waiting(Gone(a, b)) + Waiting(Gone(b, c))
    decreases |a|
  {
    hide Waiting, IdOf;
    if a == [] {
      WaitingNone(Gone(a, b));
      assert Gone(a, c) == Gone(a, b) == Gone(b, c) == [];
    } else {
      FreedTail(a, b);
      FreedTail(b, c);
      GoneTrans(a[1..], b[1..], c[1..]);
      GoneStep(a, c);
      GoneStep(a, b);
      GoneStep(b, c);
      GoneHead(a[0], b[0], c[0], Waiting(Gone(a[1..], b[1..])), Waiting(Gone(b[1..], c[1..])));
    }
  }

  lemma {:induction false} GoneHead(a: Req, b: Req, c: Req, m: multiset<nat>, n: multiset<nat>)
    requires (b == a || b == Free) && (c == b || c == Free)
    ensures IdOf(if c == Free then a else Free) + (m + n) ==
            (IdOf(if b == Free then a else Free) + m) + (IdOf(if c == Free then b else Free) + n)
  {
  }

  lemma {:induction false} FlowTrans(a: seq<Req>, l: multiset<nat>, b: seq<Req>, m: multiset<nat>, c: seq<Req>, n: multiset<nat>)
    requires Flows(a, l, b, m) && Flows(b, m, c, n)
    ensures Flows(a, l, c, n)
  {
    hide Gone, Waiting;
    GoneTrans(a, b, c);
    assert (l + Waiting(Gone(a, b))) + Waiting(Gone(b, c)) == l + (Waiting(Gone(a, b)) + Waiting(Gone(b, c)));
  }

  // ---------------------------------------------------------------- the age of a callback

  /** The slots that were filled before event `n`; `born` is the event that filled a slot. */
  function Aged(reqs: seq<Req>, born: seq<int>, n: int): seq<Req>
    requires |born| == |reqs|
  {
    seq(|reqs|, r requires 0 <= r < |reqs| => if born[r] < n then reqs[r] else Free)
  }

  lemma {:induction false} AgedFlows(a: seq<Req>, b: seq<Req>, born: seq<int>, n: int)
    requires Freed(a, b) && |born| == |a|
    ensures Waiting(Aged(a, born, n)) <= Waiting(Gone(a, b)) + Waiting(Aged(b, born, n))
    decreases |a|
  {
    hide Waiting, IdOf;
    if a == [] {
      WaitingNone(Aged(a, born, n));
    } else {
      FreedTail(a, b);
      AgedFlows(a[1..], b[1..], born[1..], n);
      AgedStep(a, born, n);
      AgedStep(b, born, n);
      GoneStep(a, b);
      AgedHead(a[0], b[0], born[0] < n, Waiting(Aged(a[1..], born[1..], n)), Waiting(Gone(a[1..], b[1..])),
               Waiting(Aged(b[1..], born[1..], n)));
    }
  }

  lemma {:induction false} AgedHead(a: Req, b: Req, aged: bool, l: multiset<nat>, m: multiset<nat>, n: multiset<nat>)
    requires (b == a || b == Free) && l <= m + n
    ensures IdOf(if aged then a else Free) + l <= (IdOf(if b == Free then a else Free) + m) + (IdOf(if aged then b else Free) + n)
  {
  }

  /** What was handed over before event `n` was called, or waits in a slot filled before it. */
  ghost predicate Kept(handed: multiset<nat>, called: multiset<nat>, reqs: seq<Req>, born: seq<int>, n: int)
    requires |born| == |reqs|
  {
    handed <= called + Waiting(Aged(reqs, born, n))
  }

  lemma {:induction false} KeptFlows(handed: multiset<nat>, called: multiset<nat>, reqs: seq<Req>, called': multiset<nat>,
                                     reqs': seq<Req>, born: seq<int>, n: int)
    requires |born| == |reqs| && Kept(handed, called, reqs, born, n) && Flows(reqs, called, reqs', called')
    ensures Kept(handed, called', reqs', born, n)
  {
    hide Gone, Aged, Waiting;
    AgedFlows(reqs, reqs', born, n);
    KeptSum(handed, called, Waiting(Gone(reqs, reqs')), Waiting(Aged(reqs, born, n)), Waiting(Aged(reqs', born, n)));
  }

  lemma {:induction false} KeptSum(h: multiset<nat>, c: multiset<nat>, g: multiset<nat>, a: multiset<nat>, b: multiset<nat>)
    requires h <= c + a && a <= g + b
    ensures h <= (c + g) + b
  {
  }

  /** A slot filled by event `n` is not older. */
  lemma {:induction false} AgedPut(reqs: seq<Req>, born: seq<int>, r: nat, q: Req, n: int, m: int)
    requires |born| == |reqs| && r < |reqs| && reqs[r] == Free && n <= m
    ensures Aged(reqs[r := q], born[r := m], n) == Aged(reqs, born, n)
  {
  }

  // ---------------------------------------------------------------- invariants

  /** The transaction numbers of open queries differ. */
  ghost predicate Unique(t: Table) {
    forall i, j :: 0 <= i < j < |t| && t[i].state == Asking && t[j].state == Asking ==> t[i].txid != t[j].txid
  }

  /** Every callback waits for an open query. */
  ghost predicate Points(t: Table, reqs: seq<Req>) {
    forall r :: 0 <= r < |reqs| && reqs[r].Pending? ==> reqs[r].idx < |t| && t[reqs[r].idx].state == Asking
  }

  /** The timers of a query count as dns_check_entry sets them. */
  predicate Paced(e: Entry) {
    e.server < MAX_SERVERS && e.retries < MAX_RETRIES && 1 <= e.tmr <= if e.retries == 0 then 1 else e.retries
  }

  ghost predicate AllPaced(t: Table) {
    forall i :: 0 <= i < |t| && t[i].state == Asking ==> Paced(t[i])
  }

  /** New entries become open queries at once. */
  ghost predicate NoneNew(t: Table) {
    forall i :: 0 <= i < |t| ==> t[i].state != New
  }

  lemma {:induction false} CloseNew(t: Table, i: nat, e: Entry)
    requires NoneNew(t) && i < |t| && e.state != New
    ensures NoneNew(t[i := e])
  {
  }

  ghost predicate Uses(t: Table, k: nat) {
    exists i :: 0 <= i < |t| && t[i].state == Asking && t[i].pcb == k
  }

  /** The open sockets are those that open queries use. */
  ghost predicate Sockets(t: Table, pcbs: seq<bool>) {
    && (forall k :: 0 <= k < |pcbs| ==> (pcbs[k] <==> Uses(t, k)))
    && (forall i :: 0 <= i < |t| && t[i].state == Asking ==> t[i].pcb < |pcbs|)
  }

  // ---------------------------------------------------------------- the number of ticks left

  /** Timer ticks until the query is given up, if no server is left out. */
  function Left(e: Entry): int {
    (MAX_SERVERS - 1 - e.server) * 7 + e.tmr + (if e.retries < 1 then 1 else 0) + (if e.retries < 2 then 2 else 0)
      + (if e.retries < 3 then 3 else 0)
  }

  lemma {:induction false} LeftBound(e: Entry)
    requires Paced(e)
    ensures 1 <= Left(e) <= 7 * MAX_SERVERS
  {
  }

  /** What dns_check_entry does to the timers of a query that goes on. */
  function Turned(e: Entry): Entry
    requires Paced(e) && Left(e) > 1
  {
    if e.tmr > 1 then e.(tmr := e.tmr - 1)
    else if e.retries + 1 < MAX_RETRIES then e.(tmr := e.retries + 1, retries := e.retries + 1)
    else e.(server := e.server + 1, tmr := 1, retries := 0)
  }

  /** Theorem: every tick brings a query one tick nearer to its end. */
  lemma {:induction false} TurnedLeft(e: Entry)
    requires Paced(e) && Left(e) > 1
    ensures Paced(Turned(e)) && Left(Turned(e)) == Left(e) - 1
  {
  }

  /** The server to ask when the timer of a query runs out: the same, or the next after MAX_RETRIES. */
  function NextServer(e: Entry): nat {
    if e.retries + 1 < MAX_RETRIES then e.server else e.server + 1
  }

  /** The timer of a query runs out, and there is no server to ask. */
  predicate Expires(e: Entry, servers: seq<bool>) {
    e.tmr == 1 && !(NextServer(e) < |servers| && servers[NextServer(e)])
  }

  /** Theorem: a query ends with its last tick, and before only for want of a server. */
  lemma {:induction false} ExpiresLast(e: Entry, servers: seq<bool>)
    requires Paced(e) && |servers| == MAX_SERVERS
    ensures Left(e) == 1 ==> Expires(e, servers)
    ensures Expires(e, servers) && Left(e) > 1 ==> NextServer(e) < MAX_SERVERS && !servers[NextServer(e)]
    ensures (forall n :: 0 <= n < MAX_SERVERS ==> servers[n]) ==> (Expires(e, servers) <==> Left(e) == 1)
  {
  }

  /** The number of ticks left tells the server, the retries and the timer. */
  lemma {:induction false} LeftTells(e: Entry, f: Entry)
    requires Paced(e) && Paced(f) && Left(e) == Left(f)
    ensures e.server == f.server && e.retries == f.retries && e.tmr == f.tmr
  {
  }

  /** An answer, one second older. */
  function Older(e: Entry): Entry {
    if e.ttl <= 1 then e.(ttl := 0, state := Unused) else e.(ttl := e.ttl - 1)
  }

  /** What a tick makes of an entry. */
  ghost predicate Ticked(e: Entry, e': Entry, servers: seq<bool>) {
    match e.state
    case Asking =>
      if Expires(e, servers) then e'.state == Unused
      else e'.state == Asking && Left(e') == Left(e) - 1 && e'.txid == e.txid && e'.name == e.name
    case Done => e' == Older(e)
    case _ => e' == e
  }

  lemma {:induction false} TickedBy(e: Entry, e': Entry, servers: seq<bool>)
    requires e.state == Asking && (e'.state != Asking <==> Expires(e, servers)) && (e'.state != Asking ==> e'.state == Unused)
    requires e'.state == Asking ==> Left(e') == Left(e) - 1 && e'.txid == e.txid && e'.name == e.name
    ensures Ticked(e, e', servers)
  {
    hide Expires, Left, Older;
  }

  /** What `n` ticks make of an entry when no server is missing. */
  ghost predicate Lasts(e: Entry, e': Entry, n: nat) {
    match e.state
    case Asking =>
      if Left(e) > n then e'.state == Asking && Left(e') == Left(e) - n else e'.state == Unused
    case Done =>
      if n == 0 || e.ttl > n then e'.state == Done && e'.ttl == e.ttl - n else e'.state == Unused
    case _ => e' == e
  }

  lemma {:induction false} LastsOn(e: Entry, f: Entry, g: Entry, servers: seq<bool>, n: nat)
    requires Lasts(e, f, n) && Ticked(f, g, servers) && e.state != New
    requires f.state == Asking ==> (Expires(f, servers) <==> Left(f) == 1) && Left(f) >= 1
    ensures Lasts(e, g, n + 1)
  {
    hide Expires, Left;
  }

  /** What a tick sends for an open query. */
  function Sends(e: Entry, servers: seq<bool>): seq<(u16, nat)> {
    if e.tmr == 1 && !Expires(e, servers) then [(e.txid, NextServer(e))] else []
  }

  /** What a tick sends for the first `n` entries. */
  function Asks(t: Table, servers: seq<bool>, n: nat): seq<(u16, nat)>
    requires n <= |t|
  {
    if n == 0 then []
    else
      var e := t[n - 1];
      Asks(t, servers, n - 1) + if e.state == Asking then Sends(e, servers) else []
  }

  lemma {:induction false} AsksNone(was: seq<(u16, nat)>, t: Table, servers: seq<bool>)
    ensures was + Asks(t, servers, 0) == was
  {
  }

  lemma {:induction false} AsksNext(was: seq<(u16, nat)>, t: Table, servers: seq<bool>, n: nat)
    requires n < |t|
    ensures was + Asks(t, servers, n + 1) ==
            was + Asks(t, servers, n) + if t[n].state == Asking then Sends(t[n], servers) else []
  {
    hide Sends;
  }

  // ---------------------------------------------------------------- runs

  datatype Event =
    | Lookup(name: seq<byte>, id: nat, cb: bool, draws: seq<u16>, bound: bool)
    | Message(txid: u16, verdict: Verdict)
    | Timer
    | Server(n: nat, present: bool)

  /** Timer ticks among the first `m` events. */
  function Ticks(es: seq<Event>, m: nat): nat
    requires m <= |es|
  {
    if m == 0 then 0 else Ticks(es, m - 1) + if es[m - 1] == Timer then 1 else 0
  }

  lemma {:induction false} TicksGrow(es: seq<Event>, n: nat, m: nat)
    requires n <= m <= |es|
    ensures Ticks(es, n) <= Ticks(es, m)
    decreases m
  {
    if n < m { TicksGrow(es, n, m - 1); }
  }

  /** The callback that event `e` hands over, if it is accepted. */
  function HandedBy(e: Event, accepted: bool): multiset<nat> {
    if e.Lookup? && e.cb && accepted then multiset{e.id} else multiset{}
  }

  /** The callbacks that the first `m` events handed over. */
  function Handed(es: seq<Event>, accepted: seq<bool>, m: nat): multiset<nat>
    requires m <= |es| && m <= |accepted|
  {
    if m == 0 then multiset{} else Handed(es, accepted, m - 1) + HandedBy(es[m - 1], accepted[m - 1])
  }

  lemma {:induction false} HandedMore(es: seq<Event>, accepted: seq<bool>, more: bool, m: nat)
    requires m <= |es| && m <= |accepted|
    ensures Handed(es, accepted + [more], m) == Handed(es, accepted, m)
    decreases m
  {
    if m > 0 { HandedMore(es, accepted, more, m - 1); }
  }

  /** The event that filled a slot, or the start of the run. */
  function Birth(b: int): nat { if b < 0 then 0 else b }

  /** After `m` events every callback that waits is young enough for its query still to have ticks
      left. */
  ghost predicate Young(t: Table, reqs: seq<Req>, born: seq<int>, es: seq<Event>, m: nat)
    requires |born| == |reqs| && m <= |es|
  {
    forall r :: 0 <= r < |reqs| && reqs[r].Pending? ==>
      && born[r] < m && reqs[r].idx < |t|
      && Left(t[reqs[r].idx]) + (Ticks(es, m) - Ticks(es, Birth(born[r]))) <= 7 * MAX_SERVERS
  }

  /** The transaction numbers drawn for a lookup suffice whatever numbers are in use. */
  ghost predicate Ample(draws: seq<u16>) {
    forall t: Table :: |t| == TABLE_SIZE ==> Usable(t, draws)
  }

  /** The numbers of the first `n` entries. */
  ghost function Numbers(t: Table, n: nat): (s: set<u16>)
    requires n <= |t|
    ensures |s| <= n && forall j :: 0 <= j < n ==> t[j].txid in s
  {
    if n == 0 then {} else Numbers(t, n - 1) + {t[n - 1].txid}
  }

  ghost function Values(draws: seq<u16>): set<u16> {
    set x | x in draws
  }

  /** One number more than there are entries suffices. */
  lemma {:induction false} AmpleIf(draws: seq<u16>)
    requires |Values(draws)| > TABLE_SIZE
    ensures Ample(draws)
  {
    forall t: Table | |t| == TABLE_SIZE ensures Usable(t, draws) {
      var s, d := Numbers(t, |t|), Values(draws);
      if forall x :: x in d ==> x in s { SubsetSize(d, s); }
      var x :| x in d && x !in s;
      var k :| 0 <= k < |draws| && draws[k] == x;
      assert Fresh(t, draws[k]);
    }
  }

  /** Of what each event found handed over, all was called, or waits in a slot filled before it. */
  ghost predicate Remembers(es: seq<Event>, accepted: seq<bool>, m: nat, queued0: multiset<nat>, born: seq<int>,
                            reqs: seq<Req>, called: multiset<nat>)
    requires m <= |es| && m <= |accepted| && |born| == |reqs|
  {
    forall n :: 0 <= n <= m ==> Kept(queued0 + Handed(es, accepted, n), called, reqs, born, n)
  }

  lemma {:induction false} AgedAll(reqs: seq<Req>, born: seq<int>, n: int)
    requires |born| == |reqs| && forall r :: 0 <= r < |reqs| && reqs[r].Pending? ==> born[r] < n
    ensures Aged(reqs, born, n) == reqs
  {
  }

  /** One event more: what it found is kept, and what there is now is all of it. */
  lemma {:induction false} RemembersMore(es: seq<Event>, accepted: seq<bool>, ok: bool, m: nat, queued0: multiset<nat>,
                                         born: seq<int>, reqs: seq<Req>, called: multiset<nat>)
    requires m < |es| && m == |accepted| && |born| == |reqs| && Remembers(es, accepted, m, queued0, born, reqs, called)
    requires queued0 + Handed(es, accepted, m) + HandedBy(es[m], ok) == called + Waiting(reqs)
    requires forall r :: 0 <= r < |reqs| && reqs[r].Pending? ==> born[r] <= m
    ensures Remembers(es, accepted + [ok], m + 1, queued0, born, reqs, called)
    ensures queued0 + Handed(es, accepted + [ok], m + 1) == called + Waiting(reqs)
  {
    hide Waiting, Aged;
    HandedMore(es, accepted, ok, m);
    AgedAll(reqs, born, m + 1);
    assert queued0 + (Handed(es, accepted, m) + HandedBy(es[m], ok)) == queued0 + Handed(es, accepted, m) + HandedBy(es[m], ok);
    forall n | 0 <= n <= m + 1 ensures Kept(queued0 + Handed(es, accepted + [ok], n), called, reqs, born, n) {
      if n <= m {
        HandedMore(es, accepted, ok, n);
        assert Kept(queued0 + Handed(es, accepted, n), called, reqs, born, n);
      }
    }
  }

  lemma {:induction false} RemembersFlow(es: seq<Event>, accepted: seq<bool>, m: nat, queued0: multiset<nat>, born: seq<int>,
                                         reqs: seq<Req>, called: multiset<nat>, reqs': seq<Req>, called': multiset<nat>)
    requires m <= |es| && m <= |accepted| && |born| == |reqs| && Remembers(es, accepted, m, queued0, born, reqs, called)
    requires Flows(reqs, called, reqs', called')
    ensures Freed(reqs, reqs') && Remembers(es, accepted, m, queued0, born, reqs', called')
  {
    hide Kept;
    forall n | 0 <= n <= m ensures Kept(queued0 + Handed(es, accepted, n), called', reqs', born, n) {
      KeptFlows(queued0 + Handed(es, accepted, n), called, reqs, called', reqs', born, n);
    }
  }

  lemma {:induction false} RemembersPut(es: seq<Event>, accepted: seq<bool>, m: nat, queued0: multiset<nat>, born: seq<int>,
                                        reqs: seq<Req>, called: multiset<nat>, called': multiset<nat>, r: nat, q: Req)
    requires m <= |es| && m <= |accepted| && |born| == |reqs| && Remembers(es, accepted, m, queued0, born, reqs, called)
    requires r < |reqs| && reqs[r] == Free && called <= called'
    ensures Remembers(es, accepted, m, queued0, born[r := m], reqs[r := q], called')
  {
    hide Waiting, Aged, Handed;
    forall n | 0 <= n <= m
      ensures Kept(queued0 + Handed(es, accepted, n), called', reqs[r := q], born[r := m], n)
    {
      AgedPut(reqs, born, r, q, n, m);
      assert Kept(queued0 + Handed(es, accepted, n), called, reqs, born, n);
    }
  }

  lemma {:induction false} RemembersGrow(es: seq<Event>, accepted: seq<bool>, m: nat, queued0: multiset<nat>, born: seq<int>,
                                         reqs: seq<Req>, called: multiset<nat>, called': multiset<nat>)
    requires m <= |es| && m <= |accepted| && |born| == |reqs| && Remembers(es, accepted, m, queued0, born, reqs, called)
    requires called <= called'
    ensures Remembers(es, accepted, m, queued0, born, reqs, called')
  {
    hide Waiting, Aged, Handed;
    forall n | 0 <= n <= m ensures Kept(queued0 + Handed(es, accepted, n), called', reqs, born, n) {
      assert Kept(queued0 + Handed(es, accepted, n), called, reqs, born, n);
    }
  }

  /** Slots were freed, and every query that goes on is a tick nearer to its end if the event was a
      tick. */
  lemma {:induction false} YoungFlow(t: Table, reqs: seq<Req>, born: seq<int>, es: seq<Event>, m: nat, t': Table, reqs': seq<Req>)
    requires |born| == |reqs| && m < |es| && Young(t, reqs, born, es, m) && Freed(reqs, reqs') && Points(t', reqs')
    requires |t| == |t'| && forall j :: 0 <= j < |t| && t'[j].state == Asking ==>
               t[j].state == Asking && Left(t'[j]) + (if es[m] == Timer then 1 else 0) <= Left(t[j])
    ensures Young(t', reqs', born, es, m + 1)
  {
    hide Left;
  }

  /** A callback begins to wait. */
  lemma {:induction false} YoungPut(t: Table, reqs: seq<Req>, born: seq<int>, es: seq<Event>, m: nat, t': Table, r: nat, q: Req)
    requires |born| == |reqs| && m < |es| && es[m] != Timer && Young(t, reqs, born, es, m) && r < |reqs| && reqs[r] == Free
    requires Points(t, reqs) && Points(t', reqs[r := q]) && AllPaced(t') && q.Pending?
    requires |t| == |t'| && forall j :: 0 <= j < |t| && t[j].state == Asking ==> t'[j] == t[j]
    ensures Young(t', reqs[r := q], born[r := m], es, m + 1)
  {
    hide Left, Paced;
    assert q == reqs[r := q][r];
    LeftBound(t'[q.idx]);
  }

  lemma {:induction false} YoungSame(t: Table, reqs: seq<Req>, born: seq<int>, es: seq<Event>, m: nat, t': Table)
    requires |born| == |reqs| && m < |es| && es[m] != Timer && Young(t, reqs, born, es, m) && Points(t, reqs)
    requires |t| == |t'| && forall j :: 0 <= j < |t| && t[j].state == Asking ==> t'[j] == t[j]
    ensures Young(t', reqs, born, es, m + 1)
  {
    hide Left;
  }

  lemma {:induction false} RunStarts(t: Table, reqs: seq<Req>, born: seq<int>, es: seq<Event>, queued: multiset<nat>,
                                     called: multiset<nat>)
    requires |born| == |reqs| && (forall r :: 0 <= r < |born| ==> born[r] == -1) && queued == called + Waiting(reqs)
    requires Points(t, reqs) && AllPaced(t)
    ensures Young(t, reqs, born, es, 0) && Remembers(es, [], 0, queued, born, reqs, called)
    ensures queued + Handed(es, [], 0) == queued
  {
    hide Left, Paced, Waiting;
    AgedAll(reqs, born, 0);
    forall r | 0 <= r < |reqs| && reqs[r].Pending? ensures Left(t[reqs[r].idx]) <= 7 * MAX_SERVERS {
      LeftBound(t[reqs[r].idx]);
    }
    assert queued + multiset{} == queued;
  }

  lemma {:induction false} Recalled(es: seq<Event>, accepted: seq<bool>, queued0: multiset<nat>, born: seq<int>,
                                    reqs: seq<Req>, called: multiset<nat>, n: nat)
    requires |accepted| == |es| && |born| == |reqs| && Remembers(es, accepted, |es|, queued0, born, reqs, called) && n <= |es|
    ensures Kept(queued0 + Handed(es, accepted, n), called, reqs, born, n)
  {
  }

  /** What was handed over so many ticks ago does not wait any more. */
  lemma {:induction false} AllCalled(t: Table, reqs: seq<Req>, born: seq<int>, es: seq<Event>, handed: multiset<nat>,
                                     called: multiset<nat>, n: nat)
    requires |born| == |reqs| && Young(t, reqs, born, es, |es|) && Points(t, reqs) && AllPaced(t)
    requires n <= |es| && Kept(handed, called, reqs, born, n) && Ticks(es, |es|) - Ticks(es, n) >= 7 * MAX_SERVERS
    ensures handed <= called
  {
    hide Left, Paced;
    forall r | 0 <= r < |reqs| ensures Aged(reqs, born, n)[r] == Free {
      if reqs[r].Pending? && born[r] < n {
        TicksGrow(es, Birth(born[r]), n);
        LeftBound(t[reqs[r].idx]);
      }
    }
    WaitingNone(Aged(reqs, born, n));
    assert called + multiset{} == called;
  }

  // ---------------------------------------------------------------- one entry changes

  /** An entry that is not an open query, or no longer. */
  lemma {:induction false} CloseKeeps(t: Table, i: nat, e: Entry, reqs: seq<Req>)
    requires i < |t| && e.state != Asking && Unique(t) && AllPaced(t) && Points(t, reqs)
    ensures Unique(t[i := e]) && AllPaced(t[i := e]) && Points(t[i := e], Flushed(reqs, i))
  {
    FlushedIs(reqs, i);
  }

  /** An entry that is an open query. */
  lemma {:induction false} OpenKeeps(t: Table, i: nat, e: Entry, reqs: seq<Req>)
    requires i < |t| && e.state == Asking && Paced(e) && Unique(t) && AllPaced(t) && Points(t, reqs)
    requires forall j :: 0 <= j < |t| && j != i && t[j].state == Asking ==> t[j].txid != e.txid
    ensures Unique(t[i := e]) && AllPaced(t[i := e]) && Points(t[i := e], reqs)
  {
  }

  lemma {:induction false} SocketSame(t: Table, i: nat, e: Entry, pcbs: seq<bool>)
    requires i < |t| && Sockets(t, pcbs) && e.state == t[i].state && e.pcb == t[i].pcb
    ensures Sockets(t[i := e], pcbs)
  {
    forall k | 0 <= k < |pcbs| ensures pcbs[k] <==> Uses(t[i := e], k) {
      if Uses(t, k) {
        var j :| 0 <= j < |t| && t[j].state == Asking && t[j].pcb == k;
        assert t[i := e][j].state == Asking && t[i := e][j].pcb == k;
      }
    }
  }

  /** Another query than `i` uses the socket `k`. */
  ghost predicate SharedBy(t: Table, i: nat, k: byte) {
    exists j :: 0 <= j < |t| && j != i && t[j].state == Asking && t[j].pcb == k
  }

  lemma {:induction false} SharedSame(t: Table, t': Table, i: nat, k: byte)
    requires |t| == |t'| && forall j :: 0 <= j < |t| && j != i ==> t[j] == t'[j]
    ensures SharedBy(t, i, k) == SharedBy(t', i, k)
  {
    if SharedBy(t, i, k) {
      var j :| 0 <= j < |t| && j != i && t[j].state == Asking && t[j].pcb == k;
      assert t'[j].state == Asking && t'[j].pcb == k;
    }
    if SharedBy(t', i, k) {
      var j :| 0 <= j < |t'| && j != i && t'[j].state == Asking && t'[j].pcb == k;
      assert t[j].state == Asking && t[j].pcb == k;
    }
  }

  /** The socket of a query that ends stays open exactly when another query uses it. */
  lemma {:induction false} SocketClose(t: Table, i: nat, e: Entry, pcbs: seq<bool>, shared: bool)
    requires i < |t| && t[i].state == Asking && e.state != Asking && Sockets(t, pcbs)
    requires shared <==> SharedBy(t, i, t[i].pcb)
    ensures Sockets(t[i := e], if shared then pcbs else pcbs[t[i].pcb := false])
  {
    var t', pcbs' := t[i := e], if shared then pcbs else pcbs[t[i].pcb := false];
    forall k | 0 <= k < |pcbs'| ensures pcbs'[k] <==> Uses(t', k) {
      if pcbs'[k] {
        assert Uses(t, k);
        var j :| 0 <= j < |t| && t[j].state == Asking && t[j].pcb == k;
        if j != i { assert t'[j].state == Asking && t'[j].pcb == k; }
        if j == i {
          var l :| 0 <= l < |t| && l != i && t[l].state == Asking && t[l].pcb == t[i].pcb;
          assert t'[l].state == Asking && t'[l].pcb == k;
        }
      }
      if Uses(t', k) {
        var j :| 0 <= j < |t'| && t'[j].state == Asking && t'[j].pcb == k;
        assert t[j].state == Asking && t[j].pcb == k;
      }
    }
  }

  lemma {:induction false} SocketOpen(t: Table, i: nat, e: Entry, pcbs: seq<bool>)
    requires i < |t| && t[i].state != Asking && e.state == Asking && e.pcb < |pcbs| && Sockets(t, pcbs)
    ensures Sockets(t[i := e], pcbs[e.pcb := true])
  {
    var t', pcbs' := t[i := e], pcbs[e.pcb := true];
    forall k | 0 <= k < |pcbs'| ensures pcbs'[k] <==> Uses(t', k) {
      if k == e.pcb { assert t'[i].state == Asking && t'[i].pcb == k; }
      if Uses(t, k) {
        var j :| 0 <= j < |t| && t[j].state == Asking && t[j].pcb == k;
        assert t'[j].state == Asking && t'[j].pcb == k;
      }
    }
  }

  // ---------------------------------------------------------------- the resolver

  datatype Err = INPROGRESS | MEM

  /** What dns_recv makes of a message: it ignores it, takes it for an error, or for an answer. */
  datatype Verdict = Ignored | Refused | Answered(ttl: u32)

  /** One of the numbers drawn is not in use. */
  ghost predicate Usable(t: Table, draws: seq<u16>) {
    exists k :: 0 <= k < |draws| && Fresh(t, draws[k])
  }

  predicate Fresh(t: Table, txid: u16) {
    forall j :: 0 <= j < |t| && t[j].state == Asking ==> t[j].txid != txid
  }

  class Resolver {
    var table: Table
    var reqs: seq<Req>
    var pcbs: seq<bool>
    var lastPcb: byte
    var seqno: byte
    /** Which of the servers have an address. */
    var servers: seq<bool>
    /** Every callback handed over, and every callback called. */
    ghost var queued: multiset<nat>
    ghost var called: multiset<nat>
    /** Every callback called with an address. */
    ghost var found: multiset<nat>
    /** Every query sent: its number and the server. */
    ghost var sent: seq<(u16, nat)>

    ghost predicate Shape()
      reads this
    {
      |table| == TABLE_SIZE && |reqs| == TABLE_SIZE && |pcbs| == TABLE_SIZE && |servers| == MAX_SERVERS
    }

    /** Every callback is called once or waits. */
    ghost predicate Conserved()
      reads this
    {
      queued == called + Waiting(reqs)
    }

    ghost predicate Valid()
      reads this
    {
      && Shape() && Conserved() && Unique(table) && AllPaced(table) && Points(table, reqs) && Sockets(table, pcbs)
      && NoneNew(table)
    }

    constructor (servers: seq<bool>)
      requires |servers| == MAX_SERVERS
      ensures Valid() && queued == multiset{} && called == multiset{}
    {
      table := seq(TABLE_SIZE, _ => Entry(Unused, 0, 0, 0, 0, 0, 0, 0, []));
      reqs := seq(TABLE_SIZE, _ => Free);
      pcbs := seq(TABLE_SIZE, _ => false);
      lastPcb, seqno, this.servers := 0, 0, servers;
      queued, called, found, sent := multiset{}, multiset{}, multiset{}, [];
      new;
      WaitingNone(reqs);
    }

    /** Whether another open query uses the socket of query `idx`. */
    method Shared(idx: nat) returns (shared: bool)
      requires Shape() && idx < TABLE_SIZE
      ensures shared <==> SharedBy(table, idx, table[idx].pcb)
    {
      for i := 0 to TABLE_SIZE
        invariant forall j :: 0 <= j < i && j != idx && table[j].state == Asking ==> table[j].pcb != table[idx].pcb
      {
        if i != idx && table[i].state == Asking && table[i].pcb == table[idx].pcb {
          return true;
        }
      }
      return false;
    }

    /** The callbacks for entry `idx` are called, with an address or without, and their slots freed. */
    method CallBack(idx: nat, ok: bool)
      requires Shape() && Conserved()
      modifies this`reqs, this`called, this`found
      ensures Shape() && Conserved() && reqs == Flushed(old(reqs), idx)
      ensures called == old(called) + WaitingFor(old(reqs), idx)
      ensures found == if ok then old(found) + WaitingFor(old(reqs), idx) else old(found)
    {
      hide Waiting, WaitingFor;
      ghost var was := reqs;
      FlushedIs(was, idx);
      FlushedWaiting(was, idx);
      assert was[0..] == was;
      for i := 0 to TABLE_SIZE
        invariant |reqs| == TABLE_SIZE
        invariant forall r :: 0 <= r < TABLE_SIZE ==> reqs[r] == if r < i && For(was[r], idx) then Free else was[r]
        invariant called + WaitingFor(was[i..], idx) == old(called) + WaitingFor(was, idx)
        invariant if ok then found + WaitingFor(was[i..], idx) == old(found) + WaitingFor(was, idx) else found == old(found)
      {
        ForStep(was, i, idx);
        if reqs[i].Pending? && reqs[i].idx == idx {
          called := called + multiset{reqs[i].id};
          if ok { found := found + multiset{reqs[i].id}; }
          reqs := reqs[i := Free];
        }
      }
      ForNone(was[TABLE_SIZE..], idx);
      assert called == called + multiset{} && found == found + multiset{};
      assert reqs == Flushed(was, idx);
      Regroup(old(called), WaitingFor(was, idx), Waiting(reqs));
    }

    /** dns_call_found for the query `idx` of the table `was`, whose entry may be marked already and
        is `e` in the end. */
    method CallFound(idx: nat, ok: bool, ghost was: Table, ghost e: Entry)
      requires Shape() && Conserved() && idx < TABLE_SIZE && |was| == TABLE_SIZE && Sockets(was, pcbs)
      requires was[idx].state == Asking && table[idx].pcb == was[idx].pcb && table == was[idx := table[idx]]
      requires e.state != Asking
      modifies this`reqs, this`called, this`found, this`pcbs, this`table
      ensures Shape() && Conserved() && reqs == Flushed(old(reqs), idx)
      ensures called == old(called) + WaitingFor(old(reqs), idx)
      ensures found == if ok then old(found) + WaitingFor(old(reqs), idx) else old(found)
      ensures table == old(table)[idx := old(table)[idx].(pcb := TABLE_SIZE)]
      ensures Sockets(was[idx := e], pcbs)
    {
      CallBack(idx, ok);
      var shared := Shared(idx);
      SharedSame(table, was, idx, was[idx].pcb);
      SocketClose(was, idx, e, pcbs, shared);
      if !shared {
        pcbs := pcbs[table[idx].pcb := false];
      }
      table := table[idx := table[idx].(pcb := TABLE_SIZE)];
    }

    /** The query `i` ends without an answer. */
    method Fail(i: nat)
      requires Valid() && i < TABLE_SIZE && table[i].state == Asking
      modifies this`table, this`reqs, this`called, this`found, this`pcbs
      ensures Valid() && Ended(i, Unused, old(table), old(reqs), old(called)) && found == old(found)
    {
      ghost var was := table;
      CloseKeeps(was, i, was[i].(pcb := TABLE_SIZE, state := Unused), reqs);
      CallFound(i, false, was, was[i].(pcb := TABLE_SIZE, state := Unused));
      table := table[i := table[i].(state := Unused)];
    }

    /** Entry `i` has ended in state `st`: its callbacks were called, and nothing else happened. */
    ghost predicate Ended(i: nat, st: State, t0: Table, reqs0: seq<Req>, called0: multiset<nat>)
      reads this
    {
      && i < |t0| == |table| && table[i].state == st && table == t0[i := table[i]]
      && reqs == Flushed(reqs0, i) && called == called0 + WaitingFor(reqs0, i)
    }

    /** dns_send for the open query `i`: without a server it ends; whether the packet goes out
        changes nothing. */
    method Send(i: nat)
      requires Valid() && i < TABLE_SIZE && table[i].state == Asking
      modifies this`table, this`reqs, this`called, this`found, this`pcbs, this`sent
      ensures Valid() && found == old(found)
      ensures var e := old(table)[i];
              if servers[e.server] then
                table == old(table) && reqs == old(reqs) && called == old(called) && sent == old(sent) + [(e.txid, e.server)]
              else Ended(i, Unused, old(table), old(reqs), old(called)) && sent == old(sent)
    {
      if !servers[table[i].server] {
        Fail(i);
      } else {
        sent := sent + [(table[i].txid, table[i].server)];
      }
    }

    /** The open query `i` gets other timers. */
    method Retime(i: nat, e: Entry)
      requires Valid() && i < TABLE_SIZE && table[i].state == Asking && Paced(e)
      requires e.state == Asking && e.txid == table[i].txid && e.pcb == table[i].pcb
      modifies this`table
      ensures Valid() && table == old(table)[i := e]
    {
      OpenKeeps(table, i, e, reqs);
      SocketSame(table, i, e, pcbs);
      table := table[i := e];
    }

    /** The open query `i` gets other timers, and is sent to its server if that is there. */
    method Ask(i: nat, e: Entry)
      requires Valid() && i < TABLE_SIZE && table[i].state == Asking && Paced(e)
      requires e.state == Asking && e.txid == table[i].txid && e.pcb == table[i].pcb
      modifies this`table, this`reqs, this`called, this`found, this`pcbs, this`sent
      ensures Valid() && found == old(found)
      ensures if servers[e.server] then
                && table == old(table)[i := e] && reqs == old(reqs) && called == old(called)
                && sent == old(sent) + [(e.txid, e.server)]
              else Ended(i, Unused, old(table), old(reqs), old(called)) && sent == old(sent)
    {
      hide Unique, Points, Sockets, Waiting, WaitingFor, Flushed;
      Retime(i, e);
      Send(i);
    }

    /** dns_check_entry for an open query: it ends and its callbacks are called exactly when its timer
        runs out and there is no server to ask; otherwise it comes one tick nearer to its end, and is
        sent again when its timer runs out. */
    method CheckQuery(i: nat)
      requires Valid() && i < TABLE_SIZE && table[i].state == Asking
      modifies this`table, this`reqs, this`called, this`found, this`pcbs, this`sent
      ensures Valid() && found == old(found) && sent == old(sent) + Sends(old(table)[i], servers)
      ensures var e := old(table)[i];
              if Expires(e, servers) then Ended(i, Unused, old(table), old(reqs), old(called))
              else
                && Paced(e) && Left(e) > 1 && table == old(table)[i := Turned(e)]
                && reqs == old(reqs) && called == old(called)
    {
      hide Unique, Points, Sockets, Waiting, WaitingFor, Flushed, Left;
      assert sent + [] == sent;
      var e := table[i];
      LeftBound(e);
      ExpiresLast(e, servers);
      if Left(e) > 1 { TurnedLeft(e); }
      var tmr := e.tmr - 1;
      if tmr == 0 {
        if e.retries + 1 == MAX_RETRIES {
          if e.server + 1 < MAX_SERVERS && servers[e.server + 1] {
            Ask(i, e.(server := e.server + 1, tmr := 1, retries := 0));
          } else {
            Fail(i);
          }
        } else {
          Ask(i, e.(tmr := e.retries + 1, retries := e.retries + 1));
        }
      } else {
        Retime(i, e.(tmr := tmr));
      }
    }

    /** dns_check_entry for an entry that is not new. */
    method CheckEntry(i: nat)
      requires Valid() && i < TABLE_SIZE
      modifies this`table, this`reqs, this`called, this`found, this`pcbs, this`sent
      ensures Valid() && table == old(table)[i := table[i]] && found == old(found)
      ensures Ticked(old(table)[i], table[i], servers)
      ensures old(table)[i].state == Asking ==> (table[i].state != Asking <==> Expires(old(table)[i], servers))
      ensures old(table)[i].state != Asking ==> reqs == old(reqs)
      ensures sent == old(sent) + (if old(table)[i].state == Asking then Sends(old(table)[i], servers) else [])
      ensures table[i].state == Asking ==> old(table)[i].state == Asking && Left(table[i]) == Left(old(table)[i]) - 1
      ensures table[i].state == Asking ==> reqs == old(reqs) && table[i].txid == old(table)[i].txid
      ensures old(table)[i].state == Asking && table[i].state != Asking ==>
                reqs == Flushed(old(reqs), i) && called == old(called) + WaitingFor(old(reqs), i)
      ensures Flows(old(reqs), old(called), reqs, called)
    {
      hide Unique, AllPaced, Points, Sockets, Waiting, WaitingFor, Flushed, Flows, Left, Expires, Sends;
      FlowNone(reqs, called);
      FlowFlush(reqs, called, i);
      assert sent + [] == sent;
      var e := table[i];
      if e.state == Asking {
        CheckQuery(i);
        if !Expires(e, servers) { TurnedLeft(e); }
        TickedBy(e, table[i], servers);
      } else if e.state == Done {
        if e.ttl <= 1 {
          Age(i, e.(ttl := 0, state := Unused));
        } else {
          Age(i, e.(ttl := e.ttl - 1));
        }
      }
    }

    /** An entry that is not an open query gets another value. */
    method Age(i: nat, e: Entry)
      requires Valid() && i < TABLE_SIZE && table[i].state != Asking && e.state != Asking && e.state != New
      modifies this`table
      ensures Valid() && table == old(table)[i := e]
    {
      AgeKeeps(table, i, e, reqs, pcbs);
      table := table[i := e];
    }

    /** dns_tmr: an open query ends exactly when its timer runs out and there is no server to ask, and
        else comes one tick nearer to its end; the queries whose timers run out are sent, in order; exactly
        the callbacks whose slots are freed are called, without an address; answers grow older. */
    method Tick()
      requires Valid()
      modifies this`table, this`reqs, this`called, this`found, this`pcbs, this`sent
      ensures Valid() && Flows(old(reqs), old(called), reqs, called) && found == old(found)
      ensures forall i :: 0 <= i < TABLE_SIZE ==> Ticked(old(table)[i], table[i], servers)
      ensures sent == old(sent) + Asks(old(table), servers, TABLE_SIZE)
    {
      hide Flows, Ticked, Sends, Unique, AllPaced, Points, Sockets, Waiting, Asks, Left, Expires;
      FlowNone(reqs, called);
      AsksNone(sent, table, servers);
      for i := 0 to TABLE_SIZE
        invariant Valid() && Flows(old(reqs), old(called), reqs, called) && found == old(found)
        invariant forall j :: i <= j < TABLE_SIZE ==> table[j] == old(table)[j]
        invariant forall j :: 0 <= j < i ==> Ticked(old(table)[j], table[j], servers)
        invariant sent == old(sent) + Asks(old(table), servers, i)
      {
        ghost var reqs0, called0 := reqs, called;
        AsksNext(old(sent), old(table), servers, i);
        CheckEntry(i);
        FlowTrans(old(reqs), old(called), reqs0, called0, reqs, called);
      }
    }

    /** Theorem: if all servers are there and no message comes, `n` ticks end exactly the queries that had
        no more than `n` ticks left, and drop exactly the answers no longer valid. */
    method Elapse(n: nat)
      requires Valid() && forall k :: 0 <= k < MAX_SERVERS ==> servers[k]
      modifies this`table, this`reqs, this`called, this`found, this`pcbs, this`sent
      ensures Valid() && found == old(found)
      ensures forall i :: 0 <= i < TABLE_SIZE && old(table)[i].state == Asking ==>
                if Left(old(table)[i]) > n then table[i].state == Asking && Left(table[i]) == Left(old(table)[i]) - n
                else table[i].state == Unused
      ensures forall i :: 0 <= i < TABLE_SIZE && old(table)[i].state == Done ==>
                if n == 0 || old(table)[i].ttl > n then table[i].state == Done && table[i].ttl == old(table)[i].ttl - n
                else table[i].state == Unused
    {
      hide Ticked, Left, Flows, Unique, Points, Sockets;
      forall i | 0 <= i < TABLE_SIZE && table[i].state == Asking ensures Left(table[i]) >= 1 { LeftBound(table[i]); }
      for m := 0 to n
        invariant Valid() && found == old(found)
        invariant forall i :: 0 <= i < TABLE_SIZE ==> Lasts(old(table)[i], table[i], m)
      {
        ghost var was := table;
        Tick();
        forall i | 0 <= i < TABLE_SIZE ensures Lasts(old(table)[i], table[i], m + 1) {
          if was[i].state == Asking { LeftBound(was[i]); ExpiresLast(was[i], servers); }
          LastsOn(old(table)[i], was[i], table[i], servers, m);
        }
      }
    }

    /** dns_correct_response for the open query `i`. */
    method CorrectResponse(i: nat, ttl: u32)
      requires Valid() && i < TABLE_SIZE && table[i].state == Asking
      modifies this`table, this`reqs, this`called, this`found, this`pcbs
      ensures Valid() && table[i].state == (if ttl == 0 then Unused else Done)
      ensures Ended(i, table[i].state, old(table), old(reqs), old(called))
      ensures table[i].ttl == Min(ttl, MAX_TTL) && table[i].name == old(table)[i].name
      ensures found == old(found) + WaitingFor(old(reqs), i)
    {
      hide Unique, AllPaced, Points, Sockets, Waiting, WaitingFor, Flushed;
      Answer(i, table[i].(state := Done, ttl := if ttl > MAX_TTL then MAX_TTL else ttl));
    }

    /** The query `i` is answered and its entry is `e` then, unused at once if it may not be kept. */
    method Answer(i: nat, e: Entry)
      requires Valid() && i < TABLE_SIZE && table[i].state == Asking && e.state == Done && e.pcb == table[i].pcb
      modifies this`table, this`reqs, this`called, this`found, this`pcbs
      ensures Valid() && table == old(table)[i := e.(pcb := TABLE_SIZE, state := if e.ttl == 0 then Unused else Done)]
      ensures reqs == Flushed(old(reqs), i) && called == old(called) + WaitingFor(old(reqs), i)
      ensures found == old(found) + WaitingFor(old(reqs), i)
    {
      hide Unique, AllPaced, Points, Sockets, Waiting, WaitingFor, Flushed, NoneNew;
      ghost var was := table;
      ghost var e' := e.(pcb := TABLE_SIZE, state := if e.ttl == 0 then Unused else Done);
      CloseKeeps(was, i, e', reqs);
      CloseNew(was, i, e');
      table := table[i := e];
      CallFound(i, true, was, e');
      var st := if table[i].ttl == 0 then Unused else Done;
      table := table[i := table[i].(state := st)];
      assert table == was[i := e'];
    }

    /** dns_recv: the open query with the number of the message, if there is one, ends; with an answer its
        callbacks get the address, and the entry keeps it as long as the answer says. */
    method Recv(txid: u16, verdict: Verdict)
      requires Valid()
      modifies this`table, this`reqs, this`called, this`found, this`pcbs
      ensures Valid()
      ensures verdict == Ignored || Fresh(old(table), txid) ==>
                table == old(table) && reqs == old(reqs) && called == old(called)
      ensures verdict != Ignored ==> forall i :: 0 <= i < TABLE_SIZE && old(table)[i].state == Asking && old(table)[i].txid == txid ==>
                Ended(i, table[i].state, old(table), old(reqs), old(called)) && table[i].state != Asking
      ensures !verdict.Answered? ==> found == old(found)
      ensures forall i :: 0 <= i < TABLE_SIZE && old(table)[i].state == Asking && old(table)[i].txid == txid ==>
                && (verdict == Refused ==> table[i].state == Unused)
                && (verdict.Answered? ==>
                     && table[i].state == (if verdict.ttl == 0 then Unused else Done)
                     && table[i].ttl == Min(verdict.ttl, MAX_TTL) && table[i].name == old(table)[i].name
                     && found == old(found) + WaitingFor(old(reqs), i))
      ensures Flows(old(reqs), old(called), reqs, called)
      ensures |table| == TABLE_SIZE && forall j :: 0 <= j < TABLE_SIZE && table[j].state == Asking ==> table[j] == old(table)[j]
    {
      hide AllPaced, Points, Sockets, Waiting, WaitingFor, Flushed, Flows;
      FlowNone(reqs, called);
      var i := 0;
      while i < TABLE_SIZE && !(table[i].state == Asking && table[i].txid == txid)
        invariant 0 <= i <= TABLE_SIZE
        invariant forall j :: 0 <= j < i ==> !(table[j].state == Asking && table[j].txid == txid)
      {
        i := i + 1;
      }
      if i < TABLE_SIZE {
        FlowFlush(reqs, called, i);
        match verdict
        case Ignored =>
        case Refused => Fail(i);
        case Answered(ttl) => CorrectResponse(i, ttl);
      }
    }

    /** dns_create_txid: numbers are drawn until one is not in use. */
    method CreateTxid(draws: seq<u16>) returns (txid: u16)
      requires Usable(table, draws)
      ensures Fresh(table, txid)
    {
      var k := 0;
      while !Fresh(table, draws[k])
        invariant 0 <= k < |draws| && exists j :: k <= j < |draws| && Fresh(table, draws[j])
        decreases |draws| - k
      {
        k := k + 1;
      }
      txid := draws[k];
    }

    /** dns_alloc_pcb: a new socket if there is room and `bound` says that one could be opened, or
        one that is open already; TABLE_SIZE if there is none. */
    method AllocPcb(bound: bool) returns (k: byte)
      requires Shape()
      modifies this`pcbs, this`lastPcb
      ensures Shape() && k <= TABLE_SIZE
      ensures if k < TABLE_SIZE then pcbs == old(pcbs)[k := true] else pcbs == old(pcbs)
      ensures k == TABLE_SIZE <==> NoPort(old(pcbs), bound)
      ensures k < TABLE_SIZE ==> (!old(pcbs)[k] <==> bound && exists j :: 0 <= j < TABLE_SIZE && !old(pcbs)[j])
    {
      var i := 0;
      while i < TABLE_SIZE && pcbs[i]
        invariant 0 <= i <= TABLE_SIZE && forall j :: 0 <= j < i ==> pcbs[j]
      {
        i := i + 1;
      }
      if i < TABLE_SIZE && bound {
        pcbs := pcbs[i := true];
        lastPcb := i;
        return i;
      }
      var idx := (lastPcb + 1) % 256;
      ghost var first := if idx >= TABLE_SIZE then 0 else idx;
      for n := 0 to TABLE_SIZE
        invariant 0 <= idx <= 255 && pcbs == old(pcbs)
        invariant (if idx >= TABLE_SIZE then 0 else idx) == (first + n) % TABLE_SIZE
        invariant forall m :: 0 <= m < n ==> !pcbs[Round(first, m)]
      {
        if idx >= TABLE_SIZE {
          idx := 0;
        }
        if pcbs[idx] {
          lastPcb := idx;
          return idx;
        }
        idx := idx + 1;
      }
      AllRounds(pcbs, first);
      assert !pcbs[0];
      return TABLE_SIZE;
    }

    /** A slot for a callback, or TABLE_SIZE. */
    method FreeSlot() returns (r: nat)
      requires Shape()
      ensures r <= TABLE_SIZE && (r < TABLE_SIZE ==> reqs[r] == Free)
      ensures r == TABLE_SIZE ==> forall j :: 0 <= j < TABLE_SIZE ==> reqs[j] != Free
    {
      r := 0;
      while r < TABLE_SIZE && reqs[r] != Free
        invariant 0 <= r <= TABLE_SIZE && forall j :: 0 <= j < r ==> reqs[j] != Free
      {
        r := r + 1;
      }
    }

    /** An unused entry, or else the oldest answer, or TABLE_SIZE. */
    method FindEntry() returns (i: nat)
      requires Shape()
      ensures i <= TABLE_SIZE && (i < TABLE_SIZE ==> table[i].state == Unused || table[i].state == Done)
      ensures i < TABLE_SIZE && table[i].state == Done ==>
                forall j :: 0 <= j < TABLE_SIZE ==> table[j].state != Unused && (table[j].state == Done ==> Age8(table[j]) <= Age8(table[i]))
      ensures i == TABLE_SIZE <==> Full(table, seqno)
    {
      var lseq, lseqi := 0, TABLE_SIZE;
      i := 0;
      while i < TABLE_SIZE && table[i].state != Unused
        invariant 0 <= i <= TABLE_SIZE && forall j :: 0 <= j < i ==> table[j].state != Unused
        invariant 0 <= lseqi <= TABLE_SIZE && (lseqi == TABLE_SIZE <==> lseq == 0)
        invariant lseqi < TABLE_SIZE ==> lseqi < i && table[lseqi].state == Done && Age8(table[lseqi]) == lseq
        invariant forall j :: 0 <= j < i && table[j].state == Done ==> Age8(table[j]) <= lseq
      {
        if table[i].state == Done && Age8(table[i]) > lseq {
          lseq, lseqi := Age8(table[i]), i;
        }
        i := i + 1;
      }
      if i == TABLE_SIZE {
        i := lseqi;
      }
    }

    /** (u8_t)(dns_seqno - seqno) */
    function Age8(e: Entry): byte
      reads this`seqno
    {
      if seqno >= e.seqno then seqno - e.seqno else seqno - e.seqno + 256
    }

    /** An open query for the same name, from `from` on, or TABLE_SIZE. */
    method FindQuery(name: seq<byte>, from: nat) returns (i: nat)
      requires Shape() && from <= TABLE_SIZE
      ensures from <= i <= TABLE_SIZE && (i < TABLE_SIZE ==> table[i].state == Asking && SameName(name, table[i].name))
      ensures forall j :: from <= j < i ==> !(table[j].state == Asking && SameName(name, table[j].name))
    {
      i := from;
      while i < TABLE_SIZE && !(table[i].state == Asking && SameName(name, table[i].name))
        invariant from <= i <= TABLE_SIZE
        invariant forall j :: from <= j < i ==> !(table[j].state == Asking && SameName(name, table[j].name))
      {
        i := i + 1;
      }
    }

    /** The callback `id`, if there is one, waits for the open query `i` in slot `r`. */
    method Wait(r: nat, i: nat, id: nat, cb: bool)
      requires Valid() && r < TABLE_SIZE && reqs[r] == Free && i < TABLE_SIZE && table[i].state == Asking
      modifies this`reqs, this`queued
      ensures Valid() && queued == old(queued) + (if cb then multiset{id} else multiset{})
      ensures reqs == if cb then old(reqs)[r := Pending(id, i)] else old(reqs)
    {
      hide Unique, AllPaced, Sockets, Waiting;
      var q := if cb then Pending(id, i) else Free;
      WaitingPut(reqs, r, q);
      assert !cb ==> reqs[r := q] == reqs;
      queued := queued + IdOf(q);
      reqs := reqs[r := q];
      assert called + Waiting(old(reqs)) + IdOf(q) == called + (Waiting(old(reqs)) + IdOf(q));
    }

    /** Entry `i`, not an open query, becomes one, with the socket `k`. */
    method Open(i: nat, name: seq<byte>, k: byte, draws: seq<u16>, ghost pcbs0: seq<bool>)
      requires Shape() && Conserved() && Unique(table) && AllPaced(table) && Points(table, reqs)
      requires Sockets(table, pcbs0) && |pcbs0| == TABLE_SIZE && k < TABLE_SIZE && pcbs == pcbs0[k := true]
      requires i < TABLE_SIZE && table[i].state != Asking && Usable(table, draws)
      requires NoneNew(table)
      modifies this`table, this`seqno
      ensures Valid() && table[i].state == Asking && table == old(table)[i := table[i]] && Left(table[i]) == 7 * MAX_SERVERS
      ensures table[i].server == 0 && table[i].name == Kept255(name)
    {
      var txid := CreateTxid(draws);
      var e := Entry(Asking, seqno, 1, 0, 0, txid, k, table[i].ttl, Kept255(name));
      OpenKeeps(table, i, e, reqs);
      SocketOpen(table, i, e, pcbs0);
      table := table[i := e];
      seqno := (seqno + 1) % 256;
    }

    /** dns_enqueue: the callback joins an open query for the name, or a new one is begun in `entry`. */
    method Enqueue(name: seq<byte>, id: nat, cb: bool, draws: seq<u16>, bound: bool)
      returns (err: Err, ghost slot: nat, ghost entry: nat)
      requires Valid() && Usable(table, draws)
      modifies this
      ensures Valid() && old(called) <= called && (reqs == old(reqs) || Filled(old(reqs), reqs, slot))
      ensures err == INPROGRESS ==> queued == old(queued) + (if cb then multiset{id} else multiset{})
      ensures err != INPROGRESS ==> err == MEM && queued == old(queued) && called == old(called) && reqs == old(reqs)
      ensures err == MEM <==> NoSlot(old(reqs)) || (!Asked(old(table), name) && (Full(old(table), old(seqno)) || NoPort(old(pcbs), bound)))
      ensures forall j :: 0 <= j < TABLE_SIZE && old(table)[j].state == Asking ==> table[j] == old(table)[j]
      ensures err == INPROGRESS && Asked(old(table), name) ==> Joined(slot, entry, name, id, cb, old(table), old(reqs), old(called))
      ensures err == INPROGRESS && !Asked(old(table), name) ==>
                Begun(entry, slot, name, id, cb, old(reqs), old(called)) && servers == old(servers)
    {
      hide Unique, AllPaced, Points, Sockets, Waiting, WaitingFor, Flushed, Usable, SameName, Left;
      var i := FindQuery(name, 0);
      var r := FreeSlot();
      slot, entry := r, i;
      if i < TABLE_SIZE && r < TABLE_SIZE {
        Wait(r, i, id, cb);
        err := INPROGRESS;
        return;
      }
      i := FindEntry();
      if i == TABLE_SIZE || r == TABLE_SIZE {
        err := MEM;
        return;
      }
      entry := i;
      err := Begin(i, r, name, id, cb, draws, bound);
    }

    /** The callback waits in slot `r` for the query `i`, which was open for the name. */
    ghost predicate Joined(r: nat, i: nat, name: seq<byte>, id: nat, cb: bool, t0: Table, reqs0: seq<Req>, called0: multiset<nat>)
      reads this
    {
      && i < |t0| && t0[i].state == Asking && SameName(name, t0[i].name) && r < |reqs0|
      && table == t0 && called == called0 && reqs == if cb then reqs0[r := Pending(id, i)] else reqs0
    }

    /** A query for the name is open in entry `i` with all its time, and the callback waits for it in slot
        `r`; or there is no server, and the callback was called. */
    ghost predicate Begun(i: nat, r: nat, name: seq<byte>, id: nat, cb: bool, reqs0: seq<Req>, called0: multiset<nat>)
      reads this
    {
      && i < |table| && r < |reqs0| && |servers| == MAX_SERVERS
      && if servers[0]
         then
           && table[i].state == Asking && table[i].name == Kept255(name) && Left(table[i]) == 7 * MAX_SERVERS
           && called == called0 && reqs == if cb then reqs0[r := Pending(id, i)] else reqs0
         else table[i].state == Unused && reqs == reqs0 && called == called0 + if cb then multiset{id} else multiset{}
    }

    /** A new query in entry `i`, for the callback in slot `r`. */
    method Begin(i: nat, r: nat, name: seq<byte>, id: nat, cb: bool, draws: seq<u16>, bound: bool) returns (err: Err)
      requires Valid() && Usable(table, draws) && r < TABLE_SIZE && reqs[r] == Free
      requires i < TABLE_SIZE && table[i].state != Asking
      modifies this
      ensures Valid() && old(called) <= called && table == old(table)[i := table[i]]
      ensures reqs == old(reqs) || Filled(old(reqs), reqs, r)
      ensures err == INPROGRESS ==> queued == old(queued) + (if cb then multiset{id} else multiset{})
      ensures err != INPROGRESS ==> err == MEM && queued == old(queued) && called == old(called) && reqs == old(reqs)
      ensures err == MEM <==> NoPort(old(pcbs), bound)
      ensures err == INPROGRESS ==> Begun(i, r, name, id, cb, old(reqs), old(called)) && servers == old(servers)
    {
      hide Unique, AllPaced, Points, Sockets, Waiting, WaitingFor, Flushed, Usable, Left;
      ghost var pcbs0 := pcbs;
      FlushNew(table, reqs, i, r, id);
      WaitNew(table, reqs, i, r, id);
      var k := AllocPcb(bound);
      if k >= TABLE_SIZE {
        Age(i, table[i].(state := Unused));
        return MEM;
      }
      Open(i, name, k, draws, pcbs0);
      WaitAndSend(i, r, id, cb, old(reqs));
      return INPROGRESS;
    }

    /** The callback in slot `r` waits for the query `i` just opened, which is sent. */
    method WaitAndSend(i: nat, r: nat, id: nat, cb: bool, ghost reqs0: seq<Req>)
      requires Valid() && i < TABLE_SIZE && table[i].state == Asking && r < TABLE_SIZE && reqs[r] == Free && reqs == reqs0
      requires Flushed(reqs[r := Pending(id, i)], i) == reqs && Flushed(reqs, i) == reqs
      requires WaitingFor(reqs[r := Pending(id, i)], i) == multiset{id} && WaitingFor(reqs, i) == multiset{}
      modifies this`table, this`reqs, this`called, this`found, this`pcbs, this`queued, this`sent
      ensures Valid() && old(called) <= called && table == old(table)[i := table[i]]
      ensures reqs == reqs0 || Filled(reqs0, reqs, r)
      ensures queued == old(queued) + (if cb then multiset{id} else multiset{})
      ensures if servers[old(table)[i].server]
              then table == old(table) && called == old(called) && reqs == if cb then reqs0[r := Pending(id, i)] else reqs0
              else table[i].state == Unused && reqs == reqs0 && called == old(called) + if cb then multiset{id} else multiset{}
    {
      hide Unique, AllPaced, Points, Sockets, Waiting, WaitingFor, Flushed, Left;
      Wait(r, i, id, cb);
      assert called + multiset{} == called;
      Send(i);
    }

    /** dns_setserver: server `n` gets an address or loses it. */
    method SetServer(n: nat, present: bool)
      requires Valid()
      modifies this`servers
      ensures Valid() && servers == if n < MAX_SERVERS then old(servers)[n := present] else old(servers)
    {
      if n < MAX_SERVERS {
        servers := servers[n := present];
      }
    }

    /** What holds after `m` events of a run. */
    ghost predicate Running(es: seq<Event>, accepted: seq<bool>, m: nat, queued0: multiset<nat>, born: seq<int>)
      requires m <= |es|
      reads this
    {
      && Valid() && |accepted| == m && |born| == TABLE_SIZE && (forall r :: 0 <= r < TABLE_SIZE ==> born[r] < m)
      && queued == queued0 + Handed(es, accepted, m)
      && Young(table, reqs, born, es, m) && Remembers(es, accepted, m, queued0, born, reqs, called)
    }

    /** A lookup as the event `m` of a run. */
    method LookUp(es: seq<Event>, m: nat, ghost accepted: seq<bool>, ghost queued0: multiset<nat>, ghost born: seq<int>)
      returns (ok: bool, ghost born': seq<int>)
      requires m < |es| && Running(es, accepted, m, queued0, born) && es[m].Lookup? && Ample(es[m].draws)
      modifies this
      ensures Running(es, accepted + [ok], m + 1, queued0, born')
    {
      hide Unique, AllPaced, Points, Sockets, Waiting, Remembers, Young, Handed, Left, Flows;
      var e := es[m];
      var err, slot, _ := Enqueue(e.name, e.id, e.cb, e.draws, e.bound);
      ok, born' := err == INPROGRESS, born;
      if reqs == old(reqs) {
        RemembersGrow(es, accepted, m, queued0, born, reqs, old(called), called);
        YoungSame(old(table), reqs, born, es, m, table);
      } else {
        born' := born[slot := m];
        RemembersPut(es, accepted, m, queued0, born, old(reqs), old(called), called, slot, reqs[slot]);
        YoungPut(old(table), old(reqs), born, es, m, table, slot, reqs[slot]);
      }
      RemembersMore(es, accepted, ok, m, queued0, born', reqs, called);
    }

    /** Any other event. */
    method Other(es: seq<Event>, m: nat, ghost accepted: seq<bool>, ghost queued0: multiset<nat>, ghost born: seq<int>)
      requires m < |es| && Running(es, accepted, m, queued0, born) && !es[m].Lookup?
      modifies this
      ensures Running(es, accepted + [true], m + 1, queued0, born)
    {
      hide Unique, AllPaced, Points, Sockets, Waiting, Remembers, Young, Handed, Left, Flows, Ample;
      FlowNone(reqs, called);
      match es[m] {
        case Message(txid, verdict) => Recv(txid, verdict);
        case Timer => Tick();
        case Server(n, present) => SetServer(n, present);
      }
      RemembersFlow(es, accepted, m, queued0, born, old(reqs), old(called), reqs, called);
      YoungFlow(old(table), old(reqs), born, es, m, table, reqs);
      RemembersMore(es, accepted, true, m, queued0, born, reqs, called);
    }

    /** Theorem: in any run of lookups, messages, timer ticks and changes of the servers, every
        callback handed over at least 7 ticks for every server before the end has been called, and
        none more than once. */
    method Run(es: seq<Event>) returns (accepted: seq<bool>)
      requires Valid() && forall n :: 0 <= n < |es| && es[n].Lookup? ==> Ample(es[n].draws)
      modifies this
      ensures Valid() && |accepted| == |es| && queued == old(queued) + Handed(es, accepted, |es|)
      ensures forall n :: 0 <= n <= |es| && Ticks(es, |es|) - Ticks(es, n) >= 7 * MAX_SERVERS ==>
                old(queued) + Handed(es, accepted, n) <= called <= queued
    {
      hide Unique, AllPaced, Points, Sockets, Waiting, Remembers, Young, Left, Ample;
      accepted := [];
      ghost var born := seq(TABLE_SIZE, _ => -1);
      RunStarts(table, reqs, born, es, queued, called);
      for m := 0 to |es|
        invariant Running(es, accepted, m, old(queued), born)
      {
        var ok := true;
        if es[m].Lookup? {
          ok, born := LookUp(es, m, accepted, old(queued), born);
        } else {
          Other(es, m, accepted, old(queued), born);
        }
        accepted := accepted + [ok];
      }
      forall n | 0 <= n <= |es| && Ticks(es, |es|) - Ticks(es, n) >= 7 * MAX_SERVERS
        ensures old(queued) + Handed(es, accepted, n) <= called
      {
        Recalled(es, accepted, old(queued), born, reqs, called, n);
        AllCalled(table, reqs, born, es, old(queued) + Handed(es, accepted, n), called, n);
      }
    }
  }

  /** No socket can be opened and none is open. */
  predicate NoPort(pcbs: seq<bool>, bound: bool) {
    !bound && forall j :: 0 <= j < |pcbs| ==> !pcbs[j]
  }

  /** The m-th socket from `first` on, in a circle. */
  function Round(first: nat, m: nat): nat {
    (first + m) % TABLE_SIZE
  }

  lemma {:induction false} AllRounds(pcbs: seq<bool>, first: nat)
    requires |pcbs| == TABLE_SIZE && first < TABLE_SIZE && forall m :: 0 <= m < TABLE_SIZE ==> !pcbs[Round(first, m)]
    ensures forall j :: 0 <= j < TABLE_SIZE ==> !pcbs[j]
  {
    forall j | 0 <= j < TABLE_SIZE ensures !pcbs[j] {
      assert Round(first, if j >= first then j - first else j + TABLE_SIZE - first) == j;
    }
  }

  /** As much of a name as an entry keeps. */
  function Kept255(name: seq<byte>): seq<byte> {
    name[..Min(255, |name|)]
  }

  /** An open query for the name. */
  predicate Asked(t: Table, name: seq<byte>) {
    exists j :: 0 <= j < |t| && t[j].state == Asking && SameName(name, t[j].name)
  }

  /** No entry is unused, and none is an answer older than the latest query. */
  predicate Full(t: Table, seqno: byte) {
    forall j :: 0 <= j < |t| ==> t[j].state != Unused && (t[j].state == Done ==> t[j].seqno == seqno)
  }

  predicate NoSlot(reqs: seq<Req>) {
    forall r :: 0 <= r < |reqs| ==> reqs[r] != Free
  }

  /** Slot `r` was free and holds a callback. */
  ghost predicate Filled(reqs: seq<Req>, reqs': seq<Req>, r: nat) {
    r < |reqs| == |reqs'| && reqs[r] == Free && reqs'[r].Pending? && reqs' == reqs[r := reqs'[r]]
  }

  /** Only the callback of a query just begun waits for it. */
  lemma {:induction false} FlushNew(t: Table, reqs: seq<Req>, i: nat, r: nat, id: nat)
    requires Points(t, reqs) && i < |t| && t[i].state != Asking && r < |reqs| && reqs[r] == Free
    ensures Flushed(reqs[r := Pending(id, i)], i) == reqs && Flushed(reqs, i) == reqs
  {
    FlushedIs(reqs[r := Pending(id, i)], i);
    FlushedIs(reqs, i);
  }

  lemma {:induction false} WaitNew(t: Table, reqs: seq<Req>, i: nat, r: nat, id: nat)
    requires Points(t, reqs) && i < |t| && t[i].state != Asking && r < |reqs| && reqs[r] == Free
    ensures WaitingFor(reqs[r := Pending(id, i)], i) == multiset{id} && WaitingFor(reqs, i) == multiset{}
  {
    hide Waiting, WaitingFor, Points;
    var reqs' := reqs[r := Pending(id, i)];
    FlushNew(t, reqs, i, r, id);
    FlushedWaiting(reqs', i);
    FlushedWaiting(reqs, i);
    WaitingPut(reqs, r, Pending(id, i));
    Cancel(Waiting(reqs), WaitingFor(reqs', i), multiset{id});
    Cancel(Waiting(reqs), WaitingFor(reqs, i), multiset{});
  }

  lemma {:induction false} Cancel(a: multiset<nat>, b: multiset<nat>, c: multiset<nat>)
    requires a + b == a + c
    ensures b == c
  {
    forall x: nat ensures b[x] == c[x] {
      assert (a + b)[x] == a[x] + b[x] && (a + c)[x] == a[x] + c[x];
    }
  }

  /** Equality of names but for the case of letters. */
  predicate SameName(a: seq<byte>, b: seq<byte>) {
    |a| == |b| && forall i :: 0 <= i < |a| ==> Lower(a[i]) == Lower(b[i])
  }

  function Lower(c: byte): byte {
    if 65 <= c <= 90 then c + 32 else c
  }

  lemma {:induction false} AgeKeeps(t: Table, i: nat, e: Entry, reqs: seq<Req>, pcbs: seq<bool>)
    requires i < |t| && t[i].state != Asking && e.state != Asking
    requires Unique(t) && AllPaced(t) && Points(t, reqs) && Sockets(t, pcbs)
    ensures Unique(t[i := e]) && AllPaced(t[i := e]) && Points(t[i := e], reqs) && Sockets(t[i := e], pcbs)
  {
    forall k | 0 <= k < |pcbs| ensures pcbs[k] <==> Uses(t[i := e], k) {
      if Uses(t, k) {
        var j :| 0 <= j < |t| && t[j].state == Asking && t[j].pcb == k;
        assert t[i := e][j].state == Asking && t[i := e][j].pcb == k;
      }
    }
  }
}

/** tcp_slowtmr and tcp_fasttmr. */
module Timers {
  import opened SeqNum
  import opened Common

  // Walks over the list of active connections that start again whenever an application callback
  // changed the list.

  type Id = nat

  /** The active connections, in list order, and last_timer of every allocated one. */
  datatype World = World(active: seq<Id>, last: map<Id, byte>)

  /** What the slow timer finds to do with a connection. */
  datatype Fate = Remove | Poll | Keep

  /** What an application callback leaves: whether the list was changed, and which control blocks
      it allocated. */
  datatype Reply = Reply(w: World, changed: bool, born: set<Id>)

  /** What comes of the k-th connection handled, and what the application does when it is called. */
  type Fates = (nat, World, Id) -> Fate
  type App = (nat, World, Id) -> Reply

  ghost predicate Sane(w: World) {
    NoDup(w.active) && forall id :: id in w.active ==> id in w.last
  }

  /** A callback registers and removes connections as it likes, and says so.  A block it allocates
      is marked with the current count; it marks no other. */
  ghost predicate Polite(ctr: byte, w: World, r: Reply) {
    && Sane(r.w) && (!r.changed ==> r.w.active == w.active && forall id :: id in w.active ==> id !in r.born)
    && (forall id :: id in r.w.last ==> if id in r.born then r.w.last[id] == ctr
                                        else id in w.last && r.w.last[id] == w.last[id])
  }

  ghost predicate Courteous(ctr: byte, app: App) {
    forall k, w, id :: Sane(w) ==> Polite(ctr, w, app(k, w, id))
  }

  /** The list after the element at `i` is unlinked behind the one at `prev`; -1 is the head. */
  function Unlink(active: seq<Id>, prev: int, i: int): seq<Id>
    requires -1 <= prev < i < |active|
  {
    active[..prev + 1] + active[i + 1..]
  }

  // ---------------------------------------------------------------- the walk

  /** A tick under way: the next connection to look at and the one to unlink behind; those handled,
      in order; those removed; those that a removal took off the list besides the one removed; those
      that callbacks took off it; the blocks that callbacks allocated; and the connections whose
      application was called. */
  datatype Trip = Trip(w: World, i: int, prev: int, handled: seq<Id>, removed: set<Id>, lost: set<Id>,
                       gone: set<Id>, born: set<Id>, told: seq<Id>)

  function Start(w: World): Trip {
    Trip(w, 0, -1, [], {}, {}, {}, {}, [])
  }

  ghost predicate OnTrack(t: Trip) {
    Sane(t.w) && -1 <= t.prev < t.i <= |t.w.active|
  }

  /** The connections of list `a` that are not on list `b`. */
  function Missing(a: seq<Id>, b: seq<Id>): set<Id> {
    set id | id in a && id !in b
  }

  /** The connection is marked, and unlinked behind the one at `prev`. */
  function TakeOff(ctr: byte, t: Trip): Trip
    requires -1 <= t.prev < t.i < |t.w.active|
  {
    var pcb, active := t.w.active[t.i], Unlink(t.w.active, t.prev, t.i);
    t.(w := World(active, t.w.last[pcb := ctr] - {pcb}), i := t.prev + 1, handled := t.handled + [pcb],
       removed := t.removed + {pcb}, lost := t.lost + (Missing(t.w.active, active) - {pcb}))
  }

  /** The connection is marked and stays. */
  function Pass(ctr: byte, t: Trip): Trip
    requires 0 <= t.i < |t.w.active|
  {
    var pcb := t.w.active[t.i];
    t.(w := t.w.(last := t.w.last[pcb := ctr]), i := t.i + 1, prev := t.i, handled := t.handled + [pcb])
  }

  /** The application was called; the walk goes on, or starts again if the list was changed. */
  function Call(t: Trip, pcb: Id, r: Reply): Trip {
    t.(told := t.told + [pcb], w := r.w, i := if r.changed then 0 else t.i, prev := if r.changed then -1 else t.prev,
       gone := t.gone + Missing(t.w.active, r.w.active), born := t.born + r.born)
  }

  /** The next connection: it is passed over, removed, polled, or neither. */
  function Hop(ctr: byte, fate: Fates, app: App, t: Trip): Trip
    requires -1 <= t.prev < t.i < |t.w.active| && t.w.active[t.i] in t.w.last
  {
    var pcb, k := t.w.active[t.i], |t.handled|;
    if t.w.last[pcb] == ctr then t.(i := t.i + 1)
    else
      var f := fate(k, t.w, pcb);
      var t' := if f == Remove then TakeOff(ctr, t) else Pass(ctr, t);
      if f == Keep then t' else Call(t', pcb, app(k, t'.w, pcb))
  }

  /** Allocated blocks that are not marked with the current count. */
  function Stale(last: map<Id, byte>, ctr: byte): set<Id> {
    set id | id in last && last[id] != ctr
  }

  ghost predicate Shorter(ctr: byte, t: Trip, t': Trip) {
    || |Stale(t'.w.last, ctr)| < |Stale(t.w.last, ctr)|
    || (|Stale(t'.w.last, ctr)| == |Stale(t.w.last, ctr)| && |t'.w.active| - t'.i < |t.w.active| - t.i)
  }

  /** The whole tick. */
  ghost function Walk(ctr: byte, fate: Fates, app: App, t: Trip): Trip
    requires OnTrack(t) && Courteous(ctr, app)
    decreases |Stale(t.w.last, ctr)|, |t.w.active| - t.i
  {
    if t.i == |t.w.active| then t
    else
      HopShrinks(ctr, fate, app, t);
      Walk(ctr, fate, app, Hop(ctr, fate, app, t))
  }

  lemma {:induction false} MarkShrinks(last: map<Id, byte>, ctr: byte, id: Id)
    requires id in last && last[id] != ctr
    ensures |Stale(last[id := ctr], ctr)| < |Stale(last, ctr)|
  {
    assert Stale(last, ctr) == Stale(last[id := ctr], ctr) + {id};
  }

  lemma {:induction false} CallShrinks(ctr: byte, w: World, r: Reply)
    requires Polite(ctr, w, r)
    ensures |Stale(r.w.last, ctr)| <= |Stale(w.last, ctr)|
  {
    SubsetSize(Stale(r.w.last, ctr), Stale(w.last, ctr));
  }

  lemma {:induction false} DropShrinks(last: map<Id, byte>, ctr: byte, id: Id)
    ensures |Stale(last - {id}, ctr)| <= |Stale(last, ctr)|
  {
    SubsetSize(Stale(last - {id}, ctr), Stale(last, ctr));
  }

  /** Unlinking takes off the connections behind `prev` up to the one at `i`. */
  lemma {:induction false} UnlinkHas(active: seq<Id>, prev: int, i: int, id: Id)
    requires -1 <= prev < i < |active| && NoDup(active) && id in active
    ensures id in Unlink(active, prev, i) <==> id !in active[prev + 1..i + 1]
  {
    var u := Unlink(active, prev, i);
    var j :| 0 <= j < |active| && active[j] == id;
    if j <= prev {
      assert u[j] == id;
    } else if j > i {
      assert u[j - (i - prev)] == id;
    } else {
      assert active[prev + 1..i + 1][j - (prev + 1)] == id;
    }
  }

  lemma {:induction false} UnlinkNoDup(active: seq<Id>, prev: int, i: int)
    requires -1 <= prev < i < |active| && NoDup(active)
    ensures NoDup(Unlink(active, prev, i)) && active[i] !in Unlink(active, prev, i)
    ensures forall id :: id in Unlink(active, prev, i) ==> id in active
  {
    assert active[prev + 1..i + 1][i - (prev + 1)] == active[i];
    UnlinkHas(active, prev, i, active[i]);
  }

  /** Theorem: a removal takes no other connection off the list exactly when `prev` is directly
      before the one removed. */
  lemma {:induction false} UnlinkExact(active: seq<Id>, prev: int, i: int)
    requires -1 <= prev < i < |active| && NoDup(active)
    ensures Missing(active, Unlink(active, prev, i)) - {active[i]} == {} <==> prev == i - 1
  {
    var u := Unlink(active, prev, i);
    if prev < i - 1 {
      assert active[prev + 1..i + 1][i - 1 - (prev + 1)] == active[i - 1];
      UnlinkHas(active, prev, i, active[i - 1]);
      assert active[i - 1] in Missing(active, u) - {active[i]};
    } else {
      assert active[prev + 1..i + 1] == [active[i]];
      forall id | id in active ensures id in u || id == active[i] { UnlinkHas(active, prev, i, id); }
    }
  }

  lemma {:induction false} TakenOff(ctr: byte, t: Trip)
    requires OnTrack(t) && t.i < |t.w.active| && t.w.last[t.w.active[t.i]] != ctr
    ensures OnTrack(TakeOff(ctr, t)) && |Stale(TakeOff(ctr, t).w.last, ctr)| < |Stale(t.w.last, ctr)|
  {
    hide Stale;
    var pcb := t.w.active[t.i];
    UnlinkNoDup(t.w.active, t.prev, t.i);
    MarkShrinks(t.w.last, ctr, pcb);
    DropShrinks(t.w.last[pcb := ctr], ctr, pcb);
  }

  lemma {:induction false} Passed(ctr: byte, t: Trip)
    requires OnTrack(t) && t.i < |t.w.active| && t.w.last[t.w.active[t.i]] != ctr
    ensures OnTrack(Pass(ctr, t)) && |Stale(Pass(ctr, t).w.last, ctr)| < |Stale(t.w.last, ctr)|
  {
    hide Stale;
    MarkShrinks(t.w.last, ctr, t.w.active[t.i]);
  }

  lemma {:induction false} Called(ctr: byte, t: Trip, pcb: Id, r: Reply)
    requires OnTrack(t) && Polite(ctr, t.w, r)
    ensures OnTrack(Call(t, pcb, r)) && |Stale(Call(t, pcb, r).w.last, ctr)| <= |Stale(t.w.last, ctr)|
  {
    hide Stale;
    CallShrinks(ctr, t.w, r);
  }

  /** Every step marks a block that was not marked, or gets on in the list: so the walk ends. */
  lemma {:induction false} HopShrinks(ctr: byte, fate: Fates, app: App, t: Trip)
    requires OnTrack(t) && Courteous(ctr, app) && t.i < |t.w.active|
    ensures OnTrack(Hop(ctr, fate, app, t)) && Shorter(ctr, t, Hop(ctr, fate, app, t))
  {
    hide Stale, Polite, TakeOff, Pass, Call;
    var pcb, k := t.w.active[t.i], |t.handled|;
    if t.w.last[pcb] != ctr {
      var f := fate(k, t.w, pcb);
      if f == Remove { TakenOff(ctr, t); } else { Passed(ctr, t); }
      var t' := if f == Remove then TakeOff(ctr, t) else Pass(ctr, t);
      Called(ctr, t', pcb, app(k, t'.w, pcb));
    }
  }

  // ---------------------------------------------------------------- who is handled

  /** What a tick has done so far to the blocks that were there when it began: it marked those it
      handled, each once, and callbacks marked those they allocated. */
  ghost predicate Ticking(ctr: byte, was: map<Id, byte>, last: map<Id, byte>, handled: seq<Id>, born: set<Id>) {
    && NoDup(handled)
    && (forall id :: id in handled ==> id in was && was[id] != ctr)
    && (forall id :: id in handled && id in last ==> last[id] == ctr)
    && (forall id :: id in last && last[id] != ctr ==> id in was && was[id] == last[id])
    && (forall id :: id in last && id !in born && id !in handled ==> id in was && was[id] == last[id])
  }

  lemma {:induction false} TickMark(ctr: byte, was: map<Id, byte>, last: map<Id, byte>, handled: seq<Id>, born: set<Id>, id: Id)
    requires Ticking(ctr, was, last, handled, born) && id in last && last[id] != ctr
    ensures Ticking(ctr, was, last[id := ctr], handled + [id], born)
  {
  }

  lemma {:induction false} TickDrop(ctr: byte, was: map<Id, byte>, last: map<Id, byte>, handled: seq<Id>, born: set<Id>, id: Id)
    requires Ticking(ctr, was, last, handled, born)
    ensures Ticking(ctr, was, last - {id}, handled, born)
  {
  }

  lemma {:induction false} TickCall(ctr: byte, was: map<Id, byte>, w: World, handled: seq<Id>, born: set<Id>, r: Reply)
    requires Ticking(ctr, was, w.last, handled, born) && Polite(ctr, w, r)
    ensures Ticking(ctr, was, r.w.last, handled, born + r.born)
  {
  }

  /** The first `i` connections of the list carry the current mark. */
  ghost predicate Marked(ctr: byte, w: World, i: int) {
    0 <= i <= |w.active| && forall j :: 0 <= j < i ==> w.active[j] in w.last && w.last[w.active[j]] == ctr
  }

  ghost predicate Going(ctr: byte, was: map<Id, byte>, t: Trip) {
    OnTrack(t) && Ticking(ctr, was, t.w.last, t.handled, t.born) && Marked(ctr, t.w, t.i)
  }

  lemma {:induction false} UnlinkMarked(ctr: byte, t: Trip)
    requires OnTrack(t) && t.i < |t.w.active| && Marked(ctr, t.w, t.i)
    ensures Marked(ctr, TakeOff(ctr, t).w, t.prev + 1)
  {
    UnlinkNoDup(t.w.active, t.prev, t.i);
    var t' := TakeOff(ctr, t);
    forall j | 0 <= j < t.prev + 1 ensures t'.w.active[j] in t'.w.last && t'.w.last[t'.w.active[j]] == ctr {
      assert t'.w.active[j] == t.w.active[j];
      assert t.w.active[j] != t.w.active[t.i];
    }
  }

  lemma {:induction false} TakeOffGoes(ctr: byte, was: map<Id, byte>, t: Trip)
    requires Going(ctr, was, t) && t.i < |t.w.active| && t.w.last[t.w.active[t.i]] != ctr
    ensures Going(ctr, was, TakeOff(ctr, t))
  {
    hide Ticking, Marked, Stale;
    var pcb := t.w.active[t.i];
    TakenOff(ctr, t);
    UnlinkMarked(ctr, t);
    TickMark(ctr, was, t.w.last, t.handled, t.born, pcb);
    TickDrop(ctr, was, t.w.last[pcb := ctr], t.handled + [pcb], t.born, pcb);
  }

  lemma {:induction false} PassGoes(ctr: byte, was: map<Id, byte>, t: Trip)
    requires Going(ctr, was, t) && t.i < |t.w.active| && t.w.last[t.w.active[t.i]] != ctr
    ensures Going(ctr, was, Pass(ctr, t))
  {
    hide Ticking;
    TickMark(ctr, was, t.w.last, t.handled, t.born, t.w.active[t.i]);
  }

  lemma {:induction false} CallGoes(ctr: byte, was: map<Id, byte>, t: Trip, pcb: Id, r: Reply)
    requires Going(ctr, was, t) && Polite(ctr, t.w, r)
    ensures Going(ctr, was, Call(t, pcb, r))
  {
    hide Ticking;
    TickCall(ctr, was, t.w, t.handled, t.born, r);
  }

  lemma {:induction false} HopGoes(ctr: byte, fate: Fates, app: App, was: map<Id, byte>, t: Trip)
    requires Going(ctr, was, t) && Courteous(ctr, app) && t.i < |t.w.active|
    ensures Going(ctr, was, Hop(ctr, fate, app, t))
  {
    hide Ticking, Polite, TakeOff, Pass, Call;
    var pcb, k := t.w.active[t.i], |t.handled|;
    if t.w.last[pcb] != ctr {
      var f := fate(k, t.w, pcb);
      if f == Remove { TakeOffGoes(ctr, was, t); } else { PassGoes(ctr, was, t); }
      var t' := if f == Remove then TakeOff(ctr, t) else Pass(ctr, t);
      CallGoes(ctr, was, t', pcb, app(k, t'.w, pcb));
    }
  }

  lemma {:induction false} WalkGoes(ctr: byte, fate: Fates, app: App, was: map<Id, byte>, t: Trip)
    requires Going(ctr, was, t) && Courteous(ctr, app)
    ensures var t' := Walk(ctr, fate, app, t); Going(ctr, was, t') && t'.i == |t'.w.active|
    decreases |Stale(t.w.last, ctr)|, |t.w.active| - t.i
  {
    hide Ticking, Polite, Hop, Marked, Stale;
    if t.i < |t.w.active| {
      HopShrinks(ctr, fate, app, t);
      HopGoes(ctr, fate, app, was, t);
      WalkGoes(ctr, fate, app, was, Hop(ctr, fate, app, t));
    }
  }

  /** Theorem: a tick handles no connection twice and none that carries the new count already; and of
      the connections then on the list, one that was not allocated in the tick was handled exactly
      when it did not carry the new count before: a count of 8 bits comes round again for a control
      block that no tick has handled for 256 ticks. */
  lemma {:induction false} TickHandles(ctr: byte, fate: Fates, app: App, w: World, id: Id)
    requires Sane(w) && Courteous(ctr, app)
    ensures var t := Walk(ctr, fate, app, Start(w));
            && NoDup(t.handled) && (id in t.handled ==> id in w.last && w.last[id] != ctr)
            && (id in t.w.active && id !in t.born ==> id in w.last && (id in t.handled <==> w.last[id] != ctr))
  {
    hide Stale, Hop;
    WalkGoes(ctr, fate, app, w.last, Start(w));
  }

  // ---------------------------------------------------------------- what is done to them

  /** What came of connection `id`, whose fate is always `f`: if it was handled, it was removed or not,
      and its application called once or not, as its fate says. */
  ghost predicate Treated(t: Trip, id: Id, f: Fate) {
    && (id in t.removed <==> id in t.handled && f == Remove)
    && multiset(t.told)[id] == if f == Keep then 0 else multiset(t.handled)[id]
  }

  /** What a step adds to those handled, removed and told. */
  lemma {:induction false} HopAdds(ctr: byte, fate: Fates, app: App, t: Trip)
    requires OnTrack(t) && t.i < |t.w.active|
    ensures var t', pcb := Hop(ctr, fate, app, t), t.w.active[t.i];
            var f := fate(|t.handled|, t.w, pcb);
            if t.w.last[pcb] == ctr then t'.handled == t.handled && t'.removed == t.removed && t'.told == t.told
            else
              && t'.handled == t.handled + [pcb] && t'.removed == (if f == Remove then t.removed + {pcb} else t.removed)
              && t'.told == if f == Keep then t.told else t.told + [pcb]
  {
    hide Unlink, Missing;
  }

  lemma {:induction false} OneMore(q: seq<Id>, x: Id, id: Id)
    ensures multiset(q + [x])[id] == multiset(q)[id] + (if x == id then 1 else 0)
    ensures id in q + [x] <==> id in q || id == x
  {
    assert multiset(q + [x]) == multiset(q) + multiset{x};
  }

  lemma {:induction false} HopTreats(ctr: byte, fate: Fates, app: App, t: Trip, id: Id, f: Fate)
    requires OnTrack(t) && t.i < |t.w.active| && Treated(t, id, f) && forall k, w :: fate(k, w, id) == f
    ensures Treated(Hop(ctr, fate, app, t), id, f)
  {
    hide Hop, Sane;
    var pcb := t.w.active[t.i];
    HopAdds(ctr, fate, app, t);
    OneMore(t.handled, pcb, id);
    OneMore(t.told, pcb, id);
    assert id == pcb ==> fate(|t.handled|, t.w, pcb) == f;
  }

  /** Theorem: of the connections it handles, a tick removes those, and calls the application once for
      those, whose fate says so, and no others. */
  lemma {:induction false} WalkTreats(ctr: byte, fate: Fates, app: App, t: Trip, id: Id, f: Fate)
    requires OnTrack(t) && Courteous(ctr, app) && Treated(t, id, f) && forall k, w :: fate(k, w, id) == f
    ensures Treated(Walk(ctr, fate, app, t), id, f)
    decreases |Stale(t.w.last, ctr)|, |t.w.active| - t.i
  {
    hide Polite, Hop, Stale, Treated;
    if t.i < |t.w.active| {
      HopShrinks(ctr, fate, app, t);
      HopTreats(ctr, fate, app, t, id, f);
      WalkTreats(ctr, fate, app, Hop(ctr, fate, app, t), id, f);
    }
  }

  // ---------------------------------------------------------------- who leaves the list

  /** Every connection that was on the list is on it, or was removed, lost, or taken off by a
      callback. */
  ghost predicate Traced(start: seq<Id>, t: Trip) {
    forall id :: id in start ==> id in t.w.active || id in t.removed || id in t.lost || id in t.gone
  }

  lemma {:induction false} HopTraced(ctr: byte, fate: Fates, app: App, start: seq<Id>, t: Trip)
    requires OnTrack(t) && t.i < |t.w.active| && Traced(start, t)
    ensures Traced(start, Hop(ctr, fate, app, t))
  {
    hide Unlink;
  }

  /** Theorem: a tick takes off the list no connection but those it removes, those its callbacks take
      off, and those it loses. */
  lemma {:induction false} WalkTraced(ctr: byte, fate: Fates, app: App, start: seq<Id>, t: Trip)
    requires OnTrack(t) && Courteous(ctr, app) && Traced(start, t)
    ensures Traced(start, Walk(ctr, fate, app, t))
    decreases |Stale(t.w.last, ctr)|, |t.w.active| - t.i
  {
    hide Polite, Hop, Stale;
    if t.i < |t.w.active| {
      HopShrinks(ctr, fate, app, t);
      HopTraced(ctr, fate, app, start, t);
      WalkTraced(ctr, fate, app, start, Hop(ctr, fate, app, t));
    }
  }

  /** The next connection is removed while the one before it in the list was passed over. */
  predicate Skipping(ctr: byte, fate: Fates, t: Trip)
    requires 0 <= t.i < |t.w.active| && t.w.active[t.i] in t.w.last
  {
    var pcb := t.w.active[t.i];
    t.w.last[pcb] != ctr && fate(|t.handled|, t.w, pcb) == Remove && t.prev < t.i - 1
  }

  /** No connection is removed with one that was passed over directly before it. */
  ghost predicate Clean(ctr: byte, fate: Fates, app: App, t: Trip)
    requires OnTrack(t) && Courteous(ctr, app)
    decreases |Stale(t.w.last, ctr)|, |t.w.active| - t.i
  {
    t.i == |t.w.active| ||
    (!Skipping(ctr, fate, t)
     && (HopShrinks(ctr, fate, app, t); Clean(ctr, fate, app, Hop(ctr, fate, app, t))))
  }

  lemma {:induction false} HopLoses(ctr: byte, fate: Fates, app: App, t: Trip)
    requires OnTrack(t) && t.i < |t.w.active|
    ensures t.lost <= Hop(ctr, fate, app, t).lost
    ensures t.lost == {} ==> (Hop(ctr, fate, app, t).lost == {} <==> !Skipping(ctr, fate, t))
  {
    hide Unlink, Missing;
    UnlinkExact(t.w.active, t.prev, t.i);
  }

  lemma {:induction false} WalkLoses(ctr: byte, fate: Fates, app: App, t: Trip)
    requires OnTrack(t) && Courteous(ctr, app)
    ensures t.lost <= Walk(ctr, fate, app, t).lost
    decreases |Stale(t.w.last, ctr)|, |t.w.active| - t.i
  {
    hide Polite, Hop, Stale;
    if t.i < |t.w.active| {
      HopShrinks(ctr, fate, app, t);
      HopLoses(ctr, fate, app, t);
      WalkLoses(ctr, fate, app, Hop(ctr, fate, app, t));
    }
  }

  /** Theorem: a tick loses no connection exactly when none is removed with one that was passed over
      directly before it. */
  lemma {:induction false} LosesNone(ctr: byte, fate: Fates, app: App, t: Trip)
    requires OnTrack(t) && Courteous(ctr, app) && t.lost == {}
    ensures Walk(ctr, fate, app, t).lost == {} <==> Clean(ctr, fate, app, t)
    decreases |Stale(t.w.last, ctr)|, |t.w.active| - t.i
  {
    hide Polite, Hop, Stale, Skipping;
    if t.i < |t.w.active| {
      HopShrinks(ctr, fate, app, t);
      HopLoses(ctr, fate, app, t);
      var t' := Hop(ctr, fate, app, t);
      if Skipping(ctr, fate, t) {
        WalkLoses(ctr, fate, app, t');
      } else {
        LosesNone(ctr, fate, app, t');
      }
    }
  }

  // ---------------------------------------------------------------- after a restart

  lemma {:induction false} WalkStep(ctr: byte, fate: Fates, app: App, t: Trip)
    requires OnTrack(t) && Courteous(ctr, app) && t.i < |t.w.active|
    ensures OnTrack(Hop(ctr, fate, app, t)) && Walk(ctr, fate, app, t) == Walk(ctr, fate, app, Hop(ctr, fate, app, t))
  {
    hide Stale, Hop, Polite;
    HopShrinks(ctr, fate, app, t);
  }

  lemma {:induction false} SkipStep(ctr: byte, fate: Fates, app: App, t: Trip)
    requires OnTrack(t) && Courteous(ctr, app) && t.i < |t.w.active| && t.w.last[t.w.active[t.i]] == ctr
    ensures Walk(ctr, fate, app, t) == Walk(ctr, fate, app, t.(i := t.i + 1))
  {
    hide Stale, Polite, Courteous;
    WalkStep(ctr, fate, app, t);
  }

  lemma {:induction false} SkipTo(ctr: byte, fate: Fates, app: App, t: Trip, m: int)
    requires OnTrack(t) && Courteous(ctr, app) && t.i <= m <= |t.w.active|
    requires forall j :: t.i <= j < m ==> t.w.last[t.w.active[j]] == ctr
    ensures Walk(ctr, fate, app, t) == Walk(ctr, fate, app, t.(i := m))
    decreases m - t.i
  {
    hide Stale, Courteous, Walk;
    if t.i < m {
      SkipStep(ctr, fate, app, t);
      SkipTo(ctr, fate, app, t.(i := t.i + 1), m);
    }
  }

  lemma {:induction false} TakeOffLoses(ctr: byte, t: Trip, id: Id)
    requires OnTrack(t) && t.i < |t.w.active| && id in t.w.active[t.prev + 1..t.i]
    ensures id in TakeOff(ctr, t).lost
  {
    hide Unlink;
    SliceHas(t.w.active, t.prev + 1, t.i, id);
    UnlinkHas(t.w.active, t.prev, t.i, id);
  }

  lemma {:induction false} HopTakesOff(ctr: byte, fate: Fates, app: App, t: Trip)
    requires OnTrack(t) && t.i < |t.w.active| && t.w.last[t.w.active[t.i]] != ctr
    requires fate(|t.handled|, t.w, t.w.active[t.i]) == Remove
    ensures Hop(ctr, fate, app, t).lost == TakeOff(ctr, t).lost
  {
    hide TakeOff, Pass, Missing;
  }

  lemma {:induction false} SliceHas(a: seq<Id>, lo: int, hi: int, id: Id)
    requires 0 <= lo <= hi < |a| && NoDup(a) && id in a[lo..hi]
    ensures id in a && id != a[hi] && id in a[lo..hi + 1]
  {
    var j :| 0 <= j < hi - lo && a[lo..hi][j] == id;
    assert a[lo + j] == id && a[lo..hi + 1][j] == id;
  }

  /** Theorem: when the walk starts again and the first connection it does not pass over is removed,
      all those before it are lost. */
  lemma {:induction false} RestartLoses(ctr: byte, fate: Fates, app: App, t: Trip, m: int, id: Id)
    requires OnTrack(t) && Courteous(ctr, app) && t.i == 0 && 0 <= m < |t.w.active|
    requires (forall j :: 0 <= j < m ==> t.w.last[t.w.active[j]] == ctr) && t.w.last[t.w.active[m]] != ctr
    requires fate(|t.handled|, t.w, t.w.active[m]) == Remove && id in t.w.active[..m]
    ensures id in Walk(ctr, fate, app, t).lost
  {
    hide Stale, Courteous, Walk, TakeOff, Hop;
    var t' := t.(i := m);
    SkipTo(ctr, fate, app, t, m);
    assert t.w.active[t'.prev + 1..m] == t.w.active[..m];
    TakeOffLoses(ctr, t', id);
    HopTakesOff(ctr, fate, app, t');
    WalkStep(ctr, fate, app, t');
    WalkLoses(ctr, fate, app, Hop(ctr, fate, app, t'));
  }

  // ---------------------------------------------------------------- ticks that lose none

  /** No callback changes the list. */
  ghost predicate Quiet(app: App) {
    forall k, w, id :: !app(k, w, id).changed
  }

  /** From `i` on, none is marked. */
  ghost predicate NoneMarked(ctr: byte, w: World, i: int) {
    forall j :: 0 <= i <= j < |w.active| ==> w.active[j] in w.last && w.last[w.active[j]] != ctr
  }

  /** No connection was passed over, and exactly the connections in `removed` are off the list. */
  ghost predicate Intact(ctr: byte, start: seq<Id>, t: Trip) {
    && t.prev == t.i - 1 && NoneMarked(ctr, t.w, t.i)
    && forall id :: id in start ==> (id in t.w.active <==> id !in t.removed)
  }

  lemma {:induction false} PassIntact(ctr: byte, start: seq<Id>, t: Trip)
    requires OnTrack(t) && t.i < |t.w.active| && Intact(ctr, start, t)
    ensures Intact(ctr, start, Pass(ctr, t))
  {
  }

  lemma {:induction false} TakeOffIntact(ctr: byte, start: seq<Id>, t: Trip)
    requires OnTrack(t) && t.i < |t.w.active| && Intact(ctr, start, t)
    ensures Intact(ctr, start, TakeOff(ctr, t))
  {
    var pcb, u := t.w.active[t.i], Unlink(t.w.active, t.prev, t.i);
    assert t.w.active[t.prev + 1..t.i + 1] == [pcb];
    UnlinkNoDup(t.w.active, t.prev, t.i);
    forall id | id in t.w.active ensures id in u <==> id != pcb { UnlinkHas(t.w.active, t.prev, t.i, id); }
    forall j | t.prev + 1 <= j < |u| ensures u[j] in t.w.last && u[j] != pcb && t.w.last[u[j]] != ctr {
      assert u[j] == t.w.active[j + 1];
    }
  }

  lemma {:induction false} CallIntact(ctr: byte, start: seq<Id>, t: Trip, pcb: Id, r: Reply)
    requires OnTrack(t) && Intact(ctr, start, t) && Polite(ctr, t.w, r) && !r.changed
    ensures Intact(ctr, start, Call(t, pcb, r))
  {
  }

  lemma {:induction false} HopIntact(ctr: byte, fate: Fates, app: App, start: seq<Id>, t: Trip)
    requires OnTrack(t) && t.i < |t.w.active| && Courteous(ctr, app) && Quiet(app) && Intact(ctr, start, t)
    ensures Intact(ctr, start, Hop(ctr, fate, app, t)) && !Skipping(ctr, fate, t)
  {
    hide Polite, TakeOff, Pass, Call, Stale;
    var pcb, k := t.w.active[t.i], |t.handled|;
    var f := fate(k, t.w, pcb);
    TakenOff(ctr, t);
    Passed(ctr, t);
    if f == Remove { TakeOffIntact(ctr, start, t); } else { PassIntact(ctr, start, t); }
    var t' := if f == Remove then TakeOff(ctr, t) else Pass(ctr, t);
    CallIntact(ctr, start, t', pcb, app(k, t'.w, pcb));
  }

  lemma {:induction false} WalkIntact(ctr: byte, fate: Fates, app: App, start: seq<Id>, t: Trip)
    requires OnTrack(t) && Courteous(ctr, app) && Quiet(app) && Intact(ctr, start, t)
    ensures Intact(ctr, start, Walk(ctr, fate, app, t)) && Clean(ctr, fate, app, t)
    decreases |Stale(t.w.last, ctr)|, |t.w.active| - t.i
  {
    hide Polite, Hop, Stale, Skipping, Intact;
    if t.i < |t.w.active| {
      HopShrinks(ctr, fate, app, t);
      HopIntact(ctr, fate, app, start, t);
      WalkIntact(ctr, fate, app, start, Hop(ctr, fate, app, t));
    }
  }

  /** Theorem: in a tick without callbacks that change the list, started when no active connection
      carries the new count, exactly those removed leave the list, and none is lost. */
  lemma {:induction false} QuietTick(ctr: byte, fate: Fates, app: App, w: World)
    requires Sane(w) && Courteous(ctr, app) && Quiet(app) && NoneMarked(ctr, w, 0)
    ensures var t := Walk(ctr, fate, app, Start(w));
            t.lost == {} && forall id :: id in w.active ==> (id in t.w.active <==> id !in t.removed)
  {
    hide Stale, Hop, Polite;
    WalkIntact(ctr, fate, app, w.active, Start(w));
    LosesNone(ctr, fate, app, Start(w));
  }

  ghost predicate Spares(fate: Fates) {
    forall k, w, id :: fate(k, w, id) != Remove
  }

  /** Theorem: a tick that removes none loses none, whatever the callbacks do; and if they do not
      change the list, it stays as it was. */
  lemma {:induction false} SparingTick(ctr: byte, fate: Fates, app: App, t: Trip)
    requires OnTrack(t) && Courteous(ctr, app) && Spares(fate)
    ensures var t' := Walk(ctr, fate, app, t);
            t'.lost == t.lost && t'.removed == t.removed && (Quiet(app) ==> t'.w.active == t.w.active)
    decreases |Stale(t.w.last, ctr)|, |t.w.active| - t.i
  {
    hide Stale;
    if t.i < |t.w.active| {
      HopShrinks(ctr, fate, app, t);
      HopSpares(ctr, fate, app, t);
      SparingTick(ctr, fate, app, Hop(ctr, fate, app, t));
    }
  }

  lemma {:induction false} HopSpares(ctr: byte, fate: Fates, app: App, t: Trip)
    requires OnTrack(t) && Courteous(ctr, app) && Spares(fate) && t.i < |t.w.active|
    ensures var t' := Hop(ctr, fate, app, t);
            t'.lost == t.lost && t'.removed == t.removed && (Quiet(app) ==> t'.w.active == t.w.active)
  {
    hide Stale, TakeOff, Missing;
    if t.w.last[t.w.active[t.i]] != ctr { Passed(ctr, t); }
  }

  // ---------------------------------------------------------------- a tick that loses two

  /** The first connection is polled, the second one removed. */
  function PollThenRemove(polled: Id, dead: Id): Fates {
    (k, w, id) => if id == dead then Remove else if id == polled then Poll else Keep
  }

  /** When it is called first, the application opens a connection, which goes to the head of the
      list. */
  function Opens(ctr: byte, newest: Id): App {
    (k, w: World, id) =>
      if k == 0 && newest !in w.last then Reply(World([newest] + w.active, w.last[newest := ctr]), true, {newest})
      else Reply(w, false, {})
  }

  lemma {:induction false} OpensCourteous(ctr: byte, newest: Id)
    ensures Courteous(ctr, Opens(ctr, newest))
  {
    forall k: nat, w, id: Id | Sane(w) ensures Polite(ctr, w, Opens(ctr, newest)(k, w, id)) {
      if k == 0 && newest !in w.last {
        var a := [newest] + w.active;
        assert forall j :: 0 < j < |a| ==> a[j] == w.active[j - 1];
      }
    }
  }

  /** Three connections, the first of which opens a fourth one when it is polled: the walk starts
      again, passes over the two that are marked, and removing the next one loses both. */
  lemma {:induction false} RemovalLoses(ctr: byte, w: World)
    requires w.active == [0, 1, 2] && w.last.Keys == {0, 1, 2}
    requires w.last[0] != ctr && w.last[1] != ctr && w.last[2] != ctr
    ensures Sane(w) && Courteous(ctr, Opens(ctr, 3))
    ensures var t := Walk(ctr, PollThenRemove(0, 1), Opens(ctr, 3), Start(w));
            t.lost == {0, 3} && t.removed == {1} && t.w.active == [2]
  {
    OpensCourteous(ctr, 3);
    FirstHops(ctr, w);
    LastHops(ctr, w);
  }

  /** The tick of RemovalLoses before the removal: the list has a new head, and two were passed over. */
  function Reopened(ctr: byte, w: World): Trip {
    Trip(World([3, 0, 1, 2], w.last[0 := ctr][3 := ctr]), 2, -1, [0], {}, {}, {}, {3}, [0])
  }

  lemma {:induction false} FirstHops(ctr: byte, w: World)
    requires w.active == [0, 1, 2] && w.last.Keys == {0, 1, 2} && w.last[0] != ctr
    requires Courteous(ctr, Opens(ctr, 3))
    ensures OnTrack(Start(w)) && OnTrack(Reopened(ctr, w))
    ensures var f, a := PollThenRemove(0, 1), Opens(ctr, 3);
            Walk(ctr, f, a, Start(w)) == Walk(ctr, f, a, Reopened(ctr, w))
  {
    hide Stale, Walk, Polite, Hop, PollThenRemove, Opens, Courteous;
    var f, a, t, t' := PollThenRemove(0, 1), Opens(ctr, 3), Start(w), Reopened(ctr, w);
    FirstHop(ctr, w);
    WalkStep(ctr, f, a, t);
    SkipStep(ctr, f, a, t'.(i := 0));
    SkipStep(ctr, f, a, t'.(i := 1));
  }

  lemma {:induction false} FirstHop(ctr: byte, w: World)
    requires w.active == [0, 1, 2] && w.last.Keys == {0, 1, 2} && w.last[0] != ctr
    ensures Hop(ctr, PollThenRemove(0, 1), Opens(ctr, 3), Start(w)) == Reopened(ctr, w).(i := 0)
  {
    var t := Pass(ctr, Start(w));
    assert [3] + t.w.active == [3, 0, 1, 2];
    assert Missing(t.w.active, [3, 0, 1, 2]) == {};
  }

  lemma {:induction false} LastHops(ctr: byte, w: World)
    requires w.active == [0, 1, 2] && w.last.Keys == {0, 1, 2}
    requires w.last[1] != ctr && w.last[2] != ctr
    requires Courteous(ctr, Opens(ctr, 3))
    ensures OnTrack(Reopened(ctr, w))
    ensures var t := Walk(ctr, PollThenRemove(0, 1), Opens(ctr, 3), Reopened(ctr, w));
            t.lost == {0, 3} && t.removed == {1} && t.w.active == [2]
  {
    hide Stale, Polite;
    var f, a, t := PollThenRemove(0, 1), Opens(ctr, 3), Reopened(ctr, w);
    assert Unlink([3, 0, 1, 2], -1, 2) == [2];
    assert Missing([3, 0, 1, 2], [2]) - {1} == {0, 3};
    var t1 := Hop(ctr, f, a, t);
    assert t1.w.active == [2] && t1.lost == {0, 3} && t1.removed == {1} && t1.i == 0;
    WalkStep(ctr, f, a, t);
    WalkStep(ctr, f, a, t1);
  }

  /** A connection that carries the new count already, as one does that was bound for 255 ticks: the
      tick passes it over. */
  lemma {:induction false} TickMisses(ctr: byte, fate: Fates, app: App, w: World)
    requires w.active == [0] && w.last == map[0 := ctr] && Courteous(ctr, app)
    ensures var t := Walk(ctr, fate, app, Start(w)); t.w == w && t.handled == []
  {
    hide Stale, Courteous;
    SkipStep(ctr, fate, app, Start(w));
  }

  // ---------------------------------------------------------------- the two timers

  /** The fast timer polls a connection with data that the application refused before. */
  function Refusals(refused: (nat, World, Id) -> bool): Fates {
    (k: nat, w: World, id: Id) => if refused(k, w, id) then Poll else Keep
  }

  class Tcp {
    var active: seq<Id>
    var last: map<Id, byte>
    var ctr: byte

    ghost function State(): World
      reads this
    {
      World(active, last)
    }

    /** tcp_slowtmr.  `fate` is what the k-th connection handled has come to, `app` what the
        application does when it is told of the removal or polled. */
    method SlowTmr(fate: Fates, app: App) returns (handled: seq<Id>, removed: set<Id>, told: seq<Id>)
      requires Sane(State()) && Courteous((ctr + 1) % 256, app)
      modifies this
      ensures ctr == (old(ctr) + 1) % 256 && Sane(State())
      ensures var t := Walk(ctr, fate, app, Start(old(State())));
              State() == t.w && handled == t.handled && removed == t.removed && told == t.told
    {
      hide Stale, Polite, Missing, Courteous;
      handled, removed, told := [], {}, [];
      ctr := (ctr + 1) % 256;
      var i, prev := 0, -1;
      ghost var t := Start(State());
      while i < |active|
        invariant ctr == (old(ctr) + 1) % 256 && OnTrack(t) && t.w == State() && t.i == i && t.prev == prev
        invariant t.handled == handled && t.removed == removed && t.told == told
        invariant Walk(ctr, fate, app, t) == Walk(ctr, fate, app, Start(old(State())))
        decreases |Stale(last, ctr)|, |active| - i
      {
        HopShrinks(ctr, fate, app, t);
        t := Hop(ctr, fate, app, t);
        var pcb, k := active[i], |handled|;
        if last[pcb] == ctr {
          i := i + 1;
          continue;
        }
        var f := fate(k, World(active, last), pcb);
        last, handled := last[pcb := ctr], handled + [pcb];
        if f == Remove {
          active, last, removed := Unlink(active, prev, i), last - {pcb}, removed + {pcb};
          i := prev + 1;
        } else {
          i, prev := i + 1, i;
        }
        if f != Keep {
          var r := app(k, World(active, last), pcb);
          active, last, told := r.w.active, r.w.last, told + [pcb];
          if r.changed {
            i, prev := 0, -1;
          }
        }
      }
    }

    /** tcp_fasttmr.  `refused` says that the k-th connection handled has data that the application
        refused before; `app` is what it does when it is given that data again. */
    method FastTmr(refused: (nat, World, Id) -> bool, app: App) returns (handled: seq<Id>, told: seq<Id>)
      requires Sane(State()) && Courteous((ctr + 1) % 256, app)
      modifies this
      ensures ctr == (old(ctr) + 1) % 256 && Sane(State())
      ensures var t := Walk(ctr, Refusals(refused), app, Start(old(State()))); State() == t.w && handled == t.handled && told == t.told
    {
      hide Stale, Polite, Missing, Courteous;
      handled, told := [], [];
      ctr := (ctr + 1) % 256;
      var i := 0;
      ghost var t, fate := Start(State()), Refusals(refused);
      while i < |active|
        invariant ctr == (old(ctr) + 1) % 256 && OnTrack(t) && t.w == State() && t.i == i && t.handled == handled && t.told == told
        invariant Walk(ctr, fate, app, t) == Walk(ctr, fate, app, Start(old(State())))
        decreases |Stale(last, ctr)|, |active| - i
      {
        HopShrinks(ctr, fate, app, t);
        t := Hop(ctr, fate, app, t);
        var pcb, k := active[i], |handled|;
        if last[pcb] != ctr {
          var f := refused(k, World(active, last), pcb);
          last, handled := last[pcb := ctr], handled + [pcb];
          i := i + 1;
          if f {
            var r := app(k, World(active, last), pcb);
            active, last, told := r.w.active, r.w.last, told + [pcb];
            if r.changed {
              i := 0;
            }
          }
        } else {
          i := i + 1;
        }
      }
    }
  }
}

/** A keyed promise-chain mutex (src/storage/keyedMutex.js).

    `run` is cut at its suspension points. `Arrive` is the synchronous prefix that reads and
    replaces the tail; `SettleTail` is the microtask that settles a `previous.then(() => held)`
    promise; `Resume` is the continuation after `await previous` and starts the body; a body is
    a list of synchronous sections between which any other work may run; `Finish` is the
    `finally` block. Every interleaving of these events is a run of the model. */
module KeyedMutex {
  import opened Wrappers

  type Key = string

  /** What a body has done so far: it can go on, or it has rejected. Either way `value` is
      what the keyed value was when its last section ended. */
  datatype Outcome<V, L> = Next(value: V, local: L) | Reject(value: V)

  /** A body: its initial local state and the synchronous sections between its awaits. */
  datatype Body<!V, !L> = Body(local: L, sections: seq<(V, L) -> Outcome<V, L>>)

  datatype Status<V, L> = Queued | Running(ran: nat, out: Outcome<V, L>) | Done(rejected: bool)

  /** One call of `run`. `pred` is the ticket whose tail was `previous` (None: the resolved
      promise); `tailSettled` says whether this call's own `tail` promise has settled. */
  datatype Ticket<!V, !L> = Ticket(key: Key, pred: Option<nat>, body: Body<V, L>,
                                   status: Status<V, L>, tailSettled: bool)

  /** `tails` maps a key to the ticket that owns its tail promise; `values` is the keyed data
      that the bodies read and write; `starts` records the tickets in the order they started. */
  datatype State<!V, !L> = State(tails: map<Key, nat>, tickets: seq<Ticket<V, L>>,
                                 values: map<Key, V>, starts: seq<nat>)

  datatype Event<!V, !L> =
    | Arrive(key: Key, body: Body<V, L>)
    | SettleTail(t: nat)
    | Resume(t: nat)
    | Section(t: nat)
    | Finish(t: nat)

  // ---------------------------------------------------------------- transitions

  function ValueAt<V, L>(s: State<V, L>, k: Key, absent: V): V {
    if k in s.values then s.values[k] else absent
  }

  predicate PreviousSettled<V, L>(s: State<V, L>, t: nat)
    requires t < |s.tickets|
  {
    s.tickets[t].pred.None?
    || (s.tickets[t].pred.value < |s.tickets| && s.tickets[s.tickets[t].pred.value].tailSettled)
  }

  predicate Enabled<V, L>(s: State<V, L>, e: Event<V, L>) {
    match e
    case Arrive(_, _) => true
    case SettleTail(t) =>
      t < |s.tickets| && PreviousSettled(s, t) && s.tickets[t].status.Done? && !s.tickets[t].tailSettled
    case Resume(t) =>
      t < |s.tickets| && PreviousSettled(s, t) && s.tickets[t].status.Queued?
    case Section(t) =>
      t < |s.tickets| && s.tickets[t].status.Running? && s.tickets[t].status.out.Next?
      && s.tickets[t].status.ran < |s.tickets[t].body.sections|
    case Finish(t) =>
      t < |s.tickets| && s.tickets[t].status.Running?
      && (s.tickets[t].status.out.Reject? || s.tickets[t].status.ran >= |s.tickets[t].body.sections|)
  }

  function WithTicket<V, L>(s: State<V, L>, t: nat, tk: Ticket<V, L>): State<V, L>
    requires t < |s.tickets|
  {
    s.(tickets := s.tickets[t := tk])
  }

  function Step<V, L>(s: State<V, L>, e: Event<V, L>, absent: V): State<V, L>
    requires Enabled(s, e)
  {
    match e
    case Arrive(k, body) =>
      var pred := if k in s.tails then Some(s.tails[k]) else None;
      s.(tails := s.tails[k := |s.tickets|], tickets := s.tickets + [Ticket(k, pred, body, Queued, false)])
    case SettleTail(t) =>
      WithTicket(s, t, s.tickets[t].(tailSettled := true))
    case Resume(t) =>
      var tk := s.tickets[t];
      WithTicket(s, t, tk.(status := Running(0, Next(ValueAt(s, tk.key, absent), tk.body.local))))
      .(starts := s.starts + [t])
    case Section(t) =>
      var tk := s.tickets[t];
      // The section reads the shared value, whoever wrote it last.
      var out := tk.body.sections[tk.status.ran](ValueAt(s, tk.key, absent), tk.status.out.local);
      WithTicket(s, t, tk.(status := Running(tk.status.ran + 1, out)))
      .(values := s.values[tk.key := out.value])
    case Finish(t) =>
      var tk := s.tickets[t];
      WithTicket(s, t, tk.(status := Done(tk.status.out.Reject?)))
      .(tails := if tk.key in s.tails && s.tails[tk.key] == t then s.tails - {tk.key} else s.tails)
  }

  /** Nothing but the lock keeps calls apart: a section of one call sees what a section of another call
      on its key has just written, in any state that lets both run. */
  lemma SectionSeesLastWrite<V, L>(s: State<V, L>, a: nat, b: nat, absent: V)
    requires Enabled(s, Section(a)) && a != b && b < |s.tickets| && s.tickets[b].key == s.tickets[a].key
    requires Enabled(s, Section(b))
    ensures var s1 := Step(s, Section(a), absent);
      var tk := s.tickets[b];
      && Enabled(s1, Section(b)) && tk.key in s1.values
      && Step(s1, Section(b), absent).tickets[b].status.out
         == tk.body.sections[tk.status.ran](s1.values[tk.key], tk.status.out.local)
      && Step(s1, Section(b), absent).values[tk.key] == Step(s1, Section(b), absent).tickets[b].status.out.value
  {
  }

  /** The state after a run, or None when some event of it was not enabled. */
  function Run<V, L>(s0: State<V, L>, evs: seq<Event<V, L>>, absent: V): Option<State<V, L>>
    decreases |evs|
  {
    if evs == [] then Some(s0)
    else
      var e := evs[|evs| - 1];
      match Run(s0, evs[..|evs| - 1], absent)
      case None => None
      case Some(mid) => if Enabled(mid, e) then Some(Step(mid, e, absent)) else None
  }

  function Idle<V, L>(values: map<Key, V>): State<V, L> {
    State(map[], [], values, [])
  }

  // ---------------------------------------------------------------- the lock invariant

  predicate Started<V, L>(tk: Ticket<V, L>) {
    !tk.status.Queued?
  }

  /** Every ticket before `t` on its key has released the key. */
  ghost predicate AheadDone<V, L>(s: State<V, L>, t: nat)
    requires t < |s.tickets|
  {
    forall i :: 0 <= i < t && s.tickets[i].key == s.tickets[t].key ==> s.tickets[i].status.Done?
  }

  ghost predicate LatestOnKey<V, L>(s: State<V, L>, t: nat)
    requires t < |s.tickets|
  {
    forall j :: t < j < |s.tickets| ==> s.tickets[j].key != s.tickets[t].key
  }

  /** `tails` holds a key exactly while the key's latest ticket is unfinished. */
  ghost predicate TailsExact<V, L>(s: State<V, L>) {
    && (forall k :: k in s.tails ==>
          && s.tails[k] < |s.tickets| && s.tickets[s.tails[k]].key == k
          && !s.tickets[s.tails[k]].status.Done? && LatestOnKey(s, s.tails[k]))
    && (forall i :: 0 <= i < |s.tickets| && !s.tickets[i].status.Done? ==> s.tickets[i].key in s.tails)
  }

  ghost predicate PredOk<V, L>(s: State<V, L>, t: nat)
    requires t < |s.tickets|
  {
    match s.tickets[t].pred
    case None => AheadDone(s, t)
    case Some(p) =>
      && p < t && s.tickets[p].key == s.tickets[t].key
      && (forall j :: p < j < t ==> s.tickets[j].key != s.tickets[t].key)
  }

  /** Exclusion and arrival order: whoever has started has nobody unfinished ahead of it. */
  ghost predicate Fifo<V, L>(s: State<V, L>) {
    forall t :: 0 <= t < |s.tickets| && Started(s.tickets[t]) ==> AheadDone(s, t)
  }

  /** The start log lists exactly the started tickets, each key's in arrival order. */
  ghost predicate StartsOk<V, L>(s: State<V, L>) {
    && (forall a :: 0 <= a < |s.starts| ==> s.starts[a] < |s.tickets|)
    && (forall t :: 0 <= t < |s.tickets| ==> (t in s.starts <==> Started(s.tickets[t])))
    && StartsOrdered(s.tickets, s.starts)
  }

  ghost predicate StartsOrdered<V, L>(tickets: seq<Ticket<V, L>>, starts: seq<nat>)
    requires forall a :: 0 <= a < |starts| ==> starts[a] < |tickets|
  {
    forall a, b :: 0 <= a < b < |starts| && tickets[starts[a]].key == tickets[starts[b]].key
      ==> starts[a] < starts[b]
  }

  ghost predicate Inv<V, L>(s: State<V, L>) {
    && TailsExact(s)
    && (forall t :: 0 <= t < |s.tickets| ==> PredOk(s, t))
    && Fifo(s)
    && (forall t :: 0 <= t < |s.tickets| && s.tickets[t].tailSettled ==> s.tickets[t].status.Done?)
    && StartsOk(s)
  }

  lemma SettledPreviousMeansAheadDone<V, L>(s: State<V, L>, t: nat)
    requires Inv(s) && t < |s.tickets| && PreviousSettled(s, t)
    ensures AheadDone(s, t)
  {
    if s.tickets[t].pred.Some? {
      var p := s.tickets[t].pred.value;
      assert PredOk(s, t) && AheadDone(s, p);
      forall i | 0 <= i < t && s.tickets[i].key == s.tickets[t].key
        ensures s.tickets[i].status.Done?
      {
        assert i <= p;
      }
    } else {
      assert PredOk(s, t);
    }
  }

  lemma SameKeysSameOrder<V, L>(before: seq<Ticket<V, L>>, after: seq<Ticket<V, L>>, starts: seq<nat>)
    requires |before| <= |after|
    requires forall i :: 0 <= i < |before| ==> after[i].key == before[i].key
    requires forall a :: 0 <= a < |starts| ==> starts[a] < |before|
    requires StartsOrdered(before, starts)
    ensures StartsOrdered(after, starts)
  {
    forall a, b | 0 <= a < b < |starts| && after[starts[a]].key == after[starts[b]].key
      ensures starts[a] < starts[b]
    {
      assert before[starts[a]].key == before[starts[b]].key;
    }
  }

  lemma InvArrive<V, L>(s: State<V, L>, e: Event<V, L>, absent: V)
    requires Inv(s) && e.Arrive?
    ensures Inv(Step(s, e, absent))
  {
    var n := |s.tickets|;
    var s' := Step(s, e, absent);
    forall t | 0 <= t < |s'.tickets|
      ensures PredOk(s', t)
    {
      if t < n {
        assert PredOk(s, t);
      } else if e.key in s.tails {
        assert LatestOnKey(s, s.tails[e.key]);
      } else {
        assert forall i :: 0 <= i < n && s.tickets[i].key == e.key ==> s.tickets[i].status.Done?;
      }
    }
    forall t | 0 <= t < |s'.tickets| && Started(s'.tickets[t])
      ensures AheadDone(s', t)
    {
      assert AheadDone(s, t);
    }
    SameKeysSameOrder(s.tickets, s'.tickets, s.starts);
    forall k | k in s'.tails
      ensures LatestOnKey(s', s'.tails[k])
    {
      if k != e.key { assert LatestOnKey(s, s.tails[k]); }
    }
  }

  /** The same tickets in the same places, with finished ones still finished. */
  ghost predicate SamePlaces<V, L>(before: seq<Ticket<V, L>>, after: seq<Ticket<V, L>>) {
    && |before| == |after|
    && forall i :: 0 <= i < |before| ==>
         && after[i].key == before[i].key && after[i].pred == before[i].pred && after[i].body == before[i].body
         && (before[i].status.Done? ==> after[i].status.Done?)
  }

  lemma PlacesKeepOrder<V, L>(s: State<V, L>, s': State<V, L>, i: nat)
    requires SamePlaces(s.tickets, s'.tickets) && i < |s.tickets|
    ensures PredOk(s, i) ==> PredOk(s', i)
    ensures AheadDone(s, i) ==> AheadDone(s', i)
  {
  }

  /** Changing one ticket's progress, never its key or its place, keeps the order facts as
      long as finished tickets stay finished. */
  lemma InvProgress<V, L>(s: State<V, L>, e: Event<V, L>, absent: V)
    requires Inv(s) && Enabled(s, e) && !e.Arrive?
    ensures Inv(Step(s, e, absent))
  {
    var t := e.t;
    var s' := Step(s, e, absent);
    if PreviousSettled(s, t) { SettledPreviousMeansAheadDone(s, t); }
    assert AheadDone(s, t);
    forall i | 0 <= i < |s'.tickets|
      ensures PredOk(s', i) && (Started(s'.tickets[i]) ==> AheadDone(s', i))
    {
      PlacesKeepOrder(s, s', i);
    }
    ProgressKeepsTails(s, e, absent);
    ProgressKeepsStarts(s, e, absent);
  }

  lemma ProgressKeepsTails<V, L>(s: State<V, L>, e: Event<V, L>, absent: V)
    requires Inv(s) && Enabled(s, e) && !e.Arrive? && AheadDone(s, e.t)
    ensures TailsExact(Step(s, e, absent))
  {
    var t := e.t;
    var s' := Step(s, e, absent);
    var k := s.tickets[t].key;
    forall i | 0 <= i < |s'.tickets| && !s'.tickets[i].status.Done?
      ensures s'.tickets[i].key in s'.tails
    {
      assert !s.tickets[i].status.Done?;
      assert e.Finish? && s.tails[k] == t ==> LatestOnKey(s, t);
    }
    forall q | q in s'.tails
      ensures LatestOnKey(s', s'.tails[q])
    {
      assert LatestOnKey(s, s.tails[q]);
    }
  }

  /** A ticket about to start has behind it only tickets that have not started. */
  lemma StartedAreAhead<V, L>(s: State<V, L>, t: nat)
    requires Inv(s) && t < |s.tickets| && s.tickets[t].status.Queued?
    ensures forall a :: 0 <= a < |s.starts| && s.tickets[s.starts[a]].key == s.tickets[t].key ==> s.starts[a] < t
  {
    forall a | 0 <= a < |s.starts| && s.tickets[s.starts[a]].key == s.tickets[t].key
      ensures s.starts[a] < t
    {
      var x := s.starts[a];
      assert x in s.starts;
      assert Started(s.tickets[x]) && AheadDone(s, x);
    }
  }

  lemma ProgressKeepsStarts<V, L>(s: State<V, L>, e: Event<V, L>, absent: V)
    requires Inv(s) && Enabled(s, e) && !e.Arrive? && AheadDone(s, e.t)
    ensures StartsOk(Step(s, e, absent))
  {
    var s' := Step(s, e, absent);
    if e.Resume? {
      StartedAreAhead(s, e.t);
      assert forall x :: x in s'.starts <==> x in s.starts || x == e.t;
    } else {
      SameKeysSameOrder(s.tickets, s'.tickets, s.starts);
    }
  }

  lemma {:induction false} InvAlways<V, L>(values: map<Key, V>, evs: seq<Event<V, L>>, absent: V)
    requires Run(Idle(values), evs, absent).Some?
    ensures Inv(Run(Idle(values), evs, absent).value)
    decreases |evs|
  {
    if evs != [] {
      var e := evs[|evs| - 1];
      InvAlways(values, evs[..|evs| - 1], absent);
      var mid := Run(Idle(values), evs[..|evs| - 1], absent).value;
      if e.Arrive? { InvArrive(mid, e, absent); } else { InvProgress(mid, e, absent); }
    }
  }

  // ---------------------------------------------------------------- what the bodies compute

  /** The first `n` sections of a body run without interference, starting from value `v`. */
  function Alone<V, L>(body: Body<V, L>, n: nat, v: V): Outcome<V, L>
    requires n <= |body.sections|
  {
    if n == 0 then Next(v, body.local)
    else match Alone(body, n - 1, v)
      case Next(v', l) => body.sections[n - 1](v', l)
      case Reject(v') => Reject(v')
  }

  function Whole<V, L>(body: Body<V, L>, v: V): V {
    Alone(body, |body.sections|, v).value
  }

  /** One body after the other, each run to its end: the specification of the lock. */
  function Sequentially<V, L>(v: V, bodies: seq<Body<V, L>>): V
    decreases |bodies|
  {
    if bodies == [] then v else Whole(bodies[|bodies| - 1], Sequentially(v, bodies[..|bodies| - 1]))
  }

  /** The bodies handed to `run` for `k`, in call order. */
  function Arrivals<V, L>(evs: seq<Event<V, L>>, k: Key): seq<Body<V, L>>
    decreases |evs|
  {
    if evs == [] then []
    else
      var e := evs[|evs| - 1];
      Arrivals(evs[..|evs| - 1], k) + if e.Arrive? && e.key == k then [e.body] else []
  }

  function BodiesOn<V, L>(tickets: seq<Ticket<V, L>>, k: Key): seq<Body<V, L>>
    decreases |tickets|
  {
    if tickets == [] then []
    else
      var tk := tickets[|tickets| - 1];
      BodiesOn(tickets[..|tickets| - 1], k) + if tk.key == k then [tk.body] else []
  }

  /** How many sections of its body a ticket has accounted for. */
  function Ran<V, L>(tk: Ticket<V, L>): (n: nat)
    ensures n <= |tk.body.sections|
  {
    match tk.status
    case Queued => 0
    case Running(ran, _) => if ran <= |tk.body.sections| then ran else |tk.body.sections|
    case Done(_) => |tk.body.sections|
  }

  /** The value of `k` if the tickets had done their sections strictly one after the other. */
  function Replay<V, L>(tickets: seq<Ticket<V, L>>, k: Key, v: V): V
    decreases |tickets|
  {
    if tickets == [] then v
    else
      var before := Replay(tickets[..|tickets| - 1], k, v);
      var tk := tickets[|tickets| - 1];
      if tk.key == k then Alone(tk.body, Ran(tk), before).value else before
  }

  function Initially<V>(values: map<Key, V>, k: Key, absent: V): V {
    if k in values then values[k] else absent
  }

  ghost predicate RunningOk<V, L>(s: State<V, L>, values: map<Key, V>, absent: V, t: nat)
    requires t < |s.tickets|
  {
    s.tickets[t].status.Running? ==>
      && s.tickets[t].status.ran <= |s.tickets[t].body.sections|
      && s.tickets[t].status.out
         == Alone(s.tickets[t].body, s.tickets[t].status.ran,
                  Replay(s.tickets[..t], s.tickets[t].key, Initially(values, s.tickets[t].key, absent)))
  }

  /** The shared data is what a strictly serial execution would have produced. */
  ghost predicate Serial<V, L>(s: State<V, L>, values: map<Key, V>, absent: V) {
    && (forall k :: ValueAt(s, k, absent) == Replay(s.tickets, k, Initially(values, k, absent)))
    && (forall t :: 0 <= t < |s.tickets| ==> RunningOk(s, values, absent, t))
  }

  lemma {:induction false} RejectionIsFinal<V, L>(body: Body<V, L>, n: nat, m: nat, v: V)
    requires n <= m <= |body.sections| && Alone(body, n, v).Reject?
    ensures Alone(body, m, v) == Alone(body, n, v)
    decreases m
  {
    if n < m { RejectionIsFinal(body, n, m - 1, v); }
  }

  /** Replay looks only at the tickets of its key. */
  lemma {:induction false} ReplaySame<V, L>(a: seq<Ticket<V, L>>, b: seq<Ticket<V, L>>, k: Key, v: V)
    requires |a| == |b|
    requires forall i :: 0 <= i < |a| ==> a[i].key == b[i].key
    requires forall i :: 0 <= i < |a| && a[i].key == k ==> a[i].body == b[i].body && Ran(a[i]) == Ran(b[i])
    ensures Replay(a, k, v) == Replay(b, k, v)
    decreases |a|
  {
    if a != [] { ReplaySame(a[..|a| - 1], b[..|b| - 1], k, v); }
  }

  lemma {:induction false} QueuedContributeNothing<V, L>(tickets: seq<Ticket<V, L>>, m: nat, k: Key, v: V)
    requires m <= |tickets|
    requires forall i :: m <= i < |tickets| && tickets[i].key == k ==> Ran(tickets[i]) == 0
    ensures Replay(tickets, k, v) == Replay(tickets[..m], k, v)
    decreases |tickets|
  {
    if m < |tickets| {
      QueuedContributeNothing(tickets[..|tickets| - 1], m, k, v);
      assert tickets[..|tickets| - 1][..m] == tickets[..m];
    } else {
      assert tickets[..m] == tickets;
    }
  }

  /** Nobody behind an unfinished ticket has started. */
  lemma LaterAreQueued<V, L>(s: State<V, L>, t: nat)
    requires Inv(s) && t < |s.tickets| && !s.tickets[t].status.Done?
    ensures forall i :: t < i < |s.tickets| && s.tickets[i].key == s.tickets[t].key ==> s.tickets[i].status.Queued?
  {
    forall i | t < i < |s.tickets| && s.tickets[i].key == s.tickets[t].key
      ensures s.tickets[i].status.Queued?
    {
      assert Started(s.tickets[i]) ==> AheadDone(s, i);
    }
  }

  /** While `t` has not finished, the keyed value is what `t` itself has made of it. */
  lemma ValueIsMine<V, L>(s: State<V, L>, t: nat, v: V)
    requires Inv(s) && t < |s.tickets| && !s.tickets[t].status.Done?
    ensures Replay(s.tickets, s.tickets[t].key, v)
         == Alone(s.tickets[t].body, Ran(s.tickets[t]), Replay(s.tickets[..t], s.tickets[t].key, v)).value
  {
    var k := s.tickets[t].key;
    LaterAreQueued(s, t);
    QueuedContributeNothing(s.tickets, t + 1, k, v);
    assert s.tickets[..t + 1][..t] == s.tickets[..t];
  }

  lemma SerialArrive<V, L>(s: State<V, L>, e: Event<V, L>, values: map<Key, V>, absent: V)
    requires Serial(s, values, absent) && e.Arrive?
    ensures Serial(Step(s, e, absent), values, absent)
  {
    var s' := Step(s, e, absent);
    assert s'.tickets[..|s.tickets|] == s.tickets;
    forall t | 0 <= t < |s'.tickets|
      ensures RunningOk(s', values, absent, t)
    {
      if t < |s.tickets| {
        assert RunningOk(s, values, absent, t) && s'.tickets[..t] == s.tickets[..t];
      }
    }
  }

  /** A step of another ticket leaves alone what is before a started ticket on its key. */
  lemma AheadReplaySame<V, L>(s: State<V, L>, e: Event<V, L>, absent: V, i: nat, v: V)
    requires Inv(s) && Enabled(s, e) && !e.Arrive?
    requires i < |s.tickets| && i != e.t && Started(s.tickets[i])
    ensures Replay(Step(s, e, absent).tickets[..i], s.tickets[i].key, v) == Replay(s.tickets[..i], s.tickets[i].key, v)
  {
    var after := Step(s, e, absent).tickets;
    assert AheadDone(s, i);
    forall j | 0 <= j < i && s.tickets[j].key == s.tickets[i].key
      ensures after[j].body == s.tickets[j].body && Ran(after[j]) == Ran(s.tickets[j])
    {
      assert s.tickets[j].status.Done?;
    }
    ReplaySame(s.tickets[..i], after[..i], s.tickets[i].key, v);
  }

  /** Tickets other than the one that moved keep their serial account. */
  lemma OthersStaySerial<V, L>(s: State<V, L>, e: Event<V, L>, values: map<Key, V>, absent: V, i: nat)
    requires Inv(s) && Serial(s, values, absent) && Enabled(s, e) && !e.Arrive?
    requires i < |s.tickets| && i != e.t
    ensures RunningOk(Step(s, e, absent), values, absent, i)
  {
    assert RunningOk(s, values, absent, i);
    if s.tickets[i].status.Running? {
      AheadReplaySame(s, e, absent, i, Initially(values, s.tickets[i].key, absent));
    }
  }

  lemma MoverStaysSerial<V, L>(s: State<V, L>, e: Event<V, L>, values: map<Key, V>, absent: V)
    requires Inv(s) && Serial(s, values, absent) && Enabled(s, e) && !e.Arrive?
    ensures RunningOk(Step(s, e, absent), values, absent, e.t)
  {
    var t := e.t;
    var tk := s.tickets[t];
    var v0 := Initially(values, tk.key, absent);
    var before := Replay(s.tickets[..t], tk.key, v0);
    assert Step(s, e, absent).tickets[..t] == s.tickets[..t];
    assert RunningOk(s, values, absent, t);
    assert ValueAt(s, tk.key, absent) == Replay(s.tickets, tk.key, v0);
    match e {
      case SettleTail(_) =>
      case Finish(_) =>
      case Resume(_) =>
        ValueIsMine(s, t, v0);
      case Section(_) =>
        ValueIsMine(s, t, v0);
        assert Alone(tk.body, tk.status.ran, before) == Next(ValueAt(s, tk.key, absent), tk.status.out.local);
        assert Alone(tk.body, tk.status.ran + 1, before)
            == tk.body.sections[tk.status.ran](ValueAt(s, tk.key, absent), tk.status.out.local);
    }
  }

  lemma MoverValue<V, L>(s: State<V, L>, e: Event<V, L>, values: map<Key, V>, absent: V)
    requires Inv(s) && Serial(s, values, absent) && Enabled(s, e) && !e.Arrive? && !e.SettleTail?
    requires Inv(Step(s, e, absent)) && RunningOk(Step(s, e, absent), values, absent, e.t)
    ensures ValueAt(Step(s, e, absent), s.tickets[e.t].key, absent)
         == Replay(Step(s, e, absent).tickets, s.tickets[e.t].key, Initially(values, s.tickets[e.t].key, absent))
  {
    var s' := Step(s, e, absent);
    var v0 := Initially(values, s.tickets[e.t].key, absent);
    assert s'.tickets[..e.t] == s.tickets[..e.t];
    ValueIsMine(s, e.t, v0);
    if e.Finish? {
      assert RunningOk(s, values, absent, e.t);
      FinishKeepsValue(s, e.t, v0, absent);
    } else {
      ValueIsMine(s', e.t, v0);
    }
  }

  lemma ValueStaysSerial<V, L>(s: State<V, L>, e: Event<V, L>, values: map<Key, V>, absent: V, q: Key)
    requires Inv(s) && Serial(s, values, absent) && Enabled(s, e) && !e.Arrive?
    requires Inv(Step(s, e, absent)) && RunningOk(Step(s, e, absent), values, absent, e.t)
    ensures ValueAt(Step(s, e, absent), q, absent)
         == Replay(Step(s, e, absent).tickets, q, Initially(values, q, absent))
  {
    if q == s.tickets[e.t].key && !e.SettleTail? {
      MoverValue(s, e, values, absent);
    } else {
      ElsewhereStays(s, e, absent, q, Initially(values, q, absent));
    }
  }

  /** A step touches no other key's value, and settling a tail touches none. */
  lemma ElsewhereStays<V, L>(s: State<V, L>, e: Event<V, L>, absent: V, q: Key, v: V)
    requires Enabled(s, e) && !e.Arrive? && (q != s.tickets[e.t].key || e.SettleTail?)
    ensures ValueAt(Step(s, e, absent), q, absent) == ValueAt(s, q, absent)
    ensures Replay(Step(s, e, absent).tickets, q, v) == Replay(s.tickets, q, v)
  {
    var after := Step(s, e, absent).tickets;
    forall i | 0 <= i < |s.tickets| && s.tickets[i].key == q
      ensures after[i].body == s.tickets[i].body && Ran(after[i]) == Ran(s.tickets[i])
    {
    }
    ReplaySame(s.tickets, after, q, v);
  }

  lemma SerialProgress<V, L>(s: State<V, L>, e: Event<V, L>, values: map<Key, V>, absent: V)
    requires Inv(s) && Serial(s, values, absent) && Enabled(s, e) && !e.Arrive?
    ensures Serial(Step(s, e, absent), values, absent)
  {
    var s' := Step(s, e, absent);
    InvProgress(s, e, absent);
    MoverStaysSerial(s, e, values, absent);
    forall q
      ensures ValueAt(s', q, absent) == Replay(s'.tickets, q, Initially(values, q, absent))
    {
      ValueStaysSerial(s, e, values, absent, q);
    }
    forall i | 0 <= i < |s'.tickets|
      ensures RunningOk(s', values, absent, i)
    {
      if i != e.t { OthersStaySerial(s, e, values, absent, i); }
    }
  }

  /** A body that may finish has had its whole effect. */
  lemma FinishedIsWhole<V, L>(s: State<V, L>, t: nat, before: V)
    requires Enabled(s, Finish(t)) && s.tickets[t].status.ran <= |s.tickets[t].body.sections|
    requires s.tickets[t].status.out == Alone(s.tickets[t].body, s.tickets[t].status.ran, before)
    ensures Whole(s.tickets[t].body, before) == Alone(s.tickets[t].body, Ran(s.tickets[t]), before).value
  {
    var tk := s.tickets[t];
    if tk.status.out.Reject? {
      RejectionIsFinal(tk.body, tk.status.ran, |tk.body.sections|, before);
    }
  }

  lemma ValueAfterDone<V, L>(s: State<V, L>, t: nat, v: V, tk: Ticket<V, L>)
    requires Inv(s) && t < |s.tickets| && !s.tickets[t].status.Done?
    requires tk.key == s.tickets[t].key && tk.body == s.tickets[t].body && tk.status.Done?
    ensures Replay(s.tickets[t := tk], tk.key, v) == Whole(tk.body, Replay(s.tickets[..t], tk.key, v))
  {
    var after := s.tickets[t := tk];
    LaterAreQueued(s, t);
    QueuedContributeNothing(after, t + 1, tk.key, v);
    assert after[..t + 1][..t] == s.tickets[..t];
  }

  lemma FinishKeepsValue<V, L>(s: State<V, L>, t: nat, v0: V, absent: V)
    requires Inv(s) && Enabled(s, Finish(t)) && s.tickets[t].status.ran <= |s.tickets[t].body.sections|
    requires s.tickets[t].status.out
          == Alone(s.tickets[t].body, s.tickets[t].status.ran, Replay(s.tickets[..t], s.tickets[t].key, v0))
    ensures Replay(Step(s, Finish(t), absent).tickets, s.tickets[t].key, v0) == Replay(s.tickets, s.tickets[t].key, v0)
  {
    var tk := s.tickets[t];
    FinishedIsWhole(s, t, Replay(s.tickets[..t], tk.key, v0));
    ValueAfterDone(s, t, v0, tk.(status := Done(tk.status.out.Reject?)));
    ValueIsMine(s, t, v0);
  }

  lemma {:induction false} SerialAlways<V, L>(values: map<Key, V>, evs: seq<Event<V, L>>, absent: V)
    requires Run(Idle(values), evs, absent).Some?
    ensures Serial(Run(Idle(values), evs, absent).value, values, absent)
    decreases |evs|
  {
    if evs != [] {
      var e := evs[|evs| - 1];
      SerialAlways(values, evs[..|evs| - 1], absent);
      InvAlways(values, evs[..|evs| - 1], absent);
      var mid := Run(Idle(values), evs[..|evs| - 1], absent).value;
      if e.Arrive? { SerialArrive(mid, e, values, absent); } else { SerialProgress(mid, e, values, absent); }
    }
  }

  // ---------------------------------------------------------------- what the callers get

  /** A call that is done has rejected exactly if its body, run alone on what the calls before it
      left, rejects. */
  ghost predicate OutcomeOk<V, L>(s: State<V, L>, values: map<Key, V>, absent: V, t: nat)
    requires t < |s.tickets|
  {
    var tk := s.tickets[t];
    var before := Replay(s.tickets[..t], tk.key, Initially(values, tk.key, absent));
    tk.status.Done? ==> tk.status.rejected == Alone(tk.body, |tk.body.sections|, before).Reject?
  }

  lemma FinishReports<V, L>(s: State<V, L>, t: nat, values: map<Key, V>, absent: V)
    requires Serial(s, values, absent) && Enabled(s, Finish(t))
    ensures OutcomeOk(Step(s, Finish(t), absent), values, absent, t)
  {
    var tk := s.tickets[t];
    var before := Replay(s.tickets[..t], tk.key, Initially(values, tk.key, absent));
    assert RunningOk(s, values, absent, t);
    assert Step(s, Finish(t), absent).tickets[..t] == s.tickets[..t];
    if tk.status.out.Reject? { RejectionIsFinal(tk.body, tk.status.ran, |tk.body.sections|, before); }
  }

  lemma OutcomeStays<V, L>(s: State<V, L>, e: Event<V, L>, values: map<Key, V>, absent: V, i: nat)
    requires Inv(s) && Serial(s, values, absent) && Enabled(s, e)
    requires i < |s.tickets| && OutcomeOk(s, values, absent, i)
    ensures i < |Step(s, e, absent).tickets| && OutcomeOk(Step(s, e, absent), values, absent, i)
  {
    var after := Step(s, e, absent).tickets;
    if e.Arrive? || i == e.t {
      assert after[..i] == s.tickets[..i];
      if e.Finish? { FinishReports(s, i, values, absent); }
    } else {
      if s.tickets[i].status.Done? {
        AheadReplaySame(s, e, absent, i, Initially(values, s.tickets[i].key, absent));
      }
    }
  }

  lemma NewcomerIsQueued<V, L>(s: State<V, L>, e: Event<V, L>, values: map<Key, V>, absent: V, t: nat)
    requires Enabled(s, e) && |s.tickets| <= t < |Step(s, e, absent).tickets|
    ensures OutcomeOk(Step(s, e, absent), values, absent, t)
  {
  }

  /** Every call's fate is its own: it rejects exactly when its body would have rejected running
      alone after the calls before it, whatever earlier calls did and however sections interleaved. */
  lemma {:induction false} RejectionsAreTheBodysOwn<V, L>(values: map<Key, V>, evs: seq<Event<V, L>>, absent: V, t: nat)
    requires Run(Idle(values), evs, absent).Some?
    requires t < |Run(Idle(values), evs, absent).value.tickets|
    ensures OutcomeOk(Run(Idle(values), evs, absent).value, values, absent, t)
    decreases |evs|
  {
    if evs != [] {
      var front, e := evs[..|evs| - 1], evs[|evs| - 1];
      var mid := Run(Idle(values), front, absent).value;
      InvAlways(values, front, absent);
      SerialAlways(values, front, absent);
      if t < |mid.tickets| {
        RejectionsAreTheBodysOwn(values, front, absent, t);
        OutcomeStays(mid, e, values, absent, t);
      } else {
        NewcomerIsQueued(mid, e, values, absent, t);
      }
    }
  }

  // ---------------------------------------------------------------- the promises of the lock

  predicate InBody<V, L>(s: State<V, L>, t: nat) {
    t < |s.tickets| && s.tickets[t].status.Running?
  }

  /** At most one body per key is between its wait and its release, and the bodies of a key
      start in the order `run` was called, whether or not earlier bodies rejected. */
  lemma ExclusiveAndInOrder<V, L>(values: map<Key, V>, evs: seq<Event<V, L>>, absent: V)
    requires Run(Idle(values), evs, absent).Some?
    ensures var s := Run(Idle(values), evs, absent).value;
      && (forall i: nat, j: nat :: InBody(s, i) && InBody(s, j) && s.tickets[i].key == s.tickets[j].key ==> i == j)
      && (forall i, j :: 0 <= i < j < |s.tickets| && s.tickets[i].key == s.tickets[j].key && Started(s.tickets[j])
            ==> s.tickets[i].status.Done?)
      && (forall t :: 0 <= t < |s.tickets| ==> (t in s.starts <==> Started(s.tickets[t])))
      && (forall a :: 0 <= a < |s.starts| ==> s.starts[a] < |s.tickets|)
      && StartsOrdered(s.tickets, s.starts)
  {
    var s := Run(Idle(values), evs, absent).value;
    InvAlways(values, evs, absent);
    forall i: nat, j: nat | InBody(s, i) && InBody(s, j) && s.tickets[i].key == s.tickets[j].key
      ensures i == j
    {
      assert AheadDone(s, i) && AheadDone(s, j);
    }
    forall i, j | 0 <= i < j < |s.tickets| && s.tickets[i].key == s.tickets[j].key && Started(s.tickets[j])
      ensures s.tickets[i].status.Done?
    {
      assert AheadDone(s, j);
    }
  }

  lemma {:induction false} SameBodies<V, L>(a: seq<Ticket<V, L>>, b: seq<Ticket<V, L>>, k: Key)
    requires |a| == |b|
    requires forall i :: 0 <= i < |a| ==> a[i].key == b[i].key && a[i].body == b[i].body
    ensures BodiesOn(a, k) == BodiesOn(b, k)
    decreases |a|
  {
    if a != [] { SameBodies(a[..|a| - 1], b[..|b| - 1], k); }
  }

  lemma ArrivalAddsBody<V, L>(tickets: seq<Ticket<V, L>>, tk: Ticket<V, L>, k: Key)
    ensures BodiesOn(tickets + [tk], k) == BodiesOn(tickets, k) + if tk.key == k then [tk.body] else []
  {
    assert (tickets + [tk])[..|tickets|] == tickets;
  }

  lemma StepKeepsBodies<V, L>(s: State<V, L>, e: Event<V, L>, absent: V, k: Key)
    requires Enabled(s, e)
    ensures BodiesOn(Step(s, e, absent).tickets, k)
         == BodiesOn(s.tickets, k) + if e.Arrive? && e.key == k then [e.body] else []
  {
    var after := Step(s, e, absent).tickets;
    if e.Arrive? {
      ArrivalAddsBody(s.tickets, after[|s.tickets|], k);
    } else {
      SameBodies(s.tickets, after, k);
    }
  }

  lemma {:induction false} ArrivalsAreTickets<V, L>(values: map<Key, V>, evs: seq<Event<V, L>>, absent: V, k: Key)
    requires Run(Idle(values), evs, absent).Some?
    ensures Arrivals(evs, k) == BodiesOn(Run(Idle(values), evs, absent).value.tickets, k)
    decreases |evs|
  {
    if evs != [] {
      ArrivalsAreTickets(values, evs[..|evs| - 1], absent, k);
      StepKeepsBodies(Run(Idle(values), evs[..|evs| - 1], absent).value, evs[|evs| - 1], absent, k);
    }
  }

  predicate Drained<V, L>(tickets: seq<Ticket<V, L>>, k: Key) {
    forall i :: 0 <= i < |tickets| && tickets[i].key == k ==> tickets[i].status.Done?
  }

  lemma {:induction false} DrainedReplay<V, L>(tickets: seq<Ticket<V, L>>, k: Key, v: V)
    requires Drained(tickets, k)
    ensures Replay(tickets, k, v) == Sequentially(v, BodiesOn(tickets, k))
    decreases |tickets|
  {
    if tickets != [] {
      var rest := tickets[..|tickets| - 1];
      DrainedReplay(rest, k, v);
      var tk := tickets[|tickets| - 1];
      if tk.key == k {
        var all := BodiesOn(rest, k) + [tk.body];
        assert all[..|all| - 1] == BodiesOn(rest, k);
      } else {
        assert BodiesOn(rest, k) + [] == BodiesOn(rest, k);
      }
    }
  }

  /** No lost update: once the calls on a key have drained, in whatever interleaving, the value
      is the fold of their bodies in call order. */
  lemma NoLostUpdate<V, L>(values: map<Key, V>, evs: seq<Event<V, L>>, absent: V, k: Key)
    requires Run(Idle(values), evs, absent).Some?
    requires Drained(Run(Idle(values), evs, absent).value.tickets, k)
    ensures ValueAt(Run(Idle(values), evs, absent).value, k, absent)
         == Sequentially(Initially(values, k, absent), Arrivals(evs, k))
  {
    SerialAlways(values, evs, absent);
    ArrivalsAreTickets(values, evs, absent, k);
    DrainedReplay(Run(Idle(values), evs, absent).value.tickets, k, Initially(values, k, absent));
  }

  /** The sale of the module's motivating example: read the stock, yield, write stock - qty. */
  ghost predicate Sells(body: Body<int, int>, qty: int) {
    |body.sections| == 2 && ReadsStock(body.sections[0]) && WritesStock(body.sections[1], qty)
  }

  ghost predicate ReadsStock(section: (int, int) -> Outcome<int, int>) {
    forall v, l :: section(v, l) == Next(v, v)
  }

  ghost predicate WritesStock(section: (int, int) -> Outcome<int, int>, qty: int) {
    forall v, l :: section(v, l) == Next(l - qty, l)
  }

  function Sum(qtys: seq<int>): int
    decreases |qtys|
  {
    if qtys == [] then 0 else Sum(qtys[..|qtys| - 1]) + qtys[|qtys| - 1]
  }

  lemma ReadsStockAt(section: (int, int) -> Outcome<int, int>, v: int, l: int)
    requires ReadsStock(section)
    ensures section(v, l) == Next(v, v)
  {
  }

  lemma SaleAlone(body: Body<int, int>, qty: int, stock: int)
    requires Sells(body, qty)
    ensures Whole(body, stock) == stock - qty
  {
    ReadsStockAt(body.sections[0], stock, body.local);
    assert Alone(body, 0, stock) == Next(stock, body.local);
    assert Alone(body, 1, stock) == Next(stock, stock);
    assert Alone(body, 2, stock) == body.sections[1](stock, stock);
  }

  lemma {:induction false} SequentialSales(v: int, bodies: seq<Body<int, int>>, qtys: seq<int>)
    requires |bodies| == |qtys| && forall i :: 0 <= i < |qtys| ==> Sells(bodies[i], qtys[i])
    ensures Sequentially(v, bodies) == v - Sum(qtys)
    decreases |bodies|
  {
    if bodies != [] {
      var n := |bodies| - 1;
      SequentialSales(v, bodies[..n], qtys[..n]);
      SaleAlone(bodies[n], qtys[n], Sequentially(v, bodies[..n]));
    }
  }

  /** Concurrent sales of one product never lose a decrement. */
  lemma StockCountsEverySale(values: map<Key, int>, evs: seq<Event<int, int>>, product: Key, qtys: seq<int>)
    requires Run(Idle(values), evs, 0).Some?
    requires Drained(Run(Idle(values), evs, 0).value.tickets, product)
    requires |qtys| == |Arrivals(evs, product)|
    requires forall i :: 0 <= i < |qtys| ==> Sells(Arrivals(evs, product)[i], qtys[i])
    ensures ValueAt(Run(Idle(values), evs, 0).value, product, 0) == Initially(values, product, 0) - Sum(qtys)
  {
    NoLostUpdate(values, evs, 0, product);
    SequentialSales(Initially(values, product, 0), Arrivals(evs, product), qtys);
  }

  /** Look the row up, yield, insert it if it was missing. */
  ghost predicate InsertsIfAbsent(body: Body<seq<string>, bool>) {
    |body.sections| == 2 && LooksUp(body.sections[0]) && exists row: string :: Inserts(body.sections[1], row)
  }

  ghost predicate LooksUp(section: (seq<string>, bool) -> Outcome<seq<string>, bool>) {
    forall v, l :: section(v, l) == Next(v, v != [])
  }

  ghost predicate Inserts(section: (seq<string>, bool) -> Outcome<seq<string>, bool>, row: string) {
    forall v, l :: section(v, l) == Next(if l then v else v + [row], l)
  }

  lemma LooksUpAt(section: (seq<string>, bool) -> Outcome<seq<string>, bool>, v: seq<string>, l: bool)
    requires LooksUp(section)
    ensures section(v, l) == Next(v, v != [])
  {
  }

  lemma InsertAlone(body: Body<seq<string>, bool>, n: nat, rows: seq<string>)
    requires InsertsIfAbsent(body) && |rows| <= 1 && n <= 2
    ensures |Alone(body, n, rows).value| <= 1
  {
    LooksUpAt(body.sections[0], rows, body.local);
    assert Alone(body, 0, rows) == Next(rows, body.local);
    assert Alone(body, 1, rows) == Next(rows, rows != []);
    assert Alone(body, 2, rows) == body.sections[1](rows, rows != []);
  }

  lemma {:induction false} ReplayedInsertsAreUnique(tickets: seq<Ticket<seq<string>, bool>>, k: Key, v: seq<string>)
    requires |v| <= 1
    requires forall i :: 0 <= i < |tickets| && tickets[i].key == k ==> InsertsIfAbsent(tickets[i].body)
    ensures |Replay(tickets, k, v)| <= 1
    decreases |tickets|
  {
    if tickets != [] {
      var tk := tickets[|tickets| - 1];
      var rows := Replay(tickets[..|tickets| - 1], k, v);
      ReplayedInsertsAreUnique(tickets[..|tickets| - 1], k, v);
      if tk.key == k { InsertAlone(tk.body, Ran(tk), rows); }
    }
  }

  lemma {:induction false} TicketBodyArrived<V, L>(tickets: seq<Ticket<V, L>>, k: Key, i: nat)
    requires i < |tickets| && tickets[i].key == k
    ensures exists j :: 0 <= j < |BodiesOn(tickets, k)| && BodiesOn(tickets, k)[j] == tickets[i].body
    decreases |tickets|
  {
    var rest := BodiesOn(tickets[..|tickets| - 1], k);
    if i == |tickets| - 1 {
      assert BodiesOn(tickets, k)[|rest|] == tickets[i].body;
    } else {
      TicketBodyArrived(tickets[..|tickets| - 1], k, i);
      var j :| 0 <= j < |rest| && rest[j] == tickets[i].body;
      assert BodiesOn(tickets, k)[j] == rest[j];
    }
  }

  /** Concurrent insert-if-absent calls never create a second row, at any moment of any run. */
  lemma AtMostOneRowPerKey(values: map<Key, seq<string>>, evs: seq<Event<seq<string>, bool>>, k: Key)
    requires Run(Idle(values), evs, []).Some?
    requires |Initially(values, k, [])| <= 1
    requires forall i :: 0 <= i < |Arrivals(evs, k)| ==> InsertsIfAbsent(Arrivals(evs, k)[i])
    ensures |ValueAt(Run(Idle(values), evs, []).value, k, [])| <= 1
  {
    var s := Run(Idle(values), evs, []).value;
    SerialAlways(values, evs, []);
    ArrivalsAreTickets(values, evs, [], k);
    forall i | 0 <= i < |s.tickets| && s.tickets[i].key == k
      ensures InsertsIfAbsent(s.tickets[i].body)
    {
      TicketBodyArrived(s.tickets, k, i);
    }
    ReplayedInsertsAreUnique(s.tickets, k, Initially(values, k, []));
  }

  // ---------------------------------------------------------------- progress and no leak

  function Cost<V, L>(tk: Ticket<V, L>): nat {
    match tk.status
    case Queued => |tk.body.sections| + 3
    case Running(_, _) => |tk.body.sections| - Ran(tk) + 2
    case Done(_) => if tk.tailSettled then 0 else 1
  }

  /** The work left in a state: it drops with every event that is not a new call. */
  function Work<V, L>(tickets: seq<Ticket<V, L>>): nat
    decreases |tickets|
  {
    if tickets == [] then 0 else Work(tickets[..|tickets| - 1]) + Cost(tickets[|tickets| - 1])
  }

  lemma {:induction false} WorkUpdate<V, L>(tickets: seq<Ticket<V, L>>, t: nat, tk: Ticket<V, L>)
    requires t < |tickets|
    ensures Work(tickets[t := tk]) == Work(tickets) - Cost(tickets[t]) + Cost(tk)
    decreases |tickets|
  {
    var n := |tickets| - 1;
    if t == n {
      assert tickets[t := tk][..n] == tickets[..n];
    } else {
      WorkUpdate(tickets[..n], t, tk);
      assert tickets[t := tk][..n] == tickets[..n][t := tk];
    }
  }

  /** An event of a call on the key of ticket `t` that is `t` itself or ahead of it. */
  predicate Ahead<V, L>(tickets: seq<Ticket<V, L>>, e: Event<V, L>, t: nat)
    requires t < |tickets|
  {
    !e.Arrive? && e.t <= t && tickets[e.t].key == tickets[t].key
  }

  lemma {:induction false} TailSettlesOrCan<V, L>(s: State<V, L>, t: nat)
    requires Inv(s) && t < |s.tickets| && AheadDone(s, t) && s.tickets[t].status.Done?
    ensures s.tickets[t].tailSettled || exists e: Event<V, L> :: Enabled(s, e) && Ahead(s.tickets, e, t)
    decreases t
  {
    assert PredOk(s, t);
    if !s.tickets[t].tailSettled {
      if s.tickets[t].pred.Some? && !s.tickets[s.tickets[t].pred.value].tailSettled {
        var p := s.tickets[t].pred.value;
        TailSettlesOrCan(s, p);
        var e: Event<V, L> :| Enabled(s, e) && Ahead(s.tickets, e, p);
        assert Ahead(s.tickets, e, t);
      } else {
        assert Enabled(s, SettleTail(t)) && Ahead(s.tickets, SettleTail(t), t);
      }
    }
  }

  lemma {:induction false} FirstUnfinished<V, L>(s: State<V, L>, t: nat) returns (f: nat)
    requires t < |s.tickets| && !s.tickets[t].status.Done?
    ensures f <= t && s.tickets[f].key == s.tickets[t].key && !s.tickets[f].status.Done? && AheadDone(s, f)
    decreases t
  {
    if AheadDone(s, t) {
      f := t;
    } else {
      var i :| 0 <= i < t && s.tickets[i].key == s.tickets[t].key && !s.tickets[i].status.Done?;
      f := FirstUnfinished(s, i);
    }
  }

  /** The first unfinished call on a key can move, or a tail ahead of it can settle. */
  lemma FirstCanMove<V, L>(s: State<V, L>, f: nat)
    requires Inv(s) && f < |s.tickets| && !s.tickets[f].status.Done? && AheadDone(s, f)
    ensures exists e: Event<V, L> :: Enabled(s, e) && Ahead(s.tickets, e, f)
  {
    var tk := s.tickets[f];
    assert PredOk(s, f);
    if tk.status.Running? {
      assert Enabled(s, Section(f)) || Enabled(s, Finish(f));
      assert Ahead(s.tickets, Section(f), f) && Ahead(s.tickets, Finish(f), f);
    } else if tk.pred.Some? && !s.tickets[tk.pred.value].tailSettled {
      var p := tk.pred.value;
      assert s.tickets[p].status.Done?;
      TailSettlesOrCan(s, p);
      var e: Event<V, L> :| Enabled(s, e) && Ahead(s.tickets, e, p);
      assert Ahead(s.tickets, e, f);
    } else {
      assert Enabled(s, Resume(f)) && Ahead(s.tickets, Resume(f), f);
    }
  }

  /** No deadlock, no waiting across keys, and no waiting for later calls: while a call is
      unfinished, an event of it or of a call ahead of it on its key is enabled. */
  lemma Progress<V, L>(values: map<Key, V>, evs: seq<Event<V, L>>, absent: V, t: nat)
    requires Run(Idle(values), evs, absent).Some?
    requires t < |Run(Idle(values), evs, absent).value.tickets|
    requires !Run(Idle(values), evs, absent).value.tickets[t].status.Done?
    ensures var s := Run(Idle(values), evs, absent).value;
      exists e: Event<V, L> :: Enabled(s, e) && Ahead(s.tickets, e, t)
  {
    var s := Run(Idle(values), evs, absent).value;
    InvAlways(values, evs, absent);
    var f := FirstUnfinished(s, t);
    FirstCanMove(s, f);
    var e: Event<V, L> :| Enabled(s, e) && Ahead(s.tickets, e, f);
    assert Ahead(s.tickets, e, t);
  }

  // ---- one call's wait

  /** The work left on a key. */
  function KeyWork<V, L>(tickets: seq<Ticket<V, L>>, k: Key): nat
    decreases |tickets|
  {
    if tickets == [] then 0
    else KeyWork(tickets[..|tickets| - 1], k)
         + if tickets[|tickets| - 1].key == k then Cost(tickets[|tickets| - 1]) else 0
  }

  /** The work left of a call and of the calls ahead of it on its key. */
  function AheadWork<V, L>(tickets: seq<Ticket<V, L>>, t: nat): nat
    requires t < |tickets|
  {
    KeyWork(tickets[..t + 1], tickets[t].key)
  }

  lemma {:induction false} KeyWorkUpdate<V, L>(tickets: seq<Ticket<V, L>>, t: nat, tk: Ticket<V, L>, k: Key)
    requires t < |tickets| && tk.key == tickets[t].key
    ensures KeyWork(tickets[t := tk], k)
         == KeyWork(tickets, k) + if tk.key == k then Cost(tk) - Cost(tickets[t]) else 0
    decreases |tickets|
  {
    var n := |tickets| - 1;
    if t == n {
      assert tickets[t := tk][..n] == tickets[..n];
    } else {
      KeyWorkUpdate(tickets[..n], t, tk, k);
      assert tickets[t := tk][..n] == tickets[..n][t := tk];
    }
  }

  lemma ProgressLowersCost<V, L>(s: State<V, L>, e: Event<V, L>, absent: V)
    requires Enabled(s, e) && !e.Arrive?
    ensures var after := Step(s, e, absent).tickets;
      && after == s.tickets[e.t := after[e.t]]
      && after[e.t].key == s.tickets[e.t].key && Cost(after[e.t]) < Cost(s.tickets[e.t])
  {
  }

  /** No event, a new call included, adds to the work ahead of a call; its own events and those of
      the calls ahead take some away. */
  lemma AheadWorkStep<V, L>(s: State<V, L>, e: Event<V, L>, absent: V, t: nat)
    requires Enabled(s, e) && t < |s.tickets|
    ensures var after := Step(s, e, absent).tickets;
      && t < |after| && (forall i :: 0 <= i < |s.tickets| ==> after[i].key == s.tickets[i].key)
      && AheadWork(after, t) + (if Ahead(s.tickets, e, t) then 1 else 0) <= AheadWork(s.tickets, t)
  {
    var after := Step(s, e, absent).tickets;
    if e.Arrive? {
      assert after[..t + 1] == s.tickets[..t + 1];
    } else {
      ProgressLowersCost(s, e, absent);
      if e.t <= t {
        KeyWorkUpdate(s.tickets[..t + 1], e.t, after[e.t], s.tickets[t].key);
        assert after[..t + 1] == s.tickets[..t + 1][e.t := after[e.t]];
      } else {
        assert after[..t + 1] == s.tickets[..t + 1];
      }
    }
  }

  /** How many events of a run are of the call `t` or of calls ahead of it. */
  function AheadEvents<V, L>(tickets: seq<Ticket<V, L>>, evs: seq<Event<V, L>>, t: nat): nat
    requires t < |tickets|
    decreases |evs|
  {
    if evs == [] then 0
    else AheadEvents(tickets, evs[..|evs| - 1], t) + if Ahead(tickets, evs[|evs| - 1], t) then 1 else 0
  }

  /** From `before` to `after`, at least `n` has been taken off the work ahead of `t`. */
  ghost predicate AheadLess<V, L>(before: seq<Ticket<V, L>>, after: seq<Ticket<V, L>>, t: nat, n: nat)
    requires t < |before|
  {
    && |before| <= |after| && (forall i :: 0 <= i < |before| ==> after[i].key == before[i].key)
    && n + AheadWork(after, t) <= AheadWork(before, t)
  }

  lemma AheadLessStep<V, L>(before: seq<Ticket<V, L>>, s: State<V, L>, e: Event<V, L>, absent: V, t: nat, n: nat)
    requires t < |before| && AheadLess(before, s.tickets, t, n) && Enabled(s, e)
    ensures AheadLess(before, Step(s, e, absent).tickets, t, n + if Ahead(before, e, t) then 1 else 0)
  {
    AheadWorkStep(s, e, absent, t);
  }

  lemma {:induction false} AheadWorkRun<V, L>(values: map<Key, V>, evs: seq<Event<V, L>>, more: seq<Event<V, L>>,
                                              absent: V, t: nat)
    requires Run(Idle(values), evs, absent).Some? && Run(Idle(values), evs + more, absent).Some?
    requires t < |Run(Idle(values), evs, absent).value.tickets|
    ensures var before := Run(Idle(values), evs, absent).value.tickets;
      var after := Run(Idle(values), evs + more, absent).value.tickets;
      AheadLess(before, after, t, AheadEvents(before, more, t))
    decreases |more|
  {
    if more == [] {
      assert evs + more == evs;
    } else {
      var n, before := |more| - 1, Run(Idle(values), evs, absent).value.tickets;
      assert (evs + more)[..|evs + more| - 1] == evs + more[..n];
      AheadWorkRun(values, evs, more[..n], absent, t);
      AheadLessStep(before, Run(Idle(values), evs + more[..n], absent).value, more[n], absent, t,
                    AheadEvents(before, more[..n], t));
    }
  }

  lemma {:induction false} NoWorkMeansDone<V, L>(tickets: seq<Ticket<V, L>>, t: nat)
    requires t < |tickets| && AheadWork(tickets, t) == 0
    ensures tickets[t].status.Done?
  {
    assert tickets[..t + 1][t] == tickets[t];
  }

  /** No starvation: however many new calls keep arriving, every continuation holds at most `AheadWork`
      events of a call and of those ahead of it, and once that many have happened the call is done. */
  lemma NoStarvation<V, L>(values: map<Key, V>, evs: seq<Event<V, L>>, more: seq<Event<V, L>>, absent: V, t: nat)
    requires Run(Idle(values), evs, absent).Some? && Run(Idle(values), evs + more, absent).Some?
    requires t < |Run(Idle(values), evs, absent).value.tickets|
    ensures var before := Run(Idle(values), evs, absent).value.tickets;
      var after := Run(Idle(values), evs + more, absent).value.tickets;
      && AheadEvents(before, more, t) <= AheadWork(before, t)
      && (AheadEvents(before, more, t) == AheadWork(before, t) ==> t < |after| && after[t].status.Done?)
  {
    AheadWorkRun(values, evs, more, absent, t);
    var before := Run(Idle(values), evs, absent).value.tickets;
    var after := Run(Idle(values), evs + more, absent).value.tickets;
    if AheadEvents(before, more, t) == AheadWork(before, t) { NoWorkMeansDone(after, t); }
  }

  // ---- all the work

  lemma LastConsumesWork<V, L>(values: map<Key, V>, evs: seq<Event<V, L>>, e: Event<V, L>, absent: V)
    requires Run(Idle(values), evs + [e], absent).Some? && !e.Arrive?
    ensures Run(Idle(values), evs, absent).Some?
    ensures Work(Run(Idle(values), evs + [e], absent).value.tickets) < Work(Run(Idle(values), evs, absent).value.tickets)
  {
    assert (evs + [e])[..|evs|] == evs;
    InvAlways(values, evs, absent);
    var mid := Run(Idle(values), evs, absent).value;
    WorkUpdate(mid.tickets, e.t, Step(mid, e, absent).tickets[e.t]);
    assert Step(mid, e, absent).tickets == mid.tickets[e.t := Step(mid, e, absent).tickets[e.t]];
  }

  /** A run without new calls is no longer than the work there was: every schedule drains. */
  lemma {:induction false} NoEndlessRun<V, L>(values: map<Key, V>, evs: seq<Event<V, L>>, more: seq<Event<V, L>>, absent: V)
    requires Run(Idle(values), evs + more, absent).Some? && Run(Idle(values), evs, absent).Some?
    requires forall i :: 0 <= i < |more| ==> !more[i].Arrive?
    ensures |more| + Work(Run(Idle(values), evs + more, absent).value.tickets)
         <= Work(Run(Idle(values), evs, absent).value.tickets)
    decreases |more|
  {
    if more == [] {
      assert evs + more == evs;
    } else {
      var n := |more| - 1;
      assert evs + more == (evs + more[..n]) + [more[n]];
      LastConsumesWork(values, evs + more[..n], more[n], absent);
      NoEndlessRun(values, evs, more[..n], absent);
    }
  }

  /** No leak: a key is in `tails` exactly while its latest call is unfinished; when nothing can
      move any more, every call is done and `size()` is 0. */
  lemma NothingLeftBehind<V, L>(values: map<Key, V>, evs: seq<Event<V, L>>, absent: V)
    requires Run(Idle(values), evs, absent).Some?
    ensures var s := Run(Idle(values), evs, absent).value;
      && (forall t :: 0 <= t < |s.tickets| && LatestOnKey(s, t)
            ==> (s.tickets[t].key in s.tails <==> !s.tickets[t].status.Done?))
      && ((forall e: Event<V, L> :: Enabled(s, e) ==> e.Arrive?)
            ==> |s.tails| == 0 && forall t :: 0 <= t < |s.tickets| ==> s.tickets[t].status.Done?)
  {
    var s := Run(Idle(values), evs, absent).value;
    InvAlways(values, evs, absent);
    forall t | 0 <= t < |s.tickets| && LatestOnKey(s, t)
      ensures s.tickets[t].key in s.tails <==> !s.tickets[t].status.Done?
    {
      var k := s.tickets[t].key;
      if k in s.tails {
        assert LatestOnKey(s, s.tails[k]) && s.tails[k] == t;
      }
    }
    if forall e: Event<V, L> :: Enabled(s, e) ==> e.Arrive? {
      forall t | 0 <= t < |s.tickets|
        ensures s.tickets[t].status.Done?
      {
        if !s.tickets[t].status.Done? { Progress(values, evs, absent, t); }
      }
      assert forall k :: k !in s.tails;
      assert s.tails == map[];
    }
  }

  // ---------------------------------------------------------------- the mutable lock

  /** The lock object, one method per atomic piece of `run`. Each method makes exactly one event
      of the transition system, so every lemma above speaks about the object's histories. */
  class Mutex<V, L> {
    var tails: map<Key, nat>
    var tickets: seq<Ticket<V, L>>
    var values: map<Key, V>
    ghost var starts: seq<nat>
    const absent: V

    ghost function Model(): State<V, L>
      reads this
    {
      State(tails, tickets, values, starts)
    }

    constructor (values: map<Key, V>, absent: V)
      ensures Model() == Idle(values) && this.absent == absent
    {
      this.tails, this.tickets, this.values, this.starts := map[], [], values, [];
      this.absent := absent;
    }

    /** Lines 50-58: take the current tail as `previous` and install a new one. */
    method Enter(key: Key, body: Body<V, L>) returns (t: nat)
      modifies this
      ensures t == old(|tickets|)
      ensures Model() == Step(old(Model()), Arrive(key, body), absent)
    {
      var previous: Option<nat> := None;
      if key in tails { previous := Some(tails[key]); }
      t := |tickets|;
      tickets := tickets + [Ticket(key, previous, body, Queued, false)];
      tails := tails[key := t];
    }

    method SettleTail(t: nat)
      requires Enabled(Model(), Event.SettleTail(t))
      modifies this
      ensures Model() == Step(old(Model()), Event.SettleTail(t), absent)
    {
      tickets := tickets[t := tickets[t].(tailSettled := true)];
    }

    /** Lines 60-63: `previous` has settled, the body is called. */
    method Resume(t: nat)
      requires Enabled(Model(), Event.Resume(t))
      modifies this
      ensures Model() == Step(old(Model()), Event.Resume(t), absent)
    {
      var tk := tickets[t];
      var current := if tk.key in values then values[tk.key] else absent;
      tickets := tickets[t := tk.(status := Running(0, Next(current, tk.body.local)))];
      starts := starts + [t];
    }

    /** The body runs up to its next await, its end, or its rejection. */
    method RunSection(t: nat)
      requires Enabled(Model(), Section(t))
      modifies this
      ensures Model() == Step(old(Model()), Section(t), absent)
    {
      var tk := tickets[t];
      var current := if tk.key in values then values[tk.key] else absent;
      var out := tk.body.sections[tk.status.ran](current, tk.status.out.local);
      tickets := tickets[t := tk.(status := Running(tk.status.ran + 1, out))];
      values := values[tk.key := out.value];
    }

    /** Lines 64-69: release, then clear the key if this call still owns the tail. */
    method Finally(t: nat)
      requires Enabled(Model(), Finish(t))
      modifies this
      ensures Model() == Step(old(Model()), Finish(t), absent)
    {
      var tk := tickets[t];
      tickets := tickets[t := tk.(status := Done(tk.status.out.Reject?))];
      if tk.key in tails && tails[tk.key] == t {
        tails := tails - {tk.key};
      }
    }

    method Size() returns (n: nat)
      ensures n == |tails|
    {
      n := |tails|;
    }
  }
}

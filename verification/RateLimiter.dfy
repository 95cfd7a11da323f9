/** The sliding-window rate limiter (src/server/security.js): timestamp lists per key, trimmed to
    a per-key cap, a cap on the number of keys, and a periodic sweep; compared with a limiter
    that keeps every timestamp forever. */
module RateLimiter {
  import opened KeyOrder

  type Key = string

  datatype Config = Config(windowMs: nat, max: nat, maxKeys: nat, maxPerKey: nat)

  function PerKeyCap(c: Config): nat {
    if c.maxPerKey > c.max + 1 then c.maxPerKey else c.max + 1
  }

  /** The `hits` Map: its keys in insertion order, and its entries. */
  datatype State = State(order: seq<Key>, hits: map<Key, seq<int>>)

  const EMPTY := State([], map[])

  // ---------------------------------------------------------------- the limiter on values

  /** `timestamps.filter((at) => at > cutoff)`. */
  function Recent(ts: seq<int>, cutoff: int): seq<int> {
    if ts == [] then []
    else if ts[0] > cutoff then [ts[0]] + Recent(ts[1..], cutoff)
    else Recent(ts[1..], cutoff)
  }

  /** The splice: leave room for one more below the cap, dropping the oldest. */
  function Trim(ts: seq<int>, cap: nat): seq<int>
    requires cap > 0
  {
    if |ts| >= cap then ts[|ts| - cap + 1..] else ts
  }

  function Stored(hits: map<Key, seq<int>>, k: Key): seq<int> {
    if k in hits then hits[k] else []
  }

  function Evicted(c: Config, s: State, k: Key): State {
    if |s.order| >= c.maxKeys && k !in s.hits && s.order != []
    then State(s.order[1..], s.hits - {s.order[0]})
    else s
  }

  function NewTimestamps(c: Config, s: State, k: Key, now: int): seq<int> {
    Trim(Recent(Stored(s.hits, k), now - c.windowMs), PerKeyCap(c)) + [now]
  }

  function Request(c: Config, s: State, k: Key, now: int): State {
    var s1 := Evicted(c, s, k);
    State(if k in s1.hits then s1.order else s1.order + [k], s1.hits[k := NewTimestamps(c, s1, k, now)])
  }

  predicate Admits(c: Config, s: State, k: Key, now: int) {
    |NewTimestamps(c, Evicted(c, s, k), k, now)| <= c.max
  }

  /** One turn of the sweep's loop: drop the key, or store what is left of its list. */
  function SweepKey(s: State, k: Key, cutoff: int): State {
    var recent := Recent(Stored(s.hits, k), cutoff);
    if recent == [] then State(Without(s.order, k), s.hits - {k}) else State(s.order, s.hits[k := recent])
  }

  function SweepKeys(s: State, keys: seq<Key>, cutoff: int): State
    decreases |keys|
  {
    if keys == [] then s else SweepKeys(SweepKey(s, keys[0], cutoff), keys[1..], cutoff)
  }

  function Sweep(c: Config, s: State, now: int): State {
    SweepKeys(s, s.order, now - c.windowMs)
  }

  function Survivors(hits: map<Key, seq<int>>, cutoff: int): map<Key, seq<int>> {
    map k | k in hits && Recent(hits[k], cutoff) != [] :: Recent(hits[k], cutoff)
  }

  ghost predicate Valid(s: State) {
    Distinct(s.order) && forall k :: k in s.order <==> k in s.hits
  }

  // ---------------------------------------------------------------- the limiter object

  class Limiter {
    const config: Config
    var order: seq<Key>
    var hits: map<Key, seq<int>>

    ghost function Model(): State
      reads this
    {
      State(order, hits)
    }

    constructor (config: Config)
      ensures this.config == config && Model() == EMPTY && Valid(Model())
    {
      this.config := config;
      order, hits := [], map[];
    }

    /** One request; `admitted` is false for a 429. */
    method Handle(key: Key, now: int) returns (admitted: bool)
      requires Valid(Model())
      modifies this
      ensures Valid(Model()) && Model() == Request(config, old(Model()), key, now)
      ensures admitted == Admits(config, old(Model()), key, now)
    {
      RequestKeepsValid(config, Model(), key, now);
      if |order| >= config.maxKeys && key !in hits && |order| > 0 {
        hits := hits - {order[0]};
        order := order[1..];
      }
      assert Model() == Evicted(config, old(Model()), key);
      var windowStart := now - config.windowMs;
      var timestamps := Recent(if key in hits then hits[key] else [], windowStart);
      var cap := PerKeyCap(config);
      if |timestamps| >= cap {
        timestamps := timestamps[|timestamps| - cap + 1..];
      }
      timestamps := timestamps + [now];
      if key !in hits { order := order + [key]; }
      hits := hits[key := timestamps];
      admitted := !(|timestamps| > config.max);
    }

    /** Drop the timestamps of one key that have left the window, and the key with the last of them. */
    method SweepOne(key: Key, cutoff: int)
      modifies this
      ensures Model() == SweepKey(old(Model()), key, cutoff)
    {
      var recent := Recent(if key in hits then hits[key] else [], cutoff);
      if |recent| == 0 {
        hits := hits - {key};
        order := Without(order, key);
      } else {
        hits := hits[key := recent];
      }
    }

    /** The interval timer's pass over all keys. */
    method SweepPass(now: int)
      requires Valid(Model())
      modifies this
      ensures Valid(Model()) && Model() == Sweep(config, old(Model()), now)
    {
      SweepKeepsValid(config, Model(), now);
      var keys := order;
      var cutoff := now - config.windowMs;
      for i := 0 to |keys|
        invariant SweepKeys(Model(), keys[i..], cutoff) == Sweep(config, old(Model()), now)
      {
        assert keys[i..][1..] == keys[i + 1..];
        SweepOne(keys[i], cutoff);
      }
    }
  }

  /** What one turn of the sweep does to the entry of any key. */
  lemma SweepKeyAt(s: State, k: Key, cutoff: int, x: Key)
    ensures Stored(SweepKey(s, k, cutoff).hits, x)
         == if x == k then Recent(Stored(s.hits, k), cutoff) else Stored(s.hits, x)
  {
  }

  lemma {:induction false} SweepKeysAt(s: State, keys: seq<Key>, cutoff: int, x: Key)
    ensures Stored(SweepKeys(s, keys, cutoff).hits, x)
         == if x in keys then Recent(Stored(s.hits, x), cutoff) else Stored(s.hits, x)
    decreases |keys|
  {
    if keys != [] {
      SweepKeyAt(s, keys[0], cutoff, x);
      SweepKeysAt(SweepKey(s, keys[0], cutoff), keys[1..], cutoff, x);
      if x == keys[0] { RecentTwice(Stored(s.hits, x), cutoff); }
    }
  }

  lemma {:induction false} RecentTwice(ts: seq<int>, cutoff: int)
    ensures Recent(Recent(ts, cutoff), cutoff) == Recent(ts, cutoff)
  {
    if ts != [] {
      RecentTwice(ts[1..], cutoff);
      if ts[0] > cutoff { assert ([ts[0]] + Recent(ts[1..], cutoff))[1..] == Recent(ts[1..], cutoff); }
    }
  }

  lemma {:induction false} SweepKeysPresent(s: State, keys: seq<Key>, cutoff: int, x: Key)
    ensures x in SweepKeys(s, keys, cutoff).hits
      <==> x in s.hits && (x in keys ==> Recent(s.hits[x], cutoff) != [])
    decreases |keys|
  {
    if keys != [] {
      SweepKeysPresent(SweepKey(s, keys[0], cutoff), keys[1..], cutoff, x);
      if x == keys[0] { RecentTwice(Stored(s.hits, x), cutoff); }
    }
  }

  /** The sweep keeps, of every tracked key, the timestamps inside the window, and forgets the
      keys that have none. */
  lemma SweepKeepsSurvivors(c: Config, s: State, now: int)
    requires Valid(s)
    ensures Sweep(c, s, now).hits == Survivors(s.hits, now - c.windowMs)
  {
    forall x
      ensures x in Sweep(c, s, now).hits <==> x in Survivors(s.hits, now - c.windowMs)
      ensures x in s.hits ==> Stored(Sweep(c, s, now).hits, x) == Recent(s.hits[x], now - c.windowMs)
    {
      SweepKeysPresent(s, s.order, now - c.windowMs, x);
      SweepKeysAt(s, s.order, now - c.windowMs, x);
    }
  }

  lemma SweepKeyKeepsValid(s: State, k: Key, cutoff: int)
    requires Valid(s)
    ensures Valid(SweepKey(s, k, cutoff)) && |SweepKey(s, k, cutoff).order| <= |s.order|
  {
    if Recent(Stored(s.hits, k), cutoff) == [] {
      WithoutIsDistinct(s.order, k);
      WithoutKeepsOthers(s.order, k);
      WithoutIsShorter(s.order, k);
    }
  }

  lemma {:induction false} SweepKeysKeepsValid(s: State, keys: seq<Key>, cutoff: int)
    requires Valid(s)
    ensures Valid(SweepKeys(s, keys, cutoff)) && |SweepKeys(s, keys, cutoff).order| <= |s.order|
    decreases |keys|
  {
    if keys != [] {
      SweepKeyKeepsValid(s, keys[0], cutoff);
      SweepKeysKeepsValid(SweepKey(s, keys[0], cutoff), keys[1..], cutoff);
    }
  }

  lemma RequestKeepsValid(c: Config, s: State, k: Key, now: int)
    requires Valid(s)
    ensures Valid(Request(c, s, k, now))
  {
    if s.order != [] {
      assert forall x :: x in s.order <==> x == s.order[0] || x in s.order[1..];
    }
  }

  lemma SweepKeepsValid(c: Config, s: State, now: int)
    requires Valid(s)
    ensures Valid(Sweep(c, s, now)) && |Sweep(c, s, now).order| <= |s.order|
  {
    SweepKeysKeepsValid(s, s.order, now - c.windowMs);
  }

  // ---------------------------------------------------------------- the reference limiter

  /** Every timestamp ever, per key. */
  type Log = map<Key, seq<int>>

  predicate RefAdmits(c: Config, log: Log, k: Key, now: int) {
    |Recent(Stored(log, k), now - c.windowMs)| + 1 <= c.max
  }

  function RefRequest(log: Log, k: Key, now: int): Log {
    log[k := Stored(log, k) + [now]]
  }

  datatype Event = RequestBy(key: Key, now: int) | SweepAt(now: int)

  function Next(c: Config, s: State, e: Event): State {
    match e
    case RequestBy(k, now) => Request(c, s, k, now)
    case SweepAt(now) => Sweep(c, s, now)
  }

  /** A sweep decides nothing. */
  predicate Decision(c: Config, s: State, e: Event) {
    e.RequestBy? && Admits(c, s, e.key, e.now)
  }

  function RefNext(log: Log, e: Event): Log {
    if e.RequestBy? then RefRequest(log, e.key, e.now) else log
  }

  predicate RefDecision(c: Config, log: Log, e: Event) {
    e.RequestBy? && RefAdmits(c, log, e.key, e.now)
  }

  /** One decision per event. */
  function Decisions(c: Config, s: State, evs: seq<Event>): (ds: seq<bool>)
    ensures |ds| == |evs|
    decreases |evs|
  {
    if evs == [] then [] else [Decision(c, s, evs[0])] + Decisions(c, Next(c, s, evs[0]), evs[1..])
  }

  function RefDecisions(c: Config, log: Log, evs: seq<Event>): (ds: seq<bool>)
    ensures |ds| == |evs|
    decreases |evs|
  {
    if evs == [] then [] else [RefDecision(c, log, evs[0])] + RefDecisions(c, RefNext(log, evs[0]), evs[1..])
  }

  predicate Ordered(evs: seq<Event>, from: int) {
    evs == [] || (from <= evs[0].now && Ordered(evs[1..], evs[0].now))
  }

  function KeysOf(evs: seq<Event>): set<Key> {
    if evs == [] then {} else (if evs[0].RequestBy? then {evs[0].key} else {}) + KeysOf(evs[1..])
  }

  predicate Sorted(ts: seq<int>) {
    forall i, j :: 0 <= i < j < |ts| ==> ts[i] <= ts[j]
  }

  // ---------------------------------------------------------------- agreement of one key

  /** Where the timestamps after `cutoff` begin. */
  function FirstRecent(ts: seq<int>, cutoff: int): (n: nat)
    requires Sorted(ts)
    ensures n <= |ts| && (n > 0 ==> ts[n - 1] <= cutoff) && (n < |ts| ==> ts[n] > cutoff)
  {
    if ts == [] || ts[0] > cutoff then 0 else 1 + FirstRecent(ts[1..], cutoff)
  }

  lemma {:induction false} RecentIsSuffix(ts: seq<int>, cutoff: int, n: nat)
    requires Sorted(ts) && n <= |ts| && (n > 0 ==> ts[n - 1] <= cutoff) && (n < |ts| ==> ts[n] > cutoff)
    ensures Recent(ts, cutoff) == ts[n..]
    decreases |ts|
  {
    if ts != [] {
      if n == 0 {
        RecentIsSuffix(ts[1..], cutoff, 0);
        assert [ts[0]] + ts[1..] == ts;
      } else {
        RecentIsSuffix(ts[1..], cutoff, n - 1);
      }
    }
  }

  /** The stored list is a suffix of the full log, and whatever was dropped is either outside the
      window at time `t` or hidden behind a full list. */
  ghost predicate Agrees(c: Config, stored: seq<int>, full: seq<int>, t: int) {
    && Sorted(full) && (forall i :: 0 <= i < |full| ==> full[i] <= t)
    && |stored| <= |full| && stored == full[|full| - |stored|..]
    && (|stored| < |full| ==>
          full[|full| - |stored| - 1] <= t - c.windowMs || |stored| >= PerKeyCap(c))
  }

  lemma RecentOfSuffix(full: seq<int>, d: nat, cutoff: int, m: nat)
    requires Sorted(full) && d <= |full|
    requires m == if FirstRecent(full, cutoff) < d then d else FirstRecent(full, cutoff)
    ensures Recent(full[d..], cutoff) == full[m..]
  {
    assert m > d ==> full[d..][m - d - 1] == full[m - 1];
    assert m < |full| ==> full[d..][m - d] == full[m];
    RecentIsSuffix(full[d..], cutoff, m - d);
    assert full[d..][m - d..] == full[m..];
  }

  /** Two suffixes of one log, of which the shorter is filtered or capped, still agree. */
  lemma SuffixAgrees(c: Config, full: seq<int>, m: nat, n: nat, now: int)
    requires Sorted(full) && n <= m <= |full| && (forall i :: 0 <= i < |full| ==> full[i] <= now)
    requires n > 0 ==> full[n - 1] <= now - c.windowMs
    requires m == n || |full| - m >= PerKeyCap(c)
    ensures Agrees(c, full[m..], full, now)
  {
  }

  /** Timestamps still inside the window were only ever dropped from a full list. */
  lemma DroppedBehindFullList(c: Config, full: seq<int>, d: nat, n: nat, t: int, now: int)
    requires Sorted(full) && n < d <= |full| && t <= now && full[n] > now - c.windowMs
    requires full[d - 1] <= t - c.windowMs || |full| - d >= PerKeyCap(c)
    ensures |full| - d >= PerKeyCap(c)
  {
    assert full[n] <= full[d - 1];
  }

  /** What filtering does to both lists at a later time. */
  lemma RecentAgrees(c: Config, stored: seq<int>, full: seq<int>, t: int, now: int)
    requires Agrees(c, stored, full, t) && t <= now
    ensures var cutoff := now - c.windowMs;
      && Agrees(c, Recent(stored, cutoff), full, now)
      && (Recent(stored, cutoff) == Recent(full, cutoff)
          || (|Recent(stored, cutoff)| >= PerKeyCap(c) && |Recent(full, cutoff)| >= PerKeyCap(c)))
  {
    var cutoff := now - c.windowMs;
    var d := |full| - |stored|;
    var n := FirstRecent(full, cutoff);
    var m := if n < d then d else n;
    assert Recent(full, cutoff) == full[n..] by {
      RecentOfSuffix(full, 0, cutoff, n);
      assert full[0..] == full;
    }
    assert Recent(stored, cutoff) == full[m..] by {
      RecentOfSuffix(full, d, cutoff, m);
    }
    if n < d { DroppedBehindFullList(c, full, d, n, t, now); }
    SuffixAgrees(c, full, m, n, now);
  }

  /** Trimming and pushing keep the suffix property. */
  lemma PushAgrees(c: Config, recent: seq<int>, full: seq<int>, now: int)
    requires Agrees(c, recent, full, now)
    ensures Agrees(c, Trim(recent, PerKeyCap(c)) + [now], full + [now], now)
  {
    var trimmed := Trim(recent, PerKeyCap(c));
    var all := full + [now];
    assert trimmed == full[|full| - |trimmed|..];
    assert all[|full| - |trimmed|..] == trimmed + [now];
    assert |trimmed| < |full| ==> all[|full| - |trimmed| - 1] == full[|full| - |trimmed| - 1];
  }

  /** One request decides alike on both sides, and both sides still agree after it. */
  lemma RequestAgrees(c: Config, stored: seq<int>, full: seq<int>, t: int, now: int)
    requires Agrees(c, stored, full, t) && t <= now
    ensures var kept := Trim(Recent(stored, now - c.windowMs), PerKeyCap(c)) + [now];
      && Agrees(c, kept, full + [now], now)
      && (|kept| <= c.max <==> |Recent(full, now - c.windowMs)| + 1 <= c.max)
  {
    RecentAgrees(c, stored, full, t, now);
    PushAgrees(c, Recent(stored, now - c.windowMs), full, now);
  }

  // ---------------------------------------------------------------- agreement of whole runs

  ghost predicate AllAgree(c: Config, hits: map<Key, seq<int>>, log: Log, t: int) {
    forall k :: Agrees(c, Stored(hits, k), Stored(log, k), t)
  }

  /** With at most `maxKeys` distinct keys around, nothing is evicted. */
  lemma NoEviction(c: Config, s: State, k: Key, keys: set<Key>)
    requires Valid(s) && (forall x :: x in s.hits ==> x in keys) && k in keys && |keys| <= c.maxKeys
    ensures Evicted(c, s, k) == s
  {
    if k !in s.hits {
      DistinctSize(s.order, keys - {k});
    }
  }

  lemma AgreesAfterRequest(c: Config, stored: seq<int>, full: seq<int>, t: int, now: int, own: bool,
                           stored': seq<int>, full': seq<int>)
    requires Agrees(c, stored, full, t) && t <= now
    requires stored' == if own then Trim(Recent(stored, now - c.windowMs), PerKeyCap(c)) + [now] else stored
    requires full' == if own then full + [now] else full
    ensures Agrees(c, stored', full', now)
  {
    if own { RequestAgrees(c, stored, full, t, now); }
  }

  lemma RequestStores(c: Config, s: State, k: Key, now: int)
    requires Evicted(c, s, k) == s
    ensures Request(c, s, k, now).hits
         == s.hits[k := Trim(Recent(Stored(s.hits, k), now - c.windowMs), PerKeyCap(c)) + [now]]
    ensures Admits(c, s, k, now)
         == (|Trim(Recent(Stored(s.hits, k), now - c.windowMs), PerKeyCap(c)) + [now]| <= c.max)
  {
  }

  lemma RequestKeepsAgreement(c: Config, hits: map<Key, seq<int>>, log: Log, k: Key, t: int, now: int,
                              hits': map<Key, seq<int>>)
    requires AllAgree(c, hits, log, t) && t <= now
    requires hits' == hits[k := Trim(Recent(Stored(hits, k), now - c.windowMs), PerKeyCap(c)) + [now]]
    ensures AllAgree(c, hits', RefRequest(log, k, now), now)
  {
    var log' := RefRequest(log, k, now);
    forall x
      ensures Agrees(c, Stored(hits', x), Stored(log', x), now)
    {
      AgreesAfterRequest(c, Stored(hits, x), Stored(log, x), t, now, x == k, Stored(hits', x), Stored(log', x));
    }
  }

  lemma SweepStores(c: Config, s: State, now: int, x: Key)
    requires Valid(s)
    ensures Stored(Sweep(c, s, now).hits, x) == Recent(Stored(s.hits, x), now - c.windowMs)
    ensures x in Sweep(c, s, now).hits ==> x in s.hits
  {
    SweepKeysAt(s, s.order, now - c.windowMs, x);
    SweepKeysPresent(s, s.order, now - c.windowMs, x);
  }

  lemma SweepKeepsAgreement(c: Config, hits: map<Key, seq<int>>, log: Log, t: int, now: int,
                            hits': map<Key, seq<int>>)
    requires AllAgree(c, hits, log, t) && t <= now
    requires forall x :: Stored(hits', x) == Recent(Stored(hits, x), now - c.windowMs)
    ensures AllAgree(c, hits', log, now)
  {
    forall x
      ensures Agrees(c, Stored(hits', x), Stored(log, x), now)
    {
      RecentAgrees(c, Stored(hits, x), Stored(log, x), t, now);
    }
  }

  /** The limiter `s` and the full log agree at time `t`, and every tracked key is one of `keys`. */
  ghost predicate Follows(c: Config, s: State, log: Log, t: int, keys: set<Key>) {
    Valid(s) && AllAgree(c, s.hits, log, t) && forall x :: x in s.hits ==> x in keys
  }

  lemma RequestFollows(c: Config, s: State, log: Log, k: Key, t: int, now: int, keys: set<Key>)
    requires Follows(c, s, log, t, keys) && t <= now && k in keys && |keys| <= c.maxKeys
    ensures Follows(c, Request(c, s, k, now), RefRequest(log, k, now), now, keys)
    ensures Admits(c, s, k, now) == RefAdmits(c, log, k, now)
  {
    NoEviction(c, s, k, keys);
    RequestKeepsValid(c, s, k, now);
    RequestStores(c, s, k, now);
    RequestKeepsAgreement(c, s.hits, log, k, t, now, Request(c, s, k, now).hits);
    RequestAgrees(c, Stored(s.hits, k), Stored(log, k), t, now);
  }

  lemma SweepFollows(c: Config, s: State, log: Log, t: int, now: int, keys: set<Key>)
    requires Follows(c, s, log, t, keys) && t <= now
    ensures Follows(c, Sweep(c, s, now), log, now, keys)
  {
    SweepKeepsValid(c, s, now);
    forall x
      ensures Stored(Sweep(c, s, now).hits, x) == Recent(Stored(s.hits, x), now - c.windowMs)
      ensures x in Sweep(c, s, now).hits ==> x in s.hits
    {
      SweepStores(c, s, now, x);
    }
    SweepKeepsAgreement(c, s.hits, log, t, now, Sweep(c, s, now).hits);
  }

  /** One event is decided alike on both sides, and both sides still agree after it. */
  lemma StepFollows(c: Config, s: State, log: Log, e: Event, t: int, keys: set<Key>)
    requires Follows(c, s, log, t, keys) && t <= e.now && |keys| <= c.maxKeys
    requires e.RequestBy? ==> e.key in keys
    ensures Follows(c, Next(c, s, e), RefNext(log, e), e.now, keys)
    ensures Decision(c, s, e) == RefDecision(c, log, e)
  {
    match e {
      case RequestBy(k, now) => RequestFollows(c, s, log, k, t, now, keys);
      case SweepAt(now) => SweepFollows(c, s, log, t, now, keys);
    }
  }

  lemma {:induction false} SameDecisions(c: Config, s: State, log: Log, evs: seq<Event>, t: int, keys: set<Key>)
    requires Follows(c, s, log, t, keys) && Ordered(evs, t)
    requires KeysOf(evs) <= keys && |keys| <= c.maxKeys
    ensures Decisions(c, s, evs) == RefDecisions(c, log, evs)
    decreases |evs|
  {
    if evs != [] {
      StepFollows(c, s, log, evs[0], t, keys);
      SameDecisions(c, Next(c, s, evs[0]), RefNext(log, evs[0]), evs[1..], evs[0].now, keys);
    }
  }

  /** The trimmed limiter refines the untrimmed one: on every run with at most `maxKeys` distinct
      keys, with sweeps anywhere, each request is admitted or refused as if every timestamp had
      been kept. */
  lemma TrimmedEqualsUntrimmed(c: Config, evs: seq<Event>, from: int)
    requires Ordered(evs, from) && |KeysOf(evs)| <= c.maxKeys
    ensures Decisions(c, EMPTY, evs) == RefDecisions(c, map[], evs)
  {
    SameDecisions(c, EMPTY, map[], evs, from, KeysOf(evs));
  }

  /** The admissions of `k` with a time in the window (a, a + windowMs]. */
  function AdmissionsIn(c: Config, evs: seq<Event>, ds: seq<bool>, k: Key, a: int): nat
    requires |evs| == |ds|
  {
    if evs == [] then 0
    else (if evs[0].RequestBy? && evs[0].key == k && ds[0] && a < evs[0].now <= a + c.windowMs then 1 else 0)
         + AdmissionsIn(c, evs[1..], ds[1..], k, a)
  }

  lemma {:induction false} RecentShrinks(ts: seq<int>, lo: int, hi: int)
    requires lo <= hi
    ensures |Recent(ts, hi)| <= |Recent(ts, lo)|
  {
    if ts != [] { RecentShrinks(ts[1..], lo, hi); }
  }

  lemma {:induction false} RecentAppend(ts: seq<int>, x: int, cutoff: int)
    ensures Recent(ts + [x], cutoff) == Recent(ts, cutoff) + if x > cutoff then [x] else []
  {
    if ts == [] {
      assert ts + [x] == [x];
    } else {
      assert (ts + [x])[1..] == ts[1..] + [x];
      RecentAppend(ts[1..], x, cutoff);
    }
  }

  /** A window that already holds `n` requests has room for `max - n` admissions at most. */
  lemma {:induction false} RoomLeft(c: Config, log: Log, evs: seq<Event>, k: Key, a: int)
    ensures var n := |Recent(Stored(log, k), a)|;
      AdmissionsIn(c, evs, RefDecisions(c, log, evs), k, a) <= if n <= c.max then c.max - n else 0
    decreases |evs|
  {
    if evs != [] {
      match evs[0] {
        case RequestBy(key, now) =>
          RoomLeft(c, RefRequest(log, key, now), evs[1..], k, a);
          RecentAppend(Stored(log, key), now, a);
          if now - c.windowMs <= a { RecentShrinks(Stored(log, key), now - c.windowMs, a); }
        case SweepAt(_) =>
          RoomLeft(c, log, evs[1..], k, a);
      }
    }
  }

  /** At most `max` admissions of a key in any window of `windowMs`. */
  lemma AtMostMaxPerWindow(c: Config, evs: seq<Event>, from: int, k: Key, a: int)
    requires Ordered(evs, from) && |KeysOf(evs)| <= c.maxKeys
    ensures AdmissionsIn(c, evs, Decisions(c, EMPTY, evs), k, a) <= c.max
  {
    TrimmedEqualsUntrimmed(c, evs, from);
    RoomLeft(c, map[], evs, k, a);
  }

  lemma EvictedInTurn(c: Config, w: Key, k: Key, t: int)
    requires c.maxKeys == 1 && w != k && c.windowMs >= 1
    ensures var s := State([w], map[w := [t]]);
      Request(c, s, k, t) == State([k], map[k := [t]]) && (Admits(c, s, k, t) <==> c.max >= 1)
  {
    var s := State([w], map[w := [t]]);
    assert s.order[1..] == [] && s.hits - {w} == map[];
    assert Evicted(c, s, k) == EMPTY;
    assert Recent([], t - c.windowMs) == [] && [] + [t] == [t] && [] + [k] == [k];
  }

  function Turns(a: Key, b: Key, t: int): seq<Event> {
    [RequestBy(a, t), RequestBy(b, t), RequestBy(a, t)]
  }

  lemma TurnsAreAdmitted(c: Config, a: Key, b: Key, t: int)
    requires c.maxKeys == 1 && c.max >= 1 && c.windowMs >= 1 && a != b
    ensures Decisions(c, EMPTY, Turns(a, b, t)) == [true, true, true]
  {
    var e1, e2 := RequestBy(a, t), RequestBy(b, t);
    assert [e1, e2, e1][1..] == [e2, e1] && [e2, e1][1..] == [e1] && [e1][1..] == [];
    var s1, s2 := State([a], map[a := [t]]), State([b], map[b := [t]]);
    assert Recent([], t - c.windowMs) == [] && [] + [t] == [t] && [] + [a] == [a];
    assert Request(c, EMPTY, a, t) == s1 && Admits(c, EMPTY, a, t);
    EvictedInTurn(c, a, b, t);
    EvictedInTurn(c, b, a, t);
    assert Decisions(c, s2, [e1]) == [true];
    assert Decisions(c, s1, [e2, e1]) == [true, true];
  }

  lemma TurnsOverflow(c: Config, a: Key, b: Key, t: int)
    requires c.max == 1 && c.windowMs >= 1 && a != b
    ensures Ordered(Turns(a, b, t), t)
    ensures AdmissionsIn(c, Turns(a, b, t), [true, true, true], a, t - 1) == 2
  {
    var e1, e2 := RequestBy(a, t), RequestBy(b, t);
    assert [e1, e2, e1][1..] == [e2, e1] && [e2, e1][1..] == [e1] && [e1][1..] == [];
    assert Ordered([e1], t) && Ordered([e2, e1], t);
    assert [true, true, true][1..] == [true, true] && [true, true][1..] == [true] && [true][1..] == [];
    assert AdmissionsIn(c, [e1], [true], a, t - 1) == 1;
    assert AdmissionsIn(c, [e2, e1], [true, true], a, t - 1) == 1;
  }

  /** The condition on the number of keys is needed: with room for one key, two keys that take turns
      evict each other, and one of them is admitted twice in a window that allows it once. */
  lemma EvictionAdmitsTooMany(c: Config, a: Key, b: Key, t: int)
    requires c.maxKeys == 1 && c.max == 1 && c.windowMs >= 1 && a != b
    ensures Ordered(Turns(a, b, t), t)
    ensures AdmissionsIn(c, Turns(a, b, t), Decisions(c, EMPTY, Turns(a, b, t)), a, t - 1) > c.max
  {
    TurnsAreAdmitted(c, a, b, t);
    TurnsOverflow(c, a, b, t);
  }

  // ---------------------------------------------------------------- who is evicted

  /** A request evicts a key exactly when it is of a new key, the map is full, and the evicted key is
      the first of the map; every other key keeps its list. */
  lemma EvictsTheFirst(c: Config, s: State, k: Key, now: int, x: Key)
    requires Valid(s) && x in s.hits && x != k
    ensures var s', gone := Request(c, s, k, now), k !in s.hits && |s.order| >= c.maxKeys && s.order[0] == x;
      && (x in s'.hits <==> !gone)
      && (!gone ==> s'.hits[x] == s.hits[x])
  {
    assert x in s.order;
    assert s.order[0] == x ==> x !in s.order[1..];
  }

  /** The event of the run that entered the key into the map for the last time. */
  function Since(c: Config, evs: seq<Event>, x: Key): nat
    decreases |evs|
  {
    if evs == [] then 0
    else
      var front := evs[..|evs| - 1];
      if x !in Final(c, EMPTY, front).hits then |front| else Since(c, front, x)
  }

  /** The order of the map is that in which its keys were entered. */
  ghost predicate InEntryOrder(order: seq<Key>, since: Key -> int) {
    forall i, j :: 0 <= i < j < |order| ==> since(order[i]) < since(order[j])
  }

  lemma FirstInEntryOrder(first: Key, rest: seq<Key>, since: Key -> int)
    requires InEntryOrder(rest, since) && forall x :: x in rest ==> since(first) < since(x)
    ensures InEntryOrder([first] + rest, since)
  {
    assert forall j :: 0 <= j < |rest| ==> rest[j] in rest;
  }

  lemma {:induction false} WithoutInEntryOrder(order: seq<Key>, k: Key, since: Key -> int)
    requires InEntryOrder(order, since)
    ensures InEntryOrder(Without(order, k), since)
  {
    if order != [] {
      var rest := order[1..];
      assert forall i :: 0 <= i < |rest| ==> rest[i] == order[i + 1];
      WithoutInEntryOrder(rest, k, since);
      WithoutKeepsOthers(rest, k);
      assert forall x :: x in rest ==> since(order[0]) < since(x);
      FirstInEntryOrder(order[0], Without(rest, k), since);
    }
  }

  lemma {:induction false} SweepInEntryOrder(s: State, keys: seq<Key>, cutoff: int, since: Key -> int)
    requires InEntryOrder(s.order, since)
    ensures InEntryOrder(SweepKeys(s, keys, cutoff).order, since)
    decreases |keys|
  {
    if keys != [] {
      WithoutInEntryOrder(s.order, keys[0], since);
      SweepInEntryOrder(SweepKey(s, keys[0], cutoff), keys[1..], cutoff, since);
    }
  }

  lemma SameSince(order: seq<Key>, since: Key -> int, since': Key -> int)
    requires InEntryOrder(order, since) && forall x :: x in order ==> since'(x) == since(x)
    ensures InEntryOrder(order, since')
  {
    assert forall i :: 0 <= i < |order| ==> order[i] in order;
  }

  lemma LastInEntryOrder(order: seq<Key>, last: Key, since: Key -> int)
    requires InEntryOrder(order, since) && forall x :: x in order ==> since(x) < since(last)
    ensures InEntryOrder(order + [last], since)
  {
    assert forall i :: 0 <= i < |order| ==> order[i] in order;
  }

  lemma FinalLast(c: Config, s: State, evs: seq<Event>)
    requires evs != []
    ensures Final(c, s, evs) == Next(c, Final(c, s, evs[..|evs| - 1]), evs[|evs| - 1])
  {
    var front, last := evs[..|evs| - 1], evs[|evs| - 1];
    assert evs == front + [last];
    FinalAppend(c, s, front, [last]);
    assert [last][1..] == [];
  }

  lemma NextKeepsValid(c: Config, s: State, e: Event)
    requires Valid(s)
    ensures Valid(Next(c, s, e))
  {
    match e {
      case RequestBy(k, now) => RequestKeepsValid(c, s, k, now);
      case SweepAt(now) => SweepKeepsValid(c, s, now);
    }
  }

  /** What a request does to the order of the keys. */
  lemma RequestInEntryOrder(c: Config, s: State, k: Key, now: int, since: Key -> int)
    requires Valid(s) && InEntryOrder(s.order, since)
    requires k !in s.hits ==> forall x :: x in s.order ==> since(x) < since(k)
    ensures InEntryOrder(Request(c, s, k, now).order, since)
  {
    var s1 := Evicted(c, s, k);
    assert forall x :: x in s1.order ==> x in s.order;
    if k !in s1.hits { LastInEntryOrder(s1.order, k, since); }
  }

  function Entries(c: Config, evs: seq<Event>): Key -> int {
    x => Since(c, evs, x)
  }

  ghost predicate Entered(c: Config, evs: seq<Event>) {
    var s := Final(c, EMPTY, evs);
    Valid(s) && InEntryOrder(s.order, Entries(c, evs)) && forall x :: x in s.order ==> Entries(c, evs)(x) < |evs|
  }

  lemma NextInEntryOrder(c: Config, s: State, e: Event, since: Key -> int, n: int)
    requires Valid(s) && InEntryOrder(s.order, since)
    requires forall x :: x in s.order ==> since(x) < n
    requires forall x :: x !in s.hits ==> since(x) == n
    ensures InEntryOrder(Next(c, s, e).order, since)
  {
    match e {
      case RequestBy(k, now) => RequestInEntryOrder(c, s, k, now, since);
      case SweepAt(now) => SweepInEntryOrder(s, s.order, now - c.windowMs, since);
    }
  }

  lemma SinceLast(c: Config, evs: seq<Event>, x: Key)
    requires evs != []
    ensures var front := evs[..|evs| - 1];
      Entries(c, evs)(x) == if x in Final(c, EMPTY, front).hits then Entries(c, front)(x) else |front|
  {
  }

  lemma {:induction false} EntryOrderAlways(c: Config, evs: seq<Event>)
    ensures Entered(c, evs)
    decreases |evs|
  {
    if evs != [] {
      var n := |evs| - 1;
      var front, e, s := evs[..n], evs[n], Final(c, EMPTY, evs[..n]);
      EntryOrderAlways(c, front);
      FinalLast(c, EMPTY, evs);
      NextKeepsValid(c, s, e);
      forall x
        ensures Entries(c, evs)(x) == if x in s.hits then Entries(c, front)(x) else n
      {
        SinceLast(c, evs, x);
      }
      SameSince(s.order, Entries(c, front), Entries(c, evs));
      NextInEntryOrder(c, s, e, Entries(c, evs), n);
    }
  }

  /** The evicted key is the one tracked the longest: after any run, a request takes out of the map at
      most one other key, only for a new key in a full map, and none that was entered after a key
      that stays. */
  lemma EvictsTheLongestTracked(c: Config, evs: seq<Event>, k: Key, now: int, x: Key, y: Key)
    requires x in Final(c, EMPTY, evs).hits && x != k && x !in Request(c, Final(c, EMPTY, evs), k, now).hits
    requires y in Final(c, EMPTY, evs).hits && y != x
    ensures y in Request(c, Final(c, EMPTY, evs), k, now).hits
    ensures k !in Final(c, EMPTY, evs).hits && |Final(c, EMPTY, evs).order| >= c.maxKeys
    ensures Since(c, evs, x) < Since(c, evs, y)
  {
    var s := Final(c, EMPTY, evs);
    EntryOrderAlways(c, evs);
    EvictsTheFirst(c, s, k, now, x);
    if y != k { EvictsTheFirst(c, s, k, now, y); }
    assert y in s.order && s.order[0] == x;
  }

  // ---------------------------------------------------------------- the key cap

  function Final(c: Config, s: State, evs: seq<Event>): State
    decreases |evs|
  {
    if evs == [] then s else Final(c, Next(c, s, evs[0]), evs[1..])
  }

  lemma {:induction false} SizeStaysBounded(c: Config, s: State, evs: seq<Event>)
    requires c.maxKeys >= 1 && |s.order| <= c.maxKeys && Valid(s)
    ensures |Final(c, s, evs).order| <= c.maxKeys
    decreases |evs|
  {
    if evs != [] {
      match evs[0] {
        case RequestBy(k, now) =>
          RequestKeepsValid(c, s, k, now);
          SizeStaysBounded(c, Request(c, s, k, now), evs[1..]);
        case SweepAt(now) =>
          SweepKeepsValid(c, s, now);
          SizeStaysBounded(c, Sweep(c, s, now), evs[1..]);
      }
    }
  }

  ghost predicate SizeAlwaysCapped(c: Config) {
    forall evs: seq<Event> :: |Final(c, EMPTY, evs).order| <= c.maxKeys
  }

  /** The number of tracked keys never exceeds `maxKeys`, for every request sequence, exactly when
      the cap is at least one: with a cap of zero the first request is still stored. */
  lemma SizeCapIff(c: Config)
    ensures SizeAlwaysCapped(c) <==> c.maxKeys >= 1
  {
    if c.maxKeys >= 1 {
      forall evs: seq<Event>
        ensures |Final(c, EMPTY, evs).order| <= c.maxKeys
      {
        SizeStaysBounded(c, EMPTY, evs);
      }
    } else {
      var one := [RequestBy("k", 0)];
      assert one[1..] == [];
      assert Final(c, EMPTY, one) == Request(c, EMPTY, "k", 0);
      assert |Final(c, EMPTY, one).order| == 1;
    }
  }

  ghost predicate ListsCapped(c: Config, s: State) {
    forall k :: k in s.hits ==> |s.hits[k]| <= PerKeyCap(c)
  }

  lemma {:induction false} RecentIsShorter(ts: seq<int>, cutoff: int)
    ensures |Recent(ts, cutoff)| <= |ts|
  {
    if ts != [] { RecentIsShorter(ts[1..], cutoff); }
  }

  lemma NextKeepsCapped(c: Config, s: State, e: Event)
    requires Valid(s) && ListsCapped(c, s)
    ensures ListsCapped(c, Next(c, s, e))
  {
    if e.SweepAt? {
      forall k | k in Sweep(c, s, e.now).hits
        ensures |Sweep(c, s, e.now).hits[k]| <= PerKeyCap(c)
      {
        SweepStores(c, s, e.now, k);
        RecentIsShorter(Stored(s.hits, k), e.now - c.windowMs);
      }
    }
  }

  /** No key ever holds more than the per-key cap of timestamps. */
  lemma {:induction false} ListsAreCapped(c: Config, s: State, evs: seq<Event>)
    requires Valid(s) && ListsCapped(c, s)
    ensures ListsCapped(c, Final(c, s, evs))
    decreases |evs|
  {
    if evs != [] {
      NextKeepsCapped(c, s, evs[0]);
      match evs[0] {
        case RequestBy(k, now) => RequestKeepsValid(c, s, k, now);
        case SweepAt(now) => SweepKeepsValid(c, s, now);
      }
      ListsAreCapped(c, Next(c, s, evs[0]), evs[1..]);
    }
  }

  // ---------------------------------------------------------------- when the bound holds

  lemma {:induction false} FinalAppend(c: Config, s: State, xs: seq<Event>, ys: seq<Event>)
    ensures Final(c, s, xs + ys) == Final(c, Final(c, s, xs), ys)
    ensures Decisions(c, s, xs + ys) == Decisions(c, s, xs) + Decisions(c, Final(c, s, xs), ys)
    decreases |xs|
  {
    if xs == [] {
      assert xs + ys == ys;
    } else {
      assert (xs + ys)[0] == xs[0] && (xs + ys)[1..] == xs[1..] + ys;
      FinalAppend(c, Next(c, s, xs[0]), xs[1..], ys);
    }
  }

  lemma {:induction false} AdmissionsAppend(c: Config, xs: seq<Event>, ys: seq<Event>,
                                            ds: seq<bool>, es: seq<bool>, k: Key, a: int)
    requires |xs| == |ds| && |ys| == |es|
    ensures AdmissionsIn(c, xs + ys, ds + es, k, a) == AdmissionsIn(c, xs, ds, k, a) + AdmissionsIn(c, ys, es, k, a)
    decreases |xs|
  {
    if xs == [] {
      assert xs + ys == ys && ds + es == es;
    } else {
      assert (xs + ys)[0] == xs[0] && (xs + ys)[1..] == xs[1..] + ys;
      assert (ds + es)[0] == ds[0] && (ds + es)[1..] == ds[1..] + es;
      AdmissionsAppend(c, xs[1..], ys, ds[1..], es, k, a);
    }
  }

  lemma {:induction false} KeysAppend(xs: seq<Event>, ys: seq<Event>)
    ensures KeysOf(xs + ys) == KeysOf(xs) + KeysOf(ys)
  {
    if xs == [] {
      assert xs + ys == ys;
    } else {
      assert (xs + ys)[0] == xs[0] && (xs + ys)[1..] == xs[1..] + ys;
      KeysAppend(xs[1..], ys);
    }
  }

  /** The admissions within the window of `k` when `evs` runs from `s`. */
  function Admitted(c: Config, s: State, evs: seq<Event>, k: Key, a: int): nat {
    AdmissionsIn(c, evs, Decisions(c, s, evs), k, a)
  }

  lemma AdmittedAppend(c: Config, s: State, xs: seq<Event>, ys: seq<Event>, k: Key, a: int)
    ensures Admitted(c, s, xs + ys, k, a) == Admitted(c, s, xs, k, a) + Admitted(c, Final(c, s, xs), ys, k, a)
  {
    FinalAppend(c, s, xs, ys);
    AdmissionsAppend(c, xs, ys, Decisions(c, s, xs), Decisions(c, Final(c, s, xs), ys), k, a);
  }

  /** The first event of a run. */
  lemma SplitFirst(c: Config, s: State, e: Event, rest: seq<Event>, k: Key, a: int)
    ensures Final(c, s, [e] + rest) == Final(c, Next(c, s, e), rest)
    ensures Admitted(c, s, [e] + rest, k, a)
         == (if e.RequestBy? && e.key == k && Decision(c, s, e) && a < e.now <= a + c.windowMs then 1 else 0)
            + Admitted(c, Next(c, s, e), rest, k, a)
  {
    assert ([e] + rest)[1..] == rest;
    assert Decisions(c, s, [e] + rest)[1..] == Decisions(c, Next(c, s, e), rest);
  }

  predicate AllAt(evs: seq<Event>, t: int) {
    forall e :: e in evs ==> e.now == t
  }

  lemma {:induction false} AllAtIsOrdered(evs: seq<Event>, t: int)
    requires AllAt(evs, t)
    ensures Ordered(evs, t)
  {
    if evs != [] { AllAtIsOrdered(evs[1..], t); }
  }

  /** `n` requests of one key at one time. */
  function Burst(k: Key, n: nat, t: int): (evs: seq<Event>)
    ensures AllAt(evs, t) && KeysOf(evs) <= {k}
  {
    if n == 0 then [] else [RequestBy(k, t)] + Burst(k, n - 1, t)
  }

  /** The key has `n` requests of its allowance left, and is alone in the map once it has used one. */
  ghost predicate Alone(c: Config, s: State, k: Key, n: nat) {
    Valid(s) && s.order == (if n == c.max then [] else [k]) && |Stored(s.hits, k)| + n <= c.max
  }

  lemma LoneRequest(c: Config, s: State, k: Key, n: nat, t: int)
    requires Alone(c, s, k, n) && n > 0
    ensures Alone(c, Next(c, s, RequestBy(k, t)), k, n - 1) && Decision(c, s, RequestBy(k, t))
  {
    RequestKeepsValid(c, s, k, t);
    RecentIsShorter(Stored(s.hits, k), t - c.windowMs);
    assert s.order == [k] ==> s.order[0] == k;
    assert Evicted(c, s, k) == s;
  }

  lemma {:induction false} BurstStaysAlone(c: Config, s: State, k: Key, n: nat, t: int)
    requires Alone(c, s, k, n)
    ensures Alone(c, Final(c, s, Burst(k, n, t)), k, 0)
    decreases n
  {
    if n > 0 {
      var first, rest := RequestBy(k, t), Burst(k, n - 1, t);
      LoneRequest(c, s, k, n, t);
      SplitFirst(c, s, first, rest, k, t);
      BurstStaysAlone(c, Next(c, s, first), k, n - 1, t);
    }
  }

  lemma {:induction false} BurstIsAdmitted(c: Config, s: State, k: Key, n: nat, t: int)
    requires Alone(c, s, k, n) && c.windowMs >= 1
    ensures Admitted(c, s, Burst(k, n, t), k, t - 1) == n
    decreases n
  {
    if n > 0 {
      var first, rest := RequestBy(k, t), Burst(k, n - 1, t);
      LoneRequest(c, s, k, n, t);
      SplitFirst(c, s, first, rest, k, t - 1);
      BurstIsAdmitted(c, Next(c, s, first), k, n - 1, t);
    }
  }

  /** One request each of the keys numbered from `i` up to `n`. */
  function Newcomers(i: nat, n: nat, t: int): (evs: seq<Event>)
    ensures AllAt(evs, t) && |KeysOf(evs)| <= if i <= n then n - i + 1 else 0
    decreases n + 1 - i
  {
    if i > n then [] else [RequestBy(Name(i), t)] + Newcomers(i + 1, n, t)
  }

  /** The map holds the first `n` keys. */
  ghost predicate Crowd(s: State, n: nat) {
    Valid(s) && s.order == Names(n)
  }

  ghost predicate Loses(c: Config, s: State, evs: seq<Event>, k: Key) {
    k !in Final(c, s, evs).hits
  }

  /** A new key goes to the end while the map has room. */
  lemma NewcomerJoins(c: Config, s: State, i: nat, t: int) returns (joined: State)
    requires Crowd(s, i) && i < c.maxKeys
    ensures Crowd(joined, i + 1)
    ensures Loses(c, joined, Newcomers(i + 1, c.maxKeys, t), Name(0)) ==> Loses(c, s, Newcomers(i, c.maxKeys, t), Name(0))
  {
    joined := Request(c, s, Name(i), t);
    RequestKeepsValid(c, s, Name(i), t);
    assert Name(i) !in s.order;
    assert Names(i + 1) == Names(i) + [Name(i)];
    SplitFirst(c, s, RequestBy(Name(i), t), Newcomers(i + 1, c.maxKeys, t), Name(i), t);
  }

  /** The first key over the cap drives out the first of the map. */
  lemma NewcomerEvicts(c: Config, s: State, i: nat, t: int)
    requires Crowd(s, i) && i == c.maxKeys && i >= 1
    ensures Loses(c, s, Newcomers(i, c.maxKeys, t), Name(0))
  {
    RequestKeepsValid(c, s, Name(i), t);
    assert Name(i) !in s.order;
    assert s.order[0] == Name(0);
    assert Newcomers(i + 1, c.maxKeys, t) == [];
    SplitFirst(c, s, RequestBy(Name(i), t), [], Name(i), t);
  }

  lemma {:induction false} NewcomersEvict(c: Config, s: State, i: nat, t: int)
    requires Crowd(s, i) && 1 <= i <= c.maxKeys
    ensures Loses(c, s, Newcomers(i, c.maxKeys, t), Name(0))
    decreases c.maxKeys - i
  {
    if i < c.maxKeys {
      var joined := NewcomerJoins(c, s, i, t);
      NewcomersEvict(c, joined, i + 1, t);
    } else {
      NewcomerEvicts(c, s, i, t);
    }
  }

  /** A key that is not tracked is admitted. */
  lemma ForgottenIsAdmitted(c: Config, s: State, k: Key, t: int)
    requires k !in s.hits && c.max >= 1 && c.windowMs >= 1
    ensures Admitted(c, s, [RequestBy(k, t)], k, t - 1) == 1
  {
    assert k !in Evicted(c, s, k).hits;
    assert Admits(c, s, k, t);
    SplitFirst(c, s, RequestBy(k, t), [], k, t - 1);
    assert [RequestBy(k, t)] + [] == [RequestBy(k, t)];
  }

  /** A key uses up its allowance, `maxKeys` others come, and the key comes again. */
  function Overrun(c: Config, t: int): (evs: seq<Event>)
    ensures Ordered(evs, t) && |KeysOf(evs)| <= c.maxKeys + 1
  {
    var burst, others, again := Burst(Name(0), c.max, t), Newcomers(1, c.maxKeys, t), [RequestBy(Name(0), t)];
    OverrunKeys(burst, others, again, Name(0), c.maxKeys);
    AllAtIsOrdered(burst + (others + again), t);
    burst + (others + again)
  }

  lemma OverrunKeys(xs: seq<Event>, ys: seq<Event>, zs: seq<Event>, k: Key, n: nat)
    requires KeysOf(xs) <= {k} && KeysOf(zs) <= {k} && |KeysOf(ys)| <= n
    ensures |KeysOf(xs + (ys + zs))| <= n + 1
  {
    KeysAppend(xs, ys + zs);
    KeysAppend(ys, zs);
    SubsetSize(KeysOf(xs + (ys + zs)), KeysOf(ys) + {k});
  }

  lemma OverrunIsAdmitted(c: Config, t: int)
    requires c.max >= 1 && c.windowMs >= 1 && c.maxKeys >= 1
    ensures Admitted(c, EMPTY, Overrun(c, t), Name(0), t - 1) > c.max
  {
    var k, a := Name(0), t - 1;
    var burst, others, again := Burst(k, c.max, t), Newcomers(1, c.maxKeys, t), [RequestBy(k, t)];
    BurstIsAdmitted(c, EMPTY, k, c.max, t);
    BurstStaysAlone(c, EMPTY, k, c.max, t);
    var s1 := Final(c, EMPTY, burst);
    assert s1.order == [k] == Names(1);
    NewcomersEvict(c, s1, 1, t);
    var s2 := Final(c, s1, others);
    ForgottenIsAdmitted(c, s2, k, t);
    AdmittedAppend(c, EMPTY, burst, others + again, k, a);
    AdmittedAppend(c, s1, others, again, k, a);
  }

  /** Over all runs with at most `n` keys, no key has more than `max` admissions in any window. */
  ghost predicate BoundKept(c: Config, n: nat) {
    forall evs: seq<Event>, from: int, k: Key, a: int ::
      Ordered(evs, from) && |KeysOf(evs)| <= n ==> Admitted(c, EMPTY, evs, k, a) <= c.max
  }

  /** The keys that the map can hold at once: a cap of zero still lets one in. */
  function Room(c: Config): nat {
    if c.maxKeys == 0 then 1 else c.maxKeys
  }

  lemma {:induction false} RoomDecides(c: Config, s: State, evs: seq<Event>)
    ensures Decisions(c, s, evs) == Decisions(c.(maxKeys := Room(c)), s, evs)
    decreases |evs|
  {
    if evs != [] {
      var c' := c.(maxKeys := Room(c));
      if evs[0].RequestBy? {
        assert Evicted(c, s, evs[0].key) == Evicted(c', s, evs[0].key);
      }
      assert Next(c, s, evs[0]) == Next(c', s, evs[0]);
      RoomDecides(c, Next(c, s, evs[0]), evs[1..]);
    }
  }

  lemma {:induction false} WindowOnly(c: Config, c': Config, evs: seq<Event>, ds: seq<bool>, k: Key, a: int)
    requires |evs| == |ds| && c.windowMs == c'.windowMs
    ensures AdmissionsIn(c, evs, ds, k, a) == AdmissionsIn(c', evs, ds, k, a)
  {
    if evs != [] { WindowOnly(c, c', evs[1..], ds[1..], k, a); }
  }

  lemma {:induction false} EmptyWindow(c: Config, evs: seq<Event>, ds: seq<bool>, k: Key, a: int)
    requires |evs| == |ds| && c.windowMs == 0
    ensures AdmissionsIn(c, evs, ds, k, a) == 0
  {
    if evs != [] { EmptyWindow(c, evs[1..], ds[1..], k, a); }
  }

  lemma {:induction false} NoAllowance(c: Config, s: State, evs: seq<Event>, k: Key, a: int)
    requires c.max == 0
    ensures Admitted(c, s, evs, k, a) == 0
    decreases |evs|
  {
    if evs != [] { NoAllowance(c, Next(c, s, evs[0]), evs[1..], k, a); }
  }

  lemma RoomAdmits(c: Config, evs: seq<Event>, k: Key, a: int)
    ensures Admitted(c, EMPTY, evs, k, a) == Admitted(c.(maxKeys := Room(c)), EMPTY, evs, k, a)
  {
    var c' := c.(maxKeys := Room(c));
    RoomDecides(c, EMPTY, evs);
    WindowOnly(c, c', evs, Decisions(c, EMPTY, evs), k, a);
  }

  lemma BoundKeptWithin(c: Config, n: nat)
    requires c.max == 0 || c.windowMs == 0 || n <= Room(c)
    ensures BoundKept(c, n)
  {
    forall evs: seq<Event>, from: int, k: Key, a: int | Ordered(evs, from) && |KeysOf(evs)| <= n
      ensures Admitted(c, EMPTY, evs, k, a) <= c.max
    {
      if c.max == 0 {
        NoAllowance(c, EMPTY, evs, k, a);
      } else if c.windowMs == 0 {
        EmptyWindow(c, evs, Decisions(c, EMPTY, evs), k, a);
      } else {
        RoomAdmits(c, evs, k, a);
        AtMostMaxPerWindow(c.(maxKeys := Room(c)), evs, from, k, a);
      }
    }
  }

  /** The limiter keeps its promise over all runs with at most `n` distinct keys exactly when the map
      has room for `n` keys (or the promise is empty: nothing is allowed, or the window is). */
  lemma BoundKeptIff(c: Config, n: nat)
    ensures BoundKept(c, n) <==> c.max == 0 || c.windowMs == 0 || n <= Room(c)
  {
    if c.max == 0 || c.windowMs == 0 || n <= Room(c) {
      BoundKeptWithin(c, n);
    } else {
      var c' := c.(maxKeys := Room(c));
      var evs := Overrun(c', 0);
      OverrunIsAdmitted(c', 0);
      RoomAdmits(c, evs, Name(0), -1);
      assert Ordered(evs, 0) && |KeysOf(evs)| <= n;
    }
  }
}

/** The per-account login throttle (src/server/loginThrottle.js) as the password-only login drives
    it (src/server/auth.js): counters, lockouts, eviction, and the guess rate they leave. */
module LoginThrottle {
  import opened Wrappers
  import opened KeyOrder

  /** A trimmed, lower-cased email; the empty key is never tracked. */
  type Key = string

  datatype Config = Config(maxAttempts: nat, lockoutMs: nat, maxLockoutMs: nat, maxEntries: nat)

  /** `lockedUntil` is zero while the account is not locked. */
  datatype Entry = Entry(failures: nat, lockedUntil: nat, lastAt: nat)

  /** The `entries` Map: its keys in insertion order, and its records. */
  datatype State = State(order: seq<Key>, entries: map<Key, Entry>)

  const EMPTY := State([], map[])

  datatype Outcome = Outcome(locked: bool, retryAfterMs: nat, failures: nat)

  const UNTRACKED := Outcome(false, 0, 0)

  // ---------------------------------------------------------------- the throttle on values

  predicate Expired(e: Entry, now: nat) {
    e.lockedUntil != 0 && e.lockedUntil <= now
  }

  function Remove(s: State, k: Key): State {
    State(Without(s.order, k), s.entries - {k})
  }

  function Put(s: State, k: Key, e: Entry): State {
    State(if k in s.entries then s.order else s.order + [k], s.entries[k := e])
  }

  function At(s: State, k: Key): Option<Entry> {
    if k in s.entries then Some(s.entries[k]) else None
  }

  /** `entryFor`: its effect on the map; what it returns is the entry left there. */
  function DropExpired(s: State, k: Key, now: nat): State {
    if k in s.entries && Expired(s.entries[k], now) then Remove(s, k) else s
  }

  function Remaining(e: Entry, now: nat): nat {
    if e.lockedUntil > now then e.lockedUntil - now else 0
  }

  function Reported(e: Entry, now: nat): Outcome {
    Outcome(e.lockedUntil != 0, if e.lockedUntil != 0 then Remaining(e, now) else 0, e.failures)
  }

  function Status(s: State, k: Key, now: nat): Outcome {
    var kept := DropExpired(s, k, now);
    if k == "" || k !in kept.entries then UNTRACKED else Reported(kept.entries[k], now)
  }

  function AfterStatus(s: State, k: Key, now: nat): State {
    if k == "" then s else DropExpired(s, k, now)
  }

  /** `base * 2 ** n`. */
  function Scaled(base: nat, n: nat): (x: nat)
    ensures x >= base
  {
    if n == 0 then base else 2 * Scaled(base, n - 1)
  }

  function Min(a: nat, b: nat): nat {
    if a <= b then a else b
  }

  function Backoff(c: Config, failures: nat): nat
    requires failures >= c.maxAttempts
  {
    Min(Scaled(c.lockoutMs, failures - c.maxAttempts), c.maxLockoutMs)
  }

  /** The record after one more failure. */
  function Bumped(c: Config, e: Entry, now: nat): Entry {
    Entry(e.failures + 1,
          if e.failures + 1 >= c.maxAttempts then now + Backoff(c, e.failures + 1) else e.lockedUntil,
          now)
  }

  /** The position, among the first `n` keys, of the least recently touched: the first of them on a tie. */
  function Oldest(order: seq<Key>, entries: map<Key, Entry>, n: nat): (best: nat)
    requires 0 < n <= |order| && forall i :: 0 <= i < |order| ==> order[i] in entries
    ensures best < n
    ensures forall i :: 0 <= i < n ==> entries[order[best]].lastAt <= entries[order[i]].lastAt
    ensures forall i :: 0 <= i < best ==> entries[order[best]].lastAt < entries[order[i]].lastAt
  {
    if n == 1 then 0
    else
      var best := Oldest(order, entries, n - 1);
      if entries[order[n - 1]].lastAt < entries[order[best]].lastAt then n - 1 else best
  }

  ghost predicate Valid(s: State) {
    Distinct(s.order) && forall k :: k in s.order <==> k in s.entries
  }

  /** The record that making room removes, if any. */
  function Victim(c: Config, s: State): Option<Key>
    requires Valid(s)
  {
    if |s.entries| <= c.maxEntries || s.order == [] then None
    else Some(s.order[Oldest(s.order, s.entries, |s.order|)])
  }

  function Evict(c: Config, s: State): State
    requires Valid(s)
  {
    match Victim(c, s)
    case Some(k) => Remove(s, k)
    case None => s
  }

  /** The map with the failure counted, before the size cap is applied. */
  function Counted(c: Config, s: State, k: Key, now: nat): State {
    var kept := DropExpired(s, k, now);
    Put(kept, k, Bumped(c, if k in kept.entries then kept.entries[k] else Entry(0, 0, 0), now))
  }

  function RecordFailure(c: Config, s: State, k: Key, now: nat): State
    requires Valid(s)
  {
    CountedIsValid(c, s, k, now);
    if k == "" then s else Evict(c, Counted(c, s, k, now))
  }

  function FailureReport(c: Config, s: State, k: Key, now: nat): Outcome {
    if k == "" then UNTRACKED else Reported(Counted(c, s, k, now).entries[k], now)
  }

  function RecordSuccess(s: State, k: Key): State {
    if k == "" then s else Remove(s, k)
  }

  function PruneKeys(s: State, keys: seq<Key>, now: nat): State
    decreases |keys|
  {
    if keys == [] then s else PruneKeys(DropExpired(s, keys[0], now), keys[1..], now)
  }

  function Prune(s: State, now: nat): State {
    PruneKeys(s, s.order, now)
  }

  // ---------------------------------------------------------------- validity

  lemma RemoveIsValid(s: State, k: Key)
    requires Valid(s)
    ensures Valid(Remove(s, k))
  {
    WithoutIsDistinct(s.order, k);
    WithoutKeepsOthers(s.order, k);
  }

  lemma CountedIsValid(c: Config, s: State, k: Key, now: nat)
    requires Valid(s)
    ensures Valid(Counted(c, s, k, now))
  {
    RemoveIsValid(s, k);
  }

  lemma EvictIsValid(c: Config, s: State)
    requires Valid(s)
    ensures Valid(Evict(c, s))
  {
    forall k
      ensures Valid(Remove(s, k))
    {
      RemoveIsValid(s, k);
    }
  }

  lemma RecordFailureIsValid(c: Config, s: State, k: Key, now: nat)
    requires Valid(s)
    ensures Valid(RecordFailure(c, s, k, now))
  {
    CountedIsValid(c, s, k, now);
    EvictIsValid(c, Counted(c, s, k, now));
  }

  lemma {:induction false} PruneKeysIsValid(s: State, keys: seq<Key>, now: nat)
    requires Valid(s)
    ensures Valid(PruneKeys(s, keys, now))
    decreases |keys|
  {
    if keys != [] {
      RemoveIsValid(s, keys[0]);
      PruneKeysIsValid(DropExpired(s, keys[0], now), keys[1..], now);
    }
  }

  // ---------------------------------------------------------------- the throttle object

  class Throttle {
    const config: Config
    var order: seq<Key>
    var entries: map<Key, Entry>

    ghost function Model(): State
      reads this
    {
      State(order, entries)
    }

    constructor (config: Config)
      ensures this.config == config && Model() == EMPTY && Valid(Model())
    {
      this.config := config;
      order, entries := [], map[];
    }

    /** The position of the least recently touched record. */
    method FindOldest() returns (oldest: Option<nat>)
      requires Valid(Model())
      ensures oldest == if order == [] then None else Some(Oldest(order, entries, |order|))
    {
      oldest := None;
      for i := 0 to |order|
        invariant oldest == if i == 0 then None else Some(Oldest(order, entries, i))
      {
        if oldest == None || entries[order[i]].lastAt < entries[order[oldest.value]].lastAt {
          oldest := Some(i);
        }
      }
    }

    /** Delete a record. */
    method Drop(key: Key)
      modifies this
      ensures Model() == Remove(old(Model()), key)
    {
      entries := entries - {key};
      order := Without(order, key);
    }

    /** Evict the least recently touched record when the map is over its cap. */
    method EvictIfNeeded()
      requires Valid(Model())
      modifies this
      ensures Valid(Model()) && Model() == Evict(config, old(Model()))
    {
      EvictIsValid(config, Model());
      if |entries| <= config.maxEntries { return; }
      var oldest := FindOldest();
      if oldest != None { Drop(order[oldest.value]); }
    }

    /** Read a live record, dropping it if its lockout has expired. */
    method EntryFor(key: Key, now: nat) returns (entry: Option<Entry>)
      requires Valid(Model())
      modifies this
      ensures Valid(Model()) && Model() == DropExpired(old(Model()), key, now)
      ensures entry == At(Model(), key)
    {
      RemoveIsValid(Model(), key);
      if key !in entries { return None; }
      if entries[key].lockedUntil != 0 && entries[key].lockedUntil <= now {
        Drop(key);
        return None;
      }
      return Some(entries[key]);
    }

    method CheckStatus(key: Key, now: nat) returns (outcome: Outcome)
      requires Valid(Model())
      modifies this
      ensures Valid(Model()) && Model() == AfterStatus(old(Model()), key, now)
      ensures outcome == Status(old(Model()), key, now)
    {
      if key == "" { return UNTRACKED; }
      var entry := EntryFor(key, now);
      if entry == None || entry.value.lockedUntil == 0 {
        return Outcome(false, 0, if entry == None then 0 else entry.value.failures);
      }
      return Outcome(true, Remaining(entry.value, now), entry.value.failures);
    }

    /** Set a record; a new key goes to the end of the order. */
    method Store(key: Key, entry: Entry)
      modifies this
      ensures Model() == Put(old(Model()), key, entry)
    {
      if key !in entries { order := order + [key]; }
      entries := entries[key := entry];
    }

    /** Count one more failure, locking the account from the threshold on. */
    method Count(key: Key, now: nat) returns (entry: Entry)
      requires Valid(Model())
      modifies this
      ensures Model() == Counted(config, old(Model()), key, now) && entry == Model().entries[key]
    {
      var found := EntryFor(key, now);
      entry := if found == None then Entry(0, 0, 0) else found.value;
      entry := entry.(failures := entry.failures + 1, lastAt := now);
      if entry.failures >= config.maxAttempts {
        var over := entry.failures - config.maxAttempts;
        var backoff := Min(Scaled(config.lockoutMs, over), config.maxLockoutMs);
        entry := entry.(lockedUntil := now + backoff);
      }
      Store(key, entry);
    }

    method Fail(key: Key, now: nat) returns (outcome: Outcome)
      requires Valid(Model())
      modifies this
      ensures Valid(Model()) && Model() == RecordFailure(config, old(Model()), key, now)
      ensures outcome == FailureReport(config, old(Model()), key, now)
    {
      if key == "" { return UNTRACKED; }
      CountedIsValid(config, Model(), key, now);
      var entry := Count(key, now);
      EvictIfNeeded();
      outcome := Outcome(entry.lockedUntil != 0, if entry.lockedUntil != 0 then Remaining(entry, now) else 0,
                         entry.failures);
    }

    method Succeed(key: Key)
      requires Valid(Model())
      modifies this
      ensures Valid(Model()) && Model() == RecordSuccess(old(Model()), key)
    {
      RemoveIsValid(Model(), key);
      if key != "" { Drop(key); }
    }

    /** Drop every record whose lockout has expired. */
    method PruneAll(cutoff: nat)
      requires Valid(Model())
      modifies this
      ensures Valid(Model()) && Model() == Prune(old(Model()), cutoff)
    {
      PruneKeysIsValid(Model(), order, cutoff);
      var keys := order;
      for i := 0 to |keys|
        invariant PruneKeys(Model(), keys[i..], cutoff) == Prune(old(Model()), cutoff)
      {
        var key := keys[i];
        assert keys[i..][1..] == keys[i + 1..];
        if key in entries && entries[key].lockedUntil != 0 && entries[key].lockedUntil <= cutoff { Drop(key); }
      }
    }
  }

  /** What pruning means: exactly the records with an expired lockout go. */
  lemma {:induction false} PruneKeysAt(s: State, keys: seq<Key>, now: nat, x: Key)
    ensures At(PruneKeys(s, keys, now), x)
         == if x in keys && x in s.entries && Expired(s.entries[x], now) then None else At(s, x)
    decreases |keys|
  {
    if keys != [] { PruneKeysAt(DropExpired(s, keys[0], now), keys[1..], now, x); }
  }

  lemma PruneDropsExpired(s: State, now: nat, x: Key)
    requires Valid(s)
    ensures At(Prune(s, now), x) == At(DropExpired(s, x, now), x)
  {
    PruneKeysAt(s, s.order, now, x);
  }

  // ---------------------------------------------------------------- runs of direct calls

  datatype Call =
    | AskStatus(key: Key, at: nat)
    | Failure(key: Key, at: nat)
    | Success(key: Key, at: nat)
    | PruneCall(at: nat)

  function Next(c: Config, s: State, call: Call): State
    requires Valid(s)
  {
    match call
    case AskStatus(k, now) => AfterStatus(s, k, now)
    case Failure(k, now) => RecordFailure(c, s, k, now)
    case Success(k, _) => RecordSuccess(s, k)
    case PruneCall(now) => Prune(s, now)
  }

  lemma NextIsValid(c: Config, s: State, call: Call)
    requires Valid(s)
    ensures Valid(Next(c, s, call))
  {
    match call {
      case AskStatus(k, _) => RemoveIsValid(s, k);
      case Failure(k, now) => RecordFailureIsValid(c, s, k, now);
      case Success(k, _) => RemoveIsValid(s, k);
      case PruneCall(now) => PruneKeysIsValid(s, s.order, now);
    }
  }

  function After(c: Config, s: State, calls: seq<Call>): State
    requires Valid(s)
    decreases |calls|
  {
    if calls == [] then s
    else
      NextIsValid(c, s, calls[0]);
      After(c, Next(c, s, calls[0]), calls[1..])
  }

  /** The clock readings never go back, and end no later than `now`. */
  predicate Clocked(calls: seq<Call>, from: nat, now: nat) {
    if calls == [] then from <= now else from <= calls[0].at && Clocked(calls[1..], calls[0].at, now)
  }

  /** A record counts failures, and is locked from the threshold on: for the backoff due for them,
      after the last of them. */
  predicate Sound(c: Config, e: Entry, now: nat) {
    && e.failures >= 1 && e.lastAt <= now
    && e.lockedUntil == if e.failures < c.maxAttempts then 0 else e.lastAt + Backoff(c, e.failures)
  }

  ghost predicate Inv(c: Config, s: State, now: nat) {
    Valid(s) && |s.entries| <= c.maxEntries && AllSound(c, s, now)
  }

  lemma {:induction false} ScaledGrows(base: nat, m: nat, n: nat)
    requires m <= n
    ensures Scaled(base, m) <= Scaled(base, n)
    decreases n
  {
    if m < n { ScaledGrows(base, m, n - 1); }
  }

  lemma TimesMonotone(a: nat, m: nat, n: nat)
    requires m <= n
    ensures a * m <= a * n
  {
  }

  lemma BackoffGrows(c: Config, m: nat, n: nat)
    requires c.maxAttempts <= m <= n
    ensures Min(c.lockoutMs, c.maxLockoutMs) <= Backoff(c, m) <= Backoff(c, n) <= c.maxLockoutMs
  {
    ScaledGrows(c.lockoutMs, m - c.maxAttempts, n - c.maxAttempts);
  }

  lemma BumpedIsSound(c: Config, e: Entry, now: nat)
    requires e == Entry(0, 0, 0) || Sound(c, e, now)
    ensures Sound(c, Bumped(c, e, now), now)
    ensures e.lockedUntil <= Bumped(c, e, now).lockedUntil
  {
    if e.failures >= c.maxAttempts { BackoffGrows(c, e.failures, e.failures + 1); }
  }

  lemma RemoveShrinks(s: State, k: Key)
    ensures |Remove(s, k).entries| == if k in s.entries then |s.entries| - 1 else |s.entries|
  {
    if k in s.entries {
      var rest := s.entries - {k};
      assert rest[k := s.entries[k]] == s.entries;
    } else {
      assert s.entries - {k} == s.entries;
    }
  }

  lemma EvictFits(c: Config, s: State)
    requires Valid(s) && |s.entries| <= c.maxEntries + 1
    ensures |Evict(c, s).entries| <= c.maxEntries
  {
    if |s.entries| > c.maxEntries {
      assert s.order != [] by {
        var k :| k in s.entries;
        assert k in s.order;
      }
      RemoveShrinks(s, s.order[Oldest(s.order, s.entries, |s.order|)]);
    }
  }

  lemma DropExpiredKeepsInv(c: Config, s: State, k: Key, now: nat)
    requires Inv(c, s, now)
    ensures Inv(c, DropExpired(s, k, now), now)
  {
    RemoveIsValid(s, k);
    RemoveShrinks(s, k);
  }

  ghost predicate AllSound(c: Config, s: State, now: nat) {
    forall k :: k in s.entries ==> k != "" && Sound(c, s.entries[k], now)
  }

  lemma CountedKeepsSound(c: Config, s: State, k: Key, now: nat)
    requires AllSound(c, s, now) && k != ""
    ensures AllSound(c, Counted(c, s, k, now), now)
  {
    var kept := DropExpired(s, k, now);
    var before := if k in kept.entries then kept.entries[k] else Entry(0, 0, 0);
    BumpedIsSound(c, before, now);
  }

  lemma CountedGrowsByOne(c: Config, s: State, k: Key, now: nat)
    ensures |Counted(c, s, k, now).entries| <= |s.entries| + 1
  {
    RemoveShrinks(s, k);
  }

  lemma FailureKeepsInv(c: Config, s: State, k: Key, now: nat)
    requires Inv(c, s, now)
    ensures Inv(c, RecordFailure(c, s, k, now), now)
  {
    if k != "" {
      CountedIsValid(c, s, k, now);
      CountedKeepsSound(c, s, k, now);
      CountedGrowsByOne(c, s, k, now);
      var counted := Counted(c, s, k, now);
      EvictIsValid(c, counted);
      EvictFits(c, counted);
    }
  }

  lemma {:induction false} PruneKeysKeepsInv(c: Config, s: State, keys: seq<Key>, now: nat)
    requires Inv(c, s, now)
    ensures Inv(c, PruneKeys(s, keys, now), now)
    decreases |keys|
  {
    if keys != [] {
      DropExpiredKeepsInv(c, s, keys[0], now);
      PruneKeysKeepsInv(c, DropExpired(s, keys[0], now), keys[1..], now);
    }
  }

  lemma NextKeepsInv(c: Config, s: State, call: Call)
    requires Inv(c, s, call.at)
    ensures Inv(c, Next(c, s, call), call.at)
  {
    match call {
      case AskStatus(k, now) => DropExpiredKeepsInv(c, s, k, now);
      case Failure(k, now) => FailureKeepsInv(c, s, k, now);
      case Success(k, _) => RemoveIsValid(s, k); RemoveShrinks(s, k);
      case PruneCall(now) => PruneKeysKeepsInv(c, s, s.order, now);
    }
  }

  lemma {:induction false} RunKeepsInv(c: Config, s: State, calls: seq<Call>, from: nat, now: nat)
    requires Inv(c, s, from) && Clocked(calls, from, now)
    ensures Inv(c, After(c, s, calls), now)
    decreases |calls|
  {
    if calls != [] {
      NextKeepsInv(c, s, calls[0]);
      RunKeepsInv(c, Next(c, s, calls[0]), calls[1..], calls[0].at, now);
    }
  }

  /** After any run of calls the map holds at most `maxEntries` records. */
  lemma SizeIsCapped(c: Config, calls: seq<Call>, now: nat)
    requires Clocked(calls, 0, now)
    ensures |After(c, EMPTY, calls).entries| <= c.maxEntries
  {
    RunKeepsInv(c, EMPTY, calls, 0, now);
  }

  /** After any run, no reported wait exceeds the ceiling. */
  lemma WaitIsCapped(c: Config, calls: seq<Call>, k: Key, now: nat)
    requires Clocked(calls, 0, now)
    ensures var s := After(c, EMPTY, calls);
      && Status(s, k, now).retryAfterMs <= c.maxLockoutMs
      && FailureReport(c, s, k, now).retryAfterMs <= c.maxLockoutMs
  {
    RunKeepsInv(c, EMPTY, calls, 0, now);
    var s := After(c, EMPTY, calls);
    DropExpiredKeepsInv(c, s, k, now);
    var kept := DropExpired(s, k, now);
    var e := if k in kept.entries then kept.entries[k] else Entry(0, 0, 0);
    BumpedIsSound(c, e, now);
    if e.failures >= c.maxAttempts { BackoffGrows(c, e.failures, e.failures); }
    if e.failures + 1 >= c.maxAttempts { BackoffGrows(c, e.failures + 1, e.failures + 1); }
  }

  /** Eviction takes a record touched no later than any other. */
  lemma VictimIsLeastRecent(c: Config, s: State)
    requires Valid(s)
    ensures Victim(c, s) == None <==> |s.entries| <= c.maxEntries
    ensures Victim(c, s).Some? ==>
      var v := Victim(c, s).value;
      v in s.entries && forall x :: x in s.entries ==> s.entries[v].lastAt <= s.entries[x].lastAt
  {
    if |s.entries| > c.maxEntries {
      assert s.order != [] by {
        var k :| k in s.entries;
        assert k in s.order;
      }
    }
  }

  // ---- unexpired deadlines

  lemma OnlyKey(order: seq<Key>, entries: map<Key, Entry>, k: Key)
    requires Valid(State(order, entries)) && |order| == 1 && order[0] == k
    ensures |entries| == 1
  {
    assert entries.Keys == {k};
  }

  /** The account whose failure is counted is never the one evicted. */
  lemma OwnFailureIsKept(c: Config, s: State, k: Key, now: nat)
    requires Inv(c, s, now) && k != "" && c.maxEntries >= 1
    ensures Valid(Counted(c, s, k, now)) && Victim(c, Counted(c, s, k, now)) != Some(k)
  {
    CountedIsValid(c, s, k, now);
    DropExpiredKeepsInv(c, s, k, now);
    var kept, counted := DropExpired(s, k, now), Counted(c, s, k, now);
    if k in kept.entries {
      assert |counted.entries| == |kept.entries|;
    } else if kept.order == [] {
      OnlyKey(counted.order, counted.entries, k);
    } else {
      NewcomerIsKept(kept, counted, k, now, c);
    }
  }

  lemma NewcomerIsKept(kept: State, counted: State, k: Key, now: nat, c: Config)
    requires Valid(kept) && AllSound(c, kept, now) && kept.order != [] && Valid(counted)
    requires counted.order == kept.order + [k] && k !in kept.entries
    requires forall x :: x in kept.entries ==> x in counted.entries && counted.entries[x] == kept.entries[x]
    requires counted.entries[k].lastAt == now
    ensures Victim(c, counted) != Some(k)
  {
    assert kept.order[0] in kept.order && counted.order[0] == kept.order[0];
  }

  /** What a failure leaves of the account it is counted for. */
  lemma OwnFailureAt(c: Config, s: State, k: Key, now: nat)
    requires Inv(c, s, now) && k != "" && c.maxEntries >= 1
    ensures At(RecordFailure(c, s, k, now), k) == Some(Bumped(c, Counting(s, k, now), now))
    ensures Counting(s, k, now) == Entry(0, 0, 0) || Sound(c, Counting(s, k, now), now)
  {
    OwnFailureIsKept(c, s, k, now);
  }

  lemma OwnFailureExtends(c: Config, s: State, k: Key, now: nat)
    requires Inv(c, s, now) && k in s.entries && s.entries[k].lockedUntil > now
    ensures k in RecordFailure(c, s, k, now).entries
    ensures RecordFailure(c, s, k, now).entries[k].lockedUntil >= s.entries[k].lockedUntil
  {
    assert |s.entries| >= 1 by { assert s.entries.Keys != {}; }
    OwnFailureAt(c, s, k, now);
    BumpedIsSound(c, s.entries[k], now);
  }

  /** After any run, one more failure of the account never moves its unexpired deadline earlier,
      and does not lose it to eviction either. */
  lemma DeadlineNeverEarlier(c: Config, calls: seq<Call>, k: Key, now: nat)
    requires Clocked(calls, 0, now)
    ensures var s := After(c, EMPTY, calls);
      Valid(s) && (k in s.entries && s.entries[k].lockedUntil > now ==>
        var s' := RecordFailure(c, s, k, now);
        k in s'.entries && s'.entries[k].lockedUntil >= s.entries[k].lockedUntil)
  {
    RunKeepsInv(c, EMPTY, calls, 0, now);
    var s := After(c, EMPTY, calls);
    if k in s.entries && s.entries[k].lockedUntil > now { OwnFailureExtends(c, s, k, now); }
  }

  lemma OtherFailureAt(c: Config, s: State, k: Key, x: Key, now: nat)
    requires Valid(s) && Valid(Counted(c, s, x, now)) && x != k && k in s.entries
    ensures var s' := RecordFailure(c, s, x, now);
      && (k in s'.entries <==> x == "" || Victim(c, Counted(c, s, x, now)) != Some(k))
      && (k in s'.entries ==> s'.entries[k] == s.entries[k])
  {
  }

  /** After any run, a failure of another account leaves a record, and so an unexpired lockout,
      exactly as it is, or evicts it; it stays exactly when it is not the one removed to make room. */
  lemma OtherFailureKeepsIff(c: Config, calls: seq<Call>, k: Key, x: Key, now: nat)
    requires Clocked(calls, 0, now) && x != k
    ensures var s := After(c, EMPTY, calls);
      && Valid(s) && Valid(Counted(c, s, x, now))
      && (k in s.entries ==>
            var s' := RecordFailure(c, s, x, now);
            && (k in s'.entries <==> x == "" || Victim(c, Counted(c, s, x, now)) != Some(k))
            && (k in s'.entries ==> s'.entries[k] == s.entries[k]))
  {
    var s := After(c, EMPTY, calls);
    RunKeepsInv(c, EMPTY, calls, 0, now);
    CountedIsValid(c, s, x, now);
    if k in s.entries { OtherFailureAt(c, s, k, x, now); }
  }

  /** The call does not clear the account, nor evict it. */
  ghost predicate Spares(c: Config, s: State, call: Call, k: Key)
    requires Valid(s)
  {
    match call
    case Failure(x, now) =>
      CountedIsValid(c, s, x, now);
      x == "" || x == k || Victim(c, Counted(c, s, x, now)) != Some(k)
    case Success(x, _) => x != k
    case _ => true
  }

  ghost predicate SparedBy(c: Config, s: State, calls: seq<Call>, k: Key)
    requires Valid(s)
    decreases |calls|
  {
    calls == []
    || (Spares(c, s, calls[0], k) && var s' := Next(c, s, calls[0]); Valid(s') && SparedBy(c, s', calls[1..], k))
  }

  lemma SparedStep(c: Config, s: State, call: Call, k: Key)
    requires Inv(c, s, call.at) && Spares(c, s, call, k)
    requires k in s.entries && s.entries[k].lockedUntil > call.at
    ensures k in Next(c, s, call).entries
    ensures Next(c, s, call).entries[k].lockedUntil >= s.entries[k].lockedUntil
  {
    match call {
      case Failure(x, now) =>
        if x == k {
          OwnFailureExtends(c, s, k, now);
        } else {
          CountedIsValid(c, s, x, now);
          OtherFailureAt(c, s, k, x, now);
        }
      case PruneCall(now) => PruneDropsExpired(s, now, k);
      case _ =>
    }
  }

  /** Over any run of calls that neither evicts nor clears the account, an unexpired deadline is
      never lost and never moves earlier. */
  lemma {:induction false} DeadlineOverRun(c: Config, s: State, calls: seq<Call>, from: nat, now: nat, k: Key)
    requires Inv(c, s, from) && Clocked(calls, from, now) && SparedBy(c, s, calls, k)
    requires k in s.entries && s.entries[k].lockedUntil > now
    ensures k in After(c, s, calls).entries
    ensures After(c, s, calls).entries[k].lockedUntil >= s.entries[k].lockedUntil
    decreases |calls|
  {
    if calls != [] {
      ClockedFirst(calls, from, now);
      NextKeepsInv(c, s, calls[0]);
      SparedStep(c, s, calls[0], k);
      DeadlineOverRun(c, Next(c, s, calls[0]), calls[1..], calls[0].at, now, k);
    }
  }

  lemma {:induction false} ClockedFirst(calls: seq<Call>, from: nat, now: nat)
    requires Clocked(calls, from, now)
    ensures from <= now && (calls != [] ==> calls[0].at <= now)
    decreases |calls|
  {
    if calls != [] { ClockedFirst(calls[1..], calls[0].at, now); }
  }

  /** The accounts that a run of calls counts failures for. */
  function FailingKeys(calls: seq<Call>): set<Key> {
    if calls == [] then {} else (if calls[0].Failure? then {calls[0].key} else {}) + FailingKeys(calls[1..])
  }

  predicate NoSuccessCall(calls: seq<Call>, k: Key) {
    calls == [] || (!(calls[0].Success? && calls[0].key == k) && NoSuccessCall(calls[1..], k))
  }

  lemma FewFailingStep(c: Config, s: State, call: Call, keys: set<Key>, k: Key)
    requires Valid(s) && (forall x :: x in s.entries ==> x in keys) && |keys| <= c.maxEntries
    requires call.Failure? ==> call.key in keys
    requires !(call.Success? && call.key == k)
    ensures Spares(c, s, call, k) && forall x :: x in Next(c, s, call).entries ==> x in keys
  {
    match call {
      case Failure(x, now) =>
        CountedIsValid(c, s, x, now);
        SizeWithin(Counted(c, s, x, now).entries, keys);
      case PruneCall(now) =>
        forall x | x in Prune(s, now).entries
          ensures x in keys
        {
          PruneDropsExpired(s, now, x);
        }
      case _ =>
    }
  }

  lemma {:induction false} FewFailing(c: Config, s: State, calls: seq<Call>, keys: set<Key>, k: Key)
    requires Valid(s) && (forall x :: x in s.entries ==> x in keys) && |keys| <= c.maxEntries
    requires FailingKeys(calls) <= keys && NoSuccessCall(calls, k)
    ensures SparedBy(c, s, calls, k)
    decreases |calls|
  {
    if calls != [] {
      NextIsValid(c, s, calls[0]);
      FewFailingStep(c, s, calls[0], keys, k);
      FewFailing(c, Next(c, s, calls[0]), calls[1..], keys, k);
    }
  }

  lemma {:induction false} FewTracked(c: Config, s: State, calls: seq<Call>, keys: set<Key>)
    requires Valid(s) && (forall x :: x in s.entries ==> x in keys) && FailingKeys(calls) <= keys
    ensures forall x :: x in After(c, s, calls).entries ==> x in keys
    decreases |calls|
  {
    if calls != [] {
      NextIsValid(c, s, calls[0]);
      if calls[0].PruneCall? {
        forall x | x in Next(c, s, calls[0]).entries
          ensures x in keys
        {
          PruneDropsExpired(s, calls[0].at, x);
        }
      }
      FewTracked(c, Next(c, s, calls[0]), calls[1..], keys);
    }
  }

  /** While failures are counted for at most `maxEntries` accounts and the account has no success,
      a deadline set by any run is, until it expires, never lost and never earlier. */
  lemma DeadlineKeptWithFewAccounts(c: Config, before: seq<Call>, rest: seq<Call>, t: nat, now: nat, k: Key)
    requires Clocked(before, 0, t) && Clocked(rest, t, now)
    requires |FailingKeys(before) + FailingKeys(rest)| <= c.maxEntries && NoSuccessCall(rest, k)
    ensures var s := After(c, EMPTY, before);
      Valid(s) && (k in s.entries && s.entries[k].lockedUntil > now ==>
        var s' := After(c, s, rest);
        k in s'.entries && s'.entries[k].lockedUntil >= s.entries[k].lockedUntil)
  {
    var keys := FailingKeys(before) + FailingKeys(rest);
    var s := After(c, EMPTY, before);
    RunKeepsInv(c, EMPTY, before, 0, t);
    FewTracked(c, EMPTY, before, keys);
    FewFailing(c, s, rest, keys, k);
    if k in s.entries && s.entries[k].lockedUntil > now { DeadlineOverRun(c, s, rest, t, now, k); }
  }

  lemma FirstFailure(c: Config, a: Key, t: nat)
    requires a != "" && c.maxEntries >= 1
    ensures RecordFailure(c, EMPTY, a, t) == State([a], map[a := Bumped(c, Entry(0, 0, 0), t)])
  {
    assert Counted(c, EMPTY, a, t) == State([a], map[a := Bumped(c, Entry(0, 0, 0), t)]);
  }

  lemma SecondFailureEvicts(c: Config, s: State, a: Key, e: Entry, b: Key, u: nat)
    requires Valid(s) && s == State([a], map[a := e]) && e.lastAt <= u && a != b && b != "" && c.maxEntries == 1
    ensures a !in RecordFailure(c, s, b, u).entries
  {
    var counted := Counted(c, s, b, u);
    CountedIsValid(c, s, b, u);
    assert counted.order == [a, b];
    assert counted.entries == map[a := e, b := Bumped(c, Entry(0, 0, 0), u)];
    assert |counted.entries| == 2;
  }

  lemma AfterOne(c: Config, s: State, call: Call)
    requires Valid(s)
    ensures After(c, s, [call]) == Next(c, s, call)
  {
    NextIsValid(c, s, call);
    assert [call][1..] == [];
  }

  lemma AfterTwo(c: Config, first: Call, second: Call)
    ensures Valid(Next(c, EMPTY, first))
    ensures After(c, EMPTY, [first, second]) == Next(c, Next(c, EMPTY, first), second)
  {
    NextIsValid(c, EMPTY, first);
    assert [first, second][1..] == [second];
    AfterOne(c, Next(c, EMPTY, first), second);
  }

  lemma LockedStatus(c: Config, s: State, a: Key, t: nat, u: nat)
    requires c.maxAttempts == 1 && a != "" && t <= u < t + LockMs(c)
    requires At(s, a) == Some(Bumped(c, Entry(0, 0, 0), t))
    ensures Status(s, a, u) == Outcome(true, t + LockMs(c) - u, 1)
  {
    BackoffGrows(c, 1, 1);
    assert Scaled(c.lockoutMs, 0) == c.lockoutMs;
  }

  /** Beyond that the promise fails: with room for one account and a threshold of one, a failure of
      `b` unlocks `a` in the middle of its lockout. */
  lemma EvictionUnlocks(c: Config, a: Key, t: nat, b: Key, u: nat)
    requires c.maxEntries == 1 && c.maxAttempts == 1 && a != "" && b != "" && a != b
    requires t <= u < t + LockMs(c)
    ensures Status(After(c, EMPTY, [Failure(a, t)]), a, u) == Outcome(true, t + LockMs(c) - u, 1)
    ensures Status(After(c, EMPTY, [Failure(a, t), Failure(b, u)]), a, u) == UNTRACKED
  {
    var s := RecordFailure(c, EMPTY, a, t);
    FirstFailure(c, a, t);
    AfterOne(c, EMPTY, Failure(a, t));
    LockedStatus(c, s, a, t, u);
    AfterTwo(c, Failure(a, t), Failure(b, u));
    SecondFailureEvicts(c, s, a, s.entries[a], b, u);
  }

  // ---- how many failing accounts the deadlines survive

  /** Over all runs whose failures are of at most `n` accounts, a deadline is, until it expires or
      the account has a success, never lost and never earlier. */
  ghost predicate DeadlinesKept(c: Config, n: nat) {
    forall before: seq<Call>, rest: seq<Call>, t: nat, now: nat, k: Key ::
      Clocked(before, 0, t) && Clocked(rest, t, now) && NoSuccessCall(rest, k) && Failing(before, rest) <= n
      ==> DeadlineKept(c, before, rest, now, k)
  }

  function Failing(before: seq<Call>, rest: seq<Call>): nat {
    |FailingKeys(before) + FailingKeys(rest)|
  }

  ghost predicate DeadlineKept(c: Config, before: seq<Call>, rest: seq<Call>, now: nat, k: Key) {
    var s := After(c, EMPTY, before);
    Valid(s) && (k in s.entries && s.entries[k].lockedUntil > now ==>
      var s' := After(c, s, rest);
      k in s'.entries && s'.entries[k].lockedUntil >= s.entries[k].lockedUntil)
  }

  lemma {:induction false} ScaledIsZero(base: nat, n: nat)
    ensures Scaled(base, n) == 0 <==> base == 0
  {
    if n > 0 { ScaledIsZero(base, n - 1); }
  }

  lemma BackoffIsZero(c: Config, failures: nat)
    requires failures >= c.maxAttempts
    ensures Backoff(c, failures) == 0 <==> LockMs(c) == 0
  {
    ScaledIsZero(c.lockoutMs, failures - c.maxAttempts);
  }

  /** Without room for a record, or with a lockout of no time, there is no deadline to keep. */
  lemma NoDeadlines(c: Config, before: seq<Call>, t: nat, now: nat, k: Key)
    requires c.maxEntries == 0 || LockMs(c) == 0
    requires Clocked(before, 0, t) && t <= now
    ensures Valid(After(c, EMPTY, before))
    ensures k in After(c, EMPTY, before).entries ==> After(c, EMPTY, before).entries[k].lockedUntil <= now
  {
    RunKeepsInv(c, EMPTY, before, 0, t);
    var s := After(c, EMPTY, before);
    if k in s.entries {
      var e := s.entries[k];
      assert s.entries.Keys != {};
      if e.failures >= c.maxAttempts { BackoffIsZero(c, e.failures); }
    }
  }

  lemma DeadlinesKeptWithin(c: Config, n: nat)
    requires c.maxEntries == 0 || LockMs(c) == 0 || n <= c.maxEntries
    ensures DeadlinesKept(c, n)
  {
    forall before: seq<Call>, rest: seq<Call>, t: nat, now: nat, k: Key
      | Clocked(before, 0, t) && Clocked(rest, t, now) && NoSuccessCall(rest, k) && Failing(before, rest) <= n
      ensures DeadlineKept(c, before, rest, now, k)
    {
      if c.maxEntries == 0 || LockMs(c) == 0 {
        ClockedFirst(rest, t, now);
        NoDeadlines(c, before, t, now, k);
      } else {
        DeadlineKeptWithFewAccounts(c, before, rest, t, now, k);
      }
    }
  }

  lemma AfterFirst(c: Config, s: State, call: Call, rest: seq<Call>)
    requires Valid(s)
    ensures Valid(Next(c, s, call)) && After(c, s, [call] + rest) == After(c, Next(c, s, call), rest)
  {
    NextIsValid(c, s, call);
    assert ([call] + rest)[1..] == rest;
  }

  /** `n` failures of one account at one time. */
  function Hammer(k: Key, n: nat, t: nat): seq<Call> {
    if n == 0 then [] else [Failure(k, t)] + Hammer(k, n - 1, t)
  }

  /** The account alone in the map, after `n` failures at `t`. */
  ghost predicate Alone(c: Config, s: State, k: Key, n: nat, t: nat) {
    Inv(c, s, t) && s.order == (if n == 0 then [] else [k]) && At(s, k) == Due(c, n, t)
  }

  lemma LoneFailure(c: Config, s: State, k: Key, n: nat, t: nat)
    requires Alone(c, s, k, n, t) && k != "" && c.maxEntries >= 1 && LockMs(c) >= 1
    ensures Alone(c, Next(c, s, Failure(k, t)), k, n + 1, t)
  {
    if n >= c.maxAttempts { BackoffIsZero(c, n); }
    FailureKeepsInv(c, s, k, t);
    OwnFailureAt(c, s, k, t);
    DueBumped(c, s, k, n, t, t);
    var counted := Counted(c, s, k, t);
    assert counted.order == [k];
    CountedIsValid(c, s, k, t);
    OnlyKey(counted.order, counted.entries, k);
  }

  lemma {:induction false} HammerLocks(c: Config, s: State, k: Key, m: nat, n: nat, t: nat)
    requires Alone(c, s, k, m, t) && m <= n && k != "" && c.maxEntries >= 1 && LockMs(c) >= 1
    ensures Alone(c, After(c, s, Hammer(k, n - m, t)), k, n, t)
    decreases n - m
  {
    if m < n {
      var first, rest := Failure(k, t), Hammer(k, n - (m + 1), t);
      LoneFailure(c, s, k, m, t);
      AfterFirst(c, s, first, rest);
      HammerLocks(c, Next(c, s, first), k, m + 1, n, t);
    }
  }

  /** One failure each of the accounts numbered from `i` up to `n`. */
  function Newcomers(i: nat, n: nat, t: nat): seq<Call>
    decreases n + 1 - i
  {
    if i > n then [] else [Failure(Name(i), t)] + Newcomers(i + 1, n, t)
  }

  /** The first `n` accounts, all touched at `t`. */
  ghost predicate Crowd(s: State, n: nat, t: nat) {
    Valid(s) && s.order == Names(n) && forall x :: x in s.entries ==> s.entries[x].lastAt == t
  }

  lemma NewcomerCounted(c: Config, s: State, n: nat, t: nat)
    requires Crowd(s, n, t)
    ensures Crowd(Counted(c, s, Name(n), t), n + 1, t) && |Counted(c, s, Name(n), t).entries| == n + 1
  {
    var counted := Counted(c, s, Name(n), t);
    assert Name(n) !in s.order;
    assert Names(n + 1) == Names(n) + [Name(n)];
    CountedIsValid(c, s, Name(n), t);
    DistinctCount(counted.order, counted.entries.Keys);
  }

  /** On a tie the first account of the map goes. */
  lemma CrowdVictim(c: Config, s: State, n: nat, t: nat)
    requires Crowd(s, n, t) && n > 0 && |s.entries| > c.maxEntries
    ensures Victim(c, s) == Some(Name(0))
  {
    var best := Oldest(s.order, s.entries, |s.order|);
    assert s.entries[s.order[0]].lastAt == s.entries[s.order[best]].lastAt;
  }

  ghost predicate Loses(c: Config, s: State, calls: seq<Call>, k: Key) {
    Valid(s) && k !in After(c, s, calls).entries
  }

  lemma NewcomerJoins(c: Config, s: State, n: nat, t: nat) returns (joined: State)
    requires Crowd(s, n, t) && n < c.maxEntries
    ensures Crowd(joined, n + 1, t)
    ensures Loses(c, joined, Newcomers(n + 1, c.maxEntries, t), Name(0))
        ==> Loses(c, s, Newcomers(n, c.maxEntries, t), Name(0))
  {
    joined := Next(c, s, Failure(Name(n), t));
    NewcomerCounted(c, s, n, t);
    AfterFirst(c, s, Failure(Name(n), t), Newcomers(n + 1, c.maxEntries, t));
  }

  lemma NewcomerEvicts(c: Config, s: State, n: nat, t: nat)
    requires Crowd(s, n, t) && n == c.maxEntries
    ensures Loses(c, s, Newcomers(n, c.maxEntries, t), Name(0))
  {
    NewcomerCounted(c, s, n, t);
    CrowdVictim(c, Counted(c, s, Name(n), t), n + 1, t);
    AfterOne(c, s, Failure(Name(n), t));
    assert Newcomers(n, c.maxEntries, t) == [Failure(Name(n), t)];
  }

  lemma {:induction false} NewcomersEvict(c: Config, s: State, n: nat, t: nat)
    requires Crowd(s, n, t) && 1 <= n <= c.maxEntries
    ensures Loses(c, s, Newcomers(n, c.maxEntries, t), Name(0))
    decreases c.maxEntries - n
  {
    if n < c.maxEntries {
      var joined := NewcomerJoins(c, s, n, t);
      NewcomersEvict(c, joined, n + 1, t);
    } else {
      NewcomerEvicts(c, s, n, t);
    }
  }

  lemma AloneIsCrowd(c: Config, s: State, n: nat, t: nat)
    requires Alone(c, s, Name(0), n, t) && n > 0
    ensures Crowd(s, 1, t)
  {
    assert s.order == Names(1);
  }

  lemma AloneIsLocked(c: Config, s: State, k: Key, n: nat, t: nat)
    requires Alone(c, s, k, n, t) && n > 0 && n >= c.maxAttempts && LockMs(c) >= 1
    ensures k in s.entries && s.entries[k].lockedUntil > t
  {
    BackoffIsZero(c, n);
    assert At(s, k) == Due(c, n, t);
  }

  lemma LostDeadline(c: Config, before: seq<Call>, rest: seq<Call>, now: nat, k: Key)
    requires var s := After(c, EMPTY, before);
      && Valid(s) && k in s.entries && s.entries[k].lockedUntil > now
      && k !in After(c, s, rest).entries
    ensures !DeadlineKept(c, before, rest, now, k)
  {
  }

  lemma CrowdedOut(c: Config, before: seq<Call>, n: nat, t: nat)
    requires Alone(c, After(c, EMPTY, before), Name(0), n, t) && n > 0 && n >= c.maxAttempts
    requires c.maxEntries >= 1 && LockMs(c) >= 1
    ensures !DeadlineKept(c, before, Newcomers(1, c.maxEntries, t), t, Name(0))
  {
    var s := After(c, EMPTY, before);
    AloneIsLocked(c, s, Name(0), n, t);
    AloneIsCrowd(c, s, n, t);
    NewcomersEvict(c, s, 1, t);
    LostDeadline(c, before, Newcomers(1, c.maxEntries, t), t, Name(0));
  }

  lemma EmptyIsAlone(c: Config, k: Key, t: nat)
    ensures Alone(c, EMPTY, k, 0, t)
  {
  }

  /** One account locks itself out, and then `maxEntries` others fail once each, all at one time. */
  lemma OneAccountTooMany(c: Config, n: nat, t: nat)
    requires c.maxEntries >= 1 && LockMs(c) >= 1 && n > 0 && n >= c.maxAttempts
    ensures !DeadlineKept(c, Hammer(Name(0), n, t), Newcomers(1, c.maxEntries, t), t, Name(0))
  {
    EmptyIsAlone(c, Name(0), t);
    HammerLocks(c, EMPTY, Name(0), 0, n, t);
    CrowdedOut(c, Hammer(Name(0), n, t), n, t);
  }

  lemma {:induction false} HammerIsOneAccount(k: Key, n: nat, t: nat)
    ensures Clocked(Hammer(k, n, t), t, t) && FailingKeys(Hammer(k, n, t)) <= {k}
  {
    if n > 0 { HammerIsOneAccount(k, n - 1, t); }
  }

  lemma {:induction false} NewcomersAreCounted(i: nat, n: nat, t: nat, k: Key)
    ensures Clocked(Newcomers(i, n, t), t, t) && NoSuccessCall(Newcomers(i, n, t), k)
    ensures |FailingKeys(Newcomers(i, n, t))| <= if i <= n then n - i + 1 else 0
    decreases n + 1 - i
  {
    if i <= n { NewcomersAreCounted(i + 1, n, t, k); }
  }

  lemma OneAccountMore(c: Config, k: Key, n: nat, t: nat)
    ensures Clocked(Hammer(k, n, t), t, t) && Clocked(Newcomers(1, c.maxEntries, t), t, t)
    ensures NoSuccessCall(Newcomers(1, c.maxEntries, t), k)
    ensures Failing(Hammer(k, n, t), Newcomers(1, c.maxEntries, t)) <= c.maxEntries + 1
  {
    HammerIsOneAccount(k, n, t);
    NewcomersAreCounted(1, c.maxEntries, t, k);
    var others := FailingKeys(Newcomers(1, c.maxEntries, t));
    SubsetSize(FailingKeys(Hammer(k, n, t)) + others, {k} + others);
  }

  /** Deadlines are kept over all runs in which at most `n` accounts fail exactly when the map has
      room for `n` accounts (or there are no deadlines: no room at all, or lockouts of no time). */
  lemma DeadlinesKeptIff(c: Config, n: nat)
    ensures DeadlinesKept(c, n) <==> c.maxEntries == 0 || LockMs(c) == 0 || n <= c.maxEntries
  {
    if c.maxEntries == 0 || LockMs(c) == 0 || n <= c.maxEntries {
      DeadlinesKeptWithin(c, n);
    } else {
      OneAccountTooMany(c, c.maxAttempts + 1, 0);
      var before, rest := Hammer(Name(0), c.maxAttempts + 1, 0), Newcomers(1, c.maxEntries, 0);
      OneAccountMore(c, Name(0), c.maxAttempts + 1, 0);
      assert Clocked(before, 0, 0) && Clocked(rest, 0, 0);
    }
  }

  // ---- what a success forgets

  /** After any run a success forgets the account, and no other account. */
  lemma SuccessForgets(c: Config, calls: seq<Call>, k: Key, x: Key, now: nat)
    requires Clocked(calls, 0, now)
    ensures var s := After(c, EMPTY, calls);
      At(RecordSuccess(s, k), x) == if x == k then None else At(s, x)
  {
    RunKeepsInv(c, EMPTY, calls, 0, now);
  }

  // ---- the schedule of direct failures

  /** The wait that the last failure set. */
  function Wait(e: Entry): nat {
    if e.lockedUntil > e.lastAt then e.lockedUntil - e.lastAt else 0
  }

  /** What is reported for one more failure after those of a live record. */
  lemma NextReport(c: Config, e: Entry, now: nat)
    requires (e == Entry(0, 0, 0) || Sound(c, e, now)) && now + LockMs(c) > 0
    ensures var report := Reported(Bumped(c, e, now), now);
      && report.failures == e.failures + 1
      && (report.failures < c.maxAttempts ==> report == Outcome(false, 0, report.failures))
      && (report.failures == c.maxAttempts ==> report == Outcome(true, LockMs(c), report.failures))
      && (report.failures > c.maxAttempts && e.failures > 0 ==>
            report == Outcome(true, Min(2 * Wait(e), c.maxLockoutMs), report.failures))
      && (report.failures > c.maxAttempts && e.failures == 0 ==>
            report == Outcome(true, Min(2 * c.lockoutMs, c.maxLockoutMs), 1))
  {
    if e.failures + 1 >= c.maxAttempts { BackoffGrows(c, e.failures + 1, e.failures + 1); }
    if e.failures >= c.maxAttempts { BackoffDoubles(c, e.failures); }
    assert Scaled(c.lockoutMs, 1) == 2 * Scaled(c.lockoutMs, 0) == 2 * c.lockoutMs;
  }

  /** Counted directly, failures do double the lockout. After any run, one more failure of an
      account whose record is live: below the threshold it only counts; at the threshold it locks
      for the base time; and beyond it doubles the wait that the last failure set, up to the
      ceiling, at whatever time within the lockout it comes. A failure without a live record
      starts the count at one. */
  lemma DirectFailuresDouble(c: Config, calls: seq<Call>, k: Key, now: nat)
    requires Clocked(calls, 0, now) && k != "" && now + LockMs(c) > 0
    ensures var s, report := After(c, EMPTY, calls), FailureReport(c, After(c, EMPTY, calls), k, now);
      if k in s.entries && !Expired(s.entries[k], now) then
        && report.failures == s.entries[k].failures + 1
        && (report.failures < c.maxAttempts ==> report == Outcome(false, 0, report.failures))
        && (report.failures == c.maxAttempts ==> report == Outcome(true, LockMs(c), report.failures))
        && (report.failures > c.maxAttempts ==>
              report == Outcome(true, Min(2 * Wait(s.entries[k]), c.maxLockoutMs), report.failures))
      else
        && (1 < c.maxAttempts ==> report == Outcome(false, 0, 1))
        && (1 == c.maxAttempts ==> report == Outcome(true, LockMs(c), 1))
        && (0 == c.maxAttempts ==> report == Outcome(true, Min(2 * c.lockoutMs, c.maxLockoutMs), 1))
  {
    RunKeepsInv(c, EMPTY, calls, 0, now);
    var s := After(c, EMPTY, calls);
    NextReport(c, Counting(s, k, now), now);
    assert FailureReport(c, s, k, now) == Reported(Bumped(c, Counting(s, k, now), now), now);
  }

  /** Failures of the account at the given times. */
  function Failures(k: Key, times: seq<nat>): seq<Call> {
    if times == [] then [] else [Failure(k, times[0])] + Failures(k, times[1..])
  }

  /** The record after `n` failures, the last of them at `t`. */
  function Due(c: Config, n: nat, t: nat): Option<Entry> {
    if n == 0 then None else Some(Entry(n, if n < c.maxAttempts then 0 else t + Backoff(c, n), t))
  }

  /** After `n` failures, the last of them at `last`, every further one comes while the record is live. */
  predicate Unbroken(c: Config, n: nat, last: nat, times: seq<nat>)
    decreases |times|
  {
    times == []
    || (last <= times[0] && (Due(c, n, last).Some? ==> !Expired(Due(c, n, last).value, times[0]))
        && Unbroken(c, n + 1, times[0], times[1..]))
  }

  lemma DueBumped(c: Config, s: State, k: Key, n: nat, last: nat, t: nat)
    requires At(s, k) == Due(c, n, last) && (Due(c, n, last).Some? ==> !Expired(Due(c, n, last).value, t))
    ensures Some(Bumped(c, Counting(s, k, t), t)) == Due(c, n + 1, t)
  {
  }

  lemma {:induction false} AfterAppend(c: Config, s: State, calls: seq<Call>, call: Call)
    requires Valid(s)
    ensures Valid(After(c, s, calls))
    ensures After(c, s, calls + [call]) == Next(c, After(c, s, calls), call)
    decreases |calls|
  {
    if calls == [] {
      AfterOne(c, s, call);
      assert [] + [call] == [call];
    } else {
      NextIsValid(c, s, calls[0]);
      assert (calls + [call])[1..] == calls[1..] + [call];
      AfterAppend(c, Next(c, s, calls[0]), calls[1..], call);
    }
  }

  lemma {:induction false} ClockedAppend(calls: seq<Call>, from: nat, now: nat, call: Call)
    requires Clocked(calls, from, now) && now <= call.at
    ensures Clocked(calls + [call], from, call.at)
    decreases |calls|
  {
    if calls == [] {
      assert [] + [call] == [call] && [call][1..] == [];
    } else {
      assert (calls + [call])[1..] == calls[1..] + [call];
      ClockedAppend(calls[1..], calls[0].at, now, call);
    }
  }

  lemma StreakStep(c: Config, calls: seq<Call>, now: nat, k: Key, n: nat, last: nat, t: nat)
    requires Clocked(calls, 0, now) && now <= t && k != "" && c.maxEntries >= 1
    requires At(After(c, EMPTY, calls), k) == Due(c, n, last)
    requires Due(c, n, last).Some? ==> !Expired(Due(c, n, last).value, t)
    ensures At(After(c, EMPTY, calls + [Failure(k, t)]), k) == Due(c, n + 1, t)
  {
    var s := After(c, EMPTY, calls);
    RunKeepsInv(c, EMPTY, calls, 0, now);
    OwnFailureAt(c, s, k, t);
    DueBumped(c, s, k, n, last, t);
    AfterAppend(c, EMPTY, calls, Failure(k, t));
  }

  lemma FailuresFirst(calls: seq<Call>, k: Key, times: seq<nat>)
    ensures times == [] ==> calls + Failures(k, times) == calls
    ensures times != [] ==> calls + Failures(k, times) == (calls + [Failure(k, times[0])]) + Failures(k, times[1..])
  {
  }

  /** A streak of failures after any run, at any times within the running lockouts: the counter goes
      up by their number, and the deadline is the base time, doubled for every failure beyond the
      threshold, after the last. */
  lemma {:induction false} StreakCounts(c: Config, calls: seq<Call>, now: nat, k: Key, n: nat, last: nat, times: seq<nat>)
    requires Clocked(calls, 0, now) && k != "" && c.maxEntries >= 1
    requires At(After(c, EMPTY, calls), k) == Due(c, n, last)
    requires Unbroken(c, n, last, times) && (times != [] ==> now <= times[0])
    ensures At(After(c, EMPTY, calls + Failures(k, times)), k) == Due(c, n + |times|, LastOf(last, times))
    decreases |times|
  {
    FailuresFirst(calls, k, times);
    if times != [] {
      var first := Failure(k, times[0]);
      StreakStep(c, calls, now, k, n, last, times[0]);
      ClockedAppend(calls, 0, now, first);
      StreakCounts(c, calls + [first], times[0], k, n + 1, times[0], times[1..]);
    }
  }

  function LastOf(last: nat, times: seq<nat>): nat
    decreases |times|
  {
    if times == [] then last else LastOf(times[0], times[1..])
  }

  lemma BackoffDoubles(c: Config, m: nat)
    requires m >= c.maxAttempts
    ensures Backoff(c, m + 1) == Min(2 * Backoff(c, m), c.maxLockoutMs)
  {
    assert Scaled(c.lockoutMs, m + 1 - c.maxAttempts) == 2 * Scaled(c.lockoutMs, m - c.maxAttempts);
  }

  // ---------------------------------------------------------------- runs of logins

  /** A login reads its gate at `gateAt` and settles the password check at `checkedAt`. */
  datatype Event =
    | Login(key: Key, gateAt: nat, checkedAt: nat, passwordOk: bool)
    | Tidy(at: nat)

  /** Whether the login gets as far as the password check. */
  predicate Checks(s: State, e: Event) {
    e.Login? && !Status(s, e.key, e.gateAt).locked
  }

  function AfterLogin(c: Config, s: State, e: Event): State
    requires Valid(s) && e.Login?
  {
    RemoveIsValid(s, e.key);
    var s1 := AfterStatus(s, e.key, e.gateAt);
    if !Checks(s, e) then s1
    else if e.passwordOk then RecordSuccess(s1, e.key)
    else RecordFailure(c, s1, e.key, e.checkedAt)
  }

  function Step(c: Config, s: State, e: Event): State
    requires Valid(s)
  {
    if e.Login? then AfterLogin(c, s, e) else Prune(s, e.at)
  }

  lemma StepIsValid(c: Config, s: State, e: Event)
    requires Valid(s)
    ensures Valid(Step(c, s, e))
  {
    if e.Login? {
      RemoveIsValid(s, e.key);
      var s1 := AfterStatus(s, e.key, e.gateAt);
      RemoveIsValid(s1, e.key);
      RecordFailureIsValid(c, s1, e.key, e.checkedAt);
    } else {
      PruneKeysIsValid(s, s.order, e.at);
    }
  }

  /** The password-only login, as it drives the throttle. */
  method DriveLogin(throttle: Throttle, key: Key, gateAt: nat, checkedAt: nat, passwordOk: bool)
    returns (granted: bool)
    requires Valid(throttle.Model())
    modifies throttle
    ensures Valid(throttle.Model())
    ensures throttle.Model()
         == Step(throttle.config, old(throttle.Model()), Login(key, gateAt, checkedAt, passwordOk))
    ensures granted == (passwordOk && !Status(old(throttle.Model()), key, gateAt).locked)
  {
    var gate := throttle.CheckStatus(key, gateAt);
    if gate.locked { return false; }
    if !passwordOk {
      var state := throttle.Fail(key, checkedAt);
      return false;
    }
    throttle.Succeed(key);
    return true;
  }

  function Ended(e: Event): nat {
    if e.Login? then e.checkedAt else e.at
  }

  /** Logins do not overlap and the clock never goes back. */
  predicate Sequential(evs: seq<Event>, from: nat) {
    evs == [] ||
    (from <= (if evs[0].Login? then evs[0].gateAt else evs[0].at)
     && (evs[0].Login? ==> evs[0].gateAt <= evs[0].checkedAt)
     && Sequential(evs[1..], Ended(evs[0])))
  }

  /** The record an event evicts, if any. */
  function Evicted(c: Config, s: State, e: Event): Option<Key>
    requires Valid(s)
  {
    if !Checks(s, e) || e.passwordOk || e.key == "" then None
    else
      RemoveIsValid(s, e.key);
      var s1 := AfterStatus(s, e.key, e.gateAt);
      CountedIsValid(c, s1, e.key, e.checkedAt);
      Victim(c, Counted(c, s1, e.key, e.checkedAt))
  }

  /** Along the run, the record of `k` is never evicted and no login for `k` succeeds. */
  ghost predicate Undisturbed(c: Config, s: State, evs: seq<Event>, k: Key)
    requires Valid(s)
    decreases |evs|
  {
    evs == [] ||
    (&& Evicted(c, s, evs[0]) != Some(k)
     && !(Checks(s, evs[0]) && evs[0].key == k && evs[0].passwordOk)
     && var s' := Step(c, s, evs[0]); Valid(s') && Undisturbed(c, s', evs[1..], k))
  }

  /** The failed password checks of `k` that settle in [lo, hi]. */
  function FailedChecks(c: Config, s: State, evs: seq<Event>, k: Key, lo: nat, hi: nat): nat
    requires Valid(s)
    decreases |evs|
  {
    if evs == [] then 0
    else
      StepIsValid(c, s, evs[0]);
      (if Checks(s, evs[0]) && evs[0].key == k && !evs[0].passwordOk && lo <= evs[0].checkedAt <= hi
       then 1 else 0)
      + FailedChecks(c, Step(c, s, evs[0]), evs[1..], k, lo, hi)
  }

  // ---- one account

  function Attempts(c: Config): nat {
    if c.maxAttempts == 0 then 1 else c.maxAttempts
  }

  function LockMs(c: Config): nat {
    Min(c.lockoutMs, c.maxLockoutMs)
  }

  /** An unlocked account has failures left. */
  predicate Fair(c: Config, e: Option<Entry>) {
    e.Some? && e.value.lockedUntil == 0 ==> e.value.failures < Attempts(c)
  }

  /** What the record of `k` becomes under an event that does not evict it or clear it. */
  function AccountNext(c: Config, acc: Option<Entry>, k: Key, e: Event): Option<Entry> {
    match e
    case Tidy(at) => if acc.Some? && Expired(acc.value, at) then None else acc
    case Login(key, gateAt, checkedAt, _) =>
      if key != k then acc
      else
        var acc1 := if acc.Some? && Expired(acc.value, gateAt) then None else acc;
        if acc1.Some? && acc1.value.lockedUntil != 0 then acc1
        else Some(Bumped(c, if acc1.Some? then acc1.value else Entry(0, 0, 0), checkedAt))
  }

  /** The record a failure counts on. */
  function Counting(s: State, k: Key, now: nat): Entry {
    if k in s.entries && !Expired(s.entries[k], now) then s.entries[k] else Entry(0, 0, 0)
  }

  lemma LoginAt(c: Config, s: State, e: Event, k: Key)
    requires Valid(s) && k != "" && e.Login? && e.gateAt <= e.checkedAt && Evicted(c, s, e) != Some(k)
    requires !(Checks(s, e) && e.key == k && e.passwordOk)
    ensures Valid(AfterStatus(s, e.key, e.gateAt))
    ensures At(AfterLogin(c, s, e), k)
         == if e.key == k && Checks(s, e)
            then Some(Bumped(c, Counting(AfterStatus(s, k, e.gateAt), k, e.checkedAt), e.checkedAt))
            else At(AfterStatus(s, e.key, e.gateAt), k)
  {
    RemoveIsValid(s, e.key);
    var s1 := AfterStatus(s, e.key, e.gateAt);
    if !Checks(s, e) {
      assert AfterLogin(c, s, e) == s1;
    } else if e.passwordOk {
      assert AfterLogin(c, s, e) == RecordSuccess(s1, e.key);
    } else if e.key != "" {
      assert AfterLogin(c, s, e) == RecordFailure(c, s1, e.key, e.checkedAt);
      CountedIsValid(c, s1, e.key, e.checkedAt);
      FailedLoginAt(c, s1, e.key, e.checkedAt, k);
    }
  }

  lemma FailedLoginAt(c: Config, s: State, x: Key, now: nat, k: Key)
    requires Valid(s) && x != "" && k != "" && Valid(Counted(c, s, x, now)) && Victim(c, Counted(c, s, x, now)) != Some(k)
    ensures At(RecordFailure(c, s, x, now), k)
         == if x == k then Some(Bumped(c, Counting(s, k, now), now)) else At(s, k)
  {
  }

  lemma AccountFollows(c: Config, s: State, e: Event, k: Key)
    requires Valid(s) && k != "" && Evicted(c, s, e) != Some(k)
    requires !(Checks(s, e) && e.key == k && e.passwordOk)
    requires e.Login? ==> e.gateAt <= e.checkedAt
    ensures At(Step(c, s, e), k) == AccountNext(c, At(s, k), k, e)
    ensures e.Login? && e.key == k ==>
      (Checks(s, e) <==> k !in s.entries || s.entries[k].lockedUntil <= e.gateAt)
  {
    if e.Tidy? {
      PruneDropsExpired(s, e.at, k);
    } else {
      LoginAt(c, s, e, k);
      GateAt(s, e.key, e.gateAt, k);
    }
  }

  /** What reading the gate does to the record of `k`, and when it is open. */
  lemma GateAt(s: State, key: Key, now: nat, k: Key)
    requires k != ""
    ensures At(AfterStatus(s, key, now), k)
         == if key == k && k in s.entries && Expired(s.entries[k], now) then None else At(s, k)
    ensures !Status(s, k, now).locked <==> k !in s.entries || s.entries[k].lockedUntil <= now
  {
  }

  /** The earliest time at which a check of the account can settle, from `t` on and not before `lo`. */
  function Earliest(acc: Option<Entry>, t: nat, lo: nat): nat {
    var from := if t > lo then t else lo;
    if acc.Some? && acc.value.lockedUntil > from then acc.value.lockedUntil else from
  }

  /** The failures already counted towards the next lockout, once the interval has begun. */
  function Used(acc: Option<Entry>, t: nat, lo: nat): nat {
    if t >= lo && acc.Some? && acc.value.lockedUntil == 0 then acc.value.failures else 0
  }

  /** How many failed checks can still settle by `hi`. */
  function Allowance(c: Config, acc: Option<Entry>, t: nat, lo: nat, hi: nat): int
    requires LockMs(c) > 0
  {
    var from := Earliest(acc, t, lo);
    if from > hi then 0 else Attempts(c) * ((hi - from) / LockMs(c) + 1) - Used(acc, t, lo)
  }

  lemma DivMonotone(a: nat, b: nat, d: nat)
    requires a <= b && d > 0
    ensures a / d <= b / d
  {
    if a / d > b / d { TimesMonotone(d, b / d + 1, a / d); }
  }

  lemma DivStep(a: nat, b: nat, d: nat)
    requires d > 0 && a + d <= b
    ensures a / d + 1 <= b / d
  {
    if b / d <= a / d { TimesMonotone(d, b / d, a / d); }
  }

  /** A lockout between two times costs a full round of attempts. */
  lemma LockPays(m: nat, lock: nat, from: nat, from': nat, hi: nat, used: nat)
    requires lock > 0 && from + lock <= from' <= hi && used < m
    ensures m * ((hi - from') / lock + 1) + 1 <= m * ((hi - from) / lock + 1) - used
  {
    var q', q := (hi - from') / lock, (hi - from) / lock;
    DivStep(hi - from', hi - from, lock);
    TimesMonotone(m, q' + 2, q + 1);
    assert m * (q' + 2) == m * (q' + 1) + m;
  }

  /** Waiting longer never gives more checks. */
  lemma LaterIsLess(c: Config, m: nat, from: nat, from': nat, hi: nat, used: nat)
    requires LockMs(c) > 0 && m == Attempts(c) && from <= from' <= hi
    ensures m * ((hi - from') / LockMs(c) + 1) - used <= m * ((hi - from) / LockMs(c) + 1) - used
  {
    DivMonotone(hi - from', hi - from, LockMs(c));
    TimesMonotone(m, (hi - from') / LockMs(c) + 1, (hi - from) / LockMs(c) + 1);
  }

  lemma AllowanceAtLeast(c: Config, from: nat, hi: nat)
    requires LockMs(c) > 0 && from <= hi
    ensures Attempts(c) * ((hi - from) / LockMs(c) + 1) >= Attempts(c)
  {
    TimesMonotone(Attempts(c), 1, (hi - from) / LockMs(c) + 1);
  }

  /** The account's own allowance pays for every check. */
  lemma AllowancePays(c: Config, acc: Option<Entry>, t: nat, k: Key, e: Event, lo: nat, hi: nat)
    requires LockMs(c) > 0 && Fair(c, acc)
    requires Sequential([e], t)
    ensures var acc' := AccountNext(c, acc, k, e);
      var checked := e.Login? && e.key == k && (acc == None || acc.value.lockedUntil <= e.gateAt);
      && Fair(c, acc')
      && Allowance(c, acc', Ended(e), lo, hi) + (if checked && lo <= e.checkedAt <= hi then 1 else 0)
         <= Allowance(c, acc, t, lo, hi)
  {
    var acc' := AccountNext(c, acc, k, e);
    if e.Login? && e.key == k && (acc == None || acc.value.lockedUntil <= e.gateAt) {
      CheckPays(c, acc, t, e, lo, hi, acc');
    } else {
      WaitPays(c, acc, t, acc', Ended(e), lo, hi);
    }
  }

  /** Time passing without a check: the record stays, or goes once its lockout is over. */
  lemma WaitPays(c: Config, acc: Option<Entry>, t: nat, acc': Option<Entry>, t': nat, lo: nat, hi: nat)
    requires LockMs(c) > 0 && Fair(c, acc) && t <= t'
    requires acc' == acc || (acc' == None && acc.Some? && Expired(acc.value, t'))
    ensures Allowance(c, acc', t', lo, hi) <= Allowance(c, acc, t, lo, hi)
  {
    var from, from' := Earliest(acc, t, lo), Earliest(acc', t', lo);
    if from <= hi { AllowanceAtLeast(c, from, hi); }
    if from' <= hi { LaterIsLess(c, Attempts(c), from, from', hi, 0); }
  }

  lemma CheckPays(c: Config, acc: Option<Entry>, t: nat, e: Event, lo: nat, hi: nat, acc': Option<Entry>)
    requires LockMs(c) > 0 && Fair(c, acc) && e.Login? && t <= e.gateAt <= e.checkedAt
    requires acc == None || acc.value.lockedUntil <= e.gateAt
    requires acc' == AccountNext(c, acc, e.key, e)
    ensures Fair(c, acc')
    ensures Allowance(c, acc', e.checkedAt, lo, hi) + (if lo <= e.checkedAt <= hi then 1 else 0)
         <= Allowance(c, acc, t, lo, hi)
  {
    var m, lock := Attempts(c), LockMs(c);
    var from, from' := Earliest(acc, t, lo), Earliest(acc', e.checkedAt, lo);
    var failures := acc'.value.failures;
    if from <= hi { AllowanceAtLeast(c, from, hi); }
    if failures >= c.maxAttempts { BackoffGrows(c, failures, failures); }
    if from' <= hi {
      if failures >= c.maxAttempts && lo <= e.checkedAt {
        LockPays(m, lock, from, from', hi, Used(acc, t, lo));
      } else {
        LaterIsLess(c, m, from, from', hi, 0);
      }
    }
  }

  lemma {:induction false} AllowanceBounds(c: Config, s: State, evs: seq<Event>, t: nat, k: Key, lo: nat, hi: nat)
    requires Valid(s) && LockMs(c) > 0 && k != "" && Fair(c, At(s, k))
    requires Sequential(evs, t) && Undisturbed(c, s, evs, k)
    ensures FailedChecks(c, s, evs, k, lo, hi) <= Allowance(c, At(s, k), t, lo, hi)
    decreases |evs|
  {
    if evs == [] {
      var from := Earliest(At(s, k), t, lo);
      if from <= hi { AllowanceAtLeast(c, from, hi); }
    } else {
      StepIsValid(c, s, evs[0]);
      AccountFollows(c, s, evs[0], k);
      AllowancePays(c, At(s, k), t, k, evs[0], lo, hi);
      AllowanceBounds(c, Step(c, s, evs[0]), evs[1..], Ended(evs[0]), k, lo, hi);
    }
  }

  /** The guess rate: in any interval of length T, an account's failed password checks number at
      most maxAttempts * (T / L + 1), where L is the base lockout under its ceiling. */
  lemma GuessRate(c: Config, evs: seq<Event>, k: Key, lo: nat, T: nat)
    requires LockMs(c) > 0 && k != ""
    requires Sequential(evs, 0) && Undisturbed(c, EMPTY, evs, k)
    ensures FailedChecks(c, EMPTY, evs, k, lo, lo + T) <= Attempts(c) * (T / LockMs(c) + 1)
  {
    AllowanceBounds(c, EMPTY, evs, 0, k, lo, lo + T);
  }

  // ---- after a granted login

  /** The failed password checks of `k` in the run. */
  function FailedIn(c: Config, s: State, evs: seq<Event>, k: Key): nat
    requires Valid(s)
    decreases |evs|
  {
    if evs == [] then 0
    else
      StepIsValid(c, s, evs[0]);
      (if Checks(s, evs[0]) && evs[0].key == k && !evs[0].passwordOk then 1 else 0)
      + FailedIn(c, Step(c, s, evs[0]), evs[1..], k)
  }

  /** What the record of `k` can be after at most `n` failures: no more are counted, and it is locked
      only by a full round of them. */
  predicate AtMost(c: Config, acc: Option<Entry>, n: nat) {
    acc.Some? ==> acc.value.failures <= n && (acc.value.lockedUntil != 0 ==> acc.value.failures >= Attempts(c))
  }

  /** A granted login leaves no record of its account. */
  lemma GrantForgets(c: Config, s: State, e: Event)
    requires Valid(s) && e.Login? && e.passwordOk && Checks(s, e) && e.key != ""
    ensures At(Step(c, s, e), e.key) == None
    ensures forall x :: x != e.key ==> At(Step(c, s, e), x) == At(s, x)
  {
  }

  lemma BumpedAtMost(c: Config, e: Entry, now: nat, n: nat)
    requires AtMost(c, Some(e), n)
    ensures AtMost(c, Some(Bumped(c, e, now)), n + 1)
  {
  }

  lemma CountedAtMost(c: Config, s: State, x: Key, now: nat, k: Key, n: nat)
    requires Valid(s) && k != "" && AtMost(c, At(s, k), n)
    ensures AtMost(c, At(RecordFailure(c, s, x, now), k), if x == k then n + 1 else n)
  {
    CountedIsValid(c, s, x, now);
    var e := if k in DropExpired(s, k, now).entries then s.entries[k] else Entry(0, 0, 0);
    BumpedAtMost(c, e, now, n);
  }

  lemma StepAtMost(c: Config, s: State, e: Event, k: Key, n: nat)
    requires Valid(s) && k != "" && AtMost(c, At(s, k), n)
    ensures AtMost(c, At(Step(c, s, e), k), if Checks(s, e) && e.key == k && !e.passwordOk then n + 1 else n)
  {
    if e.Tidy? {
      PruneDropsExpired(s, e.at, k);
    } else {
      RemoveIsValid(s, e.key);
      var s1 := AfterStatus(s, e.key, e.gateAt);
      if Checks(s, e) && !e.passwordOk { CountedAtMost(c, s1, e.key, e.checkedAt, k, n); }
    }
  }

  lemma {:induction false} RunAtMost(c: Config, s: State, evs: seq<Event>, k: Key, n: nat)
    requires Valid(s) && k != "" && AtMost(c, At(s, k), n)
    ensures Valid(Ran(c, s, evs)) && AtMost(c, At(Ran(c, s, evs), k), n + FailedIn(c, s, evs, k))
    decreases |evs|
  {
    if evs != [] {
      StepIsValid(c, s, evs[0]);
      StepAtMost(c, s, evs[0], k, n);
      RunAtMost(c, Step(c, s, evs[0]), evs[1..], k,
                if Checks(s, evs[0]) && evs[0].key == k && !evs[0].passwordOk then n + 1 else n);
    }
  }

  /** A granted login starts a new round: whatever was counted before, over any continuation with
      any traffic, the account is unlocked and counts no more failures than have come since, until
      a full round of them has come. */
  lemma GrantStartsOver(c: Config, before: seq<Event>, e: Event, rest: seq<Event>, now: nat)
    requires e.Login? && e.passwordOk && e.key != ""
    ensures var s := Ran(c, EMPTY, before);
      Valid(s) && Valid(Step(c, s, e)) && (Checks(s, e) ==>
        var s', n := Ran(c, Step(c, s, e), rest), FailedIn(c, Step(c, s, e), rest, e.key);
        && Status(s', e.key, now).failures <= n
        && (n < Attempts(c) ==> !Status(s', e.key, now).locked))
  {
    RanIsValid(c, EMPTY, before);
    var s := Ran(c, EMPTY, before);
    StepIsValid(c, s, e);
    if Checks(s, e) {
      GrantForgets(c, s, e);
      RunAtMost(c, Step(c, s, e), rest, e.key, 0);
    }
  }

  lemma {:induction false} RanIsValid(c: Config, s: State, evs: seq<Event>)
    requires Valid(s)
    ensures Valid(Ran(c, s, evs))
    decreases |evs|
  {
    if evs != [] {
      StepIsValid(c, s, evs[0]);
      RanIsValid(c, Step(c, s, evs[0]), evs[1..]);
    }
  }

  /** The record of an unlocked account after `n` failures of an unfinished round. */
  predicate InRound(acc: Option<Entry>, n: nat) {
    if n == 0 then acc == None else acc.Some? && acc.value.failures == n && acc.value.lockedUntil == 0
  }

  lemma StepInRound(c: Config, s: State, e: Event, k: Key, n: nat)
    requires Valid(s) && k != "" && InRound(At(s, k), n) && n < Attempts(c) && Evicted(c, s, e) != Some(k)
    requires !(Checks(s, e) && e.key == k && e.passwordOk) && (e.Login? ==> e.gateAt <= e.checkedAt)
    ensures var n' := if Checks(s, e) && e.key == k && !e.passwordOk then n + 1 else n;
      n' < Attempts(c) ==> InRound(At(Step(c, s, e), k), n')
  {
    AccountFollows(c, s, e, k);
  }

  lemma {:induction false} RunInRound(c: Config, s: State, evs: seq<Event>, t: nat, k: Key, n: nat)
    requires Valid(s) && k != "" && InRound(At(s, k), n) && Undisturbed(c, s, evs, k) && Sequential(evs, t)
    requires n + FailedIn(c, s, evs, k) < Attempts(c)
    ensures Valid(Ran(c, s, evs)) && InRound(At(Ran(c, s, evs), k), n + FailedIn(c, s, evs, k))
    decreases |evs|
  {
    if evs != [] {
      StepIsValid(c, s, evs[0]);
      StepInRound(c, s, evs[0], k, n);
      RunInRound(c, Step(c, s, evs[0]), evs[1..], Ended(evs[0]), k,
                 if Checks(s, evs[0]) && evs[0].key == k && !evs[0].passwordOk then n + 1 else n);
    }
  }

  lemma FailureInRound(c: Config, s: State, k: Key, n: nat, now: nat)
    requires k != "" && InRound(At(s, k), n) && n < Attempts(c) && now + LockMs(c) > 0
    ensures FailureReport(c, s, k, now).failures == n + 1
    ensures FailureReport(c, s, k, now).locked <==> n + 1 == Attempts(c)
  {
    if n + 1 >= c.maxAttempts { BackoffGrows(c, n + 1, n + 1); }
  }

  /** And, undisturbed, every failure since counts: the next one after a granted login reports one
      failure, the `n`th reports `n`, and it is the one that completes the round that locks. */
  lemma GrantThenRound(c: Config, before: seq<Event>, e: Event, rest: seq<Event>, now: nat)
    requires e.Login? && e.passwordOk && e.key != "" && Sequential(rest, Ended(e)) && now + LockMs(c) > 0
    ensures var s := Ran(c, EMPTY, before);
      Valid(s) && Valid(Step(c, s, e)) && (Checks(s, e) && Undisturbed(c, Step(c, s, e), rest, e.key) ==>
        var s', n := Ran(c, Step(c, s, e), rest), FailedIn(c, Step(c, s, e), rest, e.key);
        n < Attempts(c) ==>
          && FailureReport(c, s', e.key, now).failures == n + 1
          && (FailureReport(c, s', e.key, now).locked <==> n + 1 == Attempts(c)))
  {
    RanIsValid(c, EMPTY, before);
    var s := Ran(c, EMPTY, before);
    StepIsValid(c, s, e);
    var s0 := Step(c, s, e);
    if Checks(s, e) && Undisturbed(c, s0, rest, e.key) && FailedIn(c, s0, rest, e.key) < Attempts(c) {
      GrantForgets(c, s, e);
      RunInRound(c, s0, rest, Ended(e), e.key, 0);
      FailureInRound(c, Ran(c, s0, rest), e.key, FailedIn(c, s0, rest, e.key), now);
    }
  }

  // ---- when nothing is evicted

  function KeysOf(evs: seq<Event>): set<Key> {
    if evs == [] then {} else (if evs[0].Login? then {evs[0].key} else {}) + KeysOf(evs[1..])
  }

  predicate NoSuccessFor(evs: seq<Event>, k: Key) {
    forall i :: 0 <= i < |evs| ==> evs[i].Login? && evs[i].key == k ==> !evs[i].passwordOk
  }

  lemma SizeWithin(entries: map<Key, Entry>, keys: set<Key>)
    requires forall x :: x in entries ==> x in keys
    ensures |entries| <= |keys|
  {
    assert |entries| == |entries.Keys|;
    SubsetSize(entries.Keys, keys);
  }

  lemma FewKeysStep(c: Config, s: State, e: Event, keys: set<Key>)
    requires Valid(s) && (forall x :: x in s.entries ==> x in keys) && |keys| <= c.maxEntries
    requires e.Login? ==> e.key in keys
    ensures Evicted(c, s, e) == None
    ensures forall x :: x in Step(c, s, e).entries ==> x in keys
  {
    if e.Tidy? {
      forall x | x in Step(c, s, e).entries
        ensures x in keys
      {
        PruneDropsExpired(s, e.at, x);
      }
    } else {
      RemoveIsValid(s, e.key);
      var s1 := AfterStatus(s, e.key, e.gateAt);
      CountedIsValid(c, s1, e.key, e.checkedAt);
      SizeWithin(Counted(c, s1, e.key, e.checkedAt).entries, keys);
    }
  }

  lemma {:induction false} FewKeysUndisturbed(c: Config, s: State, evs: seq<Event>, keys: set<Key>, k: Key)
    requires Valid(s) && (forall x :: x in s.entries ==> x in keys) && |keys| <= c.maxEntries
    requires KeysOf(evs) <= keys && NoSuccessFor(evs, k)
    ensures Undisturbed(c, s, evs, k)
    decreases |evs|
  {
    if evs != [] {
      StepIsValid(c, s, evs[0]);
      FewKeysStep(c, s, evs[0], keys);
      FewKeysUndisturbed(c, Step(c, s, evs[0]), evs[1..], keys, k);
    }
  }

  /** The guess rate while at most `maxEntries` accounts are tried and no password for `k` is right. */
  lemma GuessRateFewAccounts(c: Config, evs: seq<Event>, k: Key, lo: nat, T: nat)
    requires LockMs(c) > 0 && k != "" && Sequential(evs, 0)
    requires |KeysOf(evs)| <= c.maxEntries && NoSuccessFor(evs, k)
    ensures FailedChecks(c, EMPTY, evs, k, lo, lo + T) <= Attempts(c) * (T / LockMs(c) + 1)
  {
    FewKeysUndisturbed(c, EMPTY, evs, KeysOf(evs), k);
    GuessRate(c, evs, k, lo, T);
  }

  /** The empty email is never locked and never counted: only the missing account turns it away. */
  lemma EmptyEmailIsNeverLocked(c: Config, s: State, now: nat)
    requires Valid(s)
    ensures Status(s, "", now) == UNTRACKED && RecordFailure(c, s, "", now) == s
  {
  }

  // ---- the doubling never starts

  /** The wait of an account that has just used up its attempts. */
  function BaseWait(c: Config): nat {
    Backoff(c, Attempts(c))
  }

  lemma BaseWaitIs(c: Config)
    ensures BaseWait(c) == if c.maxAttempts >= 1 then LockMs(c) else Min(2 * c.lockoutMs, c.maxLockoutMs)
    ensures BaseWait(c) >= LockMs(c)
  {
    BackoffGrows(c, Attempts(c), Attempts(c));
    assert Scaled(c.lockoutMs, 1) == 2 * Scaled(c.lockoutMs, 0) == 2 * c.lockoutMs;
  }

  /** The counter of an account is below the threshold while it is unlocked, and at it, with the
      wait that belongs to it, while it is locked. */
  predicate OneRound(c: Config, e: Entry) {
    if e.lockedUntil == 0 then e.failures < Attempts(c)
    else e.failures == Attempts(c) && e.lockedUntil == e.lastAt + BaseWait(c)
  }

  ghost predicate Undoubled(c: Config, s: State) {
    forall k :: k in s.entries ==> OneRound(c, s.entries[k])
  }

  lemma BumpedIsUndoubled(c: Config, e: Entry, now: nat)
    requires e.failures < Attempts(c) && e.lockedUntil == 0 && now + LockMs(c) > 0
    ensures OneRound(c, Bumped(c, e, now))
  {
    BaseWaitIs(c);
  }

  lemma CountedKeepsUndoubled(c: Config, s: State, k: Key, now: nat)
    requires Undoubled(c, s) && now + LockMs(c) > 0
    requires k in s.entries ==> s.entries[k].lockedUntil == 0
    ensures Undoubled(c, Counted(c, s, k, now))
  {
    BumpedIsUndoubled(c, if k in s.entries then s.entries[k] else Entry(0, 0, 0), now);
  }

  lemma FailureKeepsUndoubled(c: Config, s: State, k: Key, now: nat)
    requires Valid(s) && Undoubled(c, s) && now + LockMs(c) > 0
    requires k in s.entries ==> s.entries[k].lockedUntil == 0
    ensures Undoubled(c, RecordFailure(c, s, k, now))
  {
    CountedIsValid(c, s, k, now);
    CountedKeepsUndoubled(c, s, k, now);
  }

  lemma LoginKeepsUndoubled(c: Config, s: State, e: Event)
    requires Valid(s) && Undoubled(c, s) && e.Login? && e.gateAt <= e.checkedAt && e.checkedAt + LockMs(c) > 0
    ensures Undoubled(c, Step(c, s, e))
  {
    StepIsValid(c, s, e);
    RemoveIsValid(s, e.key);
    var s1 := AfterStatus(s, e.key, e.gateAt);
    if Checks(s, e) && !e.passwordOk && e.key != "" {
      FailureKeepsUndoubled(c, s1, e.key, e.checkedAt);
    }
  }

  lemma {:induction false} RunKeepsUndoubled(c: Config, s: State, evs: seq<Event>, t: nat)
    requires Valid(s) && Undoubled(c, s) && Sequential(evs, t) && t + LockMs(c) > 0
    ensures Undoubled(c, Ran(c, s, evs))
    decreases |evs|
  {
    if evs != [] {
      StepIsValid(c, s, evs[0]);
      if evs[0].Login? {
        LoginKeepsUndoubled(c, s, evs[0]);
      } else {
        forall k
          ensures At(Step(c, s, evs[0]), k) == At(DropExpired(s, k, evs[0].at), k)
        {
          PruneDropsExpired(s, evs[0].at, k);
        }
        assert forall k :: k in Step(c, s, evs[0]).entries ==>
          At(Step(c, s, evs[0]), k) == At(DropExpired(s, k, evs[0].at), k) == At(s, k);
      }
      RunKeepsUndoubled(c, Step(c, s, evs[0]), evs[1..], Ended(evs[0]));
    }
  }

  function Ran(c: Config, s: State, evs: seq<Event>): State
    requires Valid(s)
    decreases |evs|
  {
    if evs == [] then s
    else
      StepIsValid(c, s, evs[0]);
      Ran(c, Step(c, s, evs[0]), evs[1..])
  }

  /** Through the login path the backoff never doubles: a locked account is not checked, and an
      expired lockout restarts the count. So no record counts past the threshold, and every
      lockout lasts the base time; a threshold of zero acts as one, with the base time doubled. */
  lemma LoginNeverDoubles(c: Config, evs: seq<Event>, from: nat, k: Key)
    requires Sequential(evs, from) && from + LockMs(c) > 0
    ensures var s := Ran(c, EMPTY, evs);
      k in s.entries ==>
        var e := s.entries[k];
        && e.failures <= Attempts(c)
        && (e.lockedUntil != 0 ==> e.failures == Attempts(c) && Wait(e) == BaseWait(c))
    ensures BaseWait(c) == if c.maxAttempts >= 1 then LockMs(c) else Min(2 * c.lockoutMs, c.maxLockoutMs)
  {
    RunKeepsUndoubled(c, EMPTY, evs, from);
    BaseWaitIs(c);
  }

  /** No run of logins sets a lockout longer than the base time. */
  ghost predicate LocksForBaseTime(c: Config) {
    forall evs: seq<Event>, k: Key :: Sequential(evs, 0) ==>
      var s := Ran(c, EMPTY, evs);
      k in s.entries ==> s.entries[k].lockedUntil <= s.entries[k].lastAt + LockMs(c)
  }

  lemma FirstLoginFails(c: Config)
    requires c.maxEntries >= 1
    ensures var evs := [Login("a", 5, 5, false)];
      && Sequential(evs, 0)
      && At(Ran(c, EMPTY, evs), "a") == Some(Bumped(c, Entry(0, 0, 0), 5))
  {
    var e := Login("a", 5, 5, false);
    assert [e][1..] == [];
    OwnFailureAt(c, EMPTY, "a", 5);
    assert AfterStatus(EMPTY, "a", 5) == EMPTY;
    assert Ran(c, EMPTY, [e]) == Step(c, EMPTY, e);
  }

  /** Lockouts through the login path last the base time, over all runs, exactly when the threshold
      is at least one, or the ceiling leaves nothing to double, or no record is kept at all. */
  lemma LocksForBaseTimeIff(c: Config)
    requires LockMs(c) > 0
    ensures LocksForBaseTime(c) <==> c.maxAttempts >= 1 || c.maxLockoutMs <= c.lockoutMs || c.maxEntries == 0
  {
    if c.maxAttempts >= 1 || c.maxLockoutMs <= c.lockoutMs || c.maxEntries == 0 {
      forall evs: seq<Event>, k: Key | Sequential(evs, 0)
        ensures var s := Ran(c, EMPTY, evs);
          k in s.entries ==> s.entries[k].lockedUntil <= s.entries[k].lastAt + LockMs(c)
      {
        LoginNeverDoubles(c, evs, 0, k);
        if c.maxEntries == 0 { NothingTracked(c, EMPTY, evs); }
      }
    } else {
      FirstLoginFails(c);
      BaseWaitIs(c);
      assert Bumped(c, Entry(0, 0, 0), 5).lockedUntil == 5 + BaseWait(c);
    }
  }

  lemma {:induction false} NothingTracked(c: Config, s: State, evs: seq<Event>)
    requires Valid(s) && s.entries == map[] && c.maxEntries == 0
    ensures Ran(c, s, evs).entries == map[]
    decreases |evs|
  {
    if evs != [] {
      StepIsValid(c, s, evs[0]);
      NothingTrackedStep(c, s, evs[0]);
      NothingTracked(c, Step(c, s, evs[0]), evs[1..]);
    }
  }

  lemma NothingTrackedStep(c: Config, s: State, e: Event)
    requires Valid(s) && s.entries == map[] && c.maxEntries == 0
    ensures Step(c, s, e).entries == map[]
  {
    if e.Tidy? {
      forall x
        ensures x !in Prune(s, e.at).entries
      {
        PruneDropsExpired(s, e.at, x);
      }
    } else if Checks(s, e) && !e.passwordOk && e.key != "" {
      assert s.order == [] by { assert forall k :: k !in s.order; FirstInOrder(s.order); }
      var counted := Counted(c, s, e.key, e.checkedAt);
      CountedIsValid(c, s, e.key, e.checkedAt);
      assert counted.order == [e.key];
      assert |counted.entries| == 1 by { OnlyKey(counted.order, counted.entries, e.key); }
    }
  }

  lemma FirstInOrder(order: seq<Key>)
    ensures order != [] ==> order[0] in order
  {
  }
}

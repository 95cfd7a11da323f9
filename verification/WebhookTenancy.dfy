/** Inbound webhook admission (src/server/webhookTenancy.js): reserve a delivery's digest for
    one store, refuse or short-circuit it while the reservation lives, release it when
    processing failed, and sweep old day buckets.

    SHA-256 is taken to be injective, so a digest is identified with the raw body it is of.
    Times are milliseconds. A storage call either takes full effect or throws; which calls throw
    is part of the input. */
module WebhookTenancy {
  import opened Wrappers

  const DELIVERY_TTL_MS: int := 24 * 60 * 60 * 1000
  const SWEEP_INTERVAL_MS: int := 60 * 60 * 1000
  const SWEEP_LOOKBACK_DAYS: int := 7

  type StoreId = string
  type Digest = string

  /** The UTC day a time falls in, counted from the epoch. */
  function BucketFor(ms: int): int {
    ms / DELIVERY_TTL_MS
  }

  datatype Row = Row(id: nat, store: StoreId, digest: Digest, bucket: int,
                     receivedAt: int, expiresAt: Option<int>)

  /** A row without a readable expiry is kept. */
  predicate IsExpired(row: Row, now: int) {
    row.expiresAt.Some? && row.expiresAt.value <= now
  }

  /** What resolving one shop claim yields: nothing to resolve, a failed lookup, or the store
      that owns the domain (None: no store we know). */
  datatype Claim = NoClaim | LookupFails | Resolves(owner: Option<StoreId>)

  datatype Reason = TenantLookupFailed | TenantMismatch | StorageUnavailable | CrossTenantReplay

  datatype Admission = Fresh(digest: Digest) | Duplicate(digest: Digest) | Refused(status: int, reason: Reason)

  datatype Faults = Faults(find: bool, delete: bool, insert: bool)

  const NO_FAULTS := Faults(false, false, false)

  datatype Delivery = Delivery(store: StoreId, digest: Digest, claims: seq<Claim>, faults: Faults)

  /** The deliveries table in insertion order, and the process-wide sweep clock. */
  datatype Ledger = Ledger(rows: seq<Row>, nextId: nat, lastSweepAt: int)

  const EMPTY := Ledger([], 0, 0)

  // ---------------------------------------------------------------- operations on values

  /** Only a positive mismatch, or a lookup that failed, refuses; the first such claim decides. */
  function AssertTenant(store: StoreId, claims: seq<Claim>): (refusal: Option<Admission>)
    ensures refusal.Some? ==> refusal.value.Refused?
    ensures refusal.None? <==>
      forall i :: 0 <= i < |claims| ==>
        claims[i].NoClaim?
        || (claims[i].Resolves? && (claims[i].owner.None? || claims[i].owner.value in {"", store}))
  {
    if claims == [] then None
    else match claims[0]
      case NoClaim => AssertTenant(store, claims[1..])
      case LookupFails => Some(Refused(503, TenantLookupFailed))
      case Resolves(owner) =>
        if owner.Some? && owner.value != "" && owner.value != store then Some(Refused(403, TenantMismatch))
        else AssertTenant(store, claims[1..])
  }

  /** `findOne({ digest })`: the first match in insertion order. */
  function FindFirst(rows: seq<Row>, d: Digest): (r: Option<Row>)
    ensures r.Some? ==> r.value in rows && r.value.digest == d
    ensures r.None? ==> forall x :: x in rows ==> x.digest != d
  {
    if rows == [] then None
    else if rows[0].digest == d then Some(rows[0])
    else FindFirst(rows[1..], d)
  }

  function DeleteById(rows: seq<Row>, id: nat): (kept: seq<Row>)
    ensures forall r :: r in kept <==> r in rows && r.id != id
  {
    if rows == [] then []
    else if rows[0].id == id then DeleteById(rows[1..], id)
    else [rows[0]] + DeleteById(rows[1..], id)
  }

  /** `deleteMany({ bucket })`. */
  function DeleteBucket(rows: seq<Row>, bucket: int): (kept: seq<Row>)
    ensures forall r :: r in kept <==> r in rows && r.bucket != bucket
    ensures |kept| <= |rows|
  {
    if rows == [] then []
    else if rows[0].bucket == bucket then DeleteBucket(rows[1..], bucket)
    else [rows[0]] + DeleteBucket(rows[1..], bucket)
  }

  function NewRow(l: Ledger, req: Delivery, now: int): Row {
    Row(l.nextId, req.store, req.digest, BucketFor(now), now, Some(now + DELIVERY_TTL_MS))
  }

  /** The rows that stand before the insert: a found row that has expired is deleted first,
      and a failing delete is ignored. */
  function AfterStaleDelete(l: Ledger, req: Delivery, now: int): seq<Row> {
    match FindFirst(l.rows, req.digest)
    case Some(row) => if IsExpired(row, now) && !req.faults.delete then DeleteById(l.rows, row.id) else l.rows
    case None => l.rows
  }

  function Admit(l: Ledger, req: Delivery, now: int): (Ledger, Admission) {
    match AssertTenant(req.store, req.claims)
    case Some(refusal) => (l, refusal)
    case None =>
      if req.faults.find then (l, Refused(503, StorageUnavailable))
      else
        var found := FindFirst(l.rows, req.digest);
        if found.Some? && !IsExpired(found.value, now) then
          (l, if found.value.store != req.store then Refused(409, CrossTenantReplay) else Duplicate(req.digest))
        else
          var rows := AfterStaleDelete(l, req, now);
          if req.faults.insert then (l.(rows := rows), Refused(503, StorageUnavailable))
          else (l.(rows := rows + [NewRow(l, req, now)], nextId := l.nextId + 1), Fresh(req.digest))
  }

  function Release(l: Ledger, d: Digest, faults: Faults): (Ledger, bool) {
    var found := FindFirst(l.rows, d);
    if faults.find || found.None? || faults.delete then (l, false)
    else (l.(rows := DeleteById(l.rows, found.value.id)), true)
  }

  predicate SweepRuns(l: Ledger, now: int, force: bool) {
    force || now - l.lastSweepAt >= SWEEP_INTERVAL_MS
  }

  /** Swept by a pass at `now` that has done the days back from 2 up to (not including) `hi`. */
  predicate Swept(row: Row, now: int, hi: int, failing: set<int>) {
    var back := BucketFor(now) - row.bucket;
    2 <= back < hi && back !in failing
  }

  function Unswept(rows: seq<Row>, now: int, hi: int, failing: set<int>): (kept: seq<Row>)
    ensures forall r :: r in kept <==> r in rows && !Swept(r, now, hi, failing)
  {
    if rows == [] then []
    else if Swept(rows[0], now, hi, failing) then Unswept(rows[1..], now, hi, failing)
    else [rows[0]] + Unswept(rows[1..], now, hi, failing)
  }

  /** `deleteMany` for one day back, unless it fails. */
  function SweepDay(rows: seq<Row>, now: int, back: int, failing: set<int>): seq<Row> {
    if back in failing then rows else DeleteBucket(rows, BucketFor(now) - back)
  }

  function Sweep(l: Ledger, now: int, force: bool, failing: set<int>): Ledger {
    if !SweepRuns(l, now, force) then l
    else l.(rows := Unswept(l.rows, now, SWEEP_LOOKBACK_DAYS + 2, failing), lastSweepAt := now)
  }

  // ---------------------------------------------------------------- the table object

  class Deliveries {
    var rows: seq<Row>
    var nextId: nat
    var lastSweepAt: int

    function Model(): Ledger
      reads this
    {
      Ledger(rows, nextId, lastSweepAt)
    }

    constructor ()
      ensures Model() == EMPTY
    {
      rows, nextId, lastSweepAt := [], 0, 0;
    }

    method AdmitDelivery(req: Delivery, now: int) returns (a: Admission)
      modifies this
      ensures (Model(), a) == Admit(old(Model()), req, now)
    {
      var claim := AssertTenant(req.store, req.claims);
      if claim.Some? { return claim.value; }
      if req.faults.find { return Refused(503, StorageUnavailable); }
      var existing := FindFirst(rows, req.digest);
      if existing.Some? {
        if IsExpired(existing.value, now) {
          if !req.faults.delete { rows := DeleteById(rows, existing.value.id); }
        } else if existing.value.store != req.store {
          return Refused(409, CrossTenantReplay);
        } else {
          return Duplicate(req.digest);
        }
      }
      if req.faults.insert { return Refused(503, StorageUnavailable); }
      rows := rows + [Row(nextId, req.store, req.digest, BucketFor(now), now, Some(now + DELIVERY_TTL_MS))];
      nextId := nextId + 1;
      return Fresh(req.digest);
    }

    method ReleaseDelivery(d: Digest, faults: Faults) returns (removed: bool)
      modifies this
      ensures (Model(), removed) == Release(old(Model()), d, faults)
    {
      if faults.find { return false; }
      var row := FindFirst(rows, d);
      if row.None? || faults.delete { return false; }
      rows := DeleteById(rows, row.value.id);
      return true;
    }

    method DeleteDay(now: int, back: int, failing: set<int>) returns (deleted: int)
      modifies this
      ensures rows == SweepDay(old(rows), now, back, failing)
      ensures deleted == |old(rows)| - |rows| && nextId == old(nextId) && lastSweepAt == old(lastSweepAt)
    {
      var bucket := BucketFor(now - back * DELIVERY_TTL_MS);
      BucketsBack(now, back);
      if back in failing { return 0; }
      var kept := DeleteBucket(rows, bucket);
      deleted := |rows| - |kept|;
      rows := kept;
    }

    /** One `deleteMany` per day back; a failing one is skipped. */
    method SweepExpiredDeliveries(now: int, force: bool, failing: set<int>) returns (swept: int, skipped: bool)
      modifies this
      ensures Model() == Sweep(old(Model()), now, force, failing)
      ensures skipped <==> !SweepRuns(old(Model()), now, force)
      ensures swept == |old(rows)| - |rows|
    {
      if !force && now - lastSweepAt < SWEEP_INTERVAL_MS { return 0, true; }
      lastSweepAt := now;
      swept := 0;
      var back := 2;
      SweepNothing(rows, now, failing);
      while back <= SWEEP_LOOKBACK_DAYS + 1
        invariant 2 <= back <= SWEEP_LOOKBACK_DAYS + 2
        invariant nextId == old(nextId) && lastSweepAt == now
        invariant rows == Unswept(old(rows), now, back, failing)
        invariant swept == |old(rows)| - |rows|
      {
        SweepOneDay(old(rows), now, back, failing);
        var deleted := DeleteDay(now, back, failing);
        swept := swept + deleted;
        back := back + 1;
      }
      skipped := false;
    }
  }

  // ---------------------------------------------------------------- what is answered

  /** The claim is no evidence against the addressed store. */
  predicate Agreeable(claim: Claim, store: StoreId) {
    match claim
    case NoClaim => true
    case LookupFails => false
    case Resolves(owner) => owner == None || owner == Some("") || owner == Some(store)
  }

  /** The first claim that is evidence against the store decides how the delivery is refused. */
  lemma {:induction false} FirstRefusingClaimDecides(store: StoreId, claims: seq<Claim>, i: nat)
    requires i < |claims| && !Agreeable(claims[i], store) && forall j :: 0 <= j < i ==> Agreeable(claims[j], store)
    ensures AssertTenant(store, claims)
         == Some(if claims[i].LookupFails? then Refused(503, TenantLookupFailed) else Refused(403, TenantMismatch))
  {
    if i > 0 {
      assert Agreeable(claims[0], store);
      FirstRefusingClaimDecides(store, claims[1..], i - 1);
    }
  }

  predicate AllAgreeable(req: Delivery) {
    forall i :: 0 <= i < |req.claims| ==> Agreeable(req.claims[i], req.store)
  }

  lemma {:induction false} RefusedByClaim(store: StoreId, claims: seq<Claim>)
    ensures AssertTenant(store, claims)
         in {None, Some(Refused(503, TenantLookupFailed)), Some(Refused(403, TenantMismatch))}
  {
    if claims != [] { RefusedByClaim(store, claims[1..]); }
  }

  /** A row of the digest that was received less than 24 hours ago. */
  predicate LiveRow(l: Ledger, row: Row, d: Digest, now: int) {
    row in l.rows && row.digest == d && now < row.receivedAt + DELIVERY_TTL_MS
  }

  /** What a delivery is answered, over every run in which deletes of expired rows succeed. */
  ghost predicate Answered(l: Ledger, req: Delivery, now: int, a: Admission) {
    && (!AllAgreeable(req) ==> a in {Refused(503, TenantLookupFailed), Refused(403, TenantMismatch)})
    && (AllAgreeable(req) && req.faults.find ==> a == Refused(503, StorageUnavailable))
    && (forall row | LiveRow(l, row, req.digest, now) :: AllAgreeable(req) && !req.faults.find ==>
          a == if row.store == req.store then Duplicate(req.digest) else Refused(409, CrossTenantReplay))
    && (AllAgreeable(req) && !req.faults.find && (forall row :: !LiveRow(l, row, req.digest, now)) ==>
          a == if req.faults.insert then Refused(503, StorageUnavailable) else Fresh(req.digest))
  }

  lemma AnswerFollowsTheRow(l: Ledger, req: Delivery, now: int)
    requires WellFormed(l) && Count(l.rows, req.digest) <= 1
    ensures Answered(l, req, now, Admit(l, req, now).1)
  {
    RefusedByClaim(req.store, req.claims);
    assert AssertTenant(req.store, req.claims) == None <==> AllAgreeable(req);
    forall row | LiveRow(l, row, req.digest, now)
      ensures FindFirst(l.rows, req.digest) == Some(row)
    {
      OnlyOne(l.rows, req.digest, row);
    }
  }

  lemma {:induction false} OnlyOne(rows: seq<Row>, d: Digest, row: Row)
    requires Count(rows, d) <= 1 && row in rows && row.digest == d
    ensures FindFirst(rows, d) == Some(row)
    decreases |rows|
  {
    if rows[0].digest == d {
      CountZero(rows[1..], d);
    } else {
      OnlyOne(rows[1..], d, row);
    }
  }

  /** What a delivery is answered after any run with working deletes: 403 or 503 by its claims; 503
      when storage fails; while a row of the body is less than 24 hours old, a duplicate for the
      row's store and 409 for any other; and otherwise it is admitted. */
  lemma AnswersOverRuns(evs: seq<Event>, req: Delivery, now: int)
    requires DeletesSucceed(evs)
    ensures Answered(Run(EMPTY, evs), req, now, Admit(Run(EMPTY, evs), req, now).1)
  {
    RunKeepsWellFormed(EMPTY, evs);
    RunKeepsUnique(evs);
    AnswerFollowsTheRow(Run(EMPTY, evs), req, now);
  }

  /** A release frees the digest exactly when it says so, and touches no other digest. */
  lemma ReleaseMeans(evs: seq<Event>, d: Digest, faults: Faults, row: Row)
    requires DeletesSucceed(evs)
    ensures var l := Run(EMPTY, evs);
      var (l', removed) := Release(l, d, faults);
      && (removed <==> !faults.find && !faults.delete && exists r :: r in l.rows && r.digest == d)
      && (row in l'.rows <==> row in l.rows && !(removed && row.digest == d))
  {
    var l := Run(EMPTY, evs);
    RunKeepsWellFormed(EMPTY, evs);
    RunKeepsUnique(evs);
    assert Count(l.rows, d) <= 1;
    if row in l.rows && row.digest == d { OnlyOne(l.rows, d, row); }
  }

  lemma BucketsBack(now: int, back: int)
    ensures BucketFor(now - back * DELIVERY_TTL_MS) == BucketFor(now) - back
  {
  }

  lemma {:induction false} SweepNothing(rows: seq<Row>, now: int, failing: set<int>)
    ensures Unswept(rows, now, 2, failing) == rows
  {
    if rows != [] { SweepNothing(rows[1..], now, failing); }
  }

  lemma {:induction false} SweepOneDay(rows: seq<Row>, now: int, back: int, failing: set<int>)
    requires 2 <= back
    ensures Unswept(rows, now, back + 1, failing)
         == SweepDay(Unswept(rows, now, back, failing), now, back, failing)
  {
    if rows != [] { SweepOneDay(rows[1..], now, back, failing); }
  }

  // ---------------------------------------------------------------- runs

  datatype Event =
    | Deliver(req: Delivery, now: int)
    | ReleaseOf(digest: Digest, faults: Faults, now: int)
    | SweepPass(force: bool, failing: set<int>, now: int)

  function Step(l: Ledger, e: Event): Ledger {
    match e
    case Deliver(req, now) => Admit(l, req, now).0
    case ReleaseOf(d, faults, _) => Release(l, d, faults).0
    case SweepPass(force, failing, now) => Sweep(l, now, force, failing)
  }

  function Run(l: Ledger, evs: seq<Event>): Ledger
    decreases |evs|
  {
    if evs == [] then l else Step(Run(l, evs[..|evs| - 1]), evs[|evs| - 1])
  }

  predicate Ordered(evs: seq<Event>) {
    forall i, j :: 0 <= i < j < |evs| ==> evs[i].now <= evs[j].now
  }

  predicate Releases(e: Event, d: Digest) {
    e.ReleaseOf? && e.digest == d
  }

  /** Event `i` of the run is a non-duplicate admission of `d`. */
  predicate FreshAt(l: Ledger, evs: seq<Event>, i: nat, d: Digest) {
    i < |evs| && evs[i].Deliver? && Admit(Run(l, evs[..i]), evs[i].req, evs[i].now).1 == Fresh(d)
  }

  /** Rows as `Admit` writes them, under ids that name one row each. */
  ghost predicate WellFormed(l: Ledger) {
    && (forall r :: r in l.rows ==>
          r.id < l.nextId && r.bucket == BucketFor(r.receivedAt)
          && r.expiresAt == Some(r.receivedAt + DELIVERY_TTL_MS))
    && (forall r, q :: r in l.rows && q in l.rows && r.id == q.id ==> r == q)
  }

  lemma StepKeepsWellFormed(l: Ledger, e: Event)
    requires WellFormed(l)
    ensures WellFormed(Step(l, e))
  {
  }

  lemma {:induction false} RunKeepsWellFormed(l: Ledger, evs: seq<Event>)
    requires WellFormed(l)
    ensures WellFormed(Run(l, evs))
    decreases |evs|
  {
    if evs != [] {
      RunKeepsWellFormed(l, evs[..|evs| - 1]);
      StepKeepsWellFormed(Run(l, evs[..|evs| - 1]), evs[|evs| - 1]);
    }
  }

  // ---------------------------------------------------------------- finding rows

  lemma {:induction false} FindAfterAppend(rows: seq<Row>, r: Row, d: Digest)
    ensures FindFirst(rows + [r], d)
         == if FindFirst(rows, d).Some? then FindFirst(rows, d) else if r.digest == d then Some(r) else None
  {
    if rows != [] {
      assert (rows + [r])[1..] == rows[1..] + [r];
      FindAfterAppend(rows[1..], r, d);
    }
  }

  lemma {:induction false} FindAfterDelete(rows: seq<Row>, id: nat, d: Digest)
    requires FindFirst(rows, d).Some? && FindFirst(rows, d).value.id != id
    ensures FindFirst(DeleteById(rows, id), d) == FindFirst(rows, d)
  {
    if rows[0].digest != d { FindAfterDelete(rows[1..], id, d); }
  }

  lemma {:induction false} FindAfterSweep(rows: seq<Row>, now: int, hi: int, failing: set<int>, d: Digest)
    requires FindFirst(rows, d).Some? && !Swept(FindFirst(rows, d).value, now, hi, failing)
    ensures FindFirst(Unswept(rows, now, hi, failing), d) == FindFirst(rows, d)
  {
    if rows[0].digest != d { FindAfterSweep(rows[1..], now, hi, failing, d); }
  }

  function Count(rows: seq<Row>, d: Digest): nat {
    if rows == [] then 0 else (if rows[0].digest == d then 1 else 0) + Count(rows[1..], d)
  }

  lemma {:induction false} CountAfterDelete(rows: seq<Row>, id: nat, d: Digest)
    ensures Count(DeleteById(rows, id), d) <= Count(rows, d)
    ensures (exists r :: r in rows && r.id == id && r.digest == d) ==> Count(DeleteById(rows, id), d) < Count(rows, d)
  {
    if rows != [] { CountAfterDelete(rows[1..], id, d); }
  }

  lemma {:induction false} CountAfterSweep(rows: seq<Row>, now: int, hi: int, failing: set<int>, d: Digest)
    ensures Count(Unswept(rows, now, hi, failing), d) <= Count(rows, d)
  {
    if rows != [] { CountAfterSweep(rows[1..], now, hi, failing, d); }
  }

  lemma {:induction false} CountAfterAppend(rows: seq<Row>, r: Row, d: Digest)
    ensures Count(rows + [r], d) == Count(rows, d) + if r.digest == d then 1 else 0
  {
    if rows != [] {
      assert (rows + [r])[1..] == rows[1..] + [r];
      CountAfterAppend(rows[1..], r, d);
    }
  }

  lemma {:induction false} CountZero(rows: seq<Row>, d: Digest)
    ensures Count(rows, d) == 0 <==> FindFirst(rows, d).None?
  {
    if rows != [] { CountZero(rows[1..], d); }
  }

  // ---------------------------------------------------------------- sweeping

  /** A sweep deletes only rows whose expiry is already past. */
  lemma SweepTakesOnlyExpired(l: Ledger, now: int, force: bool, failing: set<int>, row: Row)
    requires WellFormed(l) && row in l.rows && row !in Sweep(l, now, force, failing).rows
    ensures row.expiresAt.Some? && row.expiresAt.value < now
  {
  }

  /** What a sweep deletes: when it is forced or the last one that ran is an hour ago, exactly the rows
      of two to eight days back, less the days that failed; otherwise nothing. */
  lemma SweepClears(l: Ledger, now: int, force: bool, failing: set<int>, row: Row)
    requires WellFormed(l)
    ensures var l', back := Sweep(l, now, force, failing), now / 86_400_000 - row.receivedAt / 86_400_000;
      var runs := force || now - l.lastSweepAt >= 3_600_000;
      && (row in l'.rows <==> row in l.rows && !(runs && 2 <= back <= 8 && back !in failing))
      && l'.lastSweepAt == (if runs then now else l.lastSweepAt) && l'.nextId == l.nextId
  {
  }

  /** Event `i` is a sweep that was not throttled away. */
  predicate SweepRanAt(l: Ledger, evs: seq<Event>, i: nat) {
    i < |evs| && evs[i].SweepPass? && SweepRuns(Run(l, evs[..i]), evs[i].now, evs[i].force)
  }

  lemma StepKeepsSweepClock(l: Ledger, e: Event, t: int)
    requires t <= e.now && (t <= l.lastSweepAt || (e.SweepPass? && SweepRuns(l, e.now, e.force)))
    ensures t <= Step(l, e).lastSweepAt
  {
  }

  lemma {:induction false} SweepClock(l: Ledger, evs: seq<Event>, i: nat)
    requires Ordered(evs) && SweepRanAt(l, evs, i)
    ensures evs[i].now <= Run(l, evs).lastSweepAt
    decreases |evs|
  {
    var n := |evs| - 1;
    var front, last := evs[..n], evs[n];
    if i < n {
      assert front[..i] == evs[..i];
      SweepClock(l, front, i);
      assert evs[i].now <= Run(l, front).lastSweepAt;
    }
    StepKeepsSweepClock(Run(l, front), last, evs[i].now);
  }

  /** Two unforced sweeps that both run are at least one hour apart, whatever forced ones and
      deliveries lie between them. */
  lemma UnforcedSweepsAreSpaced(l: Ledger, evs: seq<Event>, i: nat, j: nat)
    requires Ordered(evs) && i < j && SweepRanAt(l, evs, i) && SweepRanAt(l, evs, j) && !evs[j].force
    ensures evs[j].now - evs[i].now >= SWEEP_INTERVAL_MS
  {
    assert evs[..j][..i] == evs[..i];
    SweepClock(l, evs[..j], i);
  }

  lemma {:induction false} EmptiedBucketStaysEmpty(l: Ledger, evs: seq<Event>, b: int)
    requires forall r :: r in l.rows ==> r.bucket != b
    requires forall i :: 0 <= i < |evs| ==> BucketFor(evs[i].now) > b
    ensures forall r :: r in Run(l, evs).rows ==> r.bucket != b
    decreases |evs|
  {
    if evs != [] { EmptiedBucketStaysEmpty(l, evs[..|evs| - 1], b); }
  }

  lemma {:induction false} RunAppend(l: Ledger, a: seq<Event>, b: seq<Event>)
    ensures Run(l, a + b) == Run(Run(l, a), b)
    decreases |b|
  {
    if b == [] {
      assert a + b == a;
    } else {
      var front := b[..|b| - 1];
      assert (a + b)[..|a + b| - 1] == a + front;
      RunAppend(l, a, front);
    }
  }

  lemma RunInTwoParts(l: Ledger, evs: seq<Event>, i: nat)
    requires i <= |evs|
    ensures Run(l, evs) == Run(Run(l, evs[..i]), evs[i..])
  {
    assert evs == evs[..i] + evs[i..];
    RunAppend(l, evs[..i], evs[i..]);
  }

  /** Every seven consecutive days between the first and the last event hold a complete sweep. */
  ghost predicate SweptWeekly(evs: seq<Event>)
    requires evs != []
  {
    forall w: int :: BucketFor(evs[0].now) <= w && w + 6 < BucketFor(evs[|evs| - 1].now) ==> WeekHasSweep(evs, w)
  }

  ghost predicate WeekHasSweep(evs: seq<Event>, w: int) {
    exists i: nat :: SweepRanAt(EMPTY, evs, i) && evs[i].failing == {} && w <= BucketFor(evs[i].now) <= w + 6
  }

  lemma {:induction false} RowsDateFromTheRun(evs: seq<Event>, row: Row)
    requires Ordered(evs) && row in Run(EMPTY, evs).rows
    ensures evs != [] && row.bucket >= BucketFor(evs[0].now)
    decreases |evs|
  {
    if evs != [] {
      var n := |evs| - 1;
      if row in Run(EMPTY, evs[..n]).rows {
        RowsDateFromTheRun(evs[..n], row);
      } else {
      }
    }
  }

  /** A bucket swept completely within its week stays empty to the end of the run. */
  lemma SweptBucketIsGone(evs: seq<Event>, i: nat, b: int)
    requires Ordered(evs) && SweepRanAt(EMPTY, evs, i) && evs[i].failing == {}
    requires b + 2 <= BucketFor(evs[i].now) <= b + 8
    ensures forall r :: r in Run(EMPTY, evs).rows ==> r.bucket != b
  {
    assert evs[..i + 1][..i] == evs[..i];
    var rest := evs[i + 1..];
    forall k | 0 <= k < |rest|
      ensures BucketFor(rest[k].now) > b
    {
    }
    EmptiedBucketStaysEmpty(Run(EMPTY, evs[..i + 1]), rest, b);
    RunInTwoParts(EMPTY, evs, i + 1);
  }

  lemma BucketIsGoneAfterEightDays(evs: seq<Event>, b: int)
    requires Ordered(evs) && evs != [] && SweptWeekly(evs) && b >= BucketFor(evs[0].now)
    ensures BucketFor(evs[|evs| - 1].now) > b + 8 ==> forall r :: r in Run(EMPTY, evs).rows ==> r.bucket != b
  {
    if BucketFor(evs[|evs| - 1].now) > b + 8 {
      assert WeekHasSweep(evs, b + 2);
      var i: nat :| SweepRanAt(EMPTY, evs, i) && evs[i].failing == {} && b + 2 <= BucketFor(evs[i].now) <= b + 8;
      SweptBucketIsGone(evs, i, b);
    }
  }

  /** If a sweep runs in every seven consecutive UTC days, no row outlives the eighth day after
      its bucket. */
  lemma NoRowOutlivesTheEighthDay(evs: seq<Event>, row: Row)
    requires Ordered(evs) && evs != [] && SweptWeekly(evs)
    requires row in Run(EMPTY, evs).rows
    ensures BucketFor(evs[|evs| - 1].now) <= row.bucket + 8
  {
    RowsDateFromTheRun(evs, row);
    BucketIsGoneAfterEightDays(evs, row.bucket);
  }

  // ---------------------------------------------------------------- at most once

  /** The row a delivery of `d` would meet stands until `e`. */
  predicate Reserved(l: Ledger, d: Digest, e: int) {
    var found := FindFirst(l.rows, d);
    found.Some? && (found.value.expiresAt.None? || found.value.expiresAt.value >= e)
  }

  lemma StaleDeleteKeepsOthers(l: Ledger, req: Delivery, now: int, d: Digest)
    requires WellFormed(l) && FindFirst(l.rows, d).Some? && req.digest != d
    ensures FindFirst(AfterStaleDelete(l, req, now), d) == FindFirst(l.rows, d)
  {
    var stale := FindFirst(l.rows, req.digest);
    if stale.Some? { FindAfterDelete(l.rows, stale.value.id, d); }
  }

  lemma DeliverKeepsReservation(l: Ledger, req: Delivery, now: int, d: Digest, e: int)
    requires WellFormed(l) && Reserved(l, d, e) && now < e
    ensures FindFirst(Admit(l, req, now).0.rows, d) == FindFirst(l.rows, d)
    ensures Admit(l, req, now).1 != Fresh(d)
  {
    if req.digest != d {
      StaleDeleteKeepsOthers(l, req, now, d);
      FindAfterAppend(AfterStaleDelete(l, req, now), NewRow(l, req, now), d);
    }
  }

  lemma ReleaseKeepsReservation(l: Ledger, other: Digest, faults: Faults, d: Digest)
    requires WellFormed(l) && FindFirst(l.rows, d).Some? && other != d
    ensures FindFirst(Release(l, other, faults).0.rows, d) == FindFirst(l.rows, d)
  {
    var found := FindFirst(l.rows, other);
    if found.Some? { FindAfterDelete(l.rows, found.value.id, d); }
  }

  lemma SweepKeepsReservation(l: Ledger, now: int, force: bool, failing: set<int>, d: Digest, e: int)
    requires WellFormed(l) && Reserved(l, d, e) && now < e
    ensures FindFirst(Sweep(l, now, force, failing).rows, d) == FindFirst(l.rows, d)
  {
    var row := FindFirst(l.rows, d).value;
    assert !Swept(row, now, SWEEP_LOOKBACK_DAYS + 2, failing);
    FindAfterSweep(l.rows, now, SWEEP_LOOKBACK_DAYS + 2, failing, d);
  }

  /** Before the reservation ends, a step that does not release `d` leaves its row standing. */
  lemma StepKeepsReservation(l: Ledger, ev: Event, d: Digest, e: int)
    requires WellFormed(l) && Reserved(l, d, e) && ev.now < e && !Releases(ev, d)
    ensures FindFirst(Step(l, ev).rows, d) == FindFirst(l.rows, d)
    ensures ev.Deliver? ==> Admit(l, ev.req, ev.now).1 != Fresh(d)
  {
    match ev {
      case Deliver(req, now) => DeliverKeepsReservation(l, req, now, d, e);
      case ReleaseOf(other, faults, _) => ReleaseKeepsReservation(l, other, faults, d);
      case SweepPass(force, failing, now) => SweepKeepsReservation(l, now, force, failing, d, e);
    }
  }

  /** And so does a run. */
  lemma {:induction false} ReservationLasts(l: Ledger, evs: seq<Event>, d: Digest, e: int)
    requires WellFormed(l) && Reserved(l, d, e)
    requires forall i :: 0 <= i < |evs| ==> evs[i].now < e && !Releases(evs[i], d)
    ensures FindFirst(Run(l, evs).rows, d) == FindFirst(l.rows, d)
    decreases |evs|
  {
    if evs != [] {
      var n := |evs| - 1;
      ReservationLasts(l, evs[..n], d, e);
      RunKeepsWellFormed(l, evs[..n]);
      StepKeepsReservation(Run(l, evs[..n]), evs[n], d, e);
    }
  }

  lemma NoFreshBeforeExpiry(l: Ledger, evs: seq<Event>, j: nat, d: Digest, e: int)
    requires WellFormed(l) && Reserved(l, d, e) && Ordered(evs) && FreshAt(l, evs, j, d)
    requires forall i :: 0 <= i < j ==> !Releases(evs[i], d)
    ensures evs[j].now >= e
  {
    if evs[j].now < e {
      ReservationLasts(l, evs[..j], d, e);
      RunKeepsWellFormed(l, evs[..j]);
      StepKeepsReservation(Run(l, evs[..j]), evs[j], d, e);
    }
  }

  /** No row of the digest that dies within 24 hours is left in front of the new one. */
  predicate NoStaleRowLeft(l: Ledger, req: Delivery, now: int) {
    var left := FindFirst(AfterStaleDelete(l, req, now), req.digest);
    left.None? || left.value.expiresAt.None? || left.value.expiresAt.value >= now + DELIVERY_TTL_MS
  }

  ghost predicate ExclusiveFor24h(l: Ledger, d: Digest, now: int) {
    forall evs: seq<Event>, j: nat ::
      FreshAt(l, evs, j, d) && Ordered(evs) && (forall i :: 0 <= i < |evs| ==> evs[i].now >= now && !Releases(evs[i], d))
      ==> evs[j].now >= now + DELIVERY_TTL_MS
  }

  lemma NoStaleIsExclusive(l: Ledger, req: Delivery, now: int)
    requires WellFormed(l) && Admit(l, req, now).1.Fresh? && NoStaleRowLeft(l, req, now)
    ensures ExclusiveFor24h(Admit(l, req, now).0, req.digest, now)
  {
    var d := req.digest;
    var l' := Admit(l, req, now).0;
    StepKeepsWellFormed(l, Deliver(req, now));
    FindAfterAppend(AfterStaleDelete(l, req, now), NewRow(l, req, now), d);
    forall evs: seq<Event>, j: nat | FreshAt(l', evs, j, d) && Ordered(evs)
        && (forall i :: 0 <= i < |evs| ==> evs[i].now >= now && !Releases(evs[i], d))
      ensures evs[j].now >= now + DELIVERY_TTL_MS
    {
      NoFreshBeforeExpiry(l', evs, j, d, now + DELIVERY_TTL_MS);
    }
  }

  /** A row of `d` that dies within 24 hours lets the body in again at once, or as soon as it dies. */
  lemma DyingRowAdmits(l: Ledger, d: Digest, store: StoreId, now: int)
    requires FindFirst(l.rows, d).Some? && FindFirst(l.rows, d).value.expiresAt.Some?
    requires FindFirst(l.rows, d).value.expiresAt.value < now + DELIVERY_TTL_MS
    ensures !ExclusiveFor24h(l, d, now)
  {
    var x := FindFirst(l.rows, d).value.expiresAt.value;
    var again := Deliver(Delivery(store, d, [], NO_FAULTS), if x < now then now else x);
    assert [again][..0] == [];
    assert FreshAt(l, [again], 0, d);
  }

  /** A fresh admission is the only one for 24 hours, over every continuation of the run without
      a release, exactly when the admission left no stale row of its digest standing. */
  lemma FreshIsExclusiveIff(l: Ledger, req: Delivery, now: int)
    requires WellFormed(l) && Admit(l, req, now).1.Fresh?
    ensures ExclusiveFor24h(Admit(l, req, now).0, req.digest, now) <==> NoStaleRowLeft(l, req, now)
  {
    if NoStaleRowLeft(l, req, now) {
      NoStaleIsExclusive(l, req, now);
    } else {
      FindAfterAppend(AfterStaleDelete(l, req, now), NewRow(l, req, now), req.digest);
      DyingRowAdmits(Admit(l, req, now).0, req.digest, req.store, now);
    }
  }

  ghost predicate AtMostOneRowPerDigest(l: Ledger) {
    forall d :: Count(l.rows, d) <= 1
  }

  lemma StepKeepsUnique(l: Ledger, e: Event)
    requires WellFormed(l) && AtMostOneRowPerDigest(l) && (e.Deliver? ==> !e.req.faults.delete)
    ensures AtMostOneRowPerDigest(Step(l, e))
  {
    forall d
      ensures Count(Step(l, e).rows, d) <= 1
    {
      match e {
        case Deliver(req, now) =>
          UniqueLeavesNothingStale(l, req, now);
          CountAfterAppend(AfterStaleDelete(l, req, now), NewRow(l, req, now), d);
          CountZero(AfterStaleDelete(l, req, now), d);
          if FindFirst(l.rows, req.digest).Some? { CountAfterDelete(l.rows, FindFirst(l.rows, req.digest).value.id, d); }
        case ReleaseOf(d', _, _) =>
          if FindFirst(l.rows, d').Some? { CountAfterDelete(l.rows, FindFirst(l.rows, d').value.id, d); }
        case SweepPass(_, failing, now) =>
          CountAfterSweep(l.rows, now, SWEEP_LOOKBACK_DAYS + 2, failing, d);
      }
    }
  }

  lemma UniqueLeavesNothingStale(l: Ledger, req: Delivery, now: int)
    requires AtMostOneRowPerDigest(l) && !req.faults.delete
    ensures Admit(l, req, now).1.Fresh? ==> FindFirst(AfterStaleDelete(l, req, now), req.digest).None?
  {
    var found := FindFirst(l.rows, req.digest);
    if found.Some? {
      CountAfterDelete(l.rows, found.value.id, req.digest);
      CountZero(DeleteById(l.rows, found.value.id), req.digest);
    }
  }

  predicate DeletesSucceed(evs: seq<Event>) {
    forall i :: 0 <= i < |evs| && evs[i].Deliver? ==> !evs[i].req.faults.delete
  }

  lemma {:induction false} RunKeepsUnique(evs: seq<Event>)
    requires DeletesSucceed(evs)
    ensures AtMostOneRowPerDigest(Run(EMPTY, evs))
    decreases |evs|
  {
    if evs != [] {
      RunKeepsUnique(evs[..|evs| - 1]);
      RunKeepsWellFormed(EMPTY, evs[..|evs| - 1]);
      StepKeepsUnique(Run(EMPTY, evs[..|evs| - 1]), evs[|evs| - 1]);
    }
  }

  /** At-most-once delivery over whole runs: two fresh admissions of one digest with no release
      between them are at least 24 hours apart, when the deletes of expired rows succeed. */
  lemma FreshAdmissionsAreADayApart(evs: seq<Event>, i: nat, j: nat, d: Digest)
    requires Ordered(evs) && DeletesSucceed(evs)
    requires i < j && FreshAt(EMPTY, evs, i, d) && FreshAt(EMPTY, evs, j, d)
    requires forall k :: i < k < j ==> !Releases(evs[k], d)
    ensures evs[j].now - evs[i].now >= DELIVERY_TTL_MS
  {
    RunKeepsUnique(evs[..i]);
    UniqueLeavesNothingStale(Run(EMPTY, evs[..i]), evs[i].req, evs[i].now);
    FreshStands(evs, i, d);
    FreshInRest(evs, i + 1, j, d);
    NoFreshBeforeExpiry(Run(EMPTY, evs[..i + 1]), evs[i + 1..], j - i - 1, d, evs[i].now + DELIVERY_TTL_MS);
  }

  lemma FreshInRest(evs: seq<Event>, i: nat, j: nat, d: Digest)
    requires i <= j && FreshAt(EMPTY, evs, j, d)
    ensures FreshAt(Run(EMPTY, evs[..i]), evs[i..], j - i, d)
  {
    RunInTwoParts(EMPTY, evs[..j], i);
    assert evs[..j][..i] == evs[..i] && evs[..j][i..] == evs[i..][..j - i];
  }

  /** The row that a fresh admission leaves when no other row of its digest is left. */
  lemma FreshStands(evs: seq<Event>, i: nat, d: Digest)
    requires FreshAt(EMPTY, evs, i, d)
    requires FindFirst(AfterStaleDelete(Run(EMPTY, evs[..i]), evs[i].req, evs[i].now), d) == None
    ensures WellFormed(Run(EMPTY, evs[..i + 1]))
    ensures FindFirst(Run(EMPTY, evs[..i + 1]).rows, d) == Some(NewRow(Run(EMPTY, evs[..i]), evs[i].req, evs[i].now))
  {
    var l, e := Run(EMPTY, evs[..i]), evs[i];
    RunKeepsWellFormed(EMPTY, evs[..i]);
    FindAfterAppend(AfterStaleDelete(l, e.req, e.now), NewRow(l, e.req, e.now), d);
    assert evs[..i + 1][..i] == evs[..i];
    RunKeepsWellFormed(EMPTY, evs[..i + 1]);
  }

  /** The answers while a reservation lives, over every run: from a fresh admission that left no
      other row of its digest, and until its 24 hours end or it is released, every other
      store that presents the body gets 409 and the same store gets `duplicate`, and the table
      stays as it is. */
  lemma WhileReservedAlone(evs: seq<Event>, i: nat, j: nat, d: Digest)
    requires Ordered(evs) && i < j < |evs| && FreshAt(EMPTY, evs, i, d)
    requires FindFirst(AfterStaleDelete(Run(EMPTY, evs[..i]), evs[i].req, evs[i].now), d) == None
    requires forall k :: i < k < j ==> !Releases(evs[k], d)
    requires evs[j].Deliver? && evs[j].req.digest == d && evs[j].now < evs[i].now + DELIVERY_TTL_MS
    requires AssertTenant(evs[j].req.store, evs[j].req.claims).None? && !evs[j].req.faults.find
    ensures Admit(Run(EMPTY, evs[..j]), evs[j].req, evs[j].now)
         == (Run(EMPTY, evs[..j]),
             if evs[j].req.store == evs[i].req.store then Duplicate(d) else Refused(409, CrossTenantReplay))
  {
    var row := NewRow(Run(EMPTY, evs[..i]), evs[i].req, evs[i].now);
    FreshStands(evs, i, d);
    RunInTwoParts(EMPTY, evs[..j], i + 1);
    assert evs[..j][..i + 1] == evs[..i + 1] && evs[..j][i + 1..] == evs[i + 1..j];
    ReservationLasts(Run(EMPTY, evs[..i + 1]), evs[i + 1..j], d, evs[i].now + DELIVERY_TTL_MS);
  }

  /** The same wherever deletes of expired rows succeed. */
  lemma WhileReserved(evs: seq<Event>, i: nat, j: nat, d: Digest)
    requires Ordered(evs) && DeletesSucceed(evs) && i < j < |evs| && FreshAt(EMPTY, evs, i, d)
    requires forall k :: i < k < j ==> !Releases(evs[k], d)
    requires evs[j].Deliver? && evs[j].req.digest == d && evs[j].now < evs[i].now + DELIVERY_TTL_MS
    requires AssertTenant(evs[j].req.store, evs[j].req.claims).None? && !evs[j].req.faults.find
    ensures Admit(Run(EMPTY, evs[..j]), evs[j].req, evs[j].now)
         == (Run(EMPTY, evs[..j]),
             if evs[j].req.store == evs[i].req.store then Duplicate(d) else Refused(409, CrossTenantReplay))
  {
    RunKeepsUnique(evs[..i]);
    UniqueLeavesNothingStale(Run(EMPTY, evs[..i]), evs[i].req, evs[i].now);
    WhileReservedAlone(evs, i, j, d);
  }

  /** A refused delivery leaves no new row behind; a tenant mismatch changes nothing at all. */
  lemma RefusalLeavesNoRow(l: Ledger, req: Delivery, now: int)
    requires Admit(l, req, now).1.Refused?
    ensures forall r :: r in Admit(l, req, now).0.rows ==> r in l.rows
    ensures AssertTenant(req.store, req.claims).Some? ==> Admit(l, req, now).0 == l
  {
  }

  /** The condition is needed: when the delete of an expired row throws, the old row keeps
      shadowing the new one and the body is admitted again one millisecond later. */
  lemma FailedDeleteAdmitsTwice(store: StoreId, d: Digest)
    ensures var day := DELIVERY_TTL_MS;
      var evs := [Deliver(Delivery(store, d, [], NO_FAULTS), 0),
                  Deliver(Delivery(store, d, [], Faults(false, true, false)), day),
                  Deliver(Delivery(store, d, [], NO_FAULTS), day + 1)];
      FreshAt(EMPTY, evs, 1, d) && FreshAt(EMPTY, evs, 2, d)
  {
    var day := DELIVERY_TTL_MS;
    var e0 := Deliver(Delivery(store, d, [], NO_FAULTS), 0);
    var e1 := Deliver(Delivery(store, d, [], Faults(false, true, false)), day);
    var e2 := Deliver(Delivery(store, d, [], NO_FAULTS), day + 1);
    var evs := [e0, e1, e2];
    assert evs[..1] == [e0] && evs[..2] == [e0, e1] && [e0, e1][..1] == [e0] && [e0][..0] == [];
    var l1 := Step(EMPTY, e0);
    assert Run(EMPTY, [e0]) == l1;
    assert Run(EMPTY, [e0, e1]) == Step(l1, e1);
  }
}

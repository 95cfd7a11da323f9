/** The order webhook route (src/server/createApp.js) as the driver of the admission protocol:
    admit, sweep opportunistically, process, and release the reservation when processing threw. */
module OrderRoute {
  import opened Wrappers
  import opened WebhookTenancy

  /** Ingesting the order commits its effect, decides against it, or throws without effect. */
  datatype Processing = Commits | Declines | Throws

  /** One presentation of a body, with everything its environment will answer. */
  datatype Attempt = Attempt(req: Delivery, processing: Processing, sweepFailing: set<int>,
                             releaseFaults: Faults, now: int)

  datatype Reply = Reply(status: int, duplicate: bool)

  datatype Result = Result(ledger: Ledger, reply: Reply, applied: bool)

  function Handle(l: Ledger, at: Attempt): Result {
    var (l1, admission) := Admit(l, at.req, at.now);
    match admission
    case Refused(status, _) => Result(l1, Reply(status, false), false)
    case Duplicate(_) => Result(Sweep(l1, at.now, false, at.sweepFailing), Reply(200, true), false)
    case Fresh(d) =>
      var l2 := Sweep(l1, at.now, false, at.sweepFailing);
      match at.processing
      case Commits => Result(l2, Reply(200, false), true)
      case Declines => Result(l2, Reply(400, false), false)
      case Throws => Result(Release(l2, d, at.releaseFaults).0, Reply(400, false), false)
  }

  class Route {
    const table: Deliveries
    var applied: seq<Digest>

    constructor (table: Deliveries)
      ensures this.table == table && applied == []
    {
      this.table := table;
      this.applied := [];
    }

    method Post(at: Attempt) returns (reply: Reply)
      modifies this, table
      ensures var r := Handle(old(table.Model()), at);
        && table.Model() == r.ledger && reply == r.reply
        && applied == if r.applied then old(applied) + [at.req.digest] else old(applied)
    {
      var admission := table.AdmitDelivery(at.req, at.now);
      if admission.Refused? { return Reply(admission.status, false); }
      var swept, skipped := table.SweepExpiredDeliveries(at.now, false, at.sweepFailing);
      if admission.Duplicate? { return Reply(200, true); }
      match at.processing {
        case Commits =>
          applied := applied + [at.req.digest];
          return Reply(200, false);
        case Declines =>
          return Reply(400, false);
        case Throws =>
          var released := table.ReleaseDelivery(admission.digest, at.releaseFaults);
          return Reply(400, false);
      }
    }
  }

  // ---------------------------------------------------------------- whole runs of attempts

  function Served(l: Ledger, ats: seq<Attempt>): Ledger
    decreases |ats|
  {
    if ats == [] then l else Handle(Served(l, ats[..|ats| - 1]), ats[|ats| - 1]).ledger
  }

  predicate AppliedAt(l: Ledger, ats: seq<Attempt>, i: nat, d: Digest) {
    i < |ats| && ats[i].req.digest == d && Handle(Served(l, ats[..i]), ats[i]).applied
  }

  predicate InOrder(ats: seq<Attempt>) {
    forall i, j :: 0 <= i < j < |ats| ==> ats[i].now <= ats[j].now
  }

  predicate DeletesWork(ats: seq<Attempt>) {
    forall i :: 0 <= i < |ats| ==> !ats[i].req.faults.delete
  }

  ghost predicate Sound(l: Ledger) {
    WellFormed(l) && AtMostOneRowPerDigest(l)
  }

  /** The steps an attempt makes on the table. */
  lemma HandleAsSteps(l: Ledger, at: Attempt)
    ensures var l1 := Step(l, Deliver(at.req, at.now));
      var l2 := Step(l1, SweepPass(false, at.sweepFailing, at.now));
      match Admit(l, at.req, at.now).1
      case Refused(_, _) => Handle(l, at).ledger == l1 && !Handle(l, at).applied
      case Duplicate(_) => Handle(l, at).ledger == l2 && !Handle(l, at).applied
      case Fresh(d) =>
        && d == at.req.digest
        && Handle(l, at).applied == at.processing.Commits?
        && Handle(l, at).ledger
           == if at.processing.Throws? then Step(l2, ReleaseOf(d, at.releaseFaults, at.now)) else l2
  {
  }

  lemma StepKeepsSound(l: Ledger, e: Event)
    requires Sound(l) && (e.Deliver? ==> !e.req.faults.delete)
    ensures Sound(Step(l, e))
  {
    StepKeepsWellFormed(l, e);
    StepKeepsUnique(l, e);
  }

  lemma {:induction false} UnsweptAndDeleted(rows: seq<Row>, id: nat, now: int, hi: int, failing: set<int>)
    ensures DeleteById(Unswept(rows, now, hi, failing), id) == Unswept(DeleteById(rows, id), now, hi, failing)
  {
    if rows != [] { UnsweptAndDeleted(rows[1..], id, now, hi, failing); }
  }

  lemma YoungRowIsNotSwept(l: Ledger, d: Digest, now: int, failing: set<int>)
    requires FindFirst(l.rows, d).Some? && FindFirst(l.rows, d).value.bucket >= BucketFor(now) - 1
    ensures FindFirst(Sweep(l, now, false, failing).rows, d) == FindFirst(l.rows, d)
  {
    assert !Swept(FindFirst(l.rows, d).value, now, SWEEP_LOOKBACK_DAYS + 2, failing);
    FindAfterSweep(l.rows, now, SWEEP_LOOKBACK_DAYS + 2, failing, d);
  }

  /** The route does not wait for the sweep it starts: the table is the same whether a pass, with
      whichever days it gets done, falls before or after the release of the attempt's own row. */
  lemma SweepAndReleaseCommute(l: Ledger, d: Digest, faults: Faults, now: int, failing: set<int>)
    requires FindFirst(l.rows, d).Some? && FindFirst(l.rows, d).value.bucket >= BucketFor(now) - 1
    ensures Release(Sweep(l, now, false, failing), d, faults).0 == Sweep(Release(l, d, faults).0, now, false, failing)
  {
    YoungRowIsNotSwept(l, d, now, failing);
    UnsweptAndDeleted(l.rows, FindFirst(l.rows, d).value.id, now, SWEEP_LOOKBACK_DAYS + 2, failing);
  }

  lemma HandleKeepsSound(l: Ledger, at: Attempt)
    requires Sound(l) && !at.req.faults.delete
    ensures Sound(Handle(l, at).ledger)
  {
    HandleAsSteps(l, at);
    var l1 := Step(l, Deliver(at.req, at.now));
    var l2 := Step(l1, SweepPass(false, at.sweepFailing, at.now));
    StepKeepsSound(l, Deliver(at.req, at.now));
    StepKeepsSound(l1, SweepPass(false, at.sweepFailing, at.now));
    StepKeepsSound(l2, ReleaseOf(at.req.digest, at.releaseFaults, at.now));
  }

  lemma {:induction false} ServedKeepsSound(ats: seq<Attempt>)
    requires DeletesWork(ats)
    ensures Sound(Served(EMPTY, ats))
    decreases |ats|
  {
    if ats != [] {
      ServedKeepsSound(ats[..|ats| - 1]);
      HandleKeepsSound(Served(EMPTY, ats[..|ats| - 1]), ats[|ats| - 1]);
    }
  }

  predicate Released(at: Attempt) {
    at.processing.Throws? && !at.releaseFaults.find && !at.releaseFaults.delete
  }

  /** The table between the sweep and the release. */
  function Processed(l: Ledger, at: Attempt): Ledger {
    Sweep(Admit(l, at.req, at.now).0, at.now, false, at.sweepFailing)
  }

  /** No other row of the body is left when the attempt's own is written. */
  predicate LeavesNoOther(l: Ledger, at: Attempt) {
    FindFirst(AfterStaleDelete(l, at.req, at.now), at.req.digest) == None
  }

  lemma FreshRowIsFound(l: Ledger, at: Attempt)
    requires Admit(l, at.req, at.now).1.Fresh? && LeavesNoOther(l, at)
    ensures FindFirst(Processed(l, at).rows, at.req.digest) == Some(NewRow(l, at.req, at.now))
    ensures Count(Processed(l, at).rows, at.req.digest) <= 1
  {
    var d, rows, row := at.req.digest, AfterStaleDelete(l, at.req, at.now), NewRow(l, at.req, at.now);
    FindAfterAppend(rows, row, d);
    YoungRowIsNotSwept(Admit(l, at.req, at.now).0, d, at.now, at.sweepFailing);
    CountZero(rows, d);
    CountAfterAppend(rows, row, d);
    CountAfterSweep(rows + [row], at.now, SWEEP_LOOKBACK_DAYS + 2, at.sweepFailing, d);
  }

  lemma ReleaseTakesTheOnlyRow(l: Ledger, d: Digest, faults: Faults)
    requires Count(l.rows, d) <= 1 && !faults.find && !faults.delete
    ensures Count(Release(l, d, faults).0.rows, d) == 0 && FindFirst(Release(l, d, faults).0.rows, d) == None
  {
    var found := FindFirst(l.rows, d);
    CountZero(l.rows, d);
    if found.Some? {
      CountAfterDelete(l.rows, found.value.id, d);
      CountZero(DeleteById(l.rows, found.value.id), d);
    }
  }

  lemma FreshHandled(l: Ledger, at: Attempt)
    requires Admit(l, at.req, at.now).1.Fresh?
    ensures Handle(l, at).ledger.rows
         == if Released(at) then Release(Processed(l, at), at.req.digest, at.releaseFaults).0.rows
            else Processed(l, at).rows
  {
  }

  /** An attempt that is admitted with no other row of its body left leaves exactly its own, valid
      for 24 hours, unless its processing threw and the release went through. */
  lemma AdmittedLeavesReservation(l: Ledger, at: Attempt)
    requires Admit(l, at.req, at.now).1.Fresh? && LeavesNoOther(l, at)
    ensures FindFirst(Handle(l, at).ledger.rows, at.req.digest)
         == if Released(at) then None else Some(NewRow(l, at.req, at.now))
    ensures Count(Handle(l, at).ledger.rows, at.req.digest) <= 1
  {
    FreshRowIsFound(l, at);
    FreshHandled(l, at);
    if Released(at) { ReleaseTakesTheOnlyRow(Processed(l, at), at.req.digest, at.releaseFaults); }
  }

  /** Before the reservation ends, no attempt of any kind moves its row. */
  lemma HandleKeepsReservation(l: Ledger, at: Attempt, d: Digest, e: int)
    requires WellFormed(l) && Reserved(l, d, e) && at.now < e
    ensures WellFormed(Handle(l, at).ledger) && FindFirst(Handle(l, at).ledger.rows, d) == FindFirst(l.rows, d)
    ensures at.req.digest == d ==> !Handle(l, at).applied
  {
    HandleAsSteps(l, at);
    var e1 := Deliver(at.req, at.now);
    var l1 := Step(l, e1);
    StepKeepsWellFormed(l, e1);
    StepKeepsReservation(l, e1, d, e);
    var e2 := SweepPass(false, at.sweepFailing, at.now);
    var l2 := Step(l1, e2);
    StepKeepsWellFormed(l1, e2);
    StepKeepsReservation(l1, e2, d, e);
    var e3 := ReleaseOf(at.req.digest, at.releaseFaults, at.now);
    StepKeepsWellFormed(l2, e3);
    if at.req.digest != d { StepKeepsReservation(l2, e3, d, e); }
  }

  lemma {:induction false} ReservationOutlivesAttempts(l: Ledger, ats: seq<Attempt>, d: Digest, e: int)
    requires WellFormed(l) && Reserved(l, d, e)
    requires forall i :: 0 <= i < |ats| ==> ats[i].now < e
    ensures WellFormed(Served(l, ats)) && FindFirst(Served(l, ats).rows, d) == FindFirst(l.rows, d)
    decreases |ats|
  {
    if ats != [] {
      ReservationOutlivesAttempts(l, ats[..|ats| - 1], d, e);
      HandleKeepsReservation(Served(l, ats[..|ats| - 1]), ats[|ats| - 1], d, e);
    }
  }

  /** Attempt `k` of the run is a non-duplicate admission of `d`. */
  predicate AdmittedAt(l: Ledger, ats: seq<Attempt>, k: nat, d: Digest) {
    k < |ats| && Admit(Served(l, ats[..k]), ats[k].req, ats[k].now).1 == Fresh(d)
  }

  /** Only a fresh admission of `d` adds a row of `d`. */
  lemma HandleAddsNoRow(l: Ledger, at: Attempt, d: Digest, row: Row)
    requires Admit(l, at.req, at.now).1 != Fresh(d)
    requires row.digest == d && row in Handle(l, at).ledger.rows
    ensures row in l.rows
  {
    HandleAsSteps(l, at);
  }

  ghost predicate NeverAdmits(l: Ledger, ats: seq<Attempt>, d: Digest) {
    forall k: nat :: !AdmittedAt(l, ats, k, d)
  }

  lemma NeverAdmitsBefore(l: Ledger, ats: seq<Attempt>, n: nat, d: Digest)
    requires n <= |ats| && NeverAdmits(l, ats, d)
    ensures NeverAdmits(l, ats[..n], d)
  {
    forall k: nat
      ensures !AdmittedAt(l, ats[..n], k, d)
    {
      assert !AdmittedAt(l, ats, k, d);
      assert k <= n ==> ats[..n][..k] == ats[..k];
    }
  }

  lemma {:induction false} ServedAddsNoRow(l: Ledger, ats: seq<Attempt>, d: Digest, row: Row)
    requires NeverAdmits(l, ats, d) && row.digest == d && row in Served(l, ats).rows
    ensures row in l.rows
    decreases |ats|
  {
    if ats != [] {
      var n := |ats| - 1;
      assert !AdmittedAt(l, ats, n, d);
      HandleAddsNoRow(Served(l, ats[..n]), ats[n], d, row);
      NeverAdmitsBefore(l, ats, n, d);
      ServedAddsNoRow(l, ats[..n], d, row);
    }
  }

  lemma {:induction false} ServedAppend(l: Ledger, a: seq<Attempt>, b: seq<Attempt>)
    ensures Served(l, a + b) == Served(Served(l, a), b)
    decreases |b|
  {
    if b == [] {
      assert a + b == a;
    } else {
      var front := b[..|b| - 1];
      assert (a + b)[..|a + b| - 1] == a + front;
      ServedAppend(l, a, front);
    }
  }

  lemma ServedInTwoParts(l: Ledger, ats: seq<Attempt>, i: nat)
    requires i <= |ats|
    ensures Served(l, ats) == Served(Served(l, ats[..i]), ats[i..])
  {
    assert ats == ats[..i] + ats[i..];
    ServedAppend(l, ats[..i], ats[i..]);
  }

  /** The row that a presentation of the attempt's body would meet lives 24 hours from the attempt. */
  predicate LeavesReservation(l: Ledger, at: Attempt) {
    Reserved(Handle(l, at).ledger, at.req.digest, at.now + DELIVERY_TTL_MS)
  }

  /** Whatever is presented from now on, the effect of `d` is not applied within 24 hours. */
  ghost predicate EffectExclusiveFor24h(l: Ledger, d: Digest, now: int) {
    forall ats: seq<Attempt>, j: nat ::
      AppliedAt(l, ats, j, d) && InOrder(ats) && (forall i :: 0 <= i < |ats| ==> ats[i].now >= now)
      ==> ats[j].now >= now + DELIVERY_TTL_MS
  }

  lemma ReservedIsExclusive(l: Ledger, ats: seq<Attempt>, j: nat, d: Digest, e: int)
    requires WellFormed(l) && Reserved(l, d, e) && InOrder(ats) && AppliedAt(l, ats, j, d)
    ensures ats[j].now >= e
  {
    if ats[j].now < e {
      ReservationOutlivesAttempts(l, ats[..j], d, e);
      HandleKeepsReservation(Served(l, ats[..j]), ats[j], d, e);
    }
  }

  lemma HandleKeepsWellFormed(l: Ledger, at: Attempt)
    requires WellFormed(l)
    ensures WellFormed(Handle(l, at).ledger)
  {
    HandleAsSteps(l, at);
    var l1 := Step(l, Deliver(at.req, at.now));
    var l2 := Step(l1, SweepPass(false, at.sweepFailing, at.now));
    StepKeepsWellFormed(l, Deliver(at.req, at.now));
    StepKeepsWellFormed(l1, SweepPass(false, at.sweepFailing, at.now));
    StepKeepsWellFormed(l2, ReleaseOf(at.req.digest, at.releaseFaults, at.now));
  }

  lemma {:induction false} ServedKeepsWellFormed(ats: seq<Attempt>)
    ensures WellFormed(Served(EMPTY, ats))
    decreases |ats|
  {
    if ats != [] {
      ServedKeepsWellFormed(ats[..|ats| - 1]);
      HandleKeepsWellFormed(Served(EMPTY, ats[..|ats| - 1]), ats[|ats| - 1]);
    }
  }

  lemma RowOfItsOwn(l: Ledger, at: Attempt)
    requires Handle(l, at).applied
    ensures NewRow(l, at.req, at.now) in Handle(l, at).ledger.rows
  {
  }

  lemma AdmittedAnew(l: Ledger, at: Attempt)
    requires AssertTenant(at.req.store, at.req.claims).None? && at.req.faults == NO_FAULTS && at.processing.Commits?
    requires FindFirst(l.rows, at.req.digest).Some? && IsExpired(FindFirst(l.rows, at.req.digest).value, at.now)
    ensures AppliedAt(l, [at], 0, at.req.digest)
  {
    assert [at][..0] == [];
  }

  /** The effect that an attempt applied is the only one for 24 hours, over every continuation,
      exactly when the row of its digest that it leaves in front lives that long. */
  lemma EffectIsExclusiveIff(l: Ledger, at: Attempt)
    requires WellFormed(l) && Handle(l, at).applied
    ensures EffectExclusiveFor24h(Handle(l, at).ledger, at.req.digest, at.now) <==> LeavesReservation(l, at)
  {
    var d, l', e := at.req.digest, Handle(l, at).ledger, at.now + DELIVERY_TTL_MS;
    HandleKeepsWellFormed(l, at);
    RowOfItsOwn(l, at);
    if LeavesReservation(l, at) {
      forall ats: seq<Attempt>, j: nat
        | AppliedAt(l', ats, j, d) && InOrder(ats) && (forall i :: 0 <= i < |ats| ==> ats[i].now >= at.now)
        ensures ats[j].now >= e
      {
        ReservedIsExclusive(l', ats, j, d, e);
      }
    } else {
      var x := FindFirst(l'.rows, d).value.expiresAt.value;
      var when := if x < at.now then at.now else x;
      var again := Attempt(Delivery(at.req.store, d, [], NO_FAULTS), Commits, {}, NO_FAULTS, when);
      AdmittedAnew(l', again);
    }
  }

  /** An attempt that left no stale row of its digest when it was admitted leaves such a row. */
  lemma NoStaleLeavesReservation(l: Ledger, at: Attempt)
    requires WellFormed(l) && Handle(l, at).applied && NoStaleRowLeft(l, at.req, at.now)
    ensures LeavesReservation(l, at)
  {
    var d, e, l1 := at.req.digest, at.now + DELIVERY_TTL_MS, Admit(l, at.req, at.now).0;
    FindAfterAppend(AfterStaleDelete(l, at.req, at.now), NewRow(l, at.req, at.now), d);
    assert Reserved(l1, d, e);
    StepKeepsWellFormed(l, Deliver(at.req, at.now));
    SweepKeepsReservation(l1, at.now, false, at.sweepFailing, d, e);
  }

  /** Retries are never doubled: however often, for whichever stores and with whatever storage
      faults a body is presented, its effect is applied again at least 24 hours after an attempt
      that left no stale row of its digest. */
  lemma EffectAtMostOncePerWindow(ats: seq<Attempt>, i: nat, j: nat, d: Digest)
    requires InOrder(ats) && i < j && AppliedAt(EMPTY, ats, i, d) && AppliedAt(EMPTY, ats, j, d)
    requires NoStaleRowLeft(Served(EMPTY, ats[..i]), ats[i].req, ats[i].now)
    ensures ats[j].now - ats[i].now >= DELIVERY_TTL_MS
  {
    ReservedAfter(ats, i, d);
    ReservedUntilApplied(ats, i + 1, j, d, ats[i].now + DELIVERY_TTL_MS);
  }

  lemma ReservedAfter(ats: seq<Attempt>, i: nat, d: Digest)
    requires AppliedAt(EMPTY, ats, i, d) && NoStaleRowLeft(Served(EMPTY, ats[..i]), ats[i].req, ats[i].now)
    ensures Reserved(Served(EMPTY, ats[..i + 1]), d, ats[i].now + DELIVERY_TTL_MS)
  {
    ServedKeepsWellFormed(ats[..i]);
    NoStaleLeavesReservation(Served(EMPTY, ats[..i]), ats[i]);
    ServedNext(ats, i);
  }

  lemma ReservedUntilApplied(ats: seq<Attempt>, i: nat, j: nat, d: Digest, e: int)
    requires InOrder(ats) && i <= j && AppliedAt(EMPTY, ats, j, d) && Reserved(Served(EMPTY, ats[..i]), d, e)
    ensures ats[j].now >= e
  {
    var l, rest := Served(EMPTY, ats[..i]), ats[i..];
    ServedKeepsWellFormed(ats[..i]);
    AppliedInRest(ats, i, j, d);
    RestInOrder(ats, i);
    ReservedIsExclusive(l, rest, j - i, d, e);
  }

  lemma RestInOrder(ats: seq<Attempt>, i: nat)
    requires i <= |ats| && InOrder(ats)
    ensures InOrder(ats[i..])
  {
  }

  lemma ServedNext(ats: seq<Attempt>, i: nat)
    requires i < |ats|
    ensures Served(EMPTY, ats[..i + 1]) == Handle(Served(EMPTY, ats[..i]), ats[i]).ledger
  {
    assert ats[..i + 1][..i] == ats[..i];
  }

  lemma AppliedInRest(ats: seq<Attempt>, i: nat, j: nat, d: Digest)
    requires i <= j && AppliedAt(EMPTY, ats, j, d)
    ensures AppliedAt(Served(EMPTY, ats[..i]), ats[i..], j - i, d)
  {
    ServedInTwoParts(EMPTY, ats[..j], i);
    assert ats[..j][..i] == ats[..i] && ats[..j][i..] == ats[i..][..j - i];
  }

  /** So any two applications are that far apart as long as deletes of expired rows succeed. */
  lemma EffectOncePerWindowWithDeletes(ats: seq<Attempt>, i: nat, j: nat, d: Digest)
    requires InOrder(ats) && DeletesWork(ats) && i < j
    requires AppliedAt(EMPTY, ats, i, d) && AppliedAt(EMPTY, ats, j, d)
    ensures ats[j].now - ats[i].now >= DELIVERY_TTL_MS
  {
    DeletesLeaveNoOther(ats, i, d);
    EffectAtMostOncePerWindow(ats, i, j, d);
  }

  lemma DeletesLeaveNoOther(ats: seq<Attempt>, i: nat, d: Digest)
    requires DeletesWork(ats) && AdmittedAt(EMPTY, ats, i, d)
    ensures LeavesNoOther(Served(EMPTY, ats[..i]), ats[i])
  {
    ServedKeepsSound(ats[..i]);
    UniqueLeavesNothingStale(Served(EMPTY, ats[..i]), ats[i].req, ats[i].now);
  }

  // ---------------------------------------------------------------- what the sender is told

  function ReplyAt(ats: seq<Attempt>, j: nat): Reply
    requires j < |ats|
  {
    Handle(Served(EMPTY, ats[..j]), ats[j]).reply
  }

  /** 200 means that the effect was applied now, or that the body is a duplicate; an attempt that was
      admitted and declined or threw is told 400, and a refused one its refusal. */
  lemma ReplyMeans(l: Ledger, at: Attempt)
    ensures var r, a := Handle(l, at), Admit(l, at.req, at.now).1;
      && (r.applied <==> a.Fresh? && at.processing.Commits?)
      && (r.reply.status == 200 <==> r.applied || a.Duplicate?)
      && (r.reply.duplicate <==> a.Duplicate?)
      && (a.Fresh? && !at.processing.Commits? ==> r.reply == Reply(400, false))
      && (a.Refused? ==>
            && r.reply == Reply(a.status, false) && a.status in {403, 409, 503}
            && r.ledger == Step(l, Deliver(at.req, at.now)))
  {
    RefusedByClaim(at.req.store, at.req.claims);
  }

  /** Attempt `i` was admitted for the same store and body, less than 24 hours before attempt `j`, and
      its row has stood ever since. */
  ghost predicate Backs(ats: seq<Attempt>, i: nat, j: nat)
    requires j < |ats|
  {
    && i < j && AdmittedAt(EMPTY, ats, i, ats[j].req.digest) && ats[i].req.store == ats[j].req.store
    && ats[j].now < ats[i].now + DELIVERY_TTL_MS
    && forall k :: i < k <= j ==> OwnRow(ats, i) in Served(EMPTY, ats[..k]).rows
  }

  /** A row of the table is the row of an admitted attempt, standing since. */
  ghost predicate RowOf(ats: seq<Attempt>, row: Row, i: nat) {
    && i < |ats| && AdmittedAt(EMPTY, ats, i, row.digest) && row == OwnRow(ats, i)
    && forall k :: i < k <= |ats| ==> row in Served(EMPTY, ats[..k]).rows
  }

  lemma HandleAddsOwnRow(l: Ledger, at: Attempt, row: Row)
    requires row in Handle(l, at).ledger.rows && row !in l.rows
    ensures Admit(l, at.req, at.now).1 == Fresh(row.digest) && row == NewRow(l, at.req, at.now)
  {
    HandleAsSteps(l, at);
  }

  lemma RowOfLonger(ats: seq<Attempt>, n: nat, row: Row, i: nat)
    requires n + 1 == |ats| && RowOf(ats[..n], row, i) && row in Served(EMPTY, ats).rows
    ensures RowOf(ats, row, i)
  {
    assert ats[..n][..i] == ats[..i];
    forall k | i < k <= |ats|
      ensures row in Served(EMPTY, ats[..k]).rows
    {
      if k <= n { assert ats[..n][..k] == ats[..k]; } else { assert ats[..k] == ats; }
    }
  }

  lemma RowOfLast(ats: seq<Attempt>, n: nat, row: Row)
    requires n + 1 == |ats| && row in Served(EMPTY, ats).rows && row !in Served(EMPTY, ats[..n]).rows
    ensures RowOf(ats, row, n)
  {
    assert ats[..n + 1] == ats;
    ServedNext(ats, n);
    HandleAddsOwnRow(Served(EMPTY, ats[..n]), ats[n], row);
    assert AdmittedAt(EMPTY, ats, n, row.digest) && row == OwnRow(ats, n);
    assert forall k :: n < k <= |ats| ==> ats[..k] == ats;
  }

  lemma {:induction false} RowComesFrom(ats: seq<Attempt>, row: Row) returns (i: nat)
    requires row in Served(EMPTY, ats).rows
    ensures RowOf(ats, row, i)
    decreases |ats|
  {
    var n := |ats| - 1;
    if row in Served(EMPTY, ats[..n]).rows {
      i := RowComesFrom(ats[..n], row);
      RowOfLonger(ats, n, row, i);
    } else {
      i := n;
      RowOfLast(ats, n, row);
    }
  }

  lemma DuplicateIsLive(l: Ledger, req: Delivery, now: int)
    requires Admit(l, req, now).1.Duplicate?
    ensures var found := FindFirst(l.rows, req.digest);
      found.Some? && found.value.store == req.store && !IsExpired(found.value, now)
  {
  }

  lemma RowBacks(ats: seq<Attempt>, row: Row, i: nat, j: nat)
    requires j < |ats| && RowOf(ats[..j], row, i)
    requires row.digest == ats[j].req.digest && row.store == ats[j].req.store && !IsExpired(row, ats[j].now)
    ensures Backs(ats, i, j)
  {
    assert ats[..j][..i] == ats[..i];
    forall k | i < k <= j
      ensures OwnRow(ats, i) in Served(EMPTY, ats[..k]).rows
    {
      assert ats[..j][..k] == ats[..k];
    }
  }

  /** No order is lost behind a 200: over every run, an attempt that is told 200 has applied the
      effect itself, or is backed by an attempt admitted for the same store and body within the last
      24 hours whose row has stood ever since. That one did not throw and get released. */
  lemma OkIsBacked(ats: seq<Attempt>, j: nat) returns (i: nat)
    requires j < |ats| && ReplyAt(ats, j).status == 200
    ensures AppliedAt(EMPTY, ats, j, ats[j].req.digest) <==> !ReplyAt(ats, j).duplicate
    ensures ReplyAt(ats, j).duplicate ==> Backs(ats, i, j)
    ensures ReplyAt(ats, j).duplicate && LeavesNoOther(Served(EMPTY, ats[..i]), ats[i]) ==> !Released(ats[i])
  {
    i := 0;
    ReplyMeans(Served(EMPTY, ats[..j]), ats[j]);
    if ReplyAt(ats, j).duplicate {
      i := DuplicateIsBacked(ats, j);
      if LeavesNoOther(Served(EMPTY, ats[..i]), ats[i]) { BackingIsNotReleased(ats, i, j); }
    }
  }

  lemma DuplicateIsBacked(ats: seq<Attempt>, j: nat) returns (i: nat)
    requires j < |ats| && Admit(Served(EMPTY, ats[..j]), ats[j].req, ats[j].now).1.Duplicate?
    ensures Backs(ats, i, j)
  {
    var l := Served(EMPTY, ats[..j]);
    DuplicateIsLive(l, ats[j].req, ats[j].now);
    var row := FindFirst(l.rows, ats[j].req.digest).value;
    i := RowComesFrom(ats[..j], row);
    RowBacks(ats, row, i, j);
  }

  lemma BackingIsNotReleased(ats: seq<Attempt>, i: nat, j: nat)
    requires j < |ats| && Backs(ats, i, j) && LeavesNoOther(Served(EMPTY, ats[..i]), ats[i])
    ensures !Released(ats[i])
  {
    AdmittedLeavesReservation(Served(EMPTY, ats[..i]), ats[i]);
    ServedNext(ats, i);
    assert OwnRow(ats, i) in Served(EMPTY, ats[..i + 1]).rows;
  }

  predicate ReleasesWork(ats: seq<Attempt>) {
    forall i :: 0 <= i < |ats| ==> !ats[i].releaseFaults.find && !ats[i].releaseFaults.delete
  }

  /** While deletes and releases reach storage, every 200 stands for a decision: the attempt itself, or
      the one behind a duplicate, was committed or declined. No attempt that threw is told 200, now
      or through a retry. */
  lemma OkMeansDecided(ats: seq<Attempt>, j: nat) returns (i: nat)
    requires j < |ats| && ReplyAt(ats, j).status == 200 && DeletesWork(ats) && ReleasesWork(ats)
    ensures i <= j && AdmittedAt(EMPTY, ats, i, ats[j].req.digest) && !ats[i].processing.Throws?
    ensures i == j ==> AppliedAt(EMPTY, ats, j, ats[j].req.digest)
    ensures i < j ==> Backs(ats, i, j)
  {
    i := OkIsBacked(ats, j);
    if ReplyAt(ats, j).duplicate {
      DeletesLeaveNoOther(ats, i, ats[j].req.digest);
    } else {
      i := j;
    }
  }

  predicate Unobstructed(req: Delivery) {
    AssertTenant(req.store, req.claims).None? && req.faults == NO_FAULTS
  }

  /** The run serves, before `later`, attempt `i`, which is admitted afresh with no other row of its
      body left, and others after it. */
  ghost predicate ServedBefore(ats: seq<Attempt>, i: nat, later: int) {
    && InOrder(ats) && i < |ats|
    && AdmittedAt(EMPTY, ats, i, ats[i].req.digest) && LeavesNoOther(Served(EMPTY, ats[..i]), ats[i])
    && forall k :: 0 <= k < |ats| ==> ats[k].now <= later
  }

  /** No later attempt of the run is a fresh admission of the same body. */
  ghost predicate NotAgain(ats: seq<Attempt>, i: nat)
    requires i < |ats|
  {
    forall k: nat :: i < k ==> !AdmittedAt(EMPTY, ats, k, ats[i].req.digest)
  }

  function OwnRow(ats: seq<Attempt>, i: nat): Row
    requires i < |ats|
  {
    NewRow(Served(EMPTY, ats[..i]), ats[i].req, ats[i].now)
  }

  lemma ServedThrough(ats: seq<Attempt>, i: nat, later: int)
    requires ServedBefore(ats, i, later)
    ensures WellFormed(Served(EMPTY, ats[..i + 1])) && Count(Served(EMPTY, ats[..i + 1]).rows, ats[i].req.digest) <= 1
    ensures FindFirst(Served(EMPTY, ats[..i + 1]).rows, ats[i].req.digest)
         == if Released(ats[i]) then None else Some(OwnRow(ats, i))
  {
    AdmittedLeavesReservation(Served(EMPTY, ats[..i]), ats[i]);
    ServedNext(ats, i);
    ServedKeepsWellFormed(ats[..i + 1]);
  }

  /** Until its 24 hours end, the row of an attempt that was not released stands, whatever else
      is served in between. */
  lemma RowStandsInRun(ats: seq<Attempt>, i: nat, later: int)
    requires ServedBefore(ats, i, later) && !Released(ats[i]) && later < ats[i].now + DELIVERY_TTL_MS
    ensures FindFirst(Served(EMPTY, ats).rows, ats[i].req.digest) == Some(OwnRow(ats, i))
  {
    ServedThrough(ats, i, later);
    ServedInTwoParts(EMPTY, ats, i + 1);
    ReservationOutlivesAttempts(Served(EMPTY, ats[..i + 1]), ats[i + 1..], ats[i].req.digest,
                                ats[i].now + DELIVERY_TTL_MS);
  }

  lemma OneOfItsDigest(rows: seq<Row>, d: Digest, x: Row, y: Row)
    requires Count(rows, d) <= 1 && x in rows && y in rows && x.digest == d && y.digest == d
    ensures x == y
    decreases |rows|
  {
    if rows[0].digest == d {
      CountZero(rows[1..], d);
    } else {
      OneOfItsDigest(rows[1..], d, x, y);
    }
  }

  /** As long as the body is not admitted again, no other row of it appears. */
  lemma NoOtherRow(ats: seq<Attempt>, i: nat, later: int)
    requires ServedBefore(ats, i, later) && NotAgain(ats, i)
    ensures var left := FindFirst(Served(EMPTY, ats).rows, ats[i].req.digest);
      left == None || (!Released(ats[i]) && left == Some(OwnRow(ats, i)))
  {
    var d, l1, rest := ats[i].req.digest, Served(EMPTY, ats[..i + 1]), ats[i + 1..];
    ServedThrough(ats, i, later);
    ServedInTwoParts(EMPTY, ats, i + 1);
    forall k: nat
      ensures !AdmittedAt(l1, rest, k, d)
    {
      NotAgainInRest(ats, i, k);
    }
    var left := FindFirst(Served(EMPTY, ats).rows, d);
    if left.Some? {
      ServedAddsNoRow(l1, rest, d, left.value);
      if !Released(ats[i]) { OneOfItsDigest(l1.rows, d, left.value, OwnRow(ats, i)); }
    }
  }

  lemma NotAgainInRest(ats: seq<Attempt>, i: nat, k: nat)
    requires i < |ats| && NotAgain(ats, i)
    ensures !AdmittedAt(Served(EMPTY, ats[..i + 1]), ats[i + 1..], k, ats[i].req.digest)
  {
    var n := i + 1 + k;
    assert !AdmittedAt(EMPTY, ats, n, ats[i].req.digest);
    if n < |ats| {
      ServedInTwoParts(EMPTY, ats[..n], i + 1);
      assert ats[..n][..i + 1] == ats[..i + 1] && ats[..n][i + 1..] == ats[i + 1..][..k];
    }
  }

  /** What a retry of the same body is answered, for whichever store it is presented. */
  function Answer(at: Attempt, retry: Delivery): Admission {
    if retry.store == at.req.store then Duplicate(retry.digest) else Refused(409, CrossTenantReplay)
  }

  /** Retries are not swallowed, and not doubled: over every run, after a thrown attempt and any
      traffic that does not get the same body admitted again, a retry is admitted afresh exactly
      when the release reached storage or the 24 hours are over; otherwise it is a duplicate for
      its store and refused for any other. */
  lemma RetryAfterThrow(ats: seq<Attempt>, i: nat, retry: Delivery, later: int)
    requires ServedBefore(ats, i, later) && ats[i].processing.Throws? && NotAgain(ats, i)
    requires retry.digest == ats[i].req.digest && Unobstructed(retry)
    ensures Admit(Served(EMPTY, ats), retry, later).1
         == if Released(ats[i]) || later >= ats[i].now + DELIVERY_TTL_MS then Fresh(retry.digest)
            else Answer(ats[i], retry)
  {
    NoOtherRow(ats, i, later);
    if !Released(ats[i]) && later < ats[i].now + DELIVERY_TTL_MS { RowStandsInRun(ats, i, later); }
  }

  /** Over every run, after a committed or a declined attempt and any traffic at all, the body's
      own retries included, a retry is a duplicate for its store and refused for any other until
      the 24 hours are over; from then on it is admitted afresh, unless the body already was. */
  lemma RetryAfterDecision(ats: seq<Attempt>, i: nat, retry: Delivery, later: int)
    requires ServedBefore(ats, i, later) && !ats[i].processing.Throws?
    requires retry.digest == ats[i].req.digest && Unobstructed(retry)
    ensures later < ats[i].now + DELIVERY_TTL_MS ==>
      Admit(Served(EMPTY, ats), retry, later).1 == Answer(ats[i], retry)
    ensures later >= ats[i].now + DELIVERY_TTL_MS && NotAgain(ats, i) ==>
      Admit(Served(EMPTY, ats), retry, later).1 == Fresh(retry.digest)
  {
    if later < ats[i].now + DELIVERY_TTL_MS {
      RowStandsInRun(ats, i, later);
    } else if NotAgain(ats, i) {
      NoOtherRow(ats, i, later);
    }
  }
}

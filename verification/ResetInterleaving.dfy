/** Password reset (src/server/auth.js) with every redemption cut in two at its await on the hash of
    the new password, so that requests, other redemptions and sessions can come in between. */
module ResetInterleaving {
  import opened Wrappers
  import opened PasswordReset

  /** A redemption that has passed its checks and is hashing the new password. */
  datatype Checked = Checked(raw: string, userId: UserId)

  datatype Split = Split(s: State, pending: seq<Checked>)

  /** A redemption cut in two at its await on the hash, between other operations. */
  datatype SplitEvent =
    | Other(e: Event)
    | Check(raw: string, policyOk: bool, now: int)
    | Finish(i: nat, password: string)

  function SplitStep(p: Split, e: SplitEvent): Split {
    match e
    case Other(e) => p.(s := Step(p.s, e))
    case Check(raw, policyOk, now) =>
      (match Redeemed(p.s, raw, policyOk, now)
       case Some(id) => p.(pending := p.pending + [Checked(raw, id)])
       case None => p.(s := Redeem(p.s, raw, policyOk, "", now)))
    case Finish(i, password) =>
      if i >= |p.pending| then p
      else
        var id := p.pending[i].userId;
        Split(State(SetPassword(p.s.users, id, password), WithoutHash(p.s.resets, Sha256(p.pending[i].raw)),
                    Revoke(p.s.sessions, id)),
              p.pending[..i] + p.pending[i + 1..])
  }

  /** Without anything in between, the two halves are the redemption in one step. */
  lemma CheckThenFinish(p: Split, raw: string, policyOk: bool, password: string, now: int)
    ensures var checked := SplitStep(p, Check(raw, policyOk, now));
      if Redeemed(p.s, raw, policyOk, now).Some?
      then SplitStep(checked, Finish(|p.pending|, password)) == p.(s := Redeem(p.s, raw, policyOk, password, now))
      else checked == p.(s := Redeem(p.s, raw, policyOk, password, now))
  {
    if Redeemed(p.s, raw, policyOk, now).Some? {
      var pending := p.pending + [Checked(raw, Redeemed(p.s, raw, policyOk, now).value)];
      assert pending[..|p.pending|] + pending[|p.pending| + 1..] == p.pending;
    }
  }

  predicate Passes(p: Split, e: SplitEvent, token: string) {
    match e
    case Check(raw, policyOk, now) => raw == token && Redeemed(p.s, raw, policyOk, now).Some?
    case Other(e) => Succeeds(p.s, e, token)
    case Finish(_, _) => false
  }

  predicate NoIssue(p: Split, evs: seq<SplitEvent>, token: string)
    decreases |evs|
  {
    evs == []
    || (!(evs[0].Other? && Issues(p.s, evs[0].e, token)) && NoIssue(SplitStep(p, evs[0]), evs[1..], token))
  }

  function PassCount(p: Split, evs: seq<SplitEvent>, token: string): nat
    decreases |evs|
  {
    if evs == [] then 0
    else (if Passes(p, evs[0], token) then 1 else 0) + PassCount(SplitStep(p, evs[0]), evs[1..], token)
  }

  /** A token without a row passes no check, and stays without one until it is issued. */
  lemma VoidStep(p: Split, e: SplitEvent, token: string)
    requires Outstanding(p.s.resets, token) == 0 && !(e.Other? && Issues(p.s, e.e, token))
    ensures !Passes(p, e, token) && Outstanding(SplitStep(p, e).s.resets, token) == 0
  {
    match e {
      case Other(e) => TokenStep(p.s, e, token);
      case Check(raw, policyOk, now) => TokenStep(p.s, RedeemEv(raw, policyOk, "", now), token);
      case Finish(i, _) =>
        if i < |p.pending| {
          var raw := p.pending[i].raw;
          OutstandingShrinks(p.s.resets, (r: Reset) => r.tokenHash != Sha256(raw), token);
        }
    }
  }

  lemma {:induction false} VoidStays(p: Split, evs: seq<SplitEvent>, token: string)
    requires Outstanding(p.s.resets, token) == 0 && NoIssue(p, evs, token)
    ensures PassCount(p, evs, token) == 0
    decreases |evs|
  {
    if evs != [] {
      VoidStep(p, evs[0], token);
      VoidStays(SplitStep(p, evs[0]), evs[1..], token);
    }
  }

  lemma FinishBurns(p: Split, i: nat, password: string)
    requires i < |p.pending|
    ensures Outstanding(SplitStep(p, Finish(i, password)).s.resets, p.pending[i].raw) == 0
  {
    var hash := Sha256(p.pending[i].raw);
    forall r
      ensures r in WithoutHash(p.s.resets, hash) ==> r.tokenHash != hash
    {
      WithoutHashHas(p.s.resets, hash, r);
    }
    NoneOutstanding(WithoutHash(p.s.resets, hash), p.pending[i].raw);
  }

  /** With redemptions cut in two and interleaved in any way: once one redemption of a token has
      finished, no check of that token passes again until it is issued again. So two redemptions of
      one issue can both succeed only if both passed their checks before either finished. */
  lemma FinishedTokenIsVoid(p: Split, i: nat, password: string, evs: seq<SplitEvent>)
    requires i < |p.pending| && NoIssue(SplitStep(p, Finish(i, password)), evs, p.pending[i].raw)
    ensures PassCount(SplitStep(p, Finish(i, password)), evs, p.pending[i].raw) == 0
  {
    FinishBurns(p, i, password);
    VoidStays(SplitStep(p, Finish(i, password)), evs, p.pending[i].raw);
  }

  lemma SplitFirst(p: Split, e: SplitEvent, rest: seq<SplitEvent>, token: string)
    ensures SplitAfter(p, [e] + rest) == SplitAfter(SplitStep(p, e), rest)
    ensures PassCount(p, [e] + rest, token)
         == (if Passes(p, e, token) then 1 else 0) + PassCount(SplitStep(p, e), rest, token)
  {
    assert ([e] + rest)[1..] == rest;
  }

  lemma FinishLast(s: State, pending: seq<Checked>, c: Checked, rest: seq<Checked>, password: string)
    ensures SplitStep(Split(s, pending + [c] + rest), Finish(|pending|, password))
         == Split(State(SetPassword(s.users, c.userId, password), WithoutHash(s.resets, Sha256(c.raw)),
                        Revoke(s.sessions, c.userId)), pending + rest)
  {
    var all := pending + [c] + rest;
    assert all[|pending|] == c && all[..|pending|] + all[|pending| + 1..] == pending + rest;
  }

  /** Two redemptions of one token whose checks both come before either finish. */
  function Overlapping(n: nat, raw: string, first: string, second: string, now: int, later: int): seq<SplitEvent> {
    [Check(raw, true, now)] + ([Check(raw, true, later)] + ([Finish(n, first)] + ([Finish(n, second)] + [])))
  }

  lemma OverlappingFinishes(s: State, pending: seq<Checked>, c: Checked, first: string, second: string, token: string)
    ensures var p, n := Split(s, pending + [c] + [c]), |pending|;
      var evs := [Finish(n, first)] + ([Finish(n, second)] + []);
      && PassCount(p, evs, token) == 0
      && SplitAfter(p, evs).s.users == SetPassword(SetPassword(s.users, c.userId, first), c.userId, second)
      && SplitAfter(p, evs).pending == pending
  {
    var p, n := Split(s, pending + [c] + [c]), |pending|;
    FinishLast(s, pending, c, [c], first);
    var p' := SplitStep(p, Finish(n, first));
    assert pending + [c] + [] == pending + [c] && pending + [] == pending;
    FinishLast(p'.s, pending, c, [], second);
    SplitFirst(p, Finish(n, first), [Finish(n, second)] + [], token);
    SplitFirst(p', Finish(n, second), [], token);
  }

  /** And then they do: a token that is good for a second check after a first has passed is redeemed
      twice, and the later password stands. */
  lemma OverlapRedeemsTwice(p: Split, raw: string, first: string, second: string, now: int, later: int)
    requires now <= later && Redeemed(p.s, raw, true, later).Some?
    ensures var id := Redeemed(p.s, raw, true, later).value;
      var evs := Overlapping(|p.pending|, raw, first, second, now, later);
      && PassCount(p, evs, raw) == 2
      && SplitAfter(p, evs).s.users == SetPassword(SetPassword(p.s.users, id, first), id, second)
      && SplitAfter(p, evs).pending == p.pending
  {
    var n, c := |p.pending|, Checked(raw, Redeemed(p.s, raw, true, later).value);
    var rest := [Finish(n, first)] + ([Finish(n, second)] + []);
    OverlappingFinishes(p.s, p.pending, c, first, second, raw);
    SplitFirst(p, Check(raw, true, now), [Check(raw, true, later)] + rest, raw);
    SplitFirst(SplitStep(p, Check(raw, true, now)), Check(raw, true, later), rest, raw);
  }

  function SplitAfter(p: Split, evs: seq<SplitEvent>): Split
    decreases |evs|
  {
    if evs == [] then p else SplitAfter(SplitStep(p, evs[0]), evs[1..])
  }

  // ---------------------------------------------------------------- single use

  function Begin(users: seq<User>): Split {
    Split(State(users, [], []), [])
  }

  function PendingCount(pending: seq<Checked>, token: string): nat {
    if pending == [] then 0 else (if pending[0].raw == token then 1 else 0) + PendingCount(pending[1..], token)
  }

  function IssuesIn(p: Split, evs: seq<SplitEvent>, token: string): nat
    decreases |evs|
  {
    if evs == [] then 0
    else (if evs[0].Other? && Issues(p.s, evs[0].e, token) then 1 else 0) + IssuesIn(SplitStep(p, evs[0]), evs[1..], token)
  }

  /** No redemption of the token passes while another of it is pending. */
  predicate NoOverlap(p: Split, evs: seq<SplitEvent>, token: string)
    decreases |evs|
  {
    evs == []
    || (!(Passes(p, evs[0], token) && PendingCount(p.pending, token) > 0)
        && NoOverlap(SplitStep(p, evs[0]), evs[1..], token))
  }

  lemma {:induction false} PendingAppend(a: seq<Checked>, b: seq<Checked>, token: string)
    ensures PendingCount(a + b, token) == PendingCount(a, token) + PendingCount(b, token)
  {
    if a == [] {
      assert a + b == b;
    } else {
      assert (a + b)[1..] == a[1..] + b;
      PendingAppend(a[1..], b, token);
    }
  }

  /** What an event does to the pending redemptions of a token. */
  lemma PendingStep(p: Split, e: SplitEvent, token: string)
    ensures PendingCount(SplitStep(p, e).pending, token)
         == if e.Check? && Passes(p, e, token) then PendingCount(p.pending, token) + 1
            else if e.Finish? && e.i < |p.pending| && p.pending[e.i].raw == token then PendingCount(p.pending, token) - 1
            else PendingCount(p.pending, token)
  {
    match e {
      case Check(raw, policyOk, now) =>
        match Redeemed(p.s, raw, policyOk, now) {
          case Some(id) =>
            PendingAppend(p.pending, [Checked(raw, id)], token);
            assert [Checked(raw, id)][1..] == [];
          case None =>
        }
      case Finish(i, _) =>
        if i < |p.pending| {
          PendingAppend(p.pending[..i], p.pending[i..], token);
          assert p.pending[..i] + p.pending[i..] == p.pending && p.pending[i..][1..] == p.pending[i + 1..];
          PendingAppend(p.pending[..i], p.pending[i + 1..], token);
        }
      case Other(_) =>
    }
  }

  /** The rows and passes of a token, in any event: a redemption in one step burns what it redeems,
      a passed check leaves the row to its finish. */
  lemma RowsStep(p: Split, e: SplitEvent, token: string)
    ensures Outstanding(SplitStep(p, e).s.resets, token)
         <= Outstanding(p.s.resets, token) + if e.Other? && Issues(p.s, e.e, token) then 1 else 0
    ensures Passes(p, e, token) ==> Outstanding(p.s.resets, token) > 0
    ensures Passes(p, e, token) && e.Other? ==> Outstanding(SplitStep(p, e).s.resets, token) == 0
    ensures e.Finish? && e.i < |p.pending| && p.pending[e.i].raw == token ==>
      Outstanding(SplitStep(p, e).s.resets, token) == 0
  {
    match e {
      case Other(e) =>
        TokenStep(p.s, e, token);
        if Succeeds(p.s, e, token) {
          NoneOutstanding(p.s.resets, token);
          RedeemBurns(p.s, e.raw, e.policyOk, e.password, e.now);
        }
      case Check(raw, policyOk, now) =>
        TokenStep(p.s, RedeemEv(raw, policyOk, "", now), token);
        if Passes(p, e, token) { NoneOutstanding(p.s.resets, token); }
      case Finish(i, password) =>
        if i < |p.pending| {
          var raw := p.pending[i].raw;
          OutstandingShrinks(p.s.resets, (r: Reset) => r.tokenHash != Sha256(raw), token);
          FinishBurns(p, i, password);
        }
    }
  }

  lemma {:induction false} NoIssueIsNone(p: Split, evs: seq<SplitEvent>, token: string)
    ensures NoIssue(p, evs, token) <==> IssuesIn(p, evs, token) == 0
    decreases |evs|
  {
    if evs != [] { NoIssueIsNone(SplitStep(p, evs[0]), evs[1..], token); }
  }

  /** While one redemption of an issued-out token is pending and no other may pass, none passes. */
  lemma {:induction false} PendingAloneIsLast(p: Split, evs: seq<SplitEvent>, token: string)
    requires PendingCount(p.pending, token) > 0 && IssuesIn(p, evs, token) == 0 && NoOverlap(p, evs, token)
    ensures PassCount(p, evs, token) == 0
    decreases |evs|
  {
    if evs != [] {
      var p' := SplitStep(p, evs[0]);
      PendingStep(p, evs[0], token);
      RowsStep(p, evs[0], token);
      if PendingCount(p'.pending, token) > 0 {
        PendingAloneIsLast(p', evs[1..], token);
      } else {
        NoIssueIsNone(p', evs[1..], token);
        VoidStays(p', evs[1..], token);
      }
    }
  }

  lemma {:induction false} NoOverlapPassesOnce(p: Split, evs: seq<SplitEvent>, token: string)
    requires PendingCount(p.pending, token) == 0 && NoOverlap(p, evs, token)
    requires Outstanding(p.s.resets, token) + IssuesIn(p, evs, token) <= 1
    ensures PassCount(p, evs, token) <= 1
    decreases |evs|
  {
    if evs != [] {
      var p' := SplitStep(p, evs[0]);
      PendingStep(p, evs[0], token);
      RowsStep(p, evs[0], token);
      if !Passes(p, evs[0], token) {
        NoOverlapPassesOnce(p', evs[1..], token);
      } else if evs[0].Check? {
        PendingAloneIsLast(p', evs[1..], token);
      } else {
        NoIssueIsNone(p', evs[1..], token);
        VoidStays(p', evs[1..], token);
      }
    }
  }

  lemma {:induction false} OverlapPassesAgain(p: Split, evs: seq<SplitEvent>, token: string)
    requires !NoOverlap(p, evs, token)
    ensures PassCount(p, evs, token) >= if PendingCount(p.pending, token) > 0 then 1 else 2
    decreases |evs|
  {
    var p' := SplitStep(p, evs[0]);
    PendingStep(p, evs[0], token);
    if !(Passes(p, evs[0], token) && PendingCount(p.pending, token) > 0) {
      OverlapPassesAgain(p', evs[1..], token);
    }
  }

  /** Single use over runs of cut redemptions: a token issued at most once is redeemed at most once
      exactly when no redemption of it passes its checks while another of it is still hashing. */
  lemma SingleUseIff(p: Split, evs: seq<SplitEvent>, token: string)
    requires PendingCount(p.pending, token) == 0
    requires Outstanding(p.s.resets, token) + IssuesIn(p, evs, token) <= 1
    ensures PassCount(p, evs, token) <= 1 <==> NoOverlap(p, evs, token)
  {
    if NoOverlap(p, evs, token) {
      NoOverlapPassesOnce(p, evs, token);
    } else {
      OverlapPassesAgain(p, evs, token);
    }
  }

  /** Every token that a request draws is new. */
  predicate FreshIn(evs: seq<SplitEvent>, used: set<string>) {
    evs == []
    || ((evs[0].Other? && evs[0].e.RequestEv? ==> evs[0].e.token !in used)
        && FreshIn(evs[1..], used + Drawn(evs[0])))
  }

  function Drawn(e: SplitEvent): set<string> {
    if e.Other? && e.e.RequestEv? then {e.e.token} else {}
  }

  lemma {:induction false} FreshIssuedOnce(p: Split, evs: seq<SplitEvent>, used: set<string>, token: string)
    requires FreshIn(evs, used)
    ensures IssuesIn(p, evs, token) <= if token in used then 0 else 1
    decreases |evs|
  {
    if evs != [] { FreshIssuedOnce(SplitStep(p, evs[0]), evs[1..], used + Drawn(evs[0]), token); }
  }

  /** So from the empty table, with fresh tokens, for every token. */
  lemma FreshSingleUseIff(users: seq<User>, evs: seq<SplitEvent>, token: string)
    requires FreshIn(evs, {})
    ensures PassCount(Begin(users), evs, token) <= 1 <==> NoOverlap(Begin(users), evs, token)
  {
    FreshIssuedOnce(Begin(users), evs, {}, token);
    SingleUseIff(Begin(users), evs, token);
  }

  // ---------------------------------------------------------------- whose reset it is

  /** The account has a row of this token, or a redemption of it pending. */
  ghost predicate Has(p: Split, raw: string, id: UserId) {
    (exists r :: r in p.s.resets && r.tokenHash == Sha256(raw) && r.userId == id) || Checked(raw, id) in p.pending
  }

  /** Event `n` of the run requested the token for the account. */
  ghost predicate RequestedAt(p: Split, evs: seq<SplitEvent>, n: nat, raw: string, id: UserId) {
    n < |evs| && evs[n].Other? && RequestsFor(SplitAfter(p, evs[..n]).s, evs[n].e, id) && evs[n].e.token == raw
  }

  lemma OnlyRequestsGive(p: Split, e: SplitEvent, raw: string, id: UserId)
    requires Has(SplitStep(p, e), raw, id) && !Has(p, raw, id)
    ensures e.Other? && RequestsFor(p.s, e.e, id) && e.e.token == raw
  {
    forall r | r in SplitStep(p, e).s.resets && r !in p.s.resets
      ensures e.Other? && IssuesRow(p.s, e.e, r)
    {
      match e {
        case Other(e) => NewRowIsIssued(p.s, e, r);
        case Check(other, policyOk, now) => WithoutHashHas(p.s.resets, Sha256(other), r);
        case Finish(i, _) => if i < |p.pending| { WithoutHashHas(p.s.resets, Sha256(p.pending[i].raw), r); }
      }
    }
  }

  lemma {:induction false} WasRequested(p: Split, evs: seq<SplitEvent>, raw: string, id: UserId) returns (n: nat)
    requires Has(SplitAfter(p, evs), raw, id) && !Has(p, raw, id)
    ensures RequestedAt(p, evs, n, raw, id)
    decreases |evs|
  {
    if Has(SplitStep(p, evs[0]), raw, id) {
      n := 0;
      OnlyRequestsGive(p, evs[0], raw, id);
    } else {
      var k := WasRequested(SplitStep(p, evs[0]), evs[1..], raw, id);
      n := k + 1;
      assert evs[..n][1..] == evs[1..][..k];
    }
  }

  /** Over cut runs too, a redemption about to finish sets the password of the account that its token
      was requested for. */
  lemma FinishesForTheRequester(users: seq<User>, evs: seq<SplitEvent>, i: nat) returns (n: nat)
    requires i < |SplitAfter(Begin(users), evs).pending|
    ensures var c := SplitAfter(Begin(users), evs).pending[i]; RequestedAt(Begin(users), evs, n, c.raw, c.userId)
  {
    var c := SplitAfter(Begin(users), evs).pending[i];
    n := WasRequested(Begin(users), evs, c.raw, c.userId);
  }

  // ---------------------------------------------------------------- overtaken redemptions

  function LatestStep(p: Split, e: SplitEvent, id: UserId, latest: Option<Ticket>): Option<Ticket> {
    if e.Other? then LatestNext(p.s, e.e, id, latest) else latest
  }

  /** What was last issued for an account in a run. */
  function LatestIn(p: Split, evs: seq<SplitEvent>, id: UserId, latest: Option<Ticket>): Option<Ticket>
    decreases |evs|
  {
    if evs == [] then latest else LatestIn(SplitStep(p, evs[0]), evs[1..], id, LatestStep(p, evs[0], id, latest))
  }

  /** Which of the pending redemptions have been overtaken: a new token was issued for their
      account after they passed their checks. */
  function OvertakenStep(p: Split, e: SplitEvent, overtaken: seq<bool>): (overtaken': seq<bool>)
    requires |overtaken| == |p.pending|
    ensures |overtaken'| == |SplitStep(p, e).pending|
  {
    match e
    case Other(e) =>
      (match if e.RequestEv? then Recipient(p.s, e.email, e.validEmail) else None
       case Some(id) => Marked(p.pending, id, overtaken)
       case None => overtaken)
    case Check(raw, policyOk, now) =>
      if Redeemed(p.s, raw, policyOk, now).Some? then overtaken + [false] else overtaken
    case Finish(i, _) => if i < |overtaken| then overtaken[..i] + overtaken[i + 1..] else overtaken
  }

  function Marked(pending: seq<Checked>, id: UserId, overtaken: seq<bool>): (marked: seq<bool>)
    requires |overtaken| == |pending|
    ensures |marked| == |pending|
    ensures forall j :: 0 <= j < |pending| ==> marked[j] == (overtaken[j] || pending[j].userId == id)
  {
    seq(|pending|, j requires 0 <= j < |pending| => overtaken[j] || pending[j].userId == id)
  }

  function OvertakenIn(p: Split, evs: seq<SplitEvent>, overtaken: seq<bool>): (overtaken': seq<bool>)
    requires |overtaken| == |p.pending|
    ensures |overtaken'| == |SplitAfter(p, evs).pending|
    decreases |evs|
  {
    if evs == [] then overtaken else OvertakenIn(SplitStep(p, evs[0]), evs[1..], OvertakenStep(p, evs[0], overtaken))
  }

  /** The latest ticket of an account holds this token. */
  predicate Holds(latest: Option<Ticket>, token: string) {
    latest.Some? && latest.value.token == token
  }

  /** A pending redemption: its token is used, belongs to no other account's row, and is its account's
      latest exactly when it has not been overtaken. */
  ghost predicate Tracked(p: Split, id: UserId, latest: Option<Ticket>, overtaken: seq<bool>, used: set<string>, j: nat)
    requires |overtaken| == |p.pending| && j < |p.pending|
  {
    var c := p.pending[j];
    && c.raw in used
    && (forall r :: r in p.s.resets && r.tokenHash == Sha256(c.raw) ==> r.userId == c.userId)
    && (c.userId == id ==> latest.Some? && (overtaken[j] <==> latest.value.token != c.raw))
  }

  ghost predicate Rows(p: Split, id: UserId, latest: Option<Ticket>, used: set<string>) {
    OnlyLatest(p.s.resets, id, latest) && TokensApart(p.s.resets, used)
  }

  lemma RowsKept(p: Split, e: SplitEvent, id: UserId, latest: Option<Ticket>, used: set<string>)
    requires Rows(p, id, latest, used) && FreshIn([e], used)
    ensures Rows(SplitStep(p, e), id, LatestStep(p, e, id, latest), used + Drawn(e))
  {
    match e {
      case Other(e) =>
        StepKeepsLatest(p.s, e, id, latest);
        StepKeepsApart(p.s, e, used);
        assert used + {} == used;
      case Check(raw, policyOk, now) =>
        StepKeepsLatest(p.s, RedeemEv(raw, policyOk, "", now), id, latest);
        StepKeepsApart(p.s, RedeemEv(raw, policyOk, "", now), used);
        assert used + {} == used;
      case Finish(i, _) =>
        assert used + {} == used;
        if i < |p.pending| {
          var raw := p.pending[i].raw;
          KeepOnlyLatest(p.s.resets, (r: Reset) => r.tokenHash != Sha256(raw), id, latest);
          KeepTokensApart(p.s.resets, (r: Reset) => r.tokenHash != Sha256(raw), used);
        }
    }
  }

  /** A row that stands after an event stood before, or was just issued under a new token. */
  lemma RowsComeFrom(p: Split, e: SplitEvent, r: Reset)
    requires r in SplitStep(p, e).s.resets
    ensures r in p.s.resets || r.tokenHash.token in Drawn(e)
  {
    match e {
      case Other(e) =>
        if e.RequestEv? && Recipient(p.s, e.email, e.validEmail).Some? {
          WithoutUserHas(p.s.resets, Recipient(p.s, e.email, e.validEmail).value, r);
        } else if e.RedeemEv? {
          WithoutHashHas(p.s.resets, Sha256(e.raw), r);
        }
      case Check(raw, _, _) => WithoutHashHas(p.s.resets, Sha256(raw), r);
      case Finish(i, _) => if i < |p.pending| { WithoutHashHas(p.s.resets, Sha256(p.pending[i].raw), r); }
    }
  }

  /** Where a pending redemption was before the event. */
  function Before(e: SplitEvent, j: nat): nat {
    if e.Finish? && j >= e.i then j + 1 else j
  }

  lemma TrackedStays(p: Split, e: SplitEvent, id: UserId, latest: Option<Ticket>, overtaken: seq<bool>, used: set<string>,
                     j: nat)
    requires |overtaken| == |p.pending| && FreshIn([e], used) && j < |SplitStep(p, e).pending|
    requires e.Finish? ==> e.i < |p.pending|
    requires Before(e, j) < |p.pending| && Tracked(p, id, latest, overtaken, used, Before(e, j))
    ensures Tracked(SplitStep(p, e), id, LatestStep(p, e, id, latest), OvertakenStep(p, e, overtaken), used + Drawn(e), j)
  {
    var c := p.pending[Before(e, j)];
    assert SplitStep(p, e).pending[j] == c;
    forall r | r in SplitStep(p, e).s.resets && r.tokenHash == Sha256(c.raw)
      ensures r.userId == c.userId
    {
      RowsComeFrom(p, e, r);
    }
  }

  lemma SameTokenSameRow(resets: seq<Reset>, used: set<string>, x: Reset, y: Reset)
    requires TokensApart(resets, used) && x in resets && y in resets && x.tokenHash == y.tokenHash
    ensures x == y
  {
  }

  /** A redemption that has just passed holds its account's latest token. */
  lemma TrackedFromCheck(p: Split, e: SplitEvent, id: UserId, latest: Option<Ticket>, overtaken: seq<bool>, used: set<string>)
    requires Rows(p, id, latest, used) && |overtaken| == |p.pending|
    requires e.Check? && Redeemed(p.s, e.raw, e.policyOk, e.now).Some?
    ensures Tracked(SplitStep(p, e), id, latest, OvertakenStep(p, e, overtaken), used, |p.pending|)
  {
    var row := FindReset(p.s.resets, Sha256(e.raw)).value;
    forall r | r in p.s.resets && r.tokenHash == Sha256(e.raw)
      ensures r.userId == row.userId
    {
      SameTokenSameRow(p.s.resets, used, r, row);
    }
  }

  ghost predicate Follows(p: Split, id: UserId, latest: Option<Ticket>, overtaken: seq<bool>, used: set<string>) {
    && Rows(p, id, latest, used) && |overtaken| == |p.pending|
    && forall j: nat :: j < |p.pending| ==> Tracked(p, id, latest, overtaken, used, j)
  }

  lemma FollowsStep(p: Split, e: SplitEvent, id: UserId, latest: Option<Ticket>, overtaken: seq<bool>, used: set<string>)
    requires Follows(p, id, latest, overtaken, used) && FreshIn([e], used)
    ensures Follows(SplitStep(p, e), id, LatestStep(p, e, id, latest), OvertakenStep(p, e, overtaken), used + Drawn(e))
  {
    RowsKept(p, e, id, latest, used);
    if e.Finish? && e.i >= |p.pending| {
      assert used + {} == used;
    } else {
      forall j: nat | j < |SplitStep(p, e).pending|
        ensures Tracked(SplitStep(p, e), id, LatestStep(p, e, id, latest), OvertakenStep(p, e, overtaken), used + Drawn(e), j)
      {
        if e.Check? && j == |p.pending| {
          assert used + {} == used;
          TrackedFromCheck(p, e, id, latest, overtaken, used);
        } else {
          TrackedStays(p, e, id, latest, overtaken, used, j);
        }
      }
    }
  }

  function UsedIn(evs: seq<SplitEvent>, used: set<string>): set<string> {
    if evs == [] then used else UsedIn(evs[1..], used + Drawn(evs[0]))
  }

  lemma {:induction false} FollowsRun(p: Split, evs: seq<SplitEvent>, id: UserId, latest: Option<Ticket>,
                                      overtaken: seq<bool>, used: set<string>)
    requires Follows(p, id, latest, overtaken, used) && FreshIn(evs, used)
    ensures Follows(SplitAfter(p, evs), id, LatestIn(p, evs, id, latest), OvertakenIn(p, evs, overtaken), UsedIn(evs, used))
    decreases |evs|
  {
    if evs != [] {
      FollowsStep(p, evs[0], id, latest, overtaken, used);
      FollowsRun(SplitStep(p, evs[0]), evs[1..], id, LatestStep(p, evs[0], id, latest),
                 OvertakenStep(p, evs[0], overtaken), used + Drawn(evs[0]));
    }
  }

  /** After any run of cut redemptions with fresh tokens: a token passes its checks only if it is its
      account's latest, issued less than half an hour ago. */
  lemma CheckNeedsLatest(users: seq<User>, evs: seq<SplitEvent>, raw: string, policyOk: bool, now: int)
    requires FreshIn(evs, {})
    ensures var p := SplitAfter(Begin(users), evs);
      Redeemed(p.s, raw, policyOk, now).Some? ==>
        var latest := LatestIn(Begin(users), evs, Redeemed(p.s, raw, policyOk, now).value, None);
        Holds(latest, raw) && now < latest.value.at + RESET_TTL_MS
  {
    var p := SplitAfter(Begin(users), evs);
    if Redeemed(p.s, raw, policyOk, now).Some? {
      FollowsRun(Begin(users), evs, Redeemed(p.s, raw, policyOk, now).value, None, [], {});
    }
  }

  /** The token of a pending redemption, which will set the password whatever has happened since its
      checks, is its account's latest exactly when no new one has overtaken it. */
  lemma RedeemsTheLatestIff(users: seq<User>, evs: seq<SplitEvent>, i: nat)
    requires FreshIn(evs, {}) && i < |SplitAfter(Begin(users), evs).pending|
    ensures var c := SplitAfter(Begin(users), evs).pending[i];
      Holds(LatestIn(Begin(users), evs, c.userId, None), c.raw) <==> !OvertakenIn(Begin(users), evs, [])[i]
  {
    var p := SplitAfter(Begin(users), evs);
    FollowsRun(Begin(users), evs, p.pending[i].userId, None, [], {});
    assert Tracked(p, p.pending[i].userId, LatestIn(Begin(users), evs, p.pending[i].userId, None),
                   OvertakenIn(Begin(users), evs, []), UsedIn(evs, {}), i);
  }

  /** What a finish does, after any run of cut redemptions with fresh tokens. The account gets the new
      password and no other changes; other accounts keep their resets and sessions; the account is
      left without an outstanding reset exactly when none that overtook the redemption is standing;
      and without a session exactly when its id is not empty or it had none. */
  lemma FinishClearsTheAccountIff(users: seq<User>, evs: seq<SplitEvent>, i: nat, password: string, x: Session, r: Reset)
    requires FreshIn(evs, {}) && i < |SplitAfter(Begin(users), evs).pending|
    ensures var p := SplitAfter(Begin(users), evs);
      var id, p' := p.pending[i].userId, SplitStep(p, Finish(i, password));
      && p'.s.users == SetPassword(p.s.users, id, password)
      && (r.userId != id ==> (r in p'.s.resets <==> r in p.s.resets))
      && ((exists q :: q in p'.s.resets && q.userId == id)
            <==> OvertakenIn(Begin(users), evs, [])[i] && exists q :: q in p.s.resets && q.userId == id)
      && (x.userId != Some(id) ==> (x in p'.s.sessions <==> x in p.s.sessions))
      && (x.userId == Some(id) ==> (x !in p'.s.sessions <==> id != "" || x !in p.s.sessions))
  {
    var p := SplitAfter(Begin(users), evs);
    var c, overtaken := p.pending[i], OvertakenIn(Begin(users), evs, []);
    var latest := LatestIn(Begin(users), evs, c.userId, None);
    FollowsRun(Begin(users), evs, c.userId, None, [], {});
    assert Tracked(p, c.userId, latest, overtaken, UsedIn(evs, {}), i);
    RevokeHas(p.s.sessions, c.userId, x);
    FinishLeavesResets(p, i, password, latest, overtaken[i], r);
  }

  lemma FinishLeavesResets(p: Split, i: nat, password: string, latest: Option<Ticket>, overtaken: bool, r: Reset)
    requires i < |p.pending| && OnlyLatest(p.s.resets, p.pending[i].userId, latest)
    requires latest.Some? && (overtaken <==> latest.value.token != p.pending[i].raw)
    requires forall q :: q in p.s.resets && q.tokenHash == Sha256(p.pending[i].raw) ==> q.userId == p.pending[i].userId
    ensures var id, resets' := p.pending[i].userId, SplitStep(p, Finish(i, password)).s.resets;
      && (r.userId != id ==> (r in resets' <==> r in p.s.resets))
      && ((exists q :: q in resets' && q.userId == id) <==> overtaken && exists q :: q in p.s.resets && q.userId == id)
  {
    var c := p.pending[i];
    forall q: Reset
      ensures q in SplitStep(p, Finish(i, password)).s.resets <==> q in p.s.resets && q.tokenHash != Sha256(c.raw)
    {
      WithoutHashHas(p.s.resets, Sha256(c.raw), q);
    }
    forall q | q in p.s.resets && q.userId == c.userId
      ensures q.tokenHash == Sha256(c.raw) <==> !overtaken
    {
      assert q.tokenHash == Sha256(q.tokenHash.token);
    }
  }

  /** After any run of cut redemptions an account has at most one outstanding reset. */
  lemma OneResetInRun(users: seq<User>, evs: seq<SplitEvent>)
    requires FreshIn(evs, {})
    ensures OnePerUser(SplitAfter(Begin(users), evs).s.resets)
  {
    var resets := SplitAfter(Begin(users), evs).s.resets;
    forall i, j | 0 <= i < j < |resets|
      ensures resets[i].userId != resets[j].userId
    {
      FollowsRun(Begin(users), evs, resets[i].userId, None, [], {});
    }
  }

  /** The failing run: while a redemption hashes, its account is issued a new token. The old one still
      sets the password, and the new reset is outstanding after the success. */
  lemma OvertakenRedemption(p: Split, raw: string, password: string, email: string, token: string, now: int, later: int)
    requires Redeemed(p.s, raw, true, now).Some? && token != raw
    requires Recipient(p.s, email, true) == Redeemed(p.s, raw, true, now)
    ensures var id := Redeemed(p.s, raw, true, now).value;
      var evs := [Check(raw, true, now)]
                 + ([Other(RequestEv(email, true, token, later))] + ([Finish(|p.pending|, password)] + []));
      && SplitAfter(p, evs).s.users == SetPassword(p.s.users, id, password)
      && SplitAfter(p, evs).pending == p.pending
      && Reset(id, Sha256(token), later + RESET_TTL_MS) in SplitAfter(p, evs).s.resets
  {
    var id := Redeemed(p.s, raw, true, now).value;
    var c := Checked(raw, id);
    var e1, e2, e3 := Check(raw, true, now), Other(RequestEv(email, true, token, later)), Finish(|p.pending|, password);
    var p1 := SplitStep(p, e1);
    var p2 := SplitStep(p1, e2);
    assert p1 == Split(p.s, p.pending + [c]);
    assert p2.pending == p.pending + [c] + [] && p.pending + [] == p.pending;
    FinishLast(p2.s, p.pending, c, [], password);
    SplitFirst(p, e1, [e2] + ([e3] + []), raw);
    SplitFirst(p1, e2, [e3] + [], raw);
    SplitFirst(p2, e3, [], raw);
    WithoutHashHas(p2.s.resets, Sha256(raw), Reset(id, Sha256(token), later + RESET_TTL_MS));
  }
}

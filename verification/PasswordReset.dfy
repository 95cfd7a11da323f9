/** Password reset (src/server/auth.js): issuing, redeeming and voiding reset tokens, and the
    sessions that a reset revokes. */
module PasswordReset {
  import opened Wrappers

  type UserId = string

  /** SHA-256 of a token: different tokens have different digests. */
  datatype Digest = Sha256(token: string)

  datatype User = User(id: UserId, email: string, password: Option<string>)

  datatype Reset = Reset(userId: UserId, tokenHash: Digest, expiresAt: int)

  datatype Session = Session(token: string, userId: Option<UserId>)

  /** The three tables, rows in insertion order. */
  datatype State = State(users: seq<User>, resets: seq<Reset>, sessions: seq<Session>)

  const RESET_TTL_MS: int := 30 * 60 * 1000

  // ---------------------------------------------------------------- tables

  function Keep<T>(rows: seq<T>, keep: T -> bool): (kept: seq<T>)
    ensures |kept| <= |rows|
  {
    if rows == [] then []
    else (if keep(rows[0]) then [rows[0]] else []) + Keep(rows[1..], keep)
  }

  function FindByEmail(users: seq<User>, email: string): (found: Option<User>)
    ensures found.Some? ==> found.value in users && found.value.email == email
    ensures found == None ==> forall u :: u in users ==> u.email != email
  {
    if users == [] then None else if users[0].email == email then Some(users[0]) else FindByEmail(users[1..], email)
  }

  function FindUser(users: seq<User>, id: UserId): (found: Option<User>)
    ensures found.Some? ==> found.value in users && found.value.id == id
    ensures found == None ==> forall u :: u in users ==> u.id != id
  {
    if users == [] then None else if users[0].id == id then Some(users[0]) else FindUser(users[1..], id)
  }

  function FindReset(resets: seq<Reset>, hash: Digest): (found: Option<Reset>)
    ensures found.Some? ==> found.value in resets && found.value.tokenHash == hash
    ensures found == None ==> forall r :: r in resets ==> r.tokenHash != hash
  {
    if resets == [] then None
    else if resets[0].tokenHash == hash then Some(resets[0]) else FindReset(resets[1..], hash)
  }

  function WithoutUser(resets: seq<Reset>, id: UserId): seq<Reset> {
    Keep(resets, (r: Reset) => r.userId != id)
  }

  function WithoutHash(resets: seq<Reset>, hash: Digest): seq<Reset> {
    Keep(resets, (r: Reset) => r.tokenHash != hash)
  }

  function WithoutSessionsOf(sessions: seq<Session>, id: UserId): seq<Session> {
    Keep(sessions, (s: Session) => s.userId != Some(id))
  }

  function SetPassword(users: seq<User>, id: UserId, password: string): (users': seq<User>)
    ensures |users'| == |users|
    ensures forall i :: 0 <= i < |users| ==>
      users'[i] == if users[i].id == id then users[i].(password := Some(password)) else users[i]
  {
    if users == [] then []
    else [if users[0].id == id then users[0].(password := Some(password)) else users[0]]
         + SetPassword(users[1..], id, password)
  }

  // ---------------------------------------------------------------- operations on values

  /** The account a request issues a token for, if any. */
  function Recipient(s: State, email: string, validEmail: bool): Option<UserId> {
    match FindByEmail(s.users, email)
    case Some(user) => if validEmail && user.password.Some? then Some(user.id) else None
    case None => None
  }

  function Request(s: State, email: string, validEmail: bool, token: string, now: int): State {
    match Recipient(s, email, validEmail)
    case Some(id) =>
      s.(resets := WithoutUser(s.resets, id) + [Reset(id, Sha256(token), now + RESET_TTL_MS)])
    case None => s
  }

  /** `revokeUserSessions`: nothing for an empty id. */
  function Revoke(sessions: seq<Session>, id: UserId): seq<Session> {
    if id == "" then sessions else WithoutSessionsOf(sessions, id)
  }

  datatype Outcome = TokenRequired | PolicyRefused | InvalidLink | Done(revoked: int)

  /** The account whose password the attempt changes, if it succeeds. */
  function Redeemed(s: State, raw: string, policyOk: bool, now: int): Option<UserId> {
    if raw == "" || !policyOk then None
    else match FindReset(s.resets, Sha256(raw))
      case None => None
      case Some(reset) =>
        if reset.expiresAt <= now then None
        else match FindUser(s.users, reset.userId)
          case Some(user) => Some(user.id)
          case None => None
  }

  function Redeem(s: State, raw: string, policyOk: bool, password: string, now: int): State {
    if raw == "" || !policyOk then s
    else
      var resets := WithoutHash(s.resets, Sha256(raw));
      match Redeemed(s, raw, policyOk, now)
      case Some(id) => State(SetPassword(s.users, id, password), resets, Revoke(s.sessions, id))
      case None => s.(resets := resets)
  }

  function RedeemOutcome(s: State, raw: string, policyOk: bool, now: int): Outcome {
    if raw == "" then TokenRequired
    else if !policyOk then PolicyRefused
    else match Redeemed(s, raw, policyOk, now)
      case Some(id) => Done(|s.sessions| - |Revoke(s.sessions, id)|)
      case None => InvalidLink
  }

  // ---------------------------------------------------------------- the service object

  class AuthService {
    var users: seq<User>
    var resets: seq<Reset>
    var sessions: seq<Session>

    ghost function Model(): State
      reads this
    {
      State(users, resets, sessions)
    }

    constructor (users: seq<User>)
      ensures Model() == State(users, [], [])
    {
      this.users, resets, sessions := users, [], [];
    }

    /** The same answer in every case; `issued` is the token to be mailed. */
    method RequestPasswordReset(email: string, validEmail: bool, token: string, now: int)
      returns (issued: Option<string>)
      modifies this
      ensures Model() == Request(old(Model()), email, validEmail, token, now)
      ensures issued.Some? <==> Recipient(old(Model()), email, validEmail).Some?
      ensures issued.Some? ==> issued.value == token
    {
      if !validEmail { return None; }
      var user := FindByEmail(users, email);
      if user == None || user.value.password == None { return None; }
      resets := WithoutUser(resets, user.value.id);
      resets := resets + [Reset(user.value.id, Sha256(token), now + RESET_TTL_MS)];
      issued := Some(token);
    }

    method RevokeUserSessions(id: UserId) returns (removed: int)
      modifies this
      ensures users == old(users) && resets == old(resets) && sessions == Revoke(old(sessions), id)
      ensures removed == |old(sessions)| - |sessions|
    {
      if id == "" { return 0; }
      var before := |sessions|;
      sessions := WithoutSessionsOf(sessions, id);
      removed := before - |sessions|;
    }

    method ResetPassword(raw: string, policyOk: bool, password: string, now: int) returns (outcome: Outcome)
      modifies this
      ensures Model() == Redeem(old(Model()), raw, policyOk, password, now)
      ensures outcome == RedeemOutcome(old(Model()), raw, policyOk, now)
    {
      if raw == "" { return TokenRequired; }
      if !policyOk { return PolicyRefused; }
      var record := FindReset(resets, Sha256(raw));
      if record == None {
        var hash := Sha256(raw);
        KeepAll(resets, (r: Reset) => r.tokenHash != hash);
        return InvalidLink;
      }
      if record.value.expiresAt <= now {
        resets := WithoutHash(resets, record.value.tokenHash);
        return InvalidLink;
      }
      var user := FindUser(users, record.value.userId);
      if user == None {
        resets := WithoutHash(resets, record.value.tokenHash);
        return InvalidLink;
      }
      users := SetPassword(users, user.value.id, password);
      resets := WithoutHash(resets, record.value.tokenHash);
      var revoked := RevokeUserSessions(user.value.id);
      outcome := Done(revoked);
    }

    method OpenSession(token: string, userId: Option<UserId>)
      modifies this
      ensures Model() == old(Model()).(sessions := old(sessions) + [Session(token, userId)])
    {
      sessions := sessions + [Session(token, userId)];
    }
  }

  // ---------------------------------------------------------------- filters

  lemma {:induction false} KeepIs<T>(rows: seq<T>, keep: T -> bool, row: T)
    ensures row in Keep(rows, keep) <==> row in rows && keep(row)
  {
    if rows != [] {
      KeepIs(rows[1..], keep, row);
      assert row in rows <==> row == rows[0] || row in rows[1..];
    }
  }

  lemma {:induction false} KeepSame<T>(rows: seq<T>, p: T -> bool, q: T -> bool)
    requires forall i :: 0 <= i < |rows| ==> p(rows[i]) == q(rows[i])
    ensures Keep(rows, p) == Keep(rows, q)
  {
    if rows != [] {
      assert forall i :: 0 <= i < |rows[1..]| ==> rows[1..][i] == rows[i + 1];
      KeepSame(rows[1..], p, q);
    }
  }

  lemma {:induction false} KeepAll<T>(rows: seq<T>, p: T -> bool)
    requires forall i :: 0 <= i < |rows| ==> p(rows[i])
    ensures Keep(rows, p) == rows
  {
    if rows != [] {
      assert forall i :: 0 <= i < |rows[1..]| ==> rows[1..][i] == rows[i + 1];
      KeepAll(rows[1..], p);
    }
  }

  lemma WithoutUserHas(resets: seq<Reset>, id: UserId, row: Reset)
    ensures row in WithoutUser(resets, id) <==> row in resets && row.userId != id
  {
    KeepIs(resets, (r: Reset) => r.userId != id, row);
  }

  lemma WithoutHashHas(resets: seq<Reset>, hash: Digest, row: Reset)
    ensures row in WithoutHash(resets, hash) <==> row in resets && row.tokenHash != hash
  {
    KeepIs(resets, (r: Reset) => r.tokenHash != hash, row);
  }

  lemma RevokeHas(sessions: seq<Session>, id: UserId, row: Session)
    ensures row in Revoke(sessions, id) <==> row in sessions && (id == "" || row.userId != Some(id))
  {
    KeepIs(sessions, (s: Session) => s.userId != Some(id), row);
  }

  // ---------------------------------------------------------------- runs

  datatype Event =
    | RequestEv(email: string, validEmail: bool, token: string, now: int)
    | RedeemEv(raw: string, policyOk: bool, password: string, now: int)
    | OpenEv(token: string, userId: Option<UserId>)
    | LogoutEv(token: string)
    | AddUserEv(user: User)
    | RemoveUserEv(id: UserId)

  function Step(s: State, e: Event): State {
    match e
    case RequestEv(email, validEmail, token, now) => Request(s, email, validEmail, token, now)
    case RedeemEv(raw, policyOk, password, now) => Redeem(s, raw, policyOk, password, now)
    case OpenEv(token, userId) => s.(sessions := s.sessions + [Session(token, userId)])
    case LogoutEv(token) => s.(sessions := Keep(s.sessions, (x: Session) => x.token != token))
    case AddUserEv(user) => s.(users := s.users + [user])
    case RemoveUserEv(id) => s.(users := Keep(s.users, (u: User) => u.id != id))
  }

  function After(s: State, evs: seq<Event>): State
    decreases |evs|
  {
    if evs == [] then s else After(Step(s, evs[0]), evs[1..])
  }

  predicate Issues(s: State, e: Event, token: string) {
    e.RequestEv? && e.token == token && Recipient(s, e.email, e.validEmail).Some?
  }

  predicate Succeeds(s: State, e: Event, token: string) {
    e.RedeemEv? && e.raw == token && Redeemed(s, e.raw, e.policyOk, e.now).Some?
  }

  function IssueCount(s: State, evs: seq<Event>, token: string): nat
    decreases |evs|
  {
    if evs == [] then 0
    else (if Issues(s, evs[0], token) then 1 else 0) + IssueCount(Step(s, evs[0]), evs[1..], token)
  }

  function RedeemCount(s: State, evs: seq<Event>, token: string): nat
    decreases |evs|
  {
    if evs == [] then 0
    else (if Succeeds(s, evs[0], token) then 1 else 0) + RedeemCount(Step(s, evs[0]), evs[1..], token)
  }

  // ---------------------------------------------------------------- whose reset it is

  /** The account of an address: the first user that has it. */
  predicate FirstWith(users: seq<User>, email: string, i: nat) {
    i < |users| && users[i].email == email && forall j :: 0 <= j < i ==> users[j].email != email
  }

  lemma {:induction false} EmailFindsFirst(users: seq<User>, email: string) returns (i: nat)
    ensures match FindByEmail(users, email)
      case Some(user) => FirstWith(users, email, i) && users[i] == user
      case None => forall u :: u in users ==> u.email != email
  {
    i := 0;
    if users != [] && users[0].email != email {
      var k := EmailFindsFirst(users[1..], email);
      i := k + 1;
    }
  }

  /** The request, in this state, issues a token for this account: the address is well formed, and its
      account is this one and has a password. */
  ghost predicate RequestsFor(s: State, e: Event, id: UserId) {
    && e.RequestEv? && e.validEmail
    && exists i: nat :: FirstWith(s.users, e.email, i) && s.users[i].password.Some? && s.users[i].id == id
  }

  lemma RecipientIs(s: State, e: Event, id: UserId)
    requires e.RequestEv?
    ensures Recipient(s, e.email, e.validEmail) == Some(id) <==> RequestsFor(s, e, id)
  {
    var i := EmailFindsFirst(s.users, e.email);
    forall k: nat | FirstWith(s.users, e.email, k)
      ensures k == i && FindByEmail(s.users, e.email) == Some(s.users[k])
    {
      assert s.users[k] in s.users;
    }
  }

  /** A request puts a new reset in the place of the old ones of the account it is for, and changes
      nothing else; a request for no account changes nothing at all. */
  lemma RequestIssuesFor(s: State, e: Event, id: UserId, r: Reset)
    requires e.RequestEv?
    ensures RequestsFor(s, e, id) ==>
      && Step(s, e).users == s.users && Step(s, e).sessions == s.sessions
      && (r in Step(s, e).resets
          <==> r == Reset(id, Sha256(e.token), e.now + RESET_TTL_MS) || (r in s.resets && r.userId != id))
    ensures (forall x :: !RequestsFor(s, e, x)) ==> Step(s, e) == s
  {
    RecipientIs(s, e, id);
    WithoutUserHas(s.resets, id, r);
    if Recipient(s, e.email, e.validEmail).Some? { RecipientIs(s, e, Recipient(s, e.email, e.validEmail).value); }
  }

  /** The event issues this row. */
  ghost predicate IssuesRow(s: State, e: Event, r: Reset) {
    RequestsFor(s, e, r.userId) && r.tokenHash == Sha256(e.token) && r.expiresAt == e.now + RESET_TTL_MS
  }

  lemma NewRowIsIssued(s: State, e: Event, r: Reset)
    requires r in Step(s, e).resets && r !in s.resets
    ensures IssuesRow(s, e, r)
  {
    match e {
      case RequestEv(email, validEmail, token, now) =>
        if Recipient(s, email, validEmail).Some? {
          var id := Recipient(s, email, validEmail).value;
          RecipientIs(s, e, id);
          WithoutUserHas(s.resets, id, r);
        }
      case RedeemEv(raw, _, _, _) => WithoutHashHas(s.resets, Sha256(raw), r);
      case _ =>
    }
  }

  lemma {:induction false} RowWasIssued(s: State, evs: seq<Event>, r: Reset) returns (n: nat)
    requires r in After(s, evs).resets && r !in s.resets
    ensures n < |evs| && IssuesRow(After(s, evs[..n]), evs[n], r)
    decreases |evs|
  {
    if r in Step(s, evs[0]).resets {
      n := 0;
      NewRowIsIssued(s, evs[0], r);
    } else {
      var k := RowWasIssued(Step(s, evs[0]), evs[1..], r);
      n := k + 1;
      assert evs[..n][1..] == evs[1..][..k];
    }
  }

  /** After any run, a redeemed token changes the password of the account that it was requested for,
      by the address that the account was the first to have at the time of the request. */
  lemma RedeemsForTheRequester(users: seq<User>, evs: seq<Event>, raw: string, policyOk: bool, now: int) returns (n: nat)
    requires Redeemed(After(State(users, [], []), evs), raw, policyOk, now).Some?
    ensures n < |evs| && evs[n].RequestEv? && evs[n].token == raw && now < evs[n].now + RESET_TTL_MS
    ensures RequestsFor(After(State(users, [], []), evs[..n]), evs[n],
                        Redeemed(After(State(users, [], []), evs), raw, policyOk, now).value)
  {
    var s := After(State(users, [], []), evs);
    var row := FindReset(s.resets, Sha256(raw)).value;
    n := RowWasIssued(State(users, [], []), evs, row);
  }

  // ---------------------------------------------------------------- single use

  function Outstanding(resets: seq<Reset>, token: string): nat {
    if resets == [] then 0
    else (if resets[0].tokenHash == Sha256(token) then 1 else 0) + Outstanding(resets[1..], token)
  }

  lemma {:induction false} OutstandingAppend(resets: seq<Reset>, r: Reset, token: string)
    ensures Outstanding(resets + [r], token)
         == Outstanding(resets, token) + if r.tokenHash == Sha256(token) then 1 else 0
  {
    if resets == [] {
      assert resets + [r] == [r] && [r][1..] == [];
    } else {
      assert (resets + [r])[1..] == resets[1..] + [r];
      OutstandingAppend(resets[1..], r, token);
    }
  }

  lemma {:induction false} OutstandingShrinks(resets: seq<Reset>, keep: Reset -> bool, token: string)
    ensures Outstanding(Keep(resets, keep), token) <= Outstanding(resets, token)
  {
    if resets != [] {
      OutstandingShrinks(resets[1..], keep, token);
      var rest := Keep(resets[1..], keep);
      if keep(resets[0]) {
        assert ([resets[0]] + rest)[1..] == rest;
      } else {
        assert [] + rest == rest;
      }
    }
  }

  lemma {:induction false} NoneOutstanding(resets: seq<Reset>, token: string)
    ensures Outstanding(resets, token) == 0 <==> forall r :: r in resets ==> r.tokenHash != Sha256(token)
  {
    if resets != [] {
      NoneOutstanding(resets[1..], token);
      assert forall r :: r in resets <==> r == resets[0] || r in resets[1..];
    }
  }

  /** A redemption attempt that reads the table leaves no row of its token. */
  lemma RedeemBurns(s: State, raw: string, policyOk: bool, password: string, now: int)
    requires raw != "" && policyOk
    ensures Outstanding(Redeem(s, raw, policyOk, password, now).resets, raw) == 0
  {
    var resets := WithoutHash(s.resets, Sha256(raw));
    forall r
      ensures r in resets ==> r.tokenHash != Sha256(raw)
    {
      WithoutHashHas(s.resets, Sha256(raw), r);
    }
    NoneOutstanding(resets, raw);
  }

  /** Redeeming a token takes an outstanding row; only issuing it adds one. */
  lemma TokenStep(s: State, e: Event, token: string)
    ensures Outstanding(Step(s, e).resets, token) + (if Succeeds(s, e, token) then 1 else 0)
         <= Outstanding(s.resets, token) + if Issues(s, e, token) then 1 else 0
  {
    match e {
      case RequestEv(email, validEmail, t, now) =>
        if Recipient(s, email, validEmail).Some? {
          var id := Recipient(s, email, validEmail).value;
          OutstandingAppend(WithoutUser(s.resets, id), Reset(id, Sha256(t), now + RESET_TTL_MS), token);
          OutstandingShrinks(s.resets, (r: Reset) => r.userId != id, token);
        }
      case RedeemEv(raw, policyOk, password, now) =>
        OutstandingShrinks(s.resets, (r: Reset) => r.tokenHash != Sha256(raw), token);
        if Succeeds(s, e, token) {
          RedeemBurns(s, raw, policyOk, password, now);
          NoneOutstanding(s.resets, raw);
        }
      case _ =>
    }
  }

  lemma {:induction false} RedeemedNoMoreThanIssued(s: State, evs: seq<Event>, token: string)
    ensures RedeemCount(s, evs, token) <= Outstanding(s.resets, token) + IssueCount(s, evs, token)
    decreases |evs|
  {
    if evs != [] {
      TokenStep(s, evs[0], token);
      RedeemedNoMoreThanIssued(Step(s, evs[0]), evs[1..], token);
    }
  }

  /** Every token that a request draws is new. */
  predicate FreshTokens(evs: seq<Event>, used: set<string>) {
    evs == []
    || (if evs[0].RequestEv? then evs[0].token !in used && FreshTokens(evs[1..], used + {evs[0].token})
        else FreshTokens(evs[1..], used))
  }

  lemma {:induction false} IssuedAtMostOnce(s: State, evs: seq<Event>, used: set<string>, token: string)
    requires FreshTokens(evs, used)
    ensures IssueCount(s, evs, token) <= if token in used then 0 else 1
    decreases |evs|
  {
    if evs != [] {
      IssuedAtMostOnce(Step(s, evs[0]), evs[1..], if evs[0].RequestEv? then used + {evs[0].token} else used, token);
    }
  }

  /** Over any run, a token is redeemed at most as often as it was issued; and so, the tokens
      being fresh, at most once. */
  lemma SingleUse(users: seq<User>, evs: seq<Event>, token: string)
    ensures var s := State(users, [], []);
      && RedeemCount(s, evs, token) <= IssueCount(s, evs, token)
      && (FreshTokens(evs, {}) ==> RedeemCount(s, evs, token) <= 1)
  {
    var s := State(users, [], []);
    RedeemedNoMoreThanIssued(s, evs, token);
    if FreshTokens(evs, {}) { IssuedAtMostOnce(s, evs, {}, token); }
  }

  // ---------------------------------------------------------------- one reset per user, the latest

  /** What was last issued for an account. */
  datatype Ticket = Ticket(token: string, at: int)

  function LatestNext(s: State, e: Event, id: UserId, latest: Option<Ticket>): Option<Ticket> {
    if e.RequestEv? && Recipient(s, e.email, e.validEmail) == Some(id) then Some(Ticket(e.token, e.now)) else latest
  }

  function Latest(s: State, evs: seq<Event>, id: UserId, latest: Option<Ticket>): Option<Ticket>
    decreases |evs|
  {
    if evs == [] then latest else Latest(Step(s, evs[0]), evs[1..], id, LatestNext(s, evs[0], id, latest))
  }

  /** The account has no row, or one, holding its latest ticket. */
  ghost predicate OnlyLatest(resets: seq<Reset>, id: UserId, latest: Option<Ticket>) {
    && (forall i, j :: 0 <= i < j < |resets| ==> !(resets[i].userId == id && resets[j].userId == id))
    && (forall r :: r in resets && r.userId == id ==>
          latest == Some(Ticket(r.tokenHash.token, r.expiresAt - RESET_TTL_MS)))
  }

  lemma {:induction false} KeepOnlyLatest(resets: seq<Reset>, keep: Reset -> bool, id: UserId, latest: Option<Ticket>)
    requires OnlyLatest(resets, id, latest)
    ensures OnlyLatest(Keep(resets, keep), id, latest)
  {
    if resets != [] {
      assert forall i :: 0 <= i < |resets[1..]| ==> resets[1..][i] == resets[i + 1];
      KeepOnlyLatest(resets[1..], keep, id, latest);
      forall r
        ensures r in Keep(resets[1..], keep) ==> r in resets[1..]
      {
        KeepIs(resets[1..], keep, r);
      }
      assert resets[0].userId == id ==> forall r :: r in resets[1..] ==> r.userId != id;
      FirstOnlyLatest(resets[0], Keep(resets[1..], keep), id, latest);
    }
  }

  lemma FirstOnlyLatest(first: Reset, rest: seq<Reset>, id: UserId, latest: Option<Ticket>)
    requires OnlyLatest(rest, id, latest)
    requires first.userId == id ==> latest == Some(Ticket(first.tokenHash.token, first.expiresAt - RESET_TTL_MS))
    requires first.userId == id ==> forall r :: r in rest ==> r.userId != id
    ensures OnlyLatest([first] + rest, id, latest)
  {
    assert forall j :: 0 <= j < |rest| ==> rest[j] in rest;
  }

  lemma StepKeepsLatest(s: State, e: Event, id: UserId, latest: Option<Ticket>)
    requires OnlyLatest(s.resets, id, latest)
    ensures OnlyLatest(Step(s, e).resets, id, LatestNext(s, e, id, latest))
  {
    match e {
      case RequestEv(email, validEmail, token, now) =>
        if Recipient(s, email, validEmail).Some? {
          var owner := Recipient(s, email, validEmail).value;
          KeepOnlyLatest(s.resets, (r: Reset) => r.userId != owner, id, latest);
          forall r
            ensures r in WithoutUser(s.resets, owner) ==> r.userId != owner
          {
            WithoutUserHas(s.resets, owner, r);
          }
        }
      case RedeemEv(raw, _, _, _) =>
        KeepOnlyLatest(s.resets, (r: Reset) => r.tokenHash != Sha256(raw), id, latest);
      case _ =>
    }
  }

  lemma {:induction false} RunKeepsLatest(s: State, evs: seq<Event>, id: UserId, latest: Option<Ticket>)
    requires OnlyLatest(s.resets, id, latest)
    ensures OnlyLatest(After(s, evs).resets, id, Latest(s, evs, id, latest))
    decreases |evs|
  {
    if evs != [] {
      StepKeepsLatest(s, evs[0], id, latest);
      RunKeepsLatest(Step(s, evs[0]), evs[1..], id, LatestNext(s, evs[0], id, latest));
    }
  }

  ghost predicate OnePerUser(resets: seq<Reset>) {
    forall i, j :: 0 <= i < j < |resets| ==> resets[i].userId != resets[j].userId
  }

  /** After any run an account has at most one outstanding reset. */
  lemma OneResetPerUser(users: seq<User>, evs: seq<Event>)
    ensures OnePerUser(After(State(users, [], []), evs).resets)
  {
    var s := State(users, [], []);
    var resets := After(s, evs).resets;
    forall i, j | 0 <= i < j < |resets|
      ensures resets[i].userId != resets[j].userId
    {
      RunKeepsLatest(s, evs, resets[i].userId, None);
    }
  }

  /** After any run, a token changes an account's password only if it is the latest one issued for
      that account, less than half an hour ago: every older token is void. */
  lemma OnlyTheLatestRedeems(users: seq<User>, evs: seq<Event>, raw: string, policyOk: bool, now: int)
    ensures var s := State(users, [], []);
      match Redeemed(After(s, evs), raw, policyOk, now)
      case Some(id) =>
        var latest := Latest(s, evs, id, None);
        latest.Some? && latest.value.token == raw && now < latest.value.at + RESET_TTL_MS
      case None => true
  {
    var s := State(users, [], []);
    match Redeemed(After(s, evs), raw, policyOk, now) {
      case Some(id) => RunKeepsLatest(s, evs, id, None);
      case None =>
    }
  }

  // ---------------------------------------------------------------- what a redemption does

  /** The rows' tokens are used ones, and no two rows share one. */
  ghost predicate TokensApart(resets: seq<Reset>, used: set<string>) {
    && (forall i, j :: 0 <= i < j < |resets| ==> resets[i].tokenHash != resets[j].tokenHash)
    && (forall r :: r in resets ==> r.tokenHash.token in used)
  }

  lemma {:induction false} KeepTokensApart(resets: seq<Reset>, keep: Reset -> bool, used: set<string>)
    requires TokensApart(resets, used)
    ensures TokensApart(Keep(resets, keep), used)
  {
    if resets != [] {
      assert forall i :: 0 <= i < |resets[1..]| ==> resets[1..][i] == resets[i + 1];
      KeepTokensApart(resets[1..], keep, used);
      forall r
        ensures r in Keep(resets[1..], keep) ==> r in resets[1..]
      {
        KeepIs(resets[1..], keep, r);
      }
      assert forall r :: r in resets[1..] ==> r.tokenHash != resets[0].tokenHash;
      FirstApart(resets[0], Keep(resets[1..], keep), used);
    }
  }

  lemma FirstApart(first: Reset, rest: seq<Reset>, used: set<string>)
    requires TokensApart(rest, used) && first.tokenHash.token in used
    requires forall r :: r in rest ==> r.tokenHash != first.tokenHash
    ensures TokensApart([first] + rest, used)
  {
    assert forall j :: 0 <= j < |rest| ==> rest[j] in rest;
  }

  lemma StepKeepsApart(s: State, e: Event, used: set<string>)
    requires TokensApart(s.resets, used) && (e.RequestEv? ==> e.token !in used)
    ensures TokensApart(Step(s, e).resets, if e.RequestEv? then used + {e.token} else used)
  {
    match e {
      case RequestEv(email, validEmail, token, now) =>
        if Recipient(s, email, validEmail).Some? {
          var owner := Recipient(s, email, validEmail).value;
          KeepTokensApart(s.resets, (r: Reset) => r.userId != owner, used);
          var kept := WithoutUser(s.resets, owner);
          assert forall i :: 0 <= i < |kept| ==> kept[i] in kept;
        }
      case RedeemEv(raw, _, _, _) =>
        KeepTokensApart(s.resets, (r: Reset) => r.tokenHash != Sha256(raw), used);
      case _ =>
    }
  }

  function UsedAfter(evs: seq<Event>, used: set<string>): set<string> {
    if evs == [] then used
    else UsedAfter(evs[1..], if evs[0].RequestEv? then used + {evs[0].token} else used)
  }

  lemma {:induction false} RunKeepsApart(s: State, evs: seq<Event>, used: set<string>)
    requires TokensApart(s.resets, used) && FreshTokens(evs, used)
    ensures TokensApart(After(s, evs).resets, UsedAfter(evs, used))
    decreases |evs|
  {
    if evs != [] {
      StepKeepsApart(s, evs[0], used);
      RunKeepsApart(Step(s, evs[0]), evs[1..], if evs[0].RequestEv? then used + {evs[0].token} else used);
    }
  }

  /** The ticket that an account can still redeem: the last one issued for it, until it is presented
      with an acceptable password. */
  function StandingNext(s: State, e: Event, id: UserId, ticket: Option<Ticket>): Option<Ticket> {
    match e
    case RequestEv(_, _, _, _) => LatestNext(s, e, id, ticket)
    case RedeemEv(raw, policyOk, _, _) =>
      if raw != "" && policyOk && ticket.Some? && ticket.value.token == raw then None else ticket
    case _ => ticket
  }

  function Standing(s: State, evs: seq<Event>, id: UserId, ticket: Option<Ticket>): Option<Ticket>
    decreases |evs|
  {
    if evs == [] then ticket else Standing(Step(s, evs[0]), evs[1..], id, StandingNext(s, evs[0], id, ticket))
  }

  function RowFor(id: UserId, ticket: Ticket): Reset {
    Reset(id, Sha256(ticket.token), ticket.at + RESET_TTL_MS)
  }

  /** The account's rows are the one of its standing ticket. */
  ghost predicate RowsAre(resets: seq<Reset>, id: UserId, ticket: Option<Ticket>) {
    forall r :: r in resets && r.userId == id <==> ticket.Some? && r == RowFor(id, ticket.value)
  }

  lemma StepKeepsRows(s: State, e: Event, id: UserId, ticket: Option<Ticket>)
    requires RowsAre(s.resets, id, ticket)
    ensures RowsAre(Step(s, e).resets, id, StandingNext(s, e, id, ticket))
  {
    var ticket' := StandingNext(s, e, id, ticket);
    forall r
      ensures r in Step(s, e).resets && r.userId == id <==> ticket'.Some? && r == RowFor(id, ticket'.value)
    {
      assert r in s.resets && r.userId == id <==> ticket.Some? && r == RowFor(id, ticket.value);
      match e {
        case RequestEv(email, validEmail, _, _) =>
          if Recipient(s, email, validEmail).Some? {
            WithoutUserHas(s.resets, Recipient(s, email, validEmail).value, r);
          }
        case RedeemEv(raw, _, _, _) => WithoutHashHas(s.resets, Sha256(raw), r);
        case _ =>
      }
    }
  }

  lemma {:induction false} RunKeepsRows(s: State, evs: seq<Event>, id: UserId, ticket: Option<Ticket>)
    requires RowsAre(s.resets, id, ticket)
    ensures RowsAre(After(s, evs).resets, id, Standing(s, evs, id, ticket))
    decreases |evs|
  {
    if evs != [] {
      StepKeepsRows(s, evs[0], id, ticket);
      RunKeepsRows(Step(s, evs[0]), evs[1..], id, StandingNext(s, evs[0], id, ticket));
    }
  }

  lemma ApartIsSame(resets: seq<Reset>, used: set<string>, a: Reset, b: Reset)
    requires TokensApart(resets, used) && a in resets && b in resets && a.tokenHash == b.tokenHash
    ensures a == b
  {
    var i, j :| 0 <= i < |resets| && 0 <= j < |resets| && resets[i] == a && resets[j] == b;
  }

  /** Exactly when a token works, after any run with fresh tokens: it redeems an account exactly when
      it is that account's standing ticket, less than half an hour old, and the account exists. */
  lemma RedeemedIff(users: seq<User>, evs: seq<Event>, raw: string, policyOk: bool, now: int, id: UserId)
    requires FreshTokens(evs, {})
    ensures var s := State(users, [], []);
      var ticket := Standing(s, evs, id, None);
      Redeemed(After(s, evs), raw, policyOk, now) == Some(id)
      <==> raw != "" && policyOk && ticket.Some? && ticket.value.token == raw && now < ticket.value.at + 30 * 60 * 1000
           && exists u :: u in After(s, evs).users && u.id == id
  {
    var s0 := State(users, [], []);
    var s, ticket := After(s0, evs), Standing(s0, evs, id, None);
    RunKeepsApart(s0, evs, {});
    RunKeepsRows(s0, evs, id, None);
    if ticket.Some? && ticket.value.token == raw {
      var row := RowFor(id, ticket.value);
      assert row in s.resets;
      ApartIsSame(s.resets, UsedAfter(evs, {}), row, FindReset(s.resets, Sha256(raw)).value);
    }
  }

  /** Burning the redeemed token clears exactly the account's outstanding resets. */
  lemma BurnIsWithoutUser(resets: seq<Reset>, reset: Reset, used: set<string>)
    requires TokensApart(resets, used) && reset in resets
    requires OnePerUser(resets)
    ensures WithoutHash(resets, reset.tokenHash) == WithoutUser(resets, reset.userId)
  {
    var k :| 0 <= k < |resets| && resets[k] == reset;
    assert forall i :: 0 <= i < |resets| && i != k ==>
      resets[i].tokenHash != reset.tokenHash && resets[i].userId != reset.userId;
    KeepSame(resets, (r: Reset) => r.tokenHash != reset.tokenHash, (r: Reset) => r.userId != reset.userId);
  }

  /** A successful redemption, after any run with fresh tokens: the account gets the new password
      and has no outstanding reset; all other accounts, their resets and their sessions stay; and
      the account has no session left exactly when its id is not empty or it had none. */
  lemma SuccessClearsTheAccount(users: seq<User>, evs: seq<Event>, raw: string, policyOk: bool, password: string,
                                now: int, x: Session, i: nat)
    requires FreshTokens(evs, {})
    ensures var s := After(State(users, [], []), evs);
      var s' := Redeem(s, raw, policyOk, password, now);
      match Redeemed(s, raw, policyOk, now)
      case Some(id) =>
        && s'.resets == WithoutUser(s.resets, id)
        && (forall r :: r in s'.resets <==> r in s.resets && r.userId != id)
        && (x.userId != Some(id) ==> (x in s'.sessions <==> x in s.sessions))
        && (x.userId == Some(id) ==> (x !in s'.sessions <==> id != "" || x !in s.sessions))
        && |s'.users| == |s.users|
        && (i < |s.users| ==>
              s'.users[i] == if s.users[i].id == id then s.users[i].(password := Some(password)) else s.users[i])
      case None => s'.users == s.users && s'.sessions == s.sessions
  {
    var s := After(State(users, [], []), evs);
    RunKeepsApart(State(users, [], []), evs, {});
    OneResetPerUser(users, evs);
    match Redeemed(s, raw, policyOk, now) {
      case Some(id) =>
        var reset := FindReset(s.resets, Sha256(raw)).value;
        BurnIsWithoutUser(s.resets, reset, UsedAfter(evs, {}));
        forall r
          ensures r in WithoutUser(s.resets, id) <==> r in s.resets && r.userId != id
        {
          WithoutUserHas(s.resets, id, r);
        }
        RevokeHas(s.sessions, id, x);
      case None =>
    }
  }

  function SessionCount(sessions: seq<Session>, id: UserId): nat {
    if sessions == [] then 0 else (if sessions[0].userId == Some(id) then 1 else 0) + SessionCount(sessions[1..], id)
  }

  lemma {:induction false} SessionsRemoved(sessions: seq<Session>, id: UserId)
    ensures |WithoutSessionsOf(sessions, id)| + SessionCount(sessions, id) == |sessions|
  {
    if sessions != [] { SessionsRemoved(sessions[1..], id); }
  }

  /** What the attempt is answered: an empty token and a refused password are told so, a token that
      redeems no account gets the one message for all of these cases, and a success reports the
      number of the account's sessions, which it has ended. */
  lemma OutcomeMeans(s: State, raw: string, policyOk: bool, now: int)
    ensures var outcome := RedeemOutcome(s, raw, policyOk, now);
      && (outcome == TokenRequired <==> raw == "")
      && (outcome == PolicyRefused <==> raw != "" && !policyOk)
      && (outcome == InvalidLink <==> raw != "" && policyOk && Redeemed(s, raw, policyOk, now) == None)
      && (match Redeemed(s, raw, policyOk, now)
          case Some(id) => outcome == Done(if id == "" then 0 else SessionCount(s.sessions, id))
          case None => !outcome.Done?)
  {
    match Redeemed(s, raw, policyOk, now) {
      case Some(id) => SessionsRemoved(s.sessions, id);
      case None =>
    }
  }

  /** A refused attempt changes no password and no session, and of the resets removes only the
      rows of the token it presented. */
  lemma RefusalChangesNothingElse(s: State, raw: string, policyOk: bool, password: string, now: int, r: Reset)
    requires Redeemed(s, raw, policyOk, now) == None
    ensures var s' := Redeem(s, raw, policyOk, password, now);
      && s'.users == s.users && s'.sessions == s.sessions
      && (r.tokenHash != Sha256(raw) ==> (r in s'.resets <==> r in s.resets))
  {
    WithoutHashHas(s.resets, Sha256(raw), r);
  }
}

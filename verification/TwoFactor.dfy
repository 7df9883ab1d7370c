/** The login machine: password, login token, second factor, session
    (internal/auth/auth.go:112-184; internal/web/handlers.go:130-195;
    internal/web/auth_2fa_handlers.go:23-65, 108-149).  Requests are atomic; every database call
    may fail. */
module TwoFactor {
  import opened Basics
  import opened Strings
  import opened BackupCodes
  import opened LoginBooks

  // ----- what each request changes -----

  /** Which of a request's calls succeed. */
  datatype Luck = Luck(tokenRead: bool, deleted: bool, totpRead: bool, backupRead: bool, backupWritten: bool,
                       issued: bool, deviceRead: bool, deviceWritten: bool, session: bool)

  /** A login with the account whose password was accepted, if any; a login token with a code; a set-up;
      a removal with a code. */
  datatype Call =
    | Login(locked: bool, user: Option<string>, fingerprint: string, luck: Luck)
    | Verify(token: string, code: string, trust: bool, fingerprint: string, luck: Luck)
    | SetUp(email: string, secret: string, hashes: seq<string>, written: bool)
    | Disable(email: string, code: string, read: bool, written: bool)

  datatype Request = Request(now: int, call: Call)

  datatype LoginReply = Locked | WrongPassword | NeedSecond(token: string) | InitiateFailed | LoggedIn | SessionFailed

  datatype VerifyReply = Expired | Retry(token: Option<string>) | In | NoSession

  datatype World = World(random: nat -> string, totp: (string, string, int) -> bool, matches: (string, string) -> bool)

  datatype State = State(drawn: nat, books: Books, factors: Factors)

  predicate Live(tokens: map<string, LoginToken>, token: string, now: int, read: bool) {
    read && token in tokens && now <= tokens[token].expiresAt
  }

  predicate Trusts(devices: set<Device>, email: string, fingerprint: string, now: int, read: bool) {
    read && exists d :: d in devices && d.email == email && d.fingerprint == fingerprint && d.expiresAt > now
  }

  predicate Demanded(f: Factors, email: string) { email in f.rows && f.rows[email].enabled }

  /** The account passes with a TOTP code or with a backup code. */
  ghost predicate SecondGood(w: World, f: Factors, email: string, code: string, now: int, luck: Luck) {
    TotpGood(w.totp, f.history, email, code, now, luck.totpRead)
    || BackupGood(w.matches, f, email, code, luck.backupRead)
  }

  /** A backup code is struck off when it was needed. */
  ghost function AfterSecond(w: World, f: Factors, email: string, code: string, now: int, luck: Luck): Factors {
    if TotpGood(w.totp, f.history, email, code, now, luck.totpRead) then f
    else AfterBackup(w.matches, f, email, code, luck.backupRead, luck.backupWritten)
  }

  /** The number of the token's issue. */
  function IssueOf(issues: seq<Issue>, token: string): nat {
    if issues == [] then 0
    else if issues[|issues| - 1].token == token then |issues| - 1
    else IssueOf(issues[..|issues| - 1], token)
  }

  lemma {:induction false} IssueOfIs(issues: seq<Issue>, i: nat)
    requires i < |issues| && forall j, k :: 0 <= j < k < |issues| ==> issues[j].token != issues[k].token
    ensures IssueOf(issues, issues[i].token) == i
    decreases |issues|
  {
    if i < |issues| - 1 {
      IssueOfIs(issues[..|issues| - 1], i);
    }
  }

  /** The issue of a live token. */
  lemma IssueOfToken(b: Books, t: string)
    requires Issued(b) && t in b.tokens
    ensures var k := IssueOf(b.issues, t);
            k < |b.issues| && b.issues[k].token == t && b.issues[k].email == b.tokens[t].email
            && b.tokens[t].expiresAt == b.issues[k].at + LOGIN_TOKEN_LIFETIME
  {
    assert HasIssue(b, t);
    var i :| 0 <= i < |b.issues| && IsIssue(b, t, i);
    IssueOfIs(b.issues, i);
  }

  /** A token is asked for; `source` says why. */
  ghost function AfterCreate(w: World, drawn: nat, b: Books, email: string, now: int, issued: bool,
                             source: Source): Books
  {
    if issued then WithIssue(b, Issue(w.random(drawn), email, now, source)) else b
  }

  /** HandleLogin, once the password is accepted. */
  ghost function AfterLogin(w: World, s: State, email: string, fingerprint: string, now: int, luck: Luck): State {
    var p, twoFactor := |s.books.accepted|, Demanded(s.factors, email);
    var b := WithAccepted(s.books, Accepted(email, now, twoFactor));
    if !PassesAlone(s.factors, b.devices, email, fingerprint, now, luck) then
      State(s.drawn + 1, AfterCreate(w, s.drawn, b, email, now, luck.issued, ByPassword(p)), s.factors)
    else
      s.(books := if luck.session then b.(sessions := b.sessions + [Session(email, now, Direct(p))]) else b)
  }

  /** A login token that is not live; an expired one is dropped. */
  ghost function AfterExpired(b: Books, token: string, luck: Luck): Books {
    if luck.tokenRead && luck.deleted then b.(tokens := Dropped(b.tokens, token)) else b
  }

  /** The answer to a code: device and session, or a new token for the same account. */
  ghost function AfterAnswer(w: World, s: State, email: string, k: nat, q: Call, now: int): State
    requires q.Verify?
  {
    if SecondGood(w, s.factors, email, q.code, now, q.luck) then
      State(s.drawn,
            Finished(s.books, Verified(email, now, k), q.trust && q.luck.deviceWritten, q.fingerprint, q.luck.session),
            AfterSecond(w, s.factors, email, q.code, now, q.luck))
    else
      State(s.drawn + 1, AfterCreate(w, s.drawn, s.books, email, now, q.luck.issued, Reissued(k)), s.factors)
  }

  /** HandleVerify2FA: the token is used up first, whatever the code. */
  ghost function AfterVerify(w: World, s: State, q: Call, now: int): State
    requires q.Verify?
  {
    if !Live(s.books.tokens, q.token, now, q.luck.tokenRead) then
      s.(books := AfterExpired(s.books, q.token, q.luck))
    else
      var email, k := s.books.tokens[q.token].email, IssueOf(s.books.issues, q.token);
      var b := WithConsumed(s.books, q.token, q.luck.deleted);
      AfterAnswer(w, s.(books := b), email, k, q, now)
  }

  predicate PassesAlone(f: Factors, devices: set<Device>, email: string, fingerprint: string, now: int, luck: Luck) {
    !Demanded(f, email) || Trusts(devices, email, fingerprint, now, luck.deviceRead)
  }

  ghost function LoginAnswer(w: World, s: State, email: string, fingerprint: string, now: int, luck: Luck): LoginReply {
    if PassesAlone(s.factors, s.books.devices, email, fingerprint, now, luck) then
      if luck.session then LoggedIn else SessionFailed
    else if luck.issued then NeedSecond(w.random(s.drawn)) else InitiateFailed
  }

  ghost function VerifyAnswer(w: World, s: State, q: Call, now: int): VerifyReply
    requires q.Verify?
  {
    if !Live(s.books.tokens, q.token, now, q.luck.tokenRead) then Expired
    else CodeAnswer(w, s, s.books.tokens[q.token].email, q, now)
  }

  ghost function CodeAnswer(w: World, s: State, email: string, q: Call, now: int): VerifyReply
    requires q.Verify?
  {
    if !SecondGood(w, s.factors, email, q.code, now, q.luck) then
      Retry(if q.luck.issued then Some(w.random(s.drawn)) else None)
    else if q.luck.session then In else NoSession
  }

  /** The reply to a second factor: the token must be stored and not expired; then the code must be right for the
      secret of the set-up in force, or match a backup code that is left; only then is a session added, the
      token's account's, if one can be. */
  lemma VerifyMeaning(w: World, s: State, q: Call, now: int)
    requires q.Verify?
    ensures var reply, row := VerifyAnswer(w, s, q, now), s.books.tokens;
            && (reply.Expired? <==> !q.luck.tokenRead || q.token !in row || now > row[q.token].expiresAt)
            && (!reply.Expired? ==> (reply.Retry? <==> !CodeRight(w, s.factors, row[q.token].email, q, now)))
            && (reply.In? || reply.NoSession? ==> (reply.In? <==> q.luck.session))
            && EmailsOf(AfterVerify(w, s, q, now).books.sessions) ==
                 EmailsOf(s.books.sessions) + if reply.In? then [row[q.token].email] else []
  {
    if Live(s.books.tokens, q.token, now, q.luck.tokenRead) {
      var email := s.books.tokens[q.token].email;
      FinishedEmails(WithConsumed(s.books, q.token, q.luck.deleted),
                     Verified(email, now, IssueOf(s.books.issues, q.token)),
                     q.trust && q.luck.deviceWritten, q.fingerprint, q.luck.session);
    }
  }

  ghost predicate CodeRight(w: World, f: Factors, email: string, q: Call, now: int)
    requires q.Verify?
  {
    || (q.luck.totpRead && exists i :: InForce(f.history, email, i) && f.history[i].secret != ""
                                       && w.totp(f.history[i].secret, q.code, now))
    || (q.luck.backupRead && email in f.rows && f.rows[email].enabled && email in f.ledgers
        && exists h :: h in f.ledgers[email].left && w.matches(h, q.code))
  }

  lemma FinishedEmails(b: Books, v: Verified, trust: bool, fingerprint: string, session: bool)
    ensures EmailsOf(Finished(b, v, trust, fingerprint, session).sessions) ==
            EmailsOf(b.sessions) + if session then [v.email] else []
  {
  }

  /** What bcrypt gives for ten codes. */
  ghost predicate Proper(q: Request) {
    q.call.SetUp? ==> Storable(q.call.hashes) && |q.call.hashes| == CODE_COUNT
  }

  ghost function Step(w: World, s: State, q: Request): State {
    match q.call
    case Login(locked, user, fingerprint, luck) =>
      if locked || user.None? then s else AfterLogin(w, s, user.value, fingerprint, q.now, luck)
    case Verify(_, _, _, _, _) => AfterVerify(w, s, q.call, q.now)
    case SetUp(email, secret, hashes, written) => s.(factors := AfterSetUp(s.factors, email, secret, hashes, written))
    case Disable(email, code, read, written) =>
      s.(factors := AfterDisable(w.totp, s.factors, email, code, q.now, read, written))
  }

  ghost function Replay(w: World, s: State, qs: seq<Request>): State {
    if qs == [] then s else Step(w, Replay(w, s, qs[..|qs| - 1]), qs[|qs| - 1])
  }

  lemma ReplayNext(w: World, s: State, qs: seq<Request>, q: Request)
    ensures Replay(w, s, qs + [q]) == Step(w, Replay(w, s, qs), q)
  {
    assert (qs + [q])[..|qs|] == qs;
  }

  // ----- a step keeps the books sound -----

  ghost predicate Ready(w: World, s: State) {
    Sound(s.books) && NoRepeats(w.random) && Unspent(w.random, s.drawn, s.books.values)
  }

  lemma CreateSound(w: World, drawn: nat, b: Books, email: string, now: int, issued: bool, source: Source)
    requires Sound(b) && NoRepeats(w.random) && Unspent(w.random, drawn, b.values) && Sourced(b, email, now, source)
    ensures var b' := AfterCreate(w, drawn, b, email, now, issued, source);
            Sound(b') && Unspent(w.random, drawn + 1, b'.values)
  {
    if issued {
      IssueSound(b, Issue(w.random(drawn), email, now, source));
    }
  }

  lemma LoginSound(w: World, s: State, email: string, fingerprint: string, now: int, luck: Luck)
    requires Ready(w, s)
    ensures Ready(w, AfterLogin(w, s, email, fingerprint, now, luck))
  {
    var p, a := |s.books.accepted|, Accepted(email, now, Demanded(s.factors, email));
    var b := WithAccepted(s.books, a);
    AcceptedSound(s.books, a);
    if a.twoFactor && !Trusts(b.devices, email, fingerprint, now, luck.deviceRead) {
      CreateSound(w, s.drawn, b, email, now, luck.issued, ByPassword(p));
    } else if luck.session {
      DirectGood(b, p, email, fingerprint, now);
      SessionSound(b, Session(email, now, Direct(p)));
    }
  }

  lemma DirectGood(b: Books, p: nat, email: string, fingerprint: string, now: int)
    requires Proven(b) && p < |b.accepted| && b.accepted[p].email == email && b.accepted[p].at == now
    requires b.accepted[p].twoFactor ==> Trusts(b.devices, email, fingerprint, now, true)
    ensures GoodSession(b, Session(email, now, Direct(p)))
  {
    if b.accepted[p].twoFactor {
      var d :| d in b.devices && d.email == email && d.fingerprint == fingerprint && d.expiresAt > now;
      assert Trusted(b, email, d.expiresAt);
    }
  }

  lemma UsedSound(b: Books, token: string, now: int, deleted: bool)
    requires Sound(b) && Live(b.tokens, token, now, true)
    ensures var b', k := WithConsumed(b, token, deleted), IssueOf(b.issues, token);
            Sound(b') && Extends(b, b') && k < |b'.issues| && UsedInTime(b', k, b.tokens[token].email, now)
  {
    IssueOfToken(b, token);
    ConsumedSound(b, token, deleted);
  }

  lemma VerifySound(w: World, s: State, q: Call, now: int)
    requires Ready(w, s) && q.Verify?
    ensures Ready(w, AfterVerify(w, s, q, now))
  {
    if !Live(s.books.tokens, q.token, now, q.luck.tokenRead) {
      DropSound(s.books, q.token);
    } else {
      var email, k := s.books.tokens[q.token].email, IssueOf(s.books.issues, q.token);
      UsedSound(s.books, q.token, now, q.luck.deleted);
      AnswerSound(w, s.(books := WithConsumed(s.books, q.token, q.luck.deleted)), email, k, q, now);
    }
  }

  lemma AnswerSound(w: World, s: State, email: string, k: nat, q: Call, now: int)
    requires Ready(w, s) && q.Verify? && k < |s.books.issues| && UsedInTime(s.books, k, email, now)
    ensures Ready(w, AfterAnswer(w, s, email, k, q, now))
  {
    if SecondGood(w, s.factors, email, q.code, now, q.luck) {
      FinishedSound(s.books, Verified(email, now, k), q.trust && q.luck.deviceWritten, q.fingerprint, q.luck.session);
    } else {
      CreateSound(w, s.drawn, s.books, email, now, q.luck.issued, Reissued(k));
    }
  }

  lemma StepSound(w: World, s: State, q: Request)
    requires Ready(w, s)
    ensures Ready(w, Step(w, s, q))
  {
    match q.call
    case Login(locked, user, fingerprint, luck) =>
      if !locked && user.Some? {
        LoginSound(w, s, user.value, fingerprint, q.now, luck);
      }
    case Verify(_, _, _, _, _) => VerifySound(w, s, q.call, q.now);
    case SetUp(_, _, _, _) =>
    case Disable(_, _, _, _) =>
  }

  lemma {:induction false} ReplaySound(w: World, s: State, qs: seq<Request>)
    requires Ready(w, s)
    ensures Ready(w, Replay(w, s, qs))
    decreases |qs|
  {
    if qs != [] {
      ReplaySound(w, s, qs[..|qs| - 1]);
      StepSound(w, Replay(w, s, qs[..|qs| - 1]), qs[|qs| - 1]);
    }
  }

  // ----- a step keeps the times in order -----

  lemma LoginTimely(w: World, s: State, email: string, fingerprint: string, clock: int, now: int, luck: Luck)
    requires Ready(w, s) && Timely(s.books, clock) && clock <= now
    ensures Timely(AfterLogin(w, s, email, fingerprint, now, luck).books, now)
  {
    var p, a := |s.books.accepted|, Accepted(email, now, Demanded(s.factors, email));
    var b := WithAccepted(s.books, a);
    AcceptedSound(s.books, a);
    StillTimely(s.books, clock, b, now);
    if a.twoFactor && !Trusts(b.devices, email, fingerprint, now, luck.deviceRead) {
      CreateTimely(w, s.drawn, b, email, now, luck.issued, ByPassword(p));
    } else if luck.session {
      DirectTimely(b, p, email, fingerprint, now);
    }
  }

  lemma CreateTimely(w: World, drawn: nat, b: Books, email: string, now: int, issued: bool, source: Source)
    requires Proven(b) && Timely(b, now) && Sourced(b, email, now, source)
    ensures Timely(AfterCreate(w, drawn, b, email, now, issued, source), now)
  {
    var b' := AfterCreate(w, drawn, b, email, now, issued, source);
    assert source.Reissued? ==> TimelyIssue(b, source.k, now);
    StillTimely(b, now, b', now);
  }

  lemma DirectTimely(b: Books, p: nat, email: string, fingerprint: string, now: int)
    requires Proven(b) && Timely(b, now) && p < |b.accepted| && b.accepted[p].email == email
    requires b.accepted[p].twoFactor ==> Trusts(b.devices, email, fingerprint, now, true)
    ensures Timely(b.(sessions := b.sessions + [Session(email, now, Direct(p))]), now)
  {
    var e := Session(email, now, Direct(p));
    var b' := b.(sessions := b.sessions + [e]);
    if b.accepted[p].twoFactor {
      var d :| d in b.devices && d.email == email && d.fingerprint == fingerprint && d.expiresAt > now;
      var v := DeviceRemembered(b, now, d, now);
      assert Remembered(b', e, v);
    }
    StillTimely(b, now, b', now);
  }

  lemma FinishedTimely(b: Books, clock: int, v: Verified, trust: bool, fingerprint: string, session: bool)
    requires Sound(b) && Timely(b, clock) && clock <= v.at && GoodVerified(b, v)
    ensures Timely(Finished(b, v, trust, fingerprint, session), v.at)
  {
    assert TimelyIssue(b, v.issue, clock);
    StillTimely(b, clock, Finished(b, v, trust, fingerprint, session), v.at);
  }

  lemma VerifyTimely(w: World, s: State, q: Call, clock: int, now: int)
    requires Ready(w, s) && Timely(s.books, clock) && clock <= now && q.Verify?
    ensures Timely(AfterVerify(w, s, q, now).books, now)
  {
    if !Live(s.books.tokens, q.token, now, q.luck.tokenRead) {
      StillTimely(s.books, clock, AfterExpired(s.books, q.token, q.luck), now);
    } else {
      var email, k := s.books.tokens[q.token].email, IssueOf(s.books.issues, q.token);
      var b := WithConsumed(s.books, q.token, q.luck.deleted);
      UsedSound(s.books, q.token, now, q.luck.deleted);
      StillTimely(s.books, clock, b, now);
      if SecondGood(w, s.factors, email, q.code, now, q.luck) {
        FinishedTimely(b, now, Verified(email, now, k), q.trust && q.luck.deviceWritten, q.fingerprint, q.luck.session);
      } else {
        CreateTimely(w, s.drawn, b, email, now, q.luck.issued, Reissued(k));
      }
    }
  }

  lemma StepTimely(w: World, s: State, q: Request, clock: int)
    requires Ready(w, s) && Timely(s.books, clock) && clock <= q.now
    ensures Timely(Step(w, s, q).books, q.now)
  {
    match q.call
    case Login(locked, user, fingerprint, luck) =>
      if !locked && user.Some? {
        LoginTimely(w, s, user.value, fingerprint, clock, q.now, luck);
      } else {
        StillTimely(s.books, clock, s.books, q.now);
      }
    case Verify(_, _, _, _, _) => VerifyTimely(w, s, q.call, clock, q.now);
    case SetUp(_, _, _, _) => StillTimely(s.books, clock, s.books, q.now);
    case Disable(_, _, _, _) => StillTimely(s.books, clock, s.books, q.now);
  }

  /** The clock never goes back. */
  ghost predicate Monotone(qs: seq<Request>) {
    forall i, j :: 0 <= i < j < |qs| ==> qs[i].now <= qs[j].now
  }

  ghost predicate Fresh(w: World, s: State) { NoRepeats(w.random) && s.books == NoBooks() }

  lemma FreshReady(w: World, s: State)
    requires Fresh(w, s)
    ensures Ready(w, s)
  {
  }

  lemma {:induction false} ReplayTimely(w: World, s: State, qs: seq<Request>)
    requires Fresh(w, s) && Monotone(qs) && qs != []
    ensures Timely(Replay(w, s, qs).books, qs[|qs| - 1].now)
    decreases |qs|
  {
    var n := |qs| - 1;
    FreshReady(w, s);
    ReplaySound(w, s, qs[..n]);
    if n > 0 {
      ReplayTimely(w, s, qs[..n]);
      StepTimely(w, Replay(w, s, qs[..n]), qs[n], qs[n - 1].now);
    } else {
      StepTimely(w, s, qs[0], qs[0].now);
    }
  }

  // ----- what the books owe to the requests -----

  /** Request number `r` is a login in which the account's password was accepted. */
  predicate PasswordBy(qs: seq<Request>, r: nat, email: string) {
    r < |qs| && qs[r].call.Login? && !qs[r].call.locked && qs[r].call.user == Some(email)
  }

  /** The account's second factor was on when request number `r` came: the last change of the account that
      reached the database turned it on. */
  ghost predicate DemandedAt(w: World, s: State, qs: seq<Request>, r: nat, email: string)
    requires r < |qs|
  {
    exists i :: InForce(Replay(w, s, qs[..r]).factors.history, email, i)
  }

  ghost predicate Shown(f: Factors) { AllShow(f.rows, f.history) }

  /** A second factor is demanded of exactly the accounts whose last change turned it on. */
  lemma DemandedInForce(f: Factors, email: string)
    requires Shown(f)
    ensures Demanded(f, email) <==> exists i :: InForce(f.history, email, i)
  {
    ShownSecret(f.rows, f.history, email);
  }

  lemma StepShown(w: World, s: State, q: Request)
    requires Shown(s.factors)
    ensures Shown(Step(w, s, q).factors)
  {
    match q.call
    case Login(_, _, _, _) =>
    case Verify(_, _, _, _, _) => VerifyShown(w, s, q.call, q.now);
    case SetUp(email, secret, hashes, written) =>
      if written && email in s.factors.rows {
        RowsShown(s.factors.rows, s.factors.history, TurnedOn(email, secret), Account(true, secret, Join(hashes, "|")));
      }
    case Disable(email, code, read, written) =>
      ShownSecret(s.factors.rows, s.factors.history, email);
      if TotpGood(w.totp, s.factors.history, email, code, q.now, read) {
        RowsShown(s.factors.rows, s.factors.history, TurnedOff(email), Account(false, "", ""));
      }
  }

  lemma VerifyShown(w: World, s: State, q: Call, now: int)
    requires Shown(s.factors) && q.Verify?
    ensures Shown(AfterVerify(w, s, q, now).factors)
  {
    if Live(s.books.tokens, q.token, now, q.luck.tokenRead) {
      var f, email := s.factors, s.books.tokens[q.token].email;
      if BackupGood(w.matches, f, email, q.code, q.luck.backupRead) {
        var l := f.ledgers[email];
        StillShown(f.rows, f.history, email, Join(Without(l.left, FirstIndex(l.left, w.matches, q.code)), "|"));
      }
    }
  }

  lemma {:induction false} ReplayShown(w: World, s: State, qs: seq<Request>)
    requires Shown(s.factors)
    ensures Shown(Replay(w, s, qs).factors)
    decreases |qs|
  {
    if qs != [] {
      ReplayShown(w, s, qs[..|qs| - 1]);
      StepShown(w, Replay(w, s, qs[..|qs| - 1]), qs[|qs| - 1]);
    }
  }

  lemma DemandedThen(w: World, s: State, qs: seq<Request>, r: nat, email: string)
    requires Shown(s.factors) && r < |qs|
    ensures DemandedAt(w, s, qs, r, email) <==> Demanded(Replay(w, s, qs[..r]).factors, email)
  {
    ReplayShown(w, s, qs[..r]);
    DemandedInForce(Replay(w, s, qs[..r]).factors, email);
  }

  /** Request number `k` is a set-up of the account that reached the database; `on` is the account's row. */
  ghost predicate TurnsOn(qs: seq<Request>, k: int, email: string) {
    0 <= k < |qs| && qs[k].call.SetUp? && qs[k].call.email == email && qs[k].call.written
  }

  /** Request number `k` removes the account's factor: the code is right for the secret in force. */
  ghost predicate TurnsOff(w: World, s: State, qs: seq<Request>, k: int, email: string) {
    0 <= k < |qs| && qs[k].call.Disable? && qs[k].call.email == email && qs[k].call.written
    && TotpGood(w.totp, Replay(w, s, qs[..k]).factors.history, email, qs[k].call.code, qs[k].now, qs[k].call.read)
  }

  /** Over any run from accounts without a factor: it is on exactly if some set-up of the account worked and
      no removal after it did. */
  lemma {:induction false} OnByRequests(w: World, s: State, qs: seq<Request>, email: string)
    requires s.factors.history == [] && email in s.factors.rows
    ensures email in Replay(w, s, qs).factors.rows
    ensures (exists i :: InForce(Replay(w, s, qs).factors.history, email, i)) <==> LastTurnedOn(w, s, qs, email)
    decreases |qs|
  {
    if qs != [] {
      var n := |qs| - 1;
      OnByRequests(w, s, qs[..n], email);
      OnNext(w, s, qs, email);
      StepHistory(w, Replay(w, s, qs[..n]), qs[n], email);
    }
  }

  ghost predicate LastTurnedOn(w: World, s: State, qs: seq<Request>, email: string) {
    exists k :: TurnsOn(qs, k, email) && forall j :: k < j < |qs| ==> !TurnsOff(w, s, qs, j, email)
  }

  lemma OnNext(w: World, s: State, qs: seq<Request>, email: string)
    requires qs != []
    ensures var n := |qs| - 1;
            LastTurnedOn(w, s, qs, email) <==>
              TurnsOn(qs, n, email) || (LastTurnedOn(w, s, qs[..n], email) && !TurnsOff(w, s, qs, n, email))
  {
    var n := |qs| - 1;
    forall k | 0 <= k < n
      ensures TurnsOn(qs[..n], k, email) <==> TurnsOn(qs, k, email)
      ensures TurnsOff(w, s, qs[..n], k, email) <==> TurnsOff(w, s, qs, k, email)
    {
      assert qs[..n][..k] == qs[..k];
    }
  }

  /** What a step does to the account's last change. */
  lemma StepHistory(w: World, s: State, q: Request, email: string)
    requires email in s.factors.rows
    ensures email in Step(w, s, q).factors.rows
    ensures (exists i :: InForce(Step(w, s, q).factors.history, email, i)) <==>
            if q.call.SetUp? && q.call.email == email && q.call.written then true
            else if q.call.Disable? && q.call.email == email && q.call.written
                    && TotpGood(w.totp, s.factors.history, email, q.call.code, q.now, q.call.read) then false
            else exists i :: InForce(s.factors.history, email, i)
  {
    match q.call
    case Login(_, _, _, _) =>
    case Verify(_, _, _, _, _) =>
    case SetUp(e, secret, hashes, written) =>
      if written && e in s.factors.rows {
        ChangeNext(s.factors.history, TurnedOn(e, secret), email);
      }
    case Disable(e, code, read, written) =>
      if written && TotpGood(w.totp, s.factors.history, e, code, q.now, read) {
        ChangeNext(s.factors.history, TurnedOff(e), email);
      }
  }

  lemma ChangeNext(history: seq<Change>, c: Change, email: string)
    ensures (exists i :: InForce(history + [c], email, i)) <==>
            if c.email == email then c.TurnedOn? else exists i :: InForce(history, email, i)
  {
    forall i ensures InForce(history + [c], email, i) <==>
                     if c.email == email then c.TurnedOn? && i == |history| else InForce(history, email, i)
    {
      InForceNext(history, c, email, i);
    }
    if c.email == email && c.TurnedOn? {
      assert InForce(history + [c], email, |history|);
    }
  }

  /** Request number `r` presents a live login token of the account. */
  ghost predicate PresentedBy(w: World, s: State, qs: seq<Request>, r: nat, email: string) {
    r < |qs| && qs[r].call.Verify?
    && var tokens, q := Replay(w, s, qs[..r]).books.tokens, qs[r].call;
       Live(tokens, q.token, qs[r].now, q.luck.tokenRead) && tokens[q.token].email == email
  }

  /** It does so with a code that the account then accepts. */
  ghost predicate SecondBy(w: World, s: State, qs: seq<Request>, r: nat, email: string) {
    PresentedBy(w, s, qs, r, email)
    && SecondGood(w, Replay(w, s, qs[..r]).factors, email, qs[r].call.code, qs[r].now, qs[r].call.luck)
  }

  /** The entries of the books that such requests leave. */
  ghost predicate AcceptedBy(w: World, s: State, qs: seq<Request>, r: nat, a: Accepted) {
    PasswordBy(qs, r, a.email) && qs[r].now == a.at && a.twoFactor == DemandedAt(w, s, qs, r, a.email)
  }

  ghost predicate VerifiedBy(w: World, s: State, qs: seq<Request>, r: nat, v: Verified) {
    SecondBy(w, s, qs, r, v.email) && qs[r].now == v.at
  }

  /** Request number `r` opens session number `n`. */
  ghost predicate OpenedBy(w: World, s: State, qs: seq<Request>, r: nat, n: nat) {
    r < |qs| && |Replay(w, s, qs[..r]).books.sessions| == n
    && var after := Replay(w, s, qs[..r + 1]).books.sessions;
       |after| == n + 1 && after <= Replay(w, s, qs).books.sessions && after[n].at == qs[r].now
  }

  /** `b'` holds what `b` holds and at most one entry more of each kind; a session more has that time. */
  ghost predicate AddsOne(b: Books, b': Books, now: int) {
    && b.sessions <= b'.sessions && |b'.sessions| <= |b.sessions| + 1
    && (|b'.sessions| > |b.sessions| ==> b'.sessions[|b.sessions|].at == now)
    && b.accepted <= b'.accepted && |b'.accepted| <= |b.accepted| + 1
    && b.verified <= b'.verified && |b'.verified| <= |b.verified| + 1
  }

  lemma StepAdds(w: World, s: State, q: Request)
    ensures AddsOne(s.books, Step(w, s, q).books, q.now)
  {
    if q.call.Login? && !q.call.locked && q.call.user.Some? {
      LoginAdds(w, s, q.call.user.value, q.call.fingerprint, q.now, q.call.luck);
    } else if q.call.Verify? && Live(s.books.tokens, q.call.token, q.now, q.call.luck.tokenRead) {
      FinishedAdds(WithConsumed(s.books, q.call.token, q.call.luck.deleted),
                   Verified(s.books.tokens[q.call.token].email, q.now, IssueOf(s.books.issues, q.call.token)),
                   q.call.trust && q.call.luck.deviceWritten, q.call.fingerprint, q.call.luck.session);
    }
  }

  lemma LoginAdds(w: World, s: State, email: string, fingerprint: string, now: int, luck: Luck)
    ensures AddsOne(s.books, AfterLogin(w, s, email, fingerprint, now, luck).books, now)
  {
  }

  lemma FinishedAdds(b: Books, v: Verified, trust: bool, fingerprint: string, session: bool)
    ensures AddsOne(b, Finished(b, v, trust, fingerprint, session), v.at)
  {
  }

  lemma StepPassword(w: World, s: State, qs: seq<Request>)
    requires qs != [] && Shown(s.factors)
    ensures var n := |qs| - 1;
            var t := Replay(w, s, qs[..n]);
            var b, b' := t.books, Step(w, t, qs[n]).books;
            |b'.accepted| > |b.accepted| ==> AcceptedBy(w, s, qs, n, b'.accepted[|b.accepted|])
  {
    var n := |qs| - 1;
    if qs[n].call.Login? && qs[n].call.user.Some? {
      DemandedThen(w, s, qs, n, qs[n].call.user.value);
    }
  }

  lemma StepSecond(w: World, s: State, qs: seq<Request>)
    requires qs != []
    ensures var n := |qs| - 1;
            var t := Replay(w, s, qs[..n]);
            var b, b' := t.books, Step(w, t, qs[n]).books;
            |b'.verified| > |b.verified| ==> VerifiedBy(w, s, qs, n, b'.verified[|b.verified|])
  {
  }

  /** What a prefix owes the run owes. */
  lemma PrefixOwes(w: World, s: State, qs: seq<Request>, n: nat, r: nat)
    requires r < n <= |qs|
    ensures forall a :: AcceptedBy(w, s, qs[..n], r, a) ==> AcceptedBy(w, s, qs, r, a)
    ensures forall v :: VerifiedBy(w, s, qs[..n], r, v) ==> VerifiedBy(w, s, qs, r, v)
  {
    assert qs[..n][..r] == qs[..r];
  }

  /** Some request had the password accepted. */
  ghost predicate PasswordGiven(w: World, s: State, qs: seq<Request>, a: Accepted) {
    exists r: nat :: AcceptedBy(w, s, qs, r, a)
  }

  lemma {:induction false} PasswordsOwed(w: World, s: State, qs: seq<Request>, p: nat)
    requires s.books == NoBooks() && Shown(s.factors) && p < |Replay(w, s, qs).books.accepted|
    ensures PasswordGiven(w, s, qs, Replay(w, s, qs).books.accepted[p])
    decreases |qs|
  {
    var n := |qs| - 1;
    var before := Replay(w, s, qs[..n]).books.accepted;
    PasswordKept(w, s, qs, p);
    if p < |before| {
      PasswordsOwed(w, s, qs[..n], p);
      AcceptedLater(w, s, qs, n, before[p]);
    } else {
      PasswordNow(w, s, qs);
    }
  }

  lemma PasswordNow(w: World, s: State, qs: seq<Request>)
    requires qs != [] && Shown(s.factors)
    ensures var before, after := Replay(w, s, qs[..|qs| - 1]).books.accepted, Replay(w, s, qs).books.accepted;
            |after| > |before| ==> PasswordGiven(w, s, qs, after[|before|])
  {
    StepPassword(w, s, qs);
  }

  lemma PasswordKept(w: World, s: State, qs: seq<Request>, p: nat)
    requires qs != [] && p < |Replay(w, s, qs).books.accepted|
    ensures var before := Replay(w, s, qs[..|qs| - 1]).books.accepted;
            p <= |before| && (p < |before| ==> Replay(w, s, qs).books.accepted[p] == before[p])
  {
    StepAdds(w, Replay(w, s, qs[..|qs| - 1]), qs[|qs| - 1]);
  }

  lemma AcceptedLater(w: World, s: State, qs: seq<Request>, n: nat, a: Accepted)
    requires n <= |qs| && PasswordGiven(w, s, qs[..n], a)
    ensures PasswordGiven(w, s, qs, a)
  {
    var r: nat :| AcceptedBy(w, s, qs[..n], r, a);
    PrefixOwes(w, s, qs, n, r);
  }

  lemma {:induction false} SecondsOwed(w: World, s: State, qs: seq<Request>, v: nat)
    requires s.books == NoBooks() && v < |Replay(w, s, qs).books.verified|
    ensures exists r: nat :: VerifiedBy(w, s, qs, r, Replay(w, s, qs).books.verified[v])
    decreases |qs|
  {
    var n := |qs| - 1;
    var t := Replay(w, s, qs[..n]);
    StepAdds(w, t, qs[n]);
    if v < |t.books.verified| {
      SecondsOwed(w, s, qs[..n], v);
      var r: nat :| VerifiedBy(w, s, qs[..n], r, t.books.verified[v]);
      PrefixOwes(w, s, qs, n, r);
    } else {
      StepSecond(w, s, qs);
    }
  }

  lemma {:induction false} SessionsOwed(w: World, s: State, qs: seq<Request>, n: nat)
    requires s.books == NoBooks() && n < |Replay(w, s, qs).books.sessions|
    ensures exists r: nat :: OpenedBy(w, s, qs, r, n)
    decreases |qs|
  {
    var last := |qs| - 1;
    var t := Replay(w, s, qs[..last]);
    StepAdds(w, t, qs[last]);
    if n < |t.books.sessions| {
      SessionsOwed(w, s, qs[..last], n);
      var r: nat :| OpenedBy(w, s, qs[..last], r, n);
      assert qs[..last][..r] == qs[..r] && qs[..last][..r + 1] == qs[..r + 1];
      assert OpenedBy(w, s, qs, r, n);
    } else {
      assert qs[..last + 1] == qs;
      assert OpenedBy(w, s, qs, last, n);
    }
  }

  // ----- where a live token comes from -----

  /** Request number `r` presents a live login token of the account with a code that the account then
      refuses. */
  ghost predicate RefusedBy(w: World, s: State, qs: seq<Request>, r: nat, email: string) {
    PresentedBy(w, s, qs, r, email)
    && !SecondGood(w, Replay(w, s, qs[..r]).factors, email, qs[r].call.code, qs[r].now, qs[r].call.luck)
  }

  /** The token was drawn for request number `path[0]`.  That is a login that demanded a second factor, or
      else it presented, at most five minutes after its issue, a token that goes back along the rest of the
      path, with a code that was refused. */
  ghost predicate Trail(w: World, s: State, qs: seq<Request>, token: string, email: string, path: seq<nat>)
    decreases |path|
  {
    path != [] && path[0] < |qs| && token == w.random(Replay(w, s, qs[..path[0]]).drawn)
    && match qs[path[0]].call
       case Login(_, _, _, _) =>
         |path| == 1 && PasswordBy(qs, path[0], email) && DemandedAt(w, s, qs, path[0], email)
       case Verify(presented, _, _, _, _) =>
         RefusedBy(w, s, qs, path[0], email) && |path| > 1 && FiveMinutes(qs, path[1], path[0])
         && Trail(w, s, qs, presented, email, path[1..])
       case _ => false
  }

  /** Request `k` comes before request `r`, and `r` at most five minutes after it. */
  predicate FiveMinutes(qs: seq<Request>, k: nat, r: nat) {
    k < r < |qs| && qs[r].now <= qs[k].now + LOGIN_TOKEN_LIFETIME
  }

  lemma {:induction false} TrailLater(w: World, s: State, qs: seq<Request>, n: nat, token: string, email: string,
                                      path: seq<nat>)
    requires n <= |qs| && Trail(w, s, qs[..n], token, email, path)
    ensures Trail(w, s, qs, token, email, path)
    decreases |path|
  {
    assert qs[..n][..path[0]] == qs[..path[0]];
    if qs[path[0]].call.Verify? {
      TrailLater(w, s, qs, n, qs[path[0]].call.token, email, path[1..]);
    }
  }

  /** The rows of login tokens a step leaves: those there before, and one for the value it draws. */
  lemma StepTokens(w: World, s: State, q: Request, t: string)
    requires t in Step(w, s, q).books.tokens
    ensures var row := Step(w, s, q).books.tokens[t];
            || (t in s.books.tokens && row == s.books.tokens[t])
            || (t == w.random(s.drawn) && row.expiresAt == q.now + LOGIN_TOKEN_LIFETIME && Issues(w, s, q, row.email))
  {
    match q.call
    case Login(locked, user, fingerprint, luck) =>
      if !locked && user.Some? {
        LoginTokens(w, s, user.value, fingerprint, q.now, luck, t);
      }
    case Verify(_, _, _, _, _) =>
      VerifyTokens(w, s, q.call, q.now, t);
    case SetUp(_, _, _, _) =>
    case Disable(_, _, _, _) =>
  }

  lemma LoginTokens(w: World, s: State, email: string, fingerprint: string, now: int, luck: Luck, t: string)
    requires t in AfterLogin(w, s, email, fingerprint, now, luck).books.tokens
    ensures var row := AfterLogin(w, s, email, fingerprint, now, luck).books.tokens[t];
            || (t in s.books.tokens && row == s.books.tokens[t])
            || (t == w.random(s.drawn) && row == LoginToken(email, now + LOGIN_TOKEN_LIFETIME)
                && Demanded(s.factors, email))
  {
  }

  lemma VerifyTokens(w: World, s: State, q: Call, now: int, t: string)
    requires q.Verify? && t in AfterVerify(w, s, q, now).books.tokens
    ensures var row, tokens := AfterVerify(w, s, q, now).books.tokens[t], s.books.tokens;
            || (t in tokens && row == tokens[t])
            || (Live(tokens, q.token, now, q.luck.tokenRead) && t == w.random(s.drawn)
                && row == LoginToken(tokens[q.token].email, now + LOGIN_TOKEN_LIFETIME)
                && !SecondGood(w, s.factors, tokens[q.token].email, q.code, now, q.luck))
  {
    if Live(s.books.tokens, q.token, now, q.luck.tokenRead) {
      var email, k := s.books.tokens[q.token].email, IssueOf(s.books.issues, q.token);
      var b := WithConsumed(s.books, q.token, q.luck.deleted);
      FinishedTokens(b, Verified(email, now, k), q.trust && q.luck.deviceWritten, q.fingerprint, q.luck.session);
    }
  }

  lemma FinishedTokens(b: Books, v: Verified, trust: bool, fingerprint: string, session: bool)
    ensures Finished(b, v, trust, fingerprint, session).tokens == b.tokens
  {
  }

  /** The request issues a token for the account. */
  ghost predicate Issues(w: World, s: State, q: Request, email: string) {
    match q.call
    case Login(locked, user, _, _) => !locked && user == Some(email) && Demanded(s.factors, email)
    case Verify(token, code, _, _, luck) =>
      Live(s.books.tokens, token, q.now, luck.tokenRead) && s.books.tokens[token].email == email
      && !SecondGood(w, s.factors, email, code, q.now, luck)
    case _ => false
  }

  /** Over any run from empty books every live token goes back, through codes refused, to a login of its
      account that demanded a second factor; it lives five minutes from the request it was issued for. */
  lemma {:induction false} TokenTrail(w: World, s: State, qs: seq<Request>, t: string) returns (path: seq<nat>)
    requires s.books == NoBooks() && Shown(s.factors) && t in Replay(w, s, qs).books.tokens
    ensures var row := Replay(w, s, qs).books.tokens[t];
            && path != [] && Trail(w, s, qs, t, row.email, path)
            && row.expiresAt == qs[path[0]].now + LOGIN_TOKEN_LIFETIME
    decreases |qs|
  {
    var n := |qs| - 1;
    var before, row := Replay(w, s, qs[..n]), Replay(w, s, qs).books.tokens[t];
    StepTokens(w, before, qs[n], t);
    if t in before.books.tokens && row == before.books.tokens[t] {
      path := TokenTrail(w, s, qs[..n], t);
      TrailLater(w, s, qs, n, t, row.email, path);
    } else if qs[n].call.Login? {
      DemandedThen(w, s, qs, n, row.email);
      path := [n];
    } else {
      var rest := TokenTrail(w, s, qs[..n], qs[n].call.token);
      TrailLater(w, s, qs, n, qs[n].call.token, row.email, rest);
      path := [n] + rest;
      assert path[1..] == rest;
    }
  }

  // ----- where a trusted device comes from -----

  /** Request number `v` accepted a second factor of the account and registered this device, for thirty
      days. */
  ghost predicate RegisteredBy(w: World, s: State, qs: seq<Request>, v: nat, d: Device) {
    SecondBy(w, s, qs, v, d.email) && qs[v].call.trust && qs[v].call.fingerprint == d.fingerprint
    && d.fingerprint != "" && d.expiresAt == qs[v].now + DEVICE_LIFETIME
  }

  lemma StepDevices(w: World, s: State, qs: seq<Request>, d: Device)
    requires qs != [] && d in Replay(w, s, qs).books.devices
    ensures d in Replay(w, s, qs[..|qs| - 1]).books.devices || RegisteredBy(w, s, qs, |qs| - 1, d)
  {
    var n := |qs| - 1;
    var t, q := Replay(w, s, qs[..n]), qs[n];
    if q.call.Verify? && Live(t.books.tokens, q.call.token, q.now, q.call.luck.tokenRead) {
      FinishedDevices(WithConsumed(t.books, q.call.token, q.call.luck.deleted),
                      Verified(t.books.tokens[q.call.token].email, q.now, IssueOf(t.books.issues, q.call.token)),
                      q.call.trust && q.call.luck.deviceWritten, q.call.fingerprint, q.call.luck.session);
    }
  }

  lemma FinishedDevices(b: Books, v: Verified, trust: bool, fingerprint: string, session: bool)
    ensures Finished(b, v, trust, fingerprint, session).devices ==
            if !trust || fingerprint == "" then b.devices
            else b.devices + {Device(v.email, fingerprint, v.at + DEVICE_LIFETIME)}
  {
  }

  lemma {:induction false} DeviceRegistered(w: World, s: State, qs: seq<Request>, d: Device) returns (v: nat)
    requires s.books == NoBooks() && d in Replay(w, s, qs).books.devices
    ensures RegisteredBy(w, s, qs, v, d)
    decreases |qs|
  {
    var n := |qs| - 1;
    StepDevices(w, s, qs, d);
    if RegisteredBy(w, s, qs, n, d) {
      v := n;
    } else {
      v := DeviceRegistered(w, s, qs[..n], d);
      assert qs[..n][..v] == qs[..v];
    }
  }

  // ----- the main result -----

  /** What request number `r` must be to open a session of the account: a login with its password, and if it
      then demanded a second factor, from a device that an earlier request registered with one less than
      thirty days before; or a second factor, given with a login token that goes back to a login that
      demanded it. */
  ghost predicate Opens(w: World, s: State, qs: seq<Request>, r: nat, email: string) {
    r < |qs|
    && match qs[r].call
       case Login(_, _, fingerprint, _) =>
         PasswordBy(qs, r, email) && (DemandedAt(w, s, qs, r, email) ==> Remembers(w, s, qs, r, email, fingerprint))
       case Verify(token, _, _, _, _) => SecondBy(w, s, qs, r, email) && HasTrail(w, s, qs, r, token, email)
       case _ => false
  }

  ghost predicate Remembers(w: World, s: State, qs: seq<Request>, r: nat, email: string, fingerprint: string)
    requires r < |qs|
  {
    exists v: nat :: v < r && qs[r].now < qs[v].now + DEVICE_LIFETIME
      && RegisteredBy(w, s, qs, v, Device(email, fingerprint, qs[v].now + DEVICE_LIFETIME))
  }

  ghost predicate HasTrail(w: World, s: State, qs: seq<Request>, r: nat, token: string, email: string) {
    exists path: seq<nat> :: path != [] && FiveMinutes(qs, path[0], r) && Trail(w, s, qs, token, email, path)
  }

  /** Session number `n` was opened by a request that may open it. */
  ghost predicate Earned(w: World, s: State, qs: seq<Request>, n: nat)
    requires n < |Replay(w, s, qs).books.sessions|
  {
    exists r: nat :: OpenedBy(w, s, qs, r, n) && Opens(w, s, qs, r, Replay(w, s, qs).books.sessions[n].email)
  }

  /** A step that adds a session: by which request, and what it found. */
  lemma StepOpens(w: World, s: State, q: Request)
    requires |Step(w, s, q).books.sessions| > |s.books.sessions|
    ensures var email := Step(w, s, q).books.sessions[|s.books.sessions|].email;
            match q.call
            case Login(locked, user, fingerprint, luck) =>
              !locked && user == Some(email) && PassesAlone(s.factors, s.books.devices, email, fingerprint, q.now, luck)
            case Verify(token, code, _, _, luck) =>
              Live(s.books.tokens, token, q.now, luck.tokenRead) && s.books.tokens[token].email == email
              && SecondGood(w, s.factors, email, code, q.now, luck)
            case _ => false
  {
  }

  lemma LoginOpens(w: World, s: State, qs: seq<Request>, r: nat, email: string)
    requires s.books == NoBooks() && Shown(s.factors) && PasswordBy(qs, r, email)
    requires var t := Replay(w, s, qs[..r]);
             PassesAlone(t.factors, t.books.devices, email, qs[r].call.fingerprint, qs[r].now, qs[r].call.luck)
    ensures Opens(w, s, qs, r, email)
  {
    DemandedThen(w, s, qs, r, email);
    if DemandedAt(w, s, qs, r, email) {
      var fingerprint := qs[r].call.fingerprint;
      var d :| d in Replay(w, s, qs[..r]).books.devices && d.email == email && d.fingerprint == fingerprint
               && d.expiresAt > qs[r].now;
      var v := DeviceRegistered(w, s, qs[..r], d);
      assert qs[..r][..v] == qs[..v];
      assert d == Device(email, fingerprint, qs[v].now + DEVICE_LIFETIME);
      assert RegisteredBy(w, s, qs, v, d);
    }
  }

  lemma VerifyOpens(w: World, s: State, qs: seq<Request>, r: nat, email: string)
    requires s.books == NoBooks() && Shown(s.factors) && SecondBy(w, s, qs, r, email)
    ensures Opens(w, s, qs, r, email)
  {
    var token := qs[r].call.token;
    var path := TokenTrail(w, s, qs[..r], token);
    TrailLater(w, s, qs, r, token, email, path);
    assert FiveMinutes(qs, path[0], r);
  }

  lemma OpenedOpens(w: World, s: State, qs: seq<Request>, r: nat, n: nat)
    requires s.books == NoBooks() && Shown(s.factors) && OpenedBy(w, s, qs, r, n)
    ensures n < |Replay(w, s, qs).books.sessions| && Opens(w, s, qs, r, Replay(w, s, qs).books.sessions[n].email)
  {
    var t := Replay(w, s, qs[..r]);
    assert qs[..r + 1][..r] == qs[..r];
    var email := Step(w, t, qs[r]).books.sessions[n].email;
    OpenedSame(w, s, qs, r, n);
    StepOpens(w, t, qs[r]);
    if qs[r].call.Login? {
      LoginOpens(w, s, qs, r, email);
    } else {
      VerifyOpens(w, s, qs, r, email);
    }
  }

  lemma OpenedSame(w: World, s: State, qs: seq<Request>, r: nat, n: nat)
    requires OpenedBy(w, s, qs, r, n)
    ensures n < |Replay(w, s, qs[..r + 1]).books.sessions| && n < |Replay(w, s, qs).books.sessions|
    ensures Replay(w, s, qs[..r + 1]).books.sessions[n] == Replay(w, s, qs).books.sessions[n]
  {
  }

  /** Over any run from empty books, whoever makes the requests, at whatever times and whatever fails, every
      session is earned. */
  lemma SessionEarned(w: World, s: State, qs: seq<Request>, n: nat)
    requires s.books == NoBooks() && Shown(s.factors) && n < |Replay(w, s, qs).books.sessions|
    ensures Earned(w, s, qs, n)
  {
    SessionsOwed(w, s, qs, n);
    var r: nat :| OpenedBy(w, s, qs, r, n);
    OpenedOpens(w, s, qs, r, n);
  }

  // ----- the machine -----

  class Machine {
    const accounts: Accounts
    const random: nat -> string
    var drawn: nat
    var tokens: map<string, LoginToken>
    var devices: set<Device>
    var sessions: seq<string>          // the account of each session created
    ghost var books: Books

    ghost function Given(): World { World(random, accounts.totp, accounts.matches) }

    ghost function Whole(): State
      reads this, accounts
    {
      State(drawn, books, accounts.View())
    }

    /** The books show what the tables hold. */
    ghost predicate Kept()
      reads this
    {
      books.tokens == tokens && books.devices == devices && EmailsOf(books.sessions) == sessions
    }

    ghost predicate Valid()
      reads this, accounts
    {
      Kept() && accounts.Valid() && Ready(Given(), Whole())
    }

    constructor (accounts: Accounts, random: nat -> string)
      requires accounts.Valid() && NoRepeats(random)
      ensures Valid() && Fresh(Given(), Whole()) && this.accounts == accounts && this.random == random
    {
      this.accounts, this.random := accounts, random;
      drawn, tokens, devices, sessions := 0, map[], {}, [];
      books := NoBooks();
    }

    method Draw() returns (value: string)
      modifies this`drawn
      ensures value == random(old(drawn)) && drawn == old(drawn) + 1
    {
      value := random(drawn);
      drawn := drawn + 1;
    }

    /** CreateLoginToken: a fresh token, for five minutes, if it can be stored. */
    method CreateLoginToken(email: string, now: int, issued: bool, ghost source: Source) returns (r: Option<string>)
      requires Kept() && Unspent(random, drawn, books.values)
      modifies this`drawn, this`tokens, this`books
      ensures Kept() && drawn == old(drawn) + 1
      ensures r == if issued then Some(random(old(drawn))) else None
      ensures r.Some? ==> r.value !in old(books).values && r.value in tokens
                          && tokens[r.value] == LoginToken(email, now + 300)
      ensures books == AfterCreate(Given(), old(drawn), old(books), email, now, issued, source)
    {
      var token := Draw();
      if !issued {
        return None;
      }
      tokens := tokens[token := LoginToken(email, now + LOGIN_TOKEN_LIFETIME)];
      books := WithIssue(books, Issue(token, email, now, source));
      return Some(token);
    }

    /** ConsumeLoginToken: a live token is used up - if its row can be deleted; an expired one is
        dropped. */
    method ConsumeLoginToken(token: string, now: int, luck: Luck) returns (r: Option<string>)
      requires Kept()
      modifies this`tokens, this`books
      ensures Kept()
      ensures var live := Live(old(tokens), token, now, luck.tokenRead);
              && r == (if live then Some(old(tokens)[token].email) else None)
              && books == (if live then WithConsumed(old(books), token, luck.deleted)
                           else AfterExpired(old(books), token, luck))
              && live == (luck.tokenRead && token in old(tokens) && now <= old(tokens)[token].expiresAt)
              && (live && luck.deleted ==> token !in tokens)
              && (live ==> forall t :: Live(tokens, token, t, true) <==>
                             !luck.deleted && t <= old(tokens)[token].expiresAt)
    {
      if !luck.tokenRead {
        return None;
      }
      if token !in tokens {
        assert Dropped(tokens, token) == tokens;
        return None;
      }
      var row := tokens[token];
      if luck.deleted {
        tokens := Dropped(tokens, token);
      }
      if now > row.expiresAt {
        books := AfterExpired(books, token, luck);
        return None;
      }
      books := WithConsumed(books, token, luck.deleted);
      return Some(row.email);
    }

    /** The second factor: a TOTP code, else a backup code, which alone is spent. */
    method CheckSecond(email: string, code: string, now: int, luck: Luck) returns (valid: bool)
      requires accounts.Valid()
      modifies accounts`rows, accounts`ledgers
      ensures accounts.Valid() && valid == SecondGood(Given(), old(accounts.View()), email, code, now, luck)
      ensures accounts.View() == AfterSecond(Given(), old(accounts.View()), email, code, now, luck)
      ensures old(accounts.TotpAccepts(email, code, now, luck.totpRead)) ==> accounts.rows == old(accounts.rows)
    {
      valid := accounts.Verify(email, code, now, luck.totpRead);
      if !valid {
        valid := accounts.VerifyBackup(email, code, luck.backupRead, luck.backupWritten);
      }
    }

    /** After an accepted second factor: the device, and the session. */
    method Finish(email: string, now: int, trust: bool, fingerprint: string, session: bool, ghost k: nat)
      requires Kept()
      modifies this`devices, this`sessions, this`books
      ensures Kept() && books == Finished(old(books), Verified(email, now, k), trust, fingerprint, session)
      ensures sessions == if session then old(sessions) + [email] else old(sessions)
      ensures devices == if !trust || fingerprint == "" then old(devices)
                         else old(devices) + {Device(email, fingerprint, now + 2592000)}
    {
      books := Finished(books, Verified(email, now, k), trust, fingerprint, session);
      if trust && fingerprint != "" {
        devices := devices + {Device(email, fingerprint, now + DEVICE_LIFETIME)};
      }
      if session {
        sessions := sessions + [email];
      }
    }

    method Answer(email: string, ghost k: nat, q: Call, now: int) returns (reply: VerifyReply)
      requires Kept() && accounts.Valid() && Unspent(random, drawn, books.values) && q.Verify?
      modifies this, accounts`rows, accounts`ledgers
      ensures Kept() && accounts.Valid() && Whole() == AfterAnswer(Given(), old(Whole()), email, k, q, now)
      ensures reply == CodeAnswer(Given(), old(Whole()), email, q, now)
    {
      var valid := CheckSecond(email, q.code, now, q.luck);
      if !valid {
        var t := CreateLoginToken(email, now, q.luck.issued, Reissued(k));
        return Retry(t);
      }
      Finish(email, now, q.trust && q.luck.deviceWritten, q.fingerprint, q.luck.session, k);
      return if q.luck.session then In else NoSession;
    }

    /** HandleVerify2FA and APIVerify2FA.  The token is used up first, whatever the code; a wrong
        code earns a new token for the same account. */
    method HandleVerify(q: Call, now: int) returns (reply: VerifyReply)
      requires Valid() && q.Verify?
      modifies this, accounts`rows, accounts`ledgers
      ensures Valid() && Whole() == AfterVerify(Given(), old(Whole()), q, now)
      ensures reply == VerifyAnswer(Given(), old(Whole()), q, now)
      ensures q.luck.tokenRead && q.luck.deleted ==> q.token !in tokens
    {
      VerifySound(Given(), Whole(), q, now);
      ghost var k := IssueOf(books.issues, q.token);
      var email := ConsumeLoginToken(q.token, now, q.luck);
      if email.None? {
        return Expired;
      }
      reply := Answer(email.value, k, q, now);
    }

    /** HandleLogin.  `user` is the account whose password was accepted, if any. */
    method HandleLogin(locked: bool, user: Option<string>, fingerprint: string, now: int, luck: Luck)
      returns (reply: LoginReply)
      requires Valid()
      modifies this`drawn, this`tokens, this`sessions, this`books
      ensures Valid()
      ensures Whole() == if locked || user.None? then old(Whole())
                         else AfterLogin(Given(), old(Whole()), user.value, fingerprint, now, luck)
      ensures reply == if locked then Locked
                       else if user.None? then WrongPassword
                       else LoginAnswer(Given(), old(Whole()), user.value, fingerprint, now, luck)
      ensures !locked && user.Some? && (exists i :: InForce(accounts.history, user.value, i)) &&
              !(luck.deviceRead && exists d :: d in devices && d.email == user.value && d.fingerprint == fingerprint
                                               && d.expiresAt > now) ==>
                (reply.NeedSecond? || reply.InitiateFailed?) && sessions == old(sessions)
      ensures !locked && user.Some? && luck.session && fingerprint != "" && luck.deviceRead
              && (exists d :: d in devices && d.email == user.value && d.fingerprint == fingerprint
                              && d.expiresAt > now) ==>
                reply == LoggedIn && sessions == old(sessions) + [user.value]
      ensures !locked && user.Some? && (forall i :: !InForce(accounts.history, user.value, i)) && luck.session ==>
                reply == LoggedIn && sessions == old(sessions) + [user.value]
    {
      if user.Some? {
        DemandedInForce(accounts.View(), user.value);
      }
      if locked {
        return Locked;
      }
      if user.None? {
        return WrongPassword;
      }
      LoginSound(Given(), Whole(), user.value, fingerprint, now, luck);
      reply := Admit(user.value, fingerprint, now, luck);
    }

    /** The account's password is accepted. */
    method Admit(email: string, fingerprint: string, now: int, luck: Luck) returns (reply: LoginReply)
      requires Kept() && Unspent(random, drawn, books.values)
      modifies this`drawn, this`tokens, this`sessions, this`books
      ensures Kept() && Whole() == AfterLogin(Given(), old(Whole()), email, fingerprint, now, luck)
      ensures reply == LoginAnswer(Given(), old(Whole()), email, fingerprint, now, luck)
    {
      var twoFactor := email in accounts.rows && accounts.rows[email].enabled;
      ghost var p := |books.accepted|;
      books := WithAccepted(books, Accepted(email, now, twoFactor));
      if twoFactor && !Trusts(devices, email, fingerprint, now, luck.deviceRead) {
        var token := CreateLoginToken(email, now, luck.issued, ByPassword(p));
        return if token.Some? then NeedSecond(token.value) else InitiateFailed;
      }
      if !luck.session {
        return SessionFailed;
      }
      sessions := sessions + [email];
      books := books.(sessions := books.sessions + [Session(email, now, Direct(p))]);
      return LoggedIn;
    }

    /** Any series of requests, by anyone and at any times, is served one by one; and a machine that starts
        afresh opens only sessions that are earned. */
    method Serve(requests: seq<Request>)
      requires Valid()
      requires forall i :: 0 <= i < |requests| ==> Proper(requests[i])
      modifies this, accounts
      ensures Valid() && Whole() == Replay(Given(), old(Whole()), requests)
      ensures old(books) == NoBooks() ==>
                forall n: nat :: n < |sessions| ==> Earned(Given(), old(Whole()), requests, n)
    {
      for i := 0 to |requests|
        invariant Valid() && Whole() == Replay(Given(), old(Whole()), requests[..i])
      {
        TakeNext(requests, i);
        ReplayNext(Given(), old(Whole()), requests[..i], requests[i]);
        Execute(requests[i]);
      }
      assert requests[..|requests|] == requests;
      if old(books) == NoBooks() {
        forall n: nat | n < |sessions| ensures Earned(Given(), old(Whole()), requests, n) {
          SessionEarned(Given(), old(Whole()), requests, n);
        }
      }
    }

    method Execute(q: Request)
      requires Valid() && Proper(q)
      modifies this, accounts
      ensures Valid() && Whole() == Step(Given(), old(Whole()), q)
    {
      match q.call
      case Login(locked, user, fingerprint, luck) =>
        var reply := HandleLogin(locked, user, fingerprint, q.now, luck);
      case Verify(_, _, _, _, _) =>
        var reply := HandleVerify(q.call, q.now);
      case SetUp(email, secret, hashes, written) =>
        var ok := accounts.Setup(email, secret, hashes, written);
      case Disable(email, code, read, written) =>
        var ok := accounts.Disable(email, code, q.now, read, written);
    }
  }
}

/** What is remembered of logins: accepted passwords, login tokens, second factors, trusted devices and
    sessions, and how each of them goes back to the others (internal/auth/auth.go:112-184). */
module LoginBooks {
  const LOGIN_TOKEN_LIFETIME: nat := 300
  const DEVICE_LIFETIME: nat := 2592000

  /** A row of `login_token`. */
  datatype LoginToken = LoginToken(email: string, expiresAt: int)

  /** A row of `user_trusted_device`. */
  datatype Device = Device(email: string, fingerprint: string, expiresAt: int)

  // ----- what the proofs remember -----

  /** A password that was accepted, and whether the account then demanded a second factor. */
  datatype Accepted = Accepted(email: string, at: int, twoFactor: bool)

  /** Why a login token was issued: an accepted password, or the use of an earlier token with a
      wrong code. */
  datatype Source = ByPassword(p: nat) | Reissued(k: nat)

  datatype Issue = Issue(token: string, email: string, at: int, source: Source)

  /** A second factor that was accepted, with the token it was presented with. */
  datatype Verified = Verified(email: string, at: int, issue: nat)

  datatype Via = Direct(p: nat) | Second(v: nat)

  datatype Session = Session(email: string, at: int, via: Via)

  datatype Books = Books(tokens: map<string, LoginToken>, devices: set<Device>, sessions: seq<Session>,
                         accepted: seq<Accepted>, issues: seq<Issue>, verified: seq<Verified>,
                         consumed: multiset<string>, undeleted: multiset<string>, values: set<string>)

  // ----- the invariant -----

  ghost predicate GoodIssue(b: Books, i: nat)
    requires i < |b.issues|
  {
    var t := b.issues[i];
    t.token in b.values && Sourced(b, t.email, t.at, t.source) && (t.source.Reissued? ==> t.source.k < i)
  }

  /** A token for the account may be issued at that time: its password was just accepted, or an earlier
      token for it was used, at most five minutes old. */
  ghost predicate Sourced(b: Books, email: string, at: int, source: Source) {
    match source
    case ByPassword(p) =>
      p < |b.accepted| && b.accepted[p].email == email && b.accepted[p].twoFactor && b.accepted[p].at == at
    case Reissued(k) => k < |b.issues| && UsedInTime(b, k, email, at)
  }

  /** Token number `k` is the account's, and was used at that time, before it expired. */
  ghost predicate UsedInTime(b: Books, k: nat, email: string, at: int)
    requires k < |b.issues|
  {
    b.issues[k].email == email && b.issues[k].token in b.consumed && at <= b.issues[k].at + LOGIN_TOKEN_LIFETIME
  }

  ghost predicate Issued(b: Books) {
    && (forall i :: 0 <= i < |b.issues| ==> GoodIssue(b, i))
    && (forall i, j :: 0 <= i < j < |b.issues| ==> b.issues[i].token != b.issues[j].token)
    && (forall t :: t in b.tokens ==> t in b.values && HasIssue(b, t))
  }

  ghost predicate HasIssue(b: Books, t: string)
    requires t in b.tokens
  {
    exists i :: 0 <= i < |b.issues| && IsIssue(b, t, i)
  }

  ghost predicate IsIssue(b: Books, t: string, i: nat)
    requires t in b.tokens && i < |b.issues|
  {
    b.issues[i].token == t && b.tokens[t] == LoginToken(b.issues[i].email, b.issues[i].at + LOGIN_TOKEN_LIFETIME)
  }

  /** A token is consumed once, and once more for each time its row could not be deleted. */
  ghost predicate ConsumedOnce(b: Books) {
    forall t :: t in b.consumed ==>
      t in b.values && b.consumed[t] <= b.undeleted[t] + if t in b.tokens then 0 else 1
  }

  ghost predicate GoodVerified(b: Books, v: Verified) {
    v.issue < |b.issues| && UsedInTime(b, v.issue, v.email, v.at)
  }

  /** The account's owner passed the second factor within the life of a trusted device. */
  ghost predicate Trusted(b: Books, email: string, until: int) {
    exists v :: 0 <= v < |b.verified| && b.verified[v].email == email && until == b.verified[v].at + DEVICE_LIFETIME
  }

  ghost predicate GoodSession(b: Books, s: Session) {
    match s.via
    case Direct(p) =>
      p < |b.accepted| && b.accepted[p].email == s.email && b.accepted[p].at == s.at
      && (b.accepted[p].twoFactor ==> exists until :: until > s.at && Trusted(b, s.email, until))
    case Second(v) => v < |b.verified| && b.verified[v].email == s.email && b.verified[v].at == s.at
  }

  ghost predicate Proven(b: Books) {
    && (forall v :: 0 <= v < |b.verified| ==> GoodVerified(b, b.verified[v]))
    && (forall d :: d in b.devices ==> d.fingerprint != "" && Trusted(b, d.email, d.expiresAt))
    && (forall s :: 0 <= s < |b.sessions| ==> GoodSession(b, b.sessions[s]))
  }

  ghost predicate Sound(b: Books) { Issued(b) && ConsumedOnce(b) && Proven(b) }

  // ----- what the invariant gives -----

  /** Issue number `i` came of the use of number `k`, at most five minutes old. */
  ghost predicate Reissue(b: Books, i: nat, k: nat) {
    i < |b.issues| && k < |b.issues| && b.issues[i].source == Reissued(k)
    && UsedInTime(b, k, b.issues[i].email, b.issues[i].at)
  }

  ghost predicate LinkAt(b: Books, path: seq<nat>, j: int) {
    0 <= j < |path| - 1 && Reissue(b, path[j], path[j + 1])
  }

  /** Issue number `path[0]` goes back, from reissue to reissue, to one made when password number `p`
      was accepted. */
  ghost predicate Chain(b: Books, path: seq<nat>, p: nat) {
    && path != [] && path[0] < |b.issues| && (forall j :: 0 <= j < |path| - 1 ==> LinkAt(b, path, j))
    && var last := path[|path| - 1];
       last < |b.issues| && b.issues[last].source == ByPassword(p)
       && Sourced(b, b.issues[path[0]].email, b.issues[last].at, ByPassword(p))
  }

  /** Every login token goes back, through however many reissues, to an accepted password for the
      same account. */
  lemma {:induction false} TracesBack(b: Books, i: nat) returns (path: seq<nat>, p: nat)
    requires Issued(b) && i < |b.issues|
    ensures path != [] && path[0] == i && Chain(b, path, p)
  {
    assert GoodIssue(b, i);
    match b.issues[i].source
    case ByPassword(q) =>
      path, p := [i], q;
    case Reissued(k) =>
      var rest;
      rest, p := TracesBack(b, k);
      path := [i] + rest;
      forall j | 0 <= j < |path| - 1 ensures LinkAt(b, path, j) {
        assert j > 0 ==> LinkAt(b, rest, j - 1) && path[j] == rest[j - 1] && path[j + 1] == rest[j];
      }
  }

  /** So does every live token, which lives five minutes from its own issue. */
  lemma LiveTokenTracesBack(b: Books, t: string) returns (path: seq<nat>, p: nat)
    requires Issued(b) && t in b.tokens
    ensures path != [] && Chain(b, path, p) && path[0] < |b.issues| && b.issues[path[0]].token == t
    ensures b.tokens[t].expiresAt == b.issues[path[0]].at + LOGIN_TOKEN_LIFETIME
    ensures p < |b.accepted| && b.accepted[p].email == b.tokens[t].email
  {
    assert HasIssue(b, t);
    var i :| 0 <= i < |b.issues| && IsIssue(b, t, i);
    path, p := TracesBack(b, i);
  }

  /** With deletions that work, no token is consumed twice. */
  lemma ConsumedAtMostOnce(b: Books, t: string)
    requires Sound(b) && t !in b.undeleted
    ensures b.consumed[t] <= 1 && (t in b.tokens ==> b.consumed[t] == 0)
  {
    assert t !in b.consumed ==> b.consumed[t] == 0;
  }

  // ----- steps -----

  /** `b'` remembers all that `b` does. */
  ghost predicate Extends(b: Books, b': Books) {
    && |b.accepted| <= |b'.accepted| && (forall i :: 0 <= i < |b.accepted| ==> b'.accepted[i] == b.accepted[i])
    && |b.issues| <= |b'.issues| && (forall i :: 0 <= i < |b.issues| ==> b'.issues[i] == b.issues[i])
    && |b.verified| <= |b'.verified| && (forall i :: 0 <= i < |b.verified| ==> b'.verified[i] == b.verified[i])
    && b.consumed <= b'.consumed && b.values <= b'.values
  }

  lemma StillTrusted(b: Books, b': Books, email: string, until: int)
    requires Extends(b, b') && Trusted(b, email, until)
    ensures Trusted(b', email, until)
  {
    var v :| 0 <= v < |b.verified| && b.verified[v].email == email && until == b.verified[v].at + DEVICE_LIFETIME;
    assert b'.verified[v] == b.verified[v];
  }

  lemma StillGood(b: Books, b': Books, s: Session)
    requires Extends(b, b') && GoodSession(b, s)
    ensures GoodSession(b', s)
  {
    match s.via
    case Direct(p) =>
      assert b'.accepted[p] == b.accepted[p];
      if b.accepted[p].twoFactor {
        var until :| until > s.at && Trusted(b, s.email, until);
        StillTrusted(b, b', s.email, until);
      }
    case Second(v) => assert b'.verified[v] == b.verified[v];
  }

  lemma StillProven(b: Books, b': Books)
    requires Extends(b, b') && Proven(b)
    requires forall v :: |b.verified| <= v < |b'.verified| ==> GoodVerified(b', b'.verified[v])
    requires forall d :: d in b'.devices && d !in b.devices ==> d.fingerprint != "" && Trusted(b', d.email, d.expiresAt)
    requires |b'.sessions| >= |b.sessions| && forall s :: 0 <= s < |b.sessions| ==> b'.sessions[s] == b.sessions[s]
    requires forall s :: |b.sessions| <= s < |b'.sessions| ==> GoodSession(b', b'.sessions[s])
    ensures Proven(b')
  {
    forall v | 0 <= v < |b'.verified| ensures GoodVerified(b', b'.verified[v]) {
      if v < |b.verified| {
        assert GoodVerified(b, b.verified[v]);
      }
    }
    forall d | d in b'.devices ensures d.fingerprint != "" && Trusted(b', d.email, d.expiresAt) {
      if d in b.devices {
        StillTrusted(b, b', d.email, d.expiresAt);
      }
    }
    forall s | 0 <= s < |b'.sessions| ensures GoodSession(b', b'.sessions[s]) {
      if s < |b.sessions| {
        StillGood(b, b', b.sessions[s]);
      }
    }
  }

  lemma StillIssued(b: Books, b': Books)
    requires Extends(b, b') && Issued(b) && b'.issues == b.issues
    requires forall t :: t in b'.tokens ==> t in b.tokens && b'.tokens[t] == b.tokens[t]
    ensures Issued(b')
  {
    forall i | 0 <= i < |b'.issues| ensures GoodIssue(b', i) {
      assert GoodIssue(b, i);
    }
    forall t | t in b'.tokens ensures t in b'.values && HasIssue(b', t) {
      assert HasIssue(b, t);
      var i :| 0 <= i < |b.issues| && IsIssue(b, t, i);
      assert IsIssue(b', t, i);
    }
  }

  /** A password is accepted. */
  ghost function WithAccepted(b: Books, a: Accepted): Books { b.(accepted := b.accepted + [a]) }

  lemma AcceptedSound(b: Books, a: Accepted)
    requires Sound(b)
    ensures Sound(WithAccepted(b, a))
  {
    StillIssued(b, WithAccepted(b, a));
    StillProven(b, WithAccepted(b, a));
  }

  /** A token is issued; its row is in place. */
  ghost function WithIssue(b: Books, t: Issue): Books {
    b.(issues := b.issues + [t], values := b.values + {t.token},
       tokens := b.tokens[t.token := LoginToken(t.email, t.at + LOGIN_TOKEN_LIFETIME)])
  }

  lemma IssueSound(b: Books, t: Issue)
    requires Sound(b) && t.token !in b.values
    requires Sourced(b, t.email, t.at, t.source)
    ensures Sound(WithIssue(b, t))
  {
    var b' := WithIssue(b, t);
    StillProven(b, b');
    IssueIssued(b, t);
    assert t.token !in b.consumed;
  }

  lemma IssueIssued(b: Books, t: Issue)
    requires Issued(b) && t.token !in b.values
    requires Sourced(b, t.email, t.at, t.source)
    ensures Issued(WithIssue(b, t))
  {
    var b' := WithIssue(b, t);
    forall i | 0 <= i < |b'.issues| ensures GoodIssue(b', i) {
      if i < |b.issues| {
        assert GoodIssue(b, i);
      }
    }
    forall i, j | 0 <= i < j < |b'.issues| ensures b'.issues[i].token != b'.issues[j].token {
      assert GoodIssue(b, i);
    }
    forall x | x in b'.tokens ensures x in b'.values && HasIssue(b', x) {
      if x == t.token {
        assert IsIssue(b', x, |b.issues|);
      } else {
        assert HasIssue(b, x);
        var i :| 0 <= i < |b.issues| && IsIssue(b, x, i);
        assert IsIssue(b', x, i);
      }
    }
  }

  function Dropped(tokens: map<string, LoginToken>, t: string): map<string, LoginToken> {
    map x | x in tokens && x != t :: tokens[x]
  }

  /** A row is dropped without the token being consumed. */
  lemma DropSound(b: Books, t: string)
    requires Sound(b)
    ensures Sound(b.(tokens := Dropped(b.tokens, t)))
  {
    var b' := b.(tokens := Dropped(b.tokens, t));
    StillIssued(b, b');
    StillProven(b, b');
  }

  /** A token is consumed; deleting its row works or not. */
  ghost function WithConsumed(b: Books, t: string, deleted: bool): Books {
    b.(consumed := b.consumed + multiset{t},
       undeleted := if deleted then b.undeleted else b.undeleted + multiset{t},
       tokens := if deleted then Dropped(b.tokens, t) else b.tokens)
  }

  lemma ConsumedSound(b: Books, t: string, deleted: bool)
    requires Sound(b) && t in b.tokens
    ensures Sound(WithConsumed(b, t, deleted)) && Extends(b, WithConsumed(b, t, deleted))
  {
    var b' := WithConsumed(b, t, deleted);
    StillIssued(b, b');
    StillProven(b, b');
    assert t !in b.consumed ==> b.consumed[t] == 0;
    forall x | x in b'.consumed
      ensures x in b'.values && b'.consumed[x] <= b'.undeleted[x] + (if x in b'.tokens then 0 else 1)
    {
      assert x != t ==> b'.consumed[x] == b.consumed[x] && x in b.consumed;
    }
  }

  /** A second factor is accepted. */
  ghost function WithVerified(b: Books, v: Verified): Books { b.(verified := b.verified + [v]) }

  lemma VerifiedSound(b: Books, v: Verified)
    requires Sound(b) && GoodVerified(b, v)
    ensures Sound(WithVerified(b, v))
  {
    var b' := WithVerified(b, v);
    StillIssued(b, b');
    assert GoodVerified(b', v);
    StillProven(b, b');
  }

  lemma DeviceSound(b: Books, d: Device)
    requires Sound(b) && d.fingerprint != "" && Trusted(b, d.email, d.expiresAt)
    ensures Sound(b.(devices := b.devices + {d}))
  {
    var b' := b.(devices := b.devices + {d});
    StillIssued(b, b');
    StillTrusted(b, b', d.email, d.expiresAt);
    StillProven(b, b');
  }

  lemma SessionSound(b: Books, s: Session)
    requires Sound(b) && GoodSession(b, s)
    ensures Sound(b.(sessions := b.sessions + [s]))
  {
    var b' := b.(sessions := b.sessions + [s]);
    StillIssued(b, b');
    StillGood(b, b', s);
    StillProven(b, b');
  }

  // ----- time -----

  /** A second factor was accepted for the session's account, at its time or within the life of a trusted
      device before it. */
  ghost predicate Remembered(b: Books, e: Session, v: nat) {
    v < |b.verified| && b.verified[v].email == e.email
    && b.verified[v].at <= e.at < b.verified[v].at + DEVICE_LIFETIME
  }

  ghost predicate TimelyIssue(b: Books, i: nat, clock: int)
    requires i < |b.issues|
  {
    b.issues[i].at <= clock
    && match b.issues[i].source
       case ByPassword(p) => true
       case Reissued(k) => k < |b.issues| && b.issues[k].at <= b.issues[i].at
  }

  ghost predicate TimelyVerified(b: Books, v: Verified, clock: int) {
    v.at <= clock && v.issue < |b.issues| && b.issues[v.issue].at <= v.at
  }

  ghost predicate TimelySession(b: Books, e: Session, clock: int) {
    e.at <= clock
    && (e.via.Direct? && e.via.p < |b.accepted| && b.accepted[e.via.p].twoFactor ==>
          exists v: nat :: Remembered(b, e, v))
  }

  /** Nothing lies after the clock, and what led to something does not lie after it. */
  ghost predicate Timely(b: Books, clock: int) {
    && (forall p :: 0 <= p < |b.accepted| ==> b.accepted[p].at <= clock)
    && (forall i :: 0 <= i < |b.issues| ==> TimelyIssue(b, i, clock))
    && (forall v :: 0 <= v < |b.verified| ==> TimelyVerified(b, b.verified[v], clock))
    && (forall s :: 0 <= s < |b.sessions| ==> TimelySession(b, b.sessions[s], clock))
  }

  lemma StillTimely(b: Books, clock: int, b': Books, now: int)
    requires Timely(b, clock) && clock <= now && Extends(b, b') && |b.sessions| <= |b'.sessions|
    requires forall s :: 0 <= s < |b.sessions| ==> b'.sessions[s] == b.sessions[s] && GoodSession(b, b.sessions[s])
    requires forall p :: |b.accepted| <= p < |b'.accepted| ==> b'.accepted[p].at <= now
    requires forall i :: |b.issues| <= i < |b'.issues| ==> TimelyIssue(b', i, now)
    requires forall v :: |b.verified| <= v < |b'.verified| ==> TimelyVerified(b', b'.verified[v], now)
    requires forall s :: |b.sessions| <= s < |b'.sessions| ==> TimelySession(b', b'.sessions[s], now)
    ensures Timely(b', now)
  {
    forall i | 0 <= i < |b'.issues| ensures TimelyIssue(b', i, now) {
      assert i < |b.issues| ==> TimelyIssue(b, i, clock);
    }
    forall v | 0 <= v < |b'.verified| ensures TimelyVerified(b', b'.verified[v], now) {
      assert v < |b.verified| ==> TimelyVerified(b, b.verified[v], clock);
    }
    forall s | 0 <= s < |b'.sessions| ensures TimelySession(b', b'.sessions[s], now) {
      if s < |b.sessions| {
        SessionStillTimely(b, clock, b', now, b.sessions[s]);
      }
    }
  }

  lemma SessionStillTimely(b: Books, clock: int, b': Books, now: int, e: Session)
    requires Extends(b, b') && clock <= now && GoodSession(b, e) && TimelySession(b, e, clock)
    ensures TimelySession(b', e, now)
  {
    if e.via.Direct? && b.accepted[e.via.p].twoFactor {
      var v: nat :| Remembered(b, e, v);
      assert Remembered(b', e, v);
    }
  }

  /** A trusted device was registered when a second factor was accepted, before now. */
  lemma DeviceRemembered(b: Books, clock: int, d: Device, now: int) returns (v: nat)
    requires Timely(b, clock) && clock <= now < d.expiresAt && Trusted(b, d.email, d.expiresAt)
    ensures forall via :: Remembered(b, Session(d.email, now, via), v)
  {
    v :| 0 <= v < |b.verified| && b.verified[v].email == d.email && d.expiresAt == b.verified[v].at + DEVICE_LIFETIME;
    assert TimelyVerified(b, b.verified[v], clock);
  }

  /** Each link of a chain takes between no time and five minutes. */
  lemma {:induction false} ChainTimes(b: Books, path: seq<nat>, p: nat, clock: int)
    requires Timely(b, clock) && Chain(b, path, p)
    ensures b.accepted[p].at <= b.issues[path[0]].at <= b.accepted[p].at + LOGIN_TOKEN_LIFETIME * (|path| - 1)
    decreases |path|
  {
    if |path| > 1 {
      var rest := path[1..];
      assert LinkAt(b, path, 0) && TimelyIssue(b, path[0], clock);
      forall j | 0 <= j < |rest| - 1 ensures LinkAt(b, rest, j) {
        assert LinkAt(b, path, j + 1);
      }
      ChainEmails(b, path);
      ChainTimes(b, rest, p, clock);
    }
  }

  lemma ChainEmails(b: Books, path: seq<nat>)
    requires |path| > 1 && LinkAt(b, path, 0)
    ensures b.issues[path[1]].email == b.issues[path[0]].email
  {
    assert Reissue(b, path[0], path[1]);
  }

  /** Every session goes back to the password it was opened with: accepted for the account at that very
      time, and if a second factor was demanded, with one remembered by a trusted device; or accepted at the
      head of the chain of login tokens, where a second factor was demanded and then given. */
  lemma SessionTracesBack(b: Books, s: nat, clock: int) returns (p: nat, path: seq<nat>)
    requires Sound(b) && Timely(b, clock) && s < |b.sessions|
    ensures p < |b.accepted| && b.accepted[p].email == b.sessions[s].email && b.accepted[p].at <= b.sessions[s].at
    ensures var e := b.sessions[s];
            match e.via
            case Direct(q) =>
              p == q && b.accepted[p].at == e.at
              && (b.accepted[p].twoFactor ==>
                    exists v: nat :: Remembered(b, e, v) && GoodVerified(b, b.verified[v]))
            case Second(v) =>
              b.accepted[p].twoFactor && Remembered(b, e, v) && b.verified[v].at == e.at
              && GoodVerified(b, b.verified[v])
              && path != [] && path[0] == b.verified[v].issue && Chain(b, path, p)
  {
    var e := b.sessions[s];
    assert GoodSession(b, e) && TimelySession(b, e, clock);
    match e.via
    case Direct(q) =>
      p, path := q, [];
      if b.accepted[p].twoFactor {
        var v: nat :| Remembered(b, e, v);
        assert GoodVerified(b, b.verified[v]);
      }
    case Second(v) =>
      assert GoodVerified(b, b.verified[v]) && TimelyVerified(b, b.verified[v], clock);
      path, p := TracesBack(b, b.verified[v].issue);
      ChainTimes(b, path, p, clock);
  }

  ghost function WithDevice(b: Books, v: Verified, trust: bool, fingerprint: string): Books {
    if trust && fingerprint != "" then
      b.(devices := b.devices + {Device(v.email, fingerprint, v.at + DEVICE_LIFETIME)})
    else b
  }

  ghost function WithSession(b: Books, v: Verified, n: nat, session: bool): Books {
    if session then b.(sessions := b.sessions + [Session(v.email, v.at, Second(n))]) else b
  }

  /** The books after an accepted second factor. */
  ghost function Finished(b: Books, v: Verified, trust: bool, fingerprint: string, session: bool): Books {
    WithSession(WithDevice(WithVerified(b, v), v, trust, fingerprint), v, |b.verified|, session)
  }

  lemma FinishedSound(b: Books, v: Verified, trust: bool, fingerprint: string, session: bool)
    requires Sound(b) && GoodVerified(b, v)
    ensures Sound(Finished(b, v, trust, fingerprint, session))
  {
    VerifiedSound(b, v);
    WithDeviceSound(WithVerified(b, v), v, |b.verified|, trust, fingerprint);
    WithSessionSound(WithDevice(WithVerified(b, v), v, trust, fingerprint), v, |b.verified|, session);
  }

  lemma WithDeviceSound(b: Books, v: Verified, n: nat, trust: bool, fingerprint: string)
    requires Sound(b) && n < |b.verified| && b.verified[n] == v
    ensures Sound(WithDevice(b, v, trust, fingerprint))
  {
    if trust && fingerprint != "" {
      var d := Device(v.email, fingerprint, v.at + DEVICE_LIFETIME);
      assert Trusted(b, d.email, d.expiresAt);
      DeviceSound(b, d);
    }
  }

  lemma WithSessionSound(b: Books, v: Verified, n: nat, session: bool)
    requires Sound(b) && n < |b.verified| && b.verified[n] == v
    ensures Sound(WithSession(b, v, n, session))
  {
    if session {
      SessionSound(b, Session(v.email, v.at, Second(n)));
    }
  }

  function EmailsOf(ss: seq<Session>): seq<string> {
    seq(|ss|, i requires 0 <= i < |ss| => ss[i].email)
  }

  ghost function NoBooks(): Books { Books(map[], {}, [], [], [], [], multiset{}, multiset{}, {}) }
}

/** Outbound delivery on the direct path: attempts, mail hosts, recipient domains, and what each
    of them puts on the network (internal/smtp/relay.go:62-96, 123-257). */
module Relay {
  import opened Basics
  import opened Strings
  import opened MtaSts

  // ----- traces -----

  /** What can be seen of a relay on the network, and what it records for TLS reporting. */
  datatype Event =
    | Dial(domain: string, host: string)
    | StartTls(host: string, established: bool)
    | Refused(host: string)                       // given up for want of TLS, or of a valid certificate
    | Envelope(host: string, recipients: seq<string>)
    | Data(domain: string, host: string)
    | Accepted(domain: string, host: string, recipients: seq<string>)
    | Unanswered(domain: string, host: string, kept: bool)    // all data sent, no reply: did the host keep it?
    | QuitFailed(host: string)
    | TlsSuccess(domain: string, host: string)
    | TlsFailure(domain: string, host: string, resultType: string)

  /** What is counted: a copy of the message that some host has taken, and of these one it kept
      without a reply, and one confirmed over TLS; a transfer without a reply; a failed goodbye; a
      TLS problem met; a TLS success and a failure recorded. */
  datatype Mark = Copy | Held | Confirmed | Silence | Goodbye | Problem | Success | Failure

  /** A trace in figures: the hosts dialled in order, and whether the present connection is secured. */
  datatype Tally = Tally(dials: seq<string>, up: bool, marks: multiset<Mark>)

  function Bump(s: Tally, e: Event): Tally {
    match e
    case Dial(_, host) => s.(dials := s.dials + [host], up := false)
    case StartTls(_, established) => s.(up := established, marks := s.marks + MarksOf(e, s.up))
    case _ => s.(marks := s.marks + MarksOf(e, s.up))
  }

  function MarksOf(e: Event, up: bool): multiset<Mark> {
    match e
    case StartTls(_, established) => if established then multiset{} else multiset{Problem}
    case Refused(_) => multiset{Problem}
    case Accepted(_, _, _) => if up then multiset{Copy, Confirmed} else multiset{Copy}
    case Unanswered(_, _, kept) => if kept then multiset{Silence, Copy, Held} else multiset{Silence}
    case QuitFailed(_) => multiset{Goodbye}
    case TlsSuccess(_, _) => multiset{Success}
    case TlsFailure(_, _, _) => multiset{Failure}
    case _ => multiset{}
  }

  function Count(t: seq<Event>): Tally {
    if t == [] then Tally([], false, multiset{}) else Bump(Count(t[..|t| - 1]), t[|t| - 1])
  }

  lemma CountNext(t: seq<Event>, e: Event)
    ensures Count(t + [e]) == Bump(Count(t), e)
  {
    assert (t + [e])[..|t|] == t;
  }

  function Plus(a: Tally, b: Tally): Tally { Tally(a.dials + b.dials, b.up, a.marks + b.marks) }

  lemma BumpPlus(a: Tally, b: Tally, e: Event)
    ensures Bump(Plus(a, b), e) == Plus(a, Bump(b, e)) || e.Dial?
    ensures e.Dial? ==> Bump(a, e) == Plus(a, Bump(Count([]), e)) && Bump(Plus(a, b), e) == Plus(a, Bump(b, e))
  {
    assert a.dials + [] == a.dials && a.marks + multiset{} == a.marks;
    assert a.marks + b.marks + MarksOf(e, b.up) == a.marks + (b.marks + MarksOf(e, b.up));
    if e.Dial? {
      assert a.dials + b.dials + [e.host] == a.dials + (b.dials + [e.host]);
    }
  }

  /** Traces that begin with a new connection add up. */
  lemma {:induction false} CountAppend(a: seq<Event>, b: seq<Event>)
    requires b != [] && b[0].Dial?
    ensures Count(a + b) == Plus(Count(a), Count(b))
    decreases |b|
  {
    var n := |b| - 1;
    assert b == b[..n] + [b[n]] && a + b == (a + b[..n]) + [b[n]];
    CountNext(a + b[..n], b[n]);
    CountNext(b[..n], b[n]);
    BumpPlus(Count(a), Count(b[..n]), b[n]);
    if n == 0 {
      assert b[..0] == [] && a + b[..0] == a;
    } else {
      CountAppend(a, b[..n]);
    }
  }

  /** The MTA-STS policies found for recipient domains, whether the message itself demands TLS
      (REQUIRETLS), and whether TLS results are reported. */
  datatype Terms = Terms(policies: map<string, Policy>, force: bool, reporting: bool)

  /** TLS is demanded for mail to `domain`. */
  predicate MustSecure(terms: Terms, domain: string) {
    terms.force || (domain in terms.policies && terms.policies[domain].mode == ENFORCE)
  }

  /** The policy permits the host. */
  ghost predicate MayDial(terms: Terms, domain: string, host: string) {
    domain in terms.policies && terms.policies[domain].mode == ENFORCE ==> Admits(terms.policies[domain], host)
  }

  /** Only permitted hosts are dialled, and message data to a domain that demands TLS is only
      written on a secured connection. */
  ghost predicate Secured(t: seq<Event>, terms: Terms) {
    forall i :: 0 <= i < |t| ==> SafeAt(t, i, terms)
  }

  ghost predicate SafeAt(t: seq<Event>, i: int, terms: Terms)
    requires 0 <= i < |t|
  {
    && (t[i].Dial? ==> MayDial(terms, t[i].domain, t[i].host))
    && (t[i].Data? && MustSecure(terms, t[i].domain) ==> Count(t[..i]).up)
  }

  /** On the connection in use at event `i` STARTTLS was done at event `j`. */
  ghost predicate UpSince(t: seq<Event>, j: nat, i: nat)
    requires i <= |t|
  {
    j < i && t[j].StartTls? && t[j].established && forall k :: j < k < i ==> !t[k].Dial? && !t[k].StartTls?
  }

  lemma {:induction false} UpMeaning(t: seq<Event>)
    ensures Count(t).up <==> exists j: nat :: UpSince(t, j, |t|)
  {
    if t != [] {
      var n := |t| - 1;
      var u, e := t[..n], t[n];
      UpMeaning(u);
      assert t == u + [e];
      if e.StartTls? && e.established {
        assert UpSince(t, n, |t|);
      } else if !e.Dial? && !e.StartTls? {
        forall j: nat ensures UpSince(u, j, n) <==> UpSince(t, j, |t|) { }
      }
    }
  }

  lemma UpWithin(t: seq<Event>, i: nat, j: nat)
    requires i <= |t| && UpSince(t[..i], j, i)
    ensures UpSince(t, j, i)
  {
    forall k: nat | j < k < i ensures !t[k].Dial? && !t[k].StartTls? { assert t[k] == t[..i][k]; }
  }

  /** What a secured trace promises: data to a domain for which TLS is demanded - by the message, or by an enforced
      policy - were preceded by a STARTTLS that worked on the same connection. */
  lemma DataOverTls(t: seq<Event>, terms: Terms, i: nat)
    requires Secured(t, terms) && i < |t| && t[i].Data?
    requires terms.force || (t[i].domain in terms.policies && terms.policies[t[i].domain].mode == "enforce")
    ensures exists j: nat :: UpSince(t, j, i)
  {
    assert SafeAt(t, i, terms);
    UpMeaning(t[..i]);
    var j: nat :| UpSince(t[..i], j, i);
    UpWithin(t, i, j);
  }

  /** And under an enforced policy a host dialled matches one of its patterns. */
  lemma DialPermitted(t: seq<Event>, terms: Terms, i: nat)
    requires Secured(t, terms) && i < |t| && t[i].Dial?
    requires t[i].domain in terms.policies && terms.policies[t[i].domain].mode == "enforce"
    ensures exists p :: p in terms.policies[t[i].domain].mx && MatchMx(p, TrimDot(t[i].host))
  {
    assert SafeAt(t, i, terms);
    AdmitsMeaning(terms.policies[t[i].domain], t[i].host);
  }

  ghost predicate StartsFresh(t: seq<Event>) { t != [] ==> t[0].Dial? }

  lemma SecuredAppend(a: seq<Event>, b: seq<Event>, terms: Terms)
    requires Secured(a, terms) && Secured(b, terms) && StartsFresh(b)
    ensures Secured(a + b, terms)
  {
    var t := a + b;
    forall i | 0 <= i < |t| ensures SafeAt(t, i, terms) {
      assert if i < |a| then SafeAt(a, i, terms) else SafeAt(b, i - |a|, terms);
      if i < |a| {
        assert t[i] == a[i] && t[..i] == a[..i];
      } else {
        var k := i - |a|;
        assert t[i] == b[k] && t[..i] == a + b[..k];
        if k > 0 {
          CountAppend(a, b[..k]);
        }
      }
    }
  }

  lemma SecuredNext(t: seq<Event>, e: Event, terms: Terms)
    requires Secured(t, terms)
    requires e.Dial? ==> MayDial(terms, e.domain, e.host)
    requires e.Data? && MustSecure(terms, e.domain) ==> Count(t).up
    ensures Secured(t + [e], terms)
  {
    var u := t + [e];
    forall i | 0 <= i < |u| ensures SafeAt(u, i, terms) {
      assert i < |t| ==> SafeAt(t, i, terms);
      assert i < |t| ==> u[i] == t[i] && u[..i] == t[..i];
      assert i == |t| ==> u[..i] == t;
    }
  }

  /** TLS reporting is accurate: each delivery over TLS is one success, each TLS problem one
      failure, and nothing else is recorded. */
  ghost predicate Accurate(s: Tally, terms: Terms) {
    if terms.reporting then s.marks[Success] == s.marks[Confirmed] && s.marks[Failure] == s.marks[Problem]
    else s.marks[Success] == 0 == s.marks[Failure]
  }

  /** With `n` attempts completed, every other copy taken is due to a goodbye that failed or to a host that
      kept a message without replying. */
  ghost predicate Paid(s: Tally, n: nat) {
    s.marks[Copy] == s.marks[Goodbye] + s.marks[Held] + n && s.marks[Held] <= s.marks[Silence]
  }

  /** So copies beyond the attempts that completed are at most the failed goodbyes and the transfers without a
      reply, and are exactly the failed goodbyes if and only if no host kept what it did not confirm. */
  lemma CopiesBounded(s: Tally, n: nat)
    requires Paid(s, n)
    ensures s.marks[Goodbye] + n <= s.marks[Copy] <= s.marks[Goodbye] + s.marks[Silence] + n
    ensures s.marks[Copy] == s.marks[Goodbye] + n <==> s.marks[Held] == 0
  {
  }

  // ----- one attempt -----

  /** The reply to the end of the data: none may come although the host kept the message. */
  datatype Reply = Positive | Negative | Lost(kept: bool)

  /** What the network and the host make of one attempt: `recipients` is how many are accepted before one is
      refused; `mismatch`, that a DANE check takes place and fails. */
  datatype Outcome = Outcome(connected: bool, offered: bool, established: bool, mismatch: bool, mail: bool,
                             recipients: nat, data: bool, written: bool, reply: Reply, quit: bool)

  /** The attempt gets past the TLS decision. */
  predicate Proceeds(o: Outcome, must: bool) {
    o.connected && if o.offered && o.established then !o.mismatch else !must
  }

  /** The attempt gets to its end: the host took the message for all recipients and said goodbye. */
  predicate Completes(o: Outcome, recipients: nat, must: bool) {
    Proceeds(o, must) && o.mail && o.recipients >= recipients && o.data && o.written && o.reply.Positive? && o.quit
  }

  function Noted(terms: Terms, e: Event): seq<Event> { if terms.reporting then [e] else [] }

  /** The events up to the TLS decision. */
  function Opening(domain: string, host: string, must: bool, o: Outcome, terms: Terms): seq<Event> {
    if !o.connected then [Dial(domain, host)]
    else if o.offered && !o.established then
      var kind := if must then "starttls-not-supported" else "validation-failure";
      [Dial(domain, host)] + [StartTls(host, false)] + Noted(terms, TlsFailure(domain, host, kind))
    else if o.offered && o.mismatch then
      [Dial(domain, host)] + [StartTls(host, true)] + [Refused(host)]
      + Noted(terms, TlsFailure(domain, host, "dane-required"))
    else if o.offered then [Dial(domain, host)] + [StartTls(host, true)]
    else if must then
      [Dial(domain, host)] + [Refused(host)] + Noted(terms, TlsFailure(domain, host, "starttls-not-supported"))
    else [Dial(domain, host)]
  }

  /** The recipients named and accepted. */
  function Envelopes(host: string, to: seq<string>, n: nat): seq<Event>
    requires n <= |to|
  {
    if n == 0 then [] else Envelopes(host, to, n - 1) + [Envelope(host, to[..n])]
  }

  /** The events after the TLS decision. */
  function Transfer(domain: string, host: string, to: seq<string>, o: Outcome, terms: Terms): seq<Event> {
    if !o.mail then []
    else if o.recipients < |to| then Envelopes(host, to, o.recipients)
    else if !o.data then Envelopes(host, to, |to|)
    else if !o.written then Envelopes(host, to, |to|) + [Data(domain, host)]
    else Envelopes(host, to, |to|) + [Data(domain, host)] + Ending(domain, host, to, o, terms)
  }

  /** The events after the data. */
  function Ending(domain: string, host: string, to: seq<string>, o: Outcome, terms: Terms): seq<Event> {
    match o.reply
    case Negative => []
    case Lost(kept) => [Unanswered(domain, host, kept)]
    case Positive =>
      [Accepted(domain, host, to)]
      + (if o.offered && o.established then Noted(terms, TlsSuccess(domain, host)) else [])
      + if o.quit then [] else [QuitFailed(host)]
  }

  function AttemptTrace(domain: string, host: string, to: seq<string>, must: bool, o: Outcome, terms: Terms): seq<Event>
  {
    if Proceeds(o, must) then Opening(domain, host, must, o, terms) + Transfer(domain, host, to, o, terms)
    else Opening(domain, host, must, o, terms)
  }

  /** The attempt gets to the data: connected, TLS as it must be - a connection secured by STARTTLS passes unless
      its DANE check failed, any other only if TLS is not demanded - and sender, recipients and DATA accepted. */
  predicate GetsToData(o: Outcome, recipients: nat, must: bool) {
    o.connected && (if o.offered && o.established then !o.mismatch else !must)
    && o.mail && o.recipients >= recipients && o.data
  }

  /** What the trace of an attempt shows: data exactly if it gets to them; an acceptance exactly if they were
      all written and the host said yes; and what follows from either. */
  lemma TraceMeaning(domain: string, host: string, to: seq<string>, must: bool, o: Outcome, terms: Terms)
    ensures var t, data := AttemptTrace(domain, host, to, must, o, terms), GetsToData(o, |to|, must);
            && (Data(domain, host) in t <==> data)
            && (Accepted(domain, host, to) in t <==> data && o.written && o.reply == Positive)
            && (QuitFailed(host) in t <==> data && o.written && o.reply == Positive && !o.quit)
            && (forall kept :: Unanswered(domain, host, kept) in t <==> data && o.written && o.reply == Lost(kept))
            && (data ==> forall k :: 0 < k <= |to| ==> Envelope(host, to[..k]) in t)
  {
    InOpening(domain, host, to, must, o, terms);
    InTransfer(domain, host, to, o, terms);
  }

  lemma InOpening(domain: string, host: string, to: seq<string>, must: bool, o: Outcome, terms: Terms)
    ensures var t := Opening(domain, host, must, o, terms);
            forall e :: e in t ==> e.Dial? || e.StartTls? || e.Refused? || e.TlsFailure?
  {
  }

  lemma InTransfer(domain: string, host: string, to: seq<string>, o: Outcome, terms: Terms)
    ensures var t, data := Transfer(domain, host, to, o, terms), o.mail && o.recipients >= |to| && o.data;
            && (Data(domain, host) in t <==> data)
            && (Accepted(domain, host, to) in t <==> data && o.written && o.reply == Positive)
            && (QuitFailed(host) in t <==> data && o.written && o.reply == Positive && !o.quit)
            && (forall kept :: Unanswered(domain, host, kept) in t <==> data && o.written && o.reply == Lost(kept))
            && (data ==> forall k :: 0 < k <= |to| ==> Envelope(host, to[..k]) in t)
  {
    InEnvelopes(host, to, if o.recipients < |to| then o.recipients else |to|);
    InEnvelopes(host, to, |to|);
    InEnding(domain, host, to, o, terms);
    assert [Data(domain, host)][0] == Data(domain, host);
  }

  lemma {:induction false} InEnvelopes(host: string, to: seq<string>, n: nat)
    requires n <= |to|
    ensures forall e :: e in Envelopes(host, to, n) <==> exists k :: 1 <= k <= n && e == Envelope(host, to[..k])
  {
    if n > 0 {
      InEnvelopes(host, to, n - 1);
    }
  }

  lemma InEnding(domain: string, host: string, to: seq<string>, o: Outcome, terms: Terms)
    ensures var t := Ending(domain, host, to, o, terms);
            && Data(domain, host) !in t
            && (Accepted(domain, host, to) in t <==> o.reply == Positive)
            && (QuitFailed(host) in t <==> o.reply == Positive && !o.quit)
            && (forall kept :: Unanswered(domain, host, kept) in t <==> o.reply == Lost(kept))
  {
  }

  /** What comes before: the first event is the connection; STARTTLS is tried exactly if it is offered; an attempt
      given up for TLS ends there, with a failure record of its kind when results are reported. */
  lemma OpeningMeaning(domain: string, host: string, to: seq<string>, must: bool, o: Outcome, terms: Terms)
    ensures var t := AttemptTrace(domain, host, to, must, o, terms);
            && t != [] && t[0] == Dial(domain, host)
            && (o.connected && o.offered ==> |t| > 1 && t[1] == StartTls(host, o.established))
            && (!o.connected ==> t == [Dial(domain, host)])
            && (o.connected && o.offered && o.established && o.mismatch ==>
                  t == [Dial(domain, host), StartTls(host, true), Refused(host)]
                       + if terms.reporting then [TlsFailure(domain, host, "dane-required")] else [])
            && (o.connected && o.offered && !o.established && must ==>
                  t == [Dial(domain, host), StartTls(host, false)]
                       + if terms.reporting then [TlsFailure(domain, host, "starttls-not-supported")] else [])
            && (o.connected && !o.offered && must ==>
                  t == [Dial(domain, host), Refused(host)]
                       + if terms.reporting then [TlsFailure(domain, host, "starttls-not-supported")] else [])
            && (o.connected && o.offered && !o.established && !must && terms.reporting ==>
                  |t| > 2 && t[2] == TlsFailure(domain, host, "validation-failure"))
  {
  }

  /** What holds of the events of one attempt before the data are answered. */
  ghost predicate Attempt(t: seq<Event>, host: string, terms: Terms) {
    && t != [] && t[0].Dial? && Count(t).dials == [host]
    && Count(t).marks[Confirmed] == Count(t).marks[Goodbye] == Count(t).marks[Silence] == 0 && Paid(Count(t), 0)
    && Accurate(Count(t), terms) && Secured(t, terms)
  }

  lemma AttemptNext(t: seq<Event>, e: Event, host: string, terms: Terms)
    requires Attempt(t, host, terms)
    requires e.Envelope? || e.Data? || (e.StartTls? && e.established)
    requires e.Data? && MustSecure(terms, e.domain) ==> Count(t).up
    ensures Attempt(t + [e], host, terms)
    ensures Count(t + [e]).up == if e.StartTls? then e.established else Count(t).up
  {
    CountNext(t, e);
    SecuredNext(t, e, terms);
  }

  /** The outcome of an attempt: it counts as delivered when the goodbye worked too. */
  ghost predicate Attempted(t: seq<Event>, host: string, to: seq<string>, domain: string, ok: bool, terms: Terms) {
    && t != [] && t[0].Dial? && Count(t).dials == [host]
    && Paid(Count(t), if ok then 1 else 0)
    && (ok ==> Accepted(domain, host, to) in t)
    && Accurate(Count(t), terms) && Secured(t, terms)
  }

  /** Whenever a host takes the message, it is for one of these groups of recipients. */
  ghost predicate Only(t: seq<Event>, groups: set<seq<string>>) {
    forall d, h, r :: Accepted(d, h, r) in t ==> r in groups
  }

  lemma OnlyJoined(a: seq<Event>, b: seq<Event>, groups: set<seq<string>>)
    requires Only(a, groups) && Only(b, groups)
    ensures Only(a + b, groups)
  {
  }

  lemma {:induction false} NoneAccepted(host: string, to: seq<string>, n: nat, groups: set<seq<string>>)
    requires n <= |to|
    ensures Only(Envelopes(host, to, n), groups)
  {
    if n > 0 {
      NoneAccepted(host, to, n - 1, groups);
    }
  }

  lemma AttemptOnly(domain: string, host: string, to: seq<string>, must: bool, o: Outcome, terms: Terms)
    ensures Only(AttemptTrace(domain, host, to, must, o, terms), {to})
  {
    OpeningOnly(domain, host, must, o, terms, {to});
    TransferOnly(domain, host, to, o, terms);
    OnlyJoined(Opening(domain, host, must, o, terms), Transfer(domain, host, to, o, terms), {to});
  }

  lemma OpeningOnly(domain: string, host: string, must: bool, o: Outcome, terms: Terms, groups: set<seq<string>>)
    ensures Only(Opening(domain, host, must, o, terms), groups)
  {
  }

  lemma TransferOnly(domain: string, host: string, to: seq<string>, o: Outcome, terms: Terms)
    ensures Only(Transfer(domain, host, to, o, terms), {to})
  {
    NoneAccepted(host, to, if o.recipients < |to| then o.recipients else |to|, {to});
    NoneAccepted(host, to, |to|, {to});
    OnlyJoined(Envelopes(host, to, |to|), [Data(domain, host)], {to});
    OnlyJoined(Envelopes(host, to, |to|) + [Data(domain, host)], Ending(domain, host, to, o, terms), {to});
  }

  /** tryRelay, up to the TLS decision.  `requireTls` refuses to go on without TLS. */
  method Connect(host: string, domain: string, requireTls: bool, o: Outcome, terms: Terms)
    returns (ok: bool, t: seq<Event>)
    requires MayDial(terms, domain, host)
    ensures t == Opening(domain, host, requireTls, o, terms) && ok == Proceeds(o, requireTls)
    ensures Attempt(t, host, terms)
    ensures ok ==> Count(t).up == (o.offered && o.established) && (requireTls ==> Count(t).up)
  {
    t := [Dial(domain, host)];
    FirstDial(domain, host, terms);
    if !o.connected {
      return false, t;
    }
    if o.offered {
      if !o.established {
        var kind := if requireTls then "starttls-not-supported" else "validation-failure";
        t := Trouble(t, StartTls(host, false), domain, kind, host, terms);
        return !requireTls, t;
      }
      AttemptNext(t, StartTls(host, true), host, terms);
      t := t + [StartTls(host, true)];
      if o.mismatch {
        t := Trouble(t, Refused(host), domain, "dane-required", host, terms);
        return false, t;
      }
    } else if requireTls {
      t := Trouble(t, Refused(host), domain, "starttls-not-supported", host, terms);
      return false, t;
    }
    return true, t;
  }

  lemma FirstDial(domain: string, host: string, terms: Terms)
    requires MayDial(terms, domain, host)
    ensures Attempt([Dial(domain, host)], host, terms) && !Count([Dial(domain, host)]).up
  {
    SecuredDial(domain, host, terms);
    CountDial(domain, host);
  }

  lemma SecuredDial(domain: string, host: string, terms: Terms)
    requires MayDial(terms, domain, host)
    ensures Secured([Dial(domain, host)], terms)
  {
  }

  lemma CountDial(domain: string, host: string)
    ensures Count([Dial(domain, host)]) == Tally([host], false, multiset{})
  {
    assert [Dial(domain, host)][..0] == [];
  }

  /** A TLS problem, and its record when there is a reporter. */
  method Trouble(t: seq<Event>, e: Event, domain: string, kind: string, host: string, terms: Terms)
    returns (t': seq<Event>)
    requires Attempt(t, host, terms)
    requires e.Refused? || (e.StartTls? && !e.established)
    ensures Attempt(t', host, terms)
    ensures Count(t').up == (e.Refused? && Count(t).up)
    ensures t' == t + [e] + Noted(terms, TlsFailure(domain, host, kind))
  {
    t' := t + [e];
    CountNext(t, e);
    SecuredNext(t, e, terms);
    if terms.reporting {
      CountNext(t', TlsFailure(domain, host, kind));
      SecuredNext(t', TlsFailure(domain, host, kind), terms);
      t' := t' + [TlsFailure(domain, host, kind)];
    }
  }

  /** tryRelay: the events are those the outcome calls for, and it succeeds exactly when the outcome lets it
      get to its end. */
  method TryRelay(to: seq<string>, host: string, domain: string, requireTls: bool, o: Outcome, terms: Terms)
    returns (ok: bool, t: seq<Event>)
    requires requireTls == MustSecure(terms, domain) && MayDial(terms, domain, host)
    ensures t == AttemptTrace(domain, host, to, requireTls, o, terms)
    ensures ok == Completes(o, |to|, requireTls)
    ensures ok <==> o.connected && (if o.offered && o.established then !o.mismatch else !requireTls) && o.mail
                    && o.recipients >= |to| && o.data && o.written && o.reply == Positive && o.quit
    ensures Data(domain, host) in t ==> GetsToData(o, |to|, requireTls)
    ensures Attempted(t, host, to, domain, ok, terms) && Only(t, {to})
  {
    AttemptOnly(domain, host, to, requireTls, o, terms);
    TraceMeaning(domain, host, to, requireTls, o, terms);
    ok, t := Connect(host, domain, requireTls, o, terms);
    if !ok {
      return;
    }
    ghost var opening := t;
    if !o.mail {
      assert opening + [] == opening;
      return false, t;
    }
    t := NameRecipients(t, to, host, o, terms);
    if o.recipients < |to| || !o.data {
      return false, t;
    }
    ghost var named := Envelopes(host, to, |to|);
    AttemptNext(t, Data(domain, host), host, terms);
    Regroup(opening, named, [Data(domain, host)], []);
    t := t + [Data(domain, host)];
    if !o.written {
      return false, t;
    }
    Regroup(opening, named, [Data(domain, host)], Ending(domain, host, to, o, terms));
    ok, t := Finish(t, host, to, domain, o, terms);
  }

  method NameRecipients(t: seq<Event>, to: seq<string>, host: string, o: Outcome, terms: Terms)
    returns (t': seq<Event>)
    requires Attempt(t, host, terms)
    ensures t' == t + Envelopes(host, to, if o.recipients < |to| then o.recipients else |to|)
    ensures Attempt(t', host, terms) && Count(t').up == Count(t).up
  {
    t' := t;
    for i := 0 to |to|
      invariant i <= o.recipients && t' == t + Envelopes(host, to, i)
      invariant Attempt(t', host, terms) && Count(t').up == Count(t).up
    {
      if i == o.recipients {
        return;
      }
      AttemptNext(t', Envelope(host, to[..i + 1]), host, terms);
      Regroup(t, Envelopes(host, to, i), [Envelope(host, to[..i + 1])], []);
      t' := t' + [Envelope(host, to[..i + 1])];
    }
  }

  /** The reply to the data. */
  method Finish(t: seq<Event>, host: string, to: seq<string>, domain: string, o: Outcome, terms: Terms)
    returns (ok: bool, t': seq<Event>)
    requires Attempt(t, host, terms) && Count(t).up == (o.offered && o.established)
    ensures t' == t + Ending(domain, host, to, o, terms) && ok == (o.reply.Positive? && o.quit)
    ensures Attempted(t', host, to, domain, ok, terms)
  {
    match o.reply
    case Negative =>
      ok, t' := false, t;
    case Lost(kept) =>
      var lost := Unanswered(domain, host, kept);
      CountNext(t, lost);
      SecuredNext(t, lost, terms);
      ok, t' := false, t + [lost];
    case Positive =>
      t' := Confirm(t, host, to, domain, o.offered && o.established, terms);
      t' := SayGoodbye(t', host, to, domain, o.quit, terms);
      ok := o.quit;
      Regroup(t, [Accepted(domain, host, to)],
              if o.offered && o.established then Noted(terms, TlsSuccess(domain, host)) else [],
              if o.quit then [] else [QuitFailed(host)]);
  }

  /** The message is accepted: the success record. */
  method Confirm(t: seq<Event>, host: string, to: seq<string>, domain: string, secure: bool, terms: Terms)
    returns (t': seq<Event>)
    requires Attempt(t, host, terms) && Count(t).up == secure
    ensures t' == t + [Accepted(domain, host, to)] + if secure then Noted(terms, TlsSuccess(domain, host)) else []
    ensures Attempted(t', host, to, domain, true, terms)
  {
    var accepted := Accepted(domain, host, to);
    CountNext(t, accepted);
    SecuredNext(t, accepted, terms);
    t' := t + [accepted];
    assert t'[|t|] == accepted;
    if secure && terms.reporting {
      CountNext(t', TlsSuccess(domain, host));
      SecuredNext(t', TlsSuccess(domain, host), terms);
      t' := t' + [TlsSuccess(domain, host)];
    }
  }

  method SayGoodbye(t: seq<Event>, host: string, to: seq<string>, domain: string, quit: bool, terms: Terms)
    returns (t': seq<Event>)
    requires Attempted(t, host, to, domain, true, terms)
    ensures t' == t + (if quit then [] else [QuitFailed(host)])
    ensures Attempted(t', host, to, domain, quit, terms)
  {
    t' := t;
    if !quit {
      CountNext(t, QuitFailed(host));
      SecuredNext(t, QuitFailed(host), terms);
      t' := t + [QuitFailed(host)];
    }
  }

  // ----- one domain -----

  /** The hosts that may be tried, in order. */
  ghost function Allowed(hosts: seq<string>, policy: Option<Policy>): seq<string> {
    if hosts == [] then []
    else
      var host, before := TrimDot(hosts[|hosts| - 1]), Allowed(hosts[..|hosts| - 1], policy);
      if policy.Some? && policy.value.mode == ENFORCE && !Admits(policy.value, host) then before else before + [host]
  }

  function Thrice(hosts: seq<string>): seq<string> {
    if hosts == [] then [] else Thrice(hosts[..|hosts| - 1]) + Times(hosts[|hosts| - 1], 3)
  }

  function Times(host: string, n: nat): seq<string> { seq(n, i => host) }

  /** The trace of a domain: hosts in order, three attempts at each, up to the first attempt that
      completes; all of them when none does.  Every copy taken is due to a failed goodbye or to a
      host that kept it without replying, except the one of the attempt that completed. */
  ghost predicate Sent(t: seq<Event>, hosts: seq<string>, to: seq<string>, domain: string, ok: bool, terms: Terms) {
    && StartsFresh(t) && Secured(t, terms) && Accurate(Count(t), terms)
    && (if ok then Count(t).dials <= Thrice(hosts) else Count(t).dials == Thrice(hosts))
    && Paid(Count(t), if ok then 1 else 0)
    && (ok ==> exists h :: h in hosts && Accepted(domain, h, to) in t)
  }

  /** One of the first `n` hosts is permitted and completes one of three attempts; `net` says what becomes of
      each attempt at each host. */
  ghost predicate Reaches(hosts: seq<string>, n: nat, domain: string, recipients: nat,
                          net: (string, nat, nat) -> Outcome, terms: Terms)
    requires n <= |hosts|
  {
    exists i: nat :: i < n && MayDial(terms, domain, TrimDot(hosts[i]))
      && HostReached(domain, i, recipients, net, terms, 3)
  }

  lemma ReachesNext(hosts: seq<string>, i: nat, domain: string, recipients: nat, net: (string, nat, nat) -> Outcome,
                    terms: Terms)
    requires i < |hosts|
    ensures Reaches(hosts, i + 1, domain, recipients, net, terms) <==>
            || Reaches(hosts, i, domain, recipients, net, terms)
            || (MayDial(terms, domain, TrimDot(hosts[i])) && HostReached(domain, i, recipients, net, terms, 3))
    ensures Reaches(hosts, i + 1, domain, recipients, net, terms) ==>
              Reaches(hosts, |hosts|, domain, recipients, net, terms)
  {
  }

  /** What reaching a domain takes: a host of the list that the policy permits, and one of three attempts there which
      finds everything in order, with TLS if the message or an enforced policy demands it. */
  lemma ReachesMeaning(hosts: seq<string>, domain: string, recipients: nat, net: (string, nat, nat) -> Outcome,
                       terms: Terms)
    ensures var enforced := domain in terms.policies && terms.policies[domain].mode == "enforce";
            Reaches(hosts, |hosts|, domain, recipients, net, terms) <==>
            exists i: nat, a: nat :: i < |hosts| && a < 3
              && InOrder(net(domain, i, a), recipients, terms.force || enforced)
              && (enforced ==> exists p :: p in terms.policies[domain].mx && MatchMx(p, TrimDot(TrimDot(hosts[i]))))
  {
    forall i: nat | i < |hosts|
      ensures MayDial(terms, domain, TrimDot(hosts[i])) <==>
              (domain in terms.policies && terms.policies[domain].mode == "enforce" ==>
                 exists p :: p in terms.policies[domain].mx && MatchMx(p, TrimDot(TrimDot(hosts[i]))))
    {
      if domain in terms.policies { AdmitsMeaning(terms.policies[domain], TrimDot(hosts[i])); }
    }
    if Reaches(hosts, |hosts|, domain, recipients, net, terms) {
      var i: nat :| i < |hosts| && MayDial(terms, domain, TrimDot(hosts[i]))
                    && HostReached(domain, i, recipients, net, terms, 3);
      var a: nat :| a < 3 && Completes(net(domain, i, a), recipients, MustSecure(terms, domain));
      assert InOrder(net(domain, i, a), recipients, MustSecure(terms, domain));
    }
    forall i: nat, a: nat | i < |hosts| && a < 3 && InOrder(net(domain, i, a), recipients, MustSecure(terms, domain))
      ensures HostReached(domain, i, recipients, net, terms, 3)
    {
      ReachedAt(domain, i, recipients, net, terms, a);
    }
  }

  /** Everything goes right in an attempt. */
  predicate InOrder(o: Outcome, recipients: nat, must: bool) {
    GetsToData(o, recipients, must) && o.written && o.reply == Positive && o.quit
  }

  /** sendToDomain.  `mx` is what the MX lookup gave; without one the domain itself is the
      host.  It succeeds exactly when one of the attempts it may make completes. */
  method SendToDomain(to: seq<string>, domain: string, mx: seq<string>, net: (string, nat, nat) -> Outcome,
                      terms: Terms)
    returns (ok: bool, t: seq<Event>)
    ensures Sent(t, Allowed(Hosts(mx, domain), PolicyOf(terms, domain)), to, domain, ok, terms) && Only(t, {to})
    ensures var hosts := if mx != [] then mx else [domain]; ok <==> Reaches(hosts, |hosts|, domain, |to|, net, terms)
  {
    var hosts := Hosts(mx, domain);
    ok, t := false, [];
    for i := 0 to |hosts|
      invariant !ok && Sent(t, Allowed(hosts[..i], PolicyOf(terms, domain)), to, domain, false, terms)
      invariant Only(t, {to})
      invariant !Reaches(hosts, i, domain, |to|, net, terms)
    {
      ok, t := TryNext(t, hosts, i, to, domain, net, terms);
      if ok {
        SentPrefix(t, hosts, i + 1, PolicyOf(terms, domain), to, domain, terms);
        return;
      }
    }
    assert hosts[..|hosts|] == hosts;
  }

  /** The next host, unless the policy forbids it. */
  method TryNext(t: seq<Event>, hosts: seq<string>, i: nat, to: seq<string>, domain: string,
                 net: (string, nat, nat) -> Outcome, terms: Terms)
    returns (ok: bool, t': seq<Event>)
    requires i < |hosts| && Sent(t, Allowed(hosts[..i], PolicyOf(terms, domain)), to, domain, false, terms)
    requires !Reaches(hosts, i, domain, |to|, net, terms) && Only(t, {to})
    ensures Sent(t', Allowed(hosts[..i + 1], PolicyOf(terms, domain)), to, domain, ok, terms) && Only(t', {to})
    ensures ok == Reaches(hosts, i + 1, domain, |to|, net, terms)
    ensures ok ==> Reaches(hosts, |hosts|, domain, |to|, net, terms)
  {
    TakeNext(hosts, i);
    ReachesNext(hosts, i, domain, |to|, net, terms);
    var host, policy, usable := TrimDot(hosts[i]), PolicyOf(terms, domain), true;
    if policy.Some? && policy.value.mode == ENFORCE {
      usable := ValidateMx(policy, host);
    }
    assert usable == MayDial(terms, domain, host);
    if !usable {
      return false, t;
    }
    var more;
    ok, more := TryHost(to, host, domain, i, net, terms);
    SentMore(t, Allowed(hosts[..i], policy), more, host, to, domain, ok, terms);
    OnlyJoined(t, more, {to});
    t' := t + more;
  }

  function Hosts(mx: seq<string>, domain: string): seq<string> { if mx == [] then [domain] else mx }

  function PolicyOf(terms: Terms, domain: string): Option<Policy> {
    if domain in terms.policies then Some(terms.policies[domain]) else None
  }

  /** Up to three attempts at one host. */
  method TryHost(to: seq<string>, host: string, domain: string, i: nat, net: (string, nat, nat) -> Outcome,
                 terms: Terms)
    returns (ok: bool, t: seq<Event>)
    requires MayDial(terms, domain, host)
    ensures Sent(t, [host], to, domain, ok, terms) && t != [] && Only(t, {to})
    ensures ok <==> HostReached(domain, i, |to|, net, terms, 3)
  {
    ok, t := false, [];
    assert Times(host, 0) == [];
    for attempt := 0 to 3
      invariant !ok && Tried(t, host, attempt, terms) && Only(t, {to})
      invariant !HostReached(domain, i, |to|, net, terms, attempt)
    {
      var more;
      ok, more := TryRelay(to, host, domain, MustSecure(terms, domain), net(domain, i, attempt), terms);
      OnlyJoined(t, more, {to});
      if ok {
        TriedLast(t, more, to, domain, host, attempt, terms);
        ReachedAt(domain, i, |to|, net, terms, attempt);
        return ok, t + more;
      }
      TriedMore(t, more, to, domain, host, attempt, terms);
      t := t + more;
    }
    OnceThrice(host);
  }

  lemma TriedMore(t: seq<Event>, more: seq<Event>, to: seq<string>, domain: string, host: string, n: nat, terms: Terms)
    requires Tried(t, host, n, terms) && Attempted(more, host, to, domain, false, terms)
    ensures Tried(t + more, host, n + 1, terms) && t + more != []
  {
    Joined(t, more, 0, 0, terms);
    TimesNext(host, n);
  }

  lemma TriedLast(t: seq<Event>, more: seq<Event>, to: seq<string>, domain: string, host: string, n: nat, terms: Terms)
    requires Tried(t, host, n, terms) && n < 3 && Attempted(more, host, to, domain, true, terms)
    ensures Sent(t + more, [host], to, domain, true, terms) && t + more != []
  {
    Joined(t, more, 0, 1, terms);
    AtMostThrice(host, n);
    assert host in [host] && Accepted(domain, host, to) in t + more;
  }

  lemma AtMostThrice(host: string, n: nat)
    requires n < 3
    ensures Times(host, n) + [host] <= Thrice([host])
  {
    TimesNext(host, n);
    OnceThrice(host);
    assert Times(host, n + 1) == Times(host, 3)[..n + 1];
  }

  /** The trace of `n` attempts that did not complete. */
  ghost predicate Tried(t: seq<Event>, host: string, n: nat, terms: Terms) {
    && StartsFresh(t) && Secured(t, terms) && Accurate(Count(t), terms)
    && Count(t).dials == Times(host, n) && Paid(Count(t), 0) && (n > 0 ==> t != [])
  }

  /** One of the first `n` attempts at host number `i` completes. */
  ghost predicate HostReached(domain: string, i: nat, recipients: nat, net: (string, nat, nat) -> Outcome,
                              terms: Terms, n: nat)
  {
    exists a: nat :: a < n && Completes(net(domain, i, a), recipients, MustSecure(terms, domain))
  }

  lemma ReachedAt(domain: string, i: nat, recipients: nat, net: (string, nat, nat) -> Outcome, terms: Terms, a: nat)
    requires a < 3 && Completes(net(domain, i, a), recipients, MustSecure(terms, domain))
    ensures HostReached(domain, i, recipients, net, terms, 3)
  {
  }

  /** Traces that begin with a new connection can be put one after the other. */
  lemma Joined(t: seq<Event>, more: seq<Event>, n: nat, k: nat, terms: Terms)
    requires Secured(t, terms) && Accurate(Count(t), terms) && Paid(Count(t), n)
    requires Secured(more, terms) && Accurate(Count(more), terms) && Paid(Count(more), k) && StartsFresh(more)
    ensures Secured(t + more, terms) && Accurate(Count(t + more), terms) && Paid(Count(t + more), n + k)
    ensures Count(t + more).dials == Count(t).dials + Count(more).dials
  {
    SecuredAppend(t, more, terms);
    FiguresJoined(t, more, n, k, terms);
  }

  lemma FiguresJoined(t: seq<Event>, more: seq<Event>, n: nat, k: nat, terms: Terms)
    requires Accurate(Count(t), terms) && Paid(Count(t), n)
    requires Accurate(Count(more), terms) && Paid(Count(more), k) && StartsFresh(more)
    ensures Accurate(Count(t + more), terms) && Paid(Count(t + more), n + k)
    ensures Count(t + more).dials == Count(t).dials + Count(more).dials
  {
    CountsAdd(t, more);
    FiguresAdd(Count(t), Count(more), n, k, terms);
  }

  lemma CountsAdd(a: seq<Event>, b: seq<Event>)
    requires StartsFresh(b)
    ensures Count(a + b) == Plus(Count(a), Count(b)).(up := Count(a + b).up)
  {
    if b == [] {
      assert a + b == a && Count(a).dials + [] == Count(a).dials;
    } else {
      CountAppend(a, b);
    }
  }

  lemma FiguresAdd(a: Tally, b: Tally, n: nat, k: nat, terms: Terms)
    requires Accurate(a, terms) && Paid(a, n) && Accurate(b, terms) && Paid(b, k)
    ensures forall up :: Accurate(Plus(a, b).(up := up), terms) && Paid(Plus(a, b).(up := up), n + k)
  {
  }

  lemma TimesNext(host: string, n: nat)
    ensures Times(host, n) + [host] == Times(host, n + 1)
    ensures n < 3 ==> Times(host, n + 1) <= Times(host, 3)
  {
  }

  lemma OnceThrice(host: string)
    ensures Thrice([host]) == Times(host, 3)
  {
    assert [host][..0] == [];
  }

  lemma SentMore(t: seq<Event>, hosts: seq<string>, more: seq<Event>, host: string, to: seq<string>, domain: string,
                 ok: bool, terms: Terms)
    requires Sent(t, hosts, to, domain, false, terms)
    requires Sent(more, [host], to, domain, ok, terms) && more != []
    ensures Sent(t + more, hosts + [host], to, domain, ok, terms)
  {
    Joined(t, more, 0, if ok then 1 else 0, terms);
    OnceThrice(host);
    assert (hosts + [host])[..|hosts|] == hosts;
    assert Thrice(hosts + [host]) == Thrice(hosts) + Times(host, 3);
    if ok {
      var h :| h in [host] && Accepted(domain, h, to) in more;
      assert h in hosts + [host] && Accepted(domain, h, to) in t + more;
    }
  }

  /** Success among the first hosts is success among all of them. */
  lemma {:induction false} SentPrefix(t: seq<Event>, hosts: seq<string>, n: nat, policy: Option<Policy>,
                                      to: seq<string>, domain: string, terms: Terms)
    requires n <= |hosts| && Sent(t, Allowed(hosts[..n], policy), to, domain, true, terms)
    ensures Sent(t, Allowed(hosts, policy), to, domain, true, terms)
    decreases |hosts| - n
  {
    if n == |hosts| {
      assert hosts[..n] == hosts;
    } else {
      TakeNext(hosts, n);
      var a, b := Allowed(hosts[..n], policy), Allowed(hosts[..n + 1], policy);
      if b != a {
        assert b[..|a|] == a;
        assert Thrice(b) == Thrice(a) + Times(b[|a|], 3);
        var h :| h in a && Accepted(domain, h, to) in t;
        assert h in b;
      }
      SentPrefix(t, hosts, n + 1, policy, to, domain, terms);
    }
  }

  /** An enforced policy without mail hosts lets nothing out. */
  lemma {:induction false} NothingAdmitted(hosts: seq<string>, policy: Policy)
    requires policy.mode == ENFORCE && policy.mx == []
    ensures Allowed(hosts, Some(policy)) == []
  {
    if hosts != [] {
      NothingAdmitted(hosts[..|hosts| - 1], policy);
    }
  }

  // ----- all domains -----

  /** The part after the first @, if there is one. */
  function DomainOf(addr: string): Option<string> {
    var i := IndexOf(addr, '@');
    if i < |addr| then Some(addr[i + 1..]) else None
  }

  function InDomain(to: seq<string>, domain: string): seq<string> {
    if to == [] then []
    else
      var a, before := to[|to| - 1], InDomain(to[..|to| - 1], domain);
      if DomainOf(a) == Some(domain) then before + [a] else before
  }

  function Domains(to: seq<string>): set<string> {
    set i | 0 <= i < |to| && DomainOf(to[i]).Some? :: DomainOf(to[i]).value
  }

  /** The domain of user@domain is what follows the @; an address without an @ has none. */
  lemma DomainMeaning(user: string, domain: string)
    requires '@' !in user
    ensures DomainOf(user + "@" + domain) == Some(domain) && DomainOf(user) == None
  {
    IndexOfMiddle(user, '@', domain);
    assert (user + "@" + domain)[|user| + 1..] == domain;
  }

  /** Grouping by domain: the recipients of each domain, in order. */
  method GroupByDomain(to: seq<string>) returns (byDomain: map<string, seq<string>>)
    ensures byDomain.Keys == Domains(to)
    ensures forall d :: d in byDomain ==> byDomain[d] == InDomain(to, d)
  {
    byDomain := map[];
    for i := 0 to |to|
      invariant byDomain.Keys == Domains(to[..i])
      invariant forall d :: d in byDomain ==> byDomain[d] == InDomain(to[..i], d)
    {
      TakeNext(to, i);
      byDomain := AddToGroup(byDomain, to[..i], to[i]);
    }
    assert to[..|to|] == to;
  }

  method AddToGroup(m: map<string, seq<string>>, ghost before: seq<string>, a: string)
    returns (m': map<string, seq<string>>)
    requires m.Keys == Domains(before) && forall d :: d in m ==> m[d] == InDomain(before, d)
    ensures m'.Keys == Domains(before + [a]) && forall d :: d in m' ==> m'[d] == InDomain(before + [a], d)
  {
    DomainsNext(before, a);
    var d := DomainOf(a);
    if d.None? {
      return m;
    }
    NoneInDomain(before, d.value);
    m' := m[d.value := (if d.value in m then m[d.value] else []) + [a]];
  }

  lemma {:induction false} NoneInDomain(to: seq<string>, d: string)
    ensures d !in Domains(to) ==> InDomain(to, d) == []
  {
    if to != [] && d !in Domains(to) {
      var n := |to| - 1;
      assert to == to[..n] + [to[n]];
      DomainsNext(to[..n], to[n]);
      NoneInDomain(to[..n], d);
    }
  }

  lemma DomainsNext(to: seq<string>, a: string)
    ensures Domains(to + [a]) == Domains(to) + (if DomainOf(a).Some? then {DomainOf(a).value} else {})
    ensures forall d :: InDomain(to + [a], d) ==
                        if DomainOf(a) == Some(d) then InDomain(to, d) + [a] else InDomain(to, d)
  {
    var all := to + [a];
    assert all[..|to|] == to;
    forall d | d in Domains(to) ensures d in Domains(all) {
      var i :| 0 <= i < |to| && DomainOf(to[i]) == Some(d);
      assert all[i] == to[i];
    }
    if DomainOf(a).Some? {
      assert all[|to|] == a;
    }
  }

  /** A domain's recipients were all handed over together. */
  ghost predicate Handed(t: seq<Event>, to: seq<string>, domain: string) {
    exists h :: Accepted(domain, h, InDomain(to, domain)) in t
  }

  /** The domains in `done` are served, each by one completed attempt. */
  ghost predicate Served(t: seq<Event>, to: seq<string>, done: set<string>, terms: Terms) {
    && Secured(t, terms) && Accurate(Count(t), terms)
    && (forall d :: d in done ==> Handed(t, to, d))
    && Paid(Count(t), |done|)
  }

  /** What the MX lookups gave, and what becomes of each attempt at each host of each domain. */
  datatype Network = Network(mx: map<string, seq<string>>, outcome: (string, nat, nat) -> Outcome)

  function HostsOf(w: Network, domain: string): seq<string> {
    Hosts(if domain in w.mx then w.mx[domain] else [], domain)
  }

  lemma HostsGiven(w: Network, domain: string)
    ensures HostsOf(w, domain) == if domain in w.mx && w.mx[domain] != [] then w.mx[domain] else [domain]
  {
  }

  ghost predicate Reachable(w: Network, to: seq<string>, domain: string, terms: Terms) {
    var hosts := HostsOf(w, domain);
    Reaches(hosts, |hosts|, domain, |InDomain(to, domain)|, w.outcome, terms)
  }

  function Groups(to: seq<string>): set<seq<string>> { set d | d in Domains(to) :: InDomain(to, d) }

  /** Some host took the message for the address. */
  ghost predicate Covered(t: seq<Event>, a: string) {
    exists d, h, r :: Accepted(d, h, r) in t && a in r
  }

  /** Once all domains are served, an address given is covered exactly if it has an @. */
  lemma CoveredDomains(t: seq<Event>, to: seq<string>, terms: Terms, a: string)
    requires Served(t, to, Domains(to), terms) && Only(t, Groups(to)) && a in to
    ensures Covered(t, a) <==> DomainOf(a).Some?
  {
    if DomainOf(a).Some? {
      var d := DomainOf(a).value;
      assert Handed(t, to, d);
      GroupedOnce(to, a, d);
      var h :| Accepted(d, h, InDomain(to, d)) in t;
    }
    if Covered(t, a) {
      var d, h, r :| Accepted(d, h, r) in t && a in r;
      var e :| e in Domains(to) && r == InDomain(to, e);
      GroupedOnce(to, a, e);
    }
  }

  /** So a success may leave an address out: there is nothing to do for this one. */
  lemma LeftOut()
    ensures Domains(["postmaster"]) == {} && DomainOf("postmaster") == None
  {
    var to := ["postmaster"];
    assert '@' !in to[0];
  }

  /** Send, on the direct path: the domains in no particular order, up to the first that fails.
      Addresses without an @ are passed over in silence: a success covers all the others, and so all
      addresses exactly if each has an @. */
  method Send(to: seq<string>, w: Network, terms: Terms) returns (ok: bool, done: set<string>, t: seq<Event>)
    ensures Served(t, to, done, terms)
    ensures if ok then done == Domains(to) else done < Domains(to)
    ensures ok <==> forall d :: d in Domains(to) ==> Reachable(w, to, d, terms)
    ensures forall d :: d in done ==> Reachable(w, to, d, terms)
    ensures ok ==> forall a :: a in to ==> (Covered(t, a) <==> DomainOf(a).Some?)
  {
    var byDomain := GroupByDomain(to);
    ok, done, t := true, {}, [];
    var todo := byDomain.Keys;
    while ok && todo != {}
      invariant Served(t, to, done, terms) && Only(t, Groups(to))
      invariant Progress(byDomain.Keys, todo, done, ok)
      invariant AllReached(w, to, byDomain.Keys, done, ok, terms)
      decreases todo
    {
      ok, todo, done, t := ServeNext(t, to, byDomain, todo, done, w, terms);
    }
    if ok {
      forall a | a in to ensures Covered(t, a) <==> DomainOf(a).Some? { CoveredDomains(t, to, terms, a); }
    }
  }

  predicate Progress(all: set<string>, todo: set<string>, done: set<string>, ok: bool) {
    todo !! done && todo <= all && if ok then todo + done == all else done < all
  }

  /** The domains done could be reached; when not `ok`, some other could not. */
  ghost predicate AllReached(w: Network, to: seq<string>, all: set<string>, done: set<string>, ok: bool, terms: Terms) {
    && (forall d :: d in done ==> Reachable(w, to, d, terms))
    && (!ok ==> exists d :: d in all && !Reachable(w, to, d, terms))
  }

  /** The next domain, whichever it is. */
  method ServeNext(t: seq<Event>, to: seq<string>, byDomain: map<string, seq<string>>, todo: set<string>,
                   done: set<string>, w: Network, terms: Terms)
    returns (ok: bool, todo': set<string>, done': set<string>, t': seq<Event>)
    requires Served(t, to, done, terms) && Progress(byDomain.Keys, todo, done, true) && todo != {}
    requires AllReached(w, to, byDomain.Keys, done, true, terms)
    requires forall d :: d in byDomain ==> byDomain[d] == InDomain(to, d)
    requires byDomain.Keys == Domains(to) && Only(t, Groups(to))
    ensures Only(t', Groups(to))
    ensures Served(t', to, done', terms) && Progress(byDomain.Keys, todo', done', ok)
    ensures AllReached(w, to, byDomain.Keys, done', ok, terms)
    ensures todo' < todo
  {
    var domain :| domain in todo;
    var hosts := if domain in w.mx then w.mx[domain] else [];
    var more;
    ok, more := SendToDomain(byDomain[domain], domain, hosts, w.outcome, terms);
    assert ok == Reachable(w, to, domain, terms);
    ServedMore(t, more, Hosts(hosts, domain), to, domain, done, ok, terms);
    Progressed(byDomain.Keys, todo, done, domain);
    assert InDomain(to, domain) in Groups(to);
    OnlyJoined(t, more, Groups(to));
    todo', done', t' := todo - {domain}, if ok then done + {domain} else done, t + more;
  }

  lemma Progressed(all: set<string>, todo: set<string>, done: set<string>, d: string)
    requires Progress(all, todo, done, true) && d in todo
    ensures Progress(all, todo - {d}, done + {d}, true) && Progress(all, todo - {d}, done, false) && d !in done
  {
  }

  lemma ServedMore(t: seq<Event>, more: seq<Event>, mx: seq<string>, to: seq<string>, domain: string, done: set<string>,
                   ok: bool, terms: Terms)
    requires Served(t, to, done, terms) && domain !in done
    requires Sent(more, Allowed(mx, PolicyOf(terms, domain)), InDomain(to, domain), domain, ok, terms)
    ensures Served(t + more, to, if ok then done + {domain} else done, terms)
  {
    Joined(t, more, |done|, if ok then 1 else 0, terms);
    forall d | d in done ensures Handed(t + more, to, d) {
      HandedIn(t, t, more, to, d);
    }
    if ok {
      HandedIn(more, t, more, to, domain);
    }
  }

  lemma HandedIn(part: seq<Event>, t: seq<Event>, more: seq<Event>, to: seq<string>, d: string)
    requires Handed(part, to, d) && (part == t || part == more)
    ensures Handed(t + more, to, d)
  {
    var h :| Accepted(d, h, InDomain(to, d)) in part;
    assert Accepted(d, h, InDomain(to, d)) in t + more;
  }

  /** Every address with an @ belongs to exactly one group. */
  lemma {:induction false} GroupedOnce(to: seq<string>, a: string, domain: string)
    ensures multiset(InDomain(to, domain))[a] == if DomainOf(a) == Some(domain) then multiset(to)[a] else 0
  {
    if to != [] {
      GroupedOnce(to[..|to| - 1], a, domain);
      assert to == to[..|to| - 1] + [to[|to| - 1]];
    }
  }
}

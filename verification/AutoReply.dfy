/** Automatic replies and their cooldown (internal/store/store.go:133-175,
    internal/store/postgres.go:78-82, internal/store/database.go:1076-1081).  Processing is atomic;
    database calls and sending may fail. */
module AutoReply {
  import opened Basics
  import opened Strings

  const COOLDOWN: nat := 86400

  /** A row of `auto_reply`. */
  datatype Settings = Settings(enabled: bool, subject: string, body: string, start: Option<int>, end: Option<int>)

  /** A reply that was sent: whether the log could be read before it, and written after it. */
  datatype Reply = Reply(recipient: string, sender: string, at: int, logRead: bool, logged: bool)

  const SKIP_WORDS: seq<string> := ["noreply", "no-reply", "donotreply", "do-not-reply", "mailer-daemon"]

  ghost predicate Skipped(sender: string) {
    exists k :: 0 <= k < |SKIP_WORDS| && Contains(Lower(sender), SKIP_WORDS[k])
  }

  /** The five words spelled out. */
  predicate MentionsAny(s: string) {
    || Contains(s, "noreply") || Contains(s, "no-reply") || Contains(s, "donotreply") || Contains(s, "do-not-reply")
    || Contains(s, "mailer-daemon")
  }

  lemma SkipMeaning(sender: string)
    ensures Skipped(sender) <==> MentionsAny(Lower(sender))
  {
    var w := SKIP_WORDS;
    assert w[0] == "noreply" && w[1] == "no-reply" && w[2] == "donotreply" && w[3] == "do-not-reply"
           && w[4] == "mailer-daemon";
  }

  predicate InRange(s: Settings, now: int) {
    (s.start.Some? ==> s.start.value <= now) && (s.end.Some? ==> now <= s.end.value)
  }

  /** The log holds a reply to this sender less than a day old. */
  predicate Recently(log: map<(string, string), int>, recipient: string, sender: string, now: int) {
    (recipient, sender) in log && log[(recipient, sender)] > now - COOLDOWN
  }

  ghost predicate SamePair(a: Reply, b: Reply) { a.recipient == b.recipient && a.sender == b.sender }

  /** The log is never behind the replies that were logged, nor ahead of the clock. */
  ghost predicate Behind(log: map<(string, string), int>, sent: seq<Reply>, clock: int) {
    && (forall p :: p in log ==> log[p] <= clock)
    && (forall i :: 0 <= i < |sent| ==> sent[i].at <= clock)
    && (forall i :: 0 <= i < |sent| && sent[i].logged ==>
          (sent[i].recipient, sent[i].sender) in log && sent[i].at <= log[(sent[i].recipient, sent[i].sender)])
  }

  /** Two replies of a user to the same sender are a day apart - unless the first could not be
      logged, or the log could not be read before the second. */
  ghost predicate Spaced(sent: seq<Reply>) {
    forall i, j :: 0 <= i < j < |sent| && SamePair(sent[i], sent[j]) && sent[i].logged && sent[j].logRead ==>
      sent[j].at - sent[i].at >= COOLDOWN
  }

  lemma SentOne(log: map<(string, string), int>, sent: seq<Reply>, clock: int, r: Reply)
    requires Behind(log, sent, clock) && Spaced(sent) && clock <= r.at
    requires r.logRead ==> !Recently(log, r.recipient, r.sender, r.at)
    ensures Spaced(sent + [r])
    ensures Behind(if r.logged then log[(r.recipient, r.sender) := r.at] else log, sent + [r], r.at)
  {
  }

  // ----- what each mail calls for -----

  datatype Incoming = Incoming(recipient: string, sender: string, now: int, relay: bool,
                               settingsRead: bool, logRead: bool, sends: bool, logged: bool)

  /** The log, and the replies sent so far. */
  datatype Diary = Diary(log: map<(string, string), int>, sent: seq<Reply>)

  /** A reply is called for. */
  ghost predicate Due(settings: map<string, Settings>, log: map<(string, string), int>, m: Incoming) {
    m.settingsRead && m.recipient in settings && settings[m.recipient].enabled
    && InRange(settings[m.recipient], m.now) && !Skipped(m.sender)
    && !(m.logRead && Recently(log, m.recipient, m.sender, m.now))
  }

  function ReplyTo(m: Incoming): Reply { Reply(m.recipient, m.sender, m.now, m.logRead, m.logged) }

  /** A reply that is due goes out when there is a relay and sending works; a failed send leaves the log
      alone. */
  ghost function After(settings: map<string, Settings>, d: Diary, m: Incoming): Diary {
    if !Due(settings, d.log, m) || (m.relay && !m.sends) then d
    else Diary(if m.logged then d.log[(m.recipient, m.sender) := m.now] else d.log,
               if m.relay then d.sent + [ReplyTo(m)] else d.sent)
  }

  ghost function AfterAll(settings: map<string, Settings>, d: Diary, mails: seq<Incoming>): Diary {
    if mails == [] then d else After(settings, AfterAll(settings, d, mails[..|mails| - 1]), mails[|mails| - 1])
  }

  lemma AfterNext(settings: map<string, Settings>, d: Diary, mails: seq<Incoming>, m: Incoming)
    ensures AfterAll(settings, d, mails + [m]) == After(settings, AfterAll(settings, d, mails), m)
  {
    assert (mails + [m])[..|mails|] == mails;
  }

  /** Mail number `k` is answered: a reply is due as things then stand, and sending works. */
  ghost predicate AnsweredBy(settings: map<string, Settings>, d: Diary, mails: seq<Incoming>, k: nat) {
    k < |mails| && mails[k].relay && mails[k].sends && Due(settings, AfterAll(settings, d, mails[..k]).log, mails[k])
  }

  function Replies(mails: seq<Incoming>, ks: seq<nat>): seq<Reply>
    requires forall i :: 0 <= i < |ks| ==> ks[i] < |mails|
  {
    seq(|ks|, i requires 0 <= i < |ks| => ReplyTo(mails[ks[i]]))
  }

  /** The replies of a run are those to the mails it answers, each once and in order. */
  lemma {:induction false} Answered(settings: map<string, Settings>, d: Diary, mails: seq<Incoming>)
    returns (ks: seq<nat>)
    ensures forall i, j :: 0 <= i < j < |ks| ==> ks[i] < ks[j]
    ensures forall k: nat :: k in ks <==> AnsweredBy(settings, d, mails, k)
    ensures forall i :: 0 <= i < |ks| ==> ks[i] < |mails|
    ensures AfterAll(settings, d, mails).sent == d.sent + Replies(mails, ks)
  {
    if mails == [] {
      ks := [];
      assert Replies(mails, ks) == [];
    } else {
      var n := |mails| - 1;
      var before := Answered(settings, d, mails[..n]);
      forall k: nat | k < n ensures AnsweredBy(settings, d, mails[..n], k) <==> AnsweredBy(settings, d, mails, k) {
        assert mails[..n][..k] == mails[..k];
      }
      forall i | 0 <= i < |before| ensures before[i] < n { assert before[i] in before; }
      assert Replies(mails[..n], before) == Replies(mails, before);
      if AnsweredBy(settings, d, mails, n) {
        ks := before + [n];
        assert Replies(mails, ks) == Replies(mails, before) + [ReplyTo(mails[n])];
        assert d.sent + Replies(mails, ks) == (d.sent + Replies(mails, before)) + [ReplyTo(mails[n])];
      } else {
        ks := before;
      }
    }
  }

  class Responder {
    var settings: map<string, Settings>
    var log: map<(string, string), int>
    ghost var sent: seq<Reply>
    ghost var clock: int

    ghost predicate Valid()
      reads this
    {
      Behind(log, sent, clock) && Spaced(sent)
    }

    constructor (settings: map<string, Settings>, now: int)
      ensures Valid() && sent == [] && clock == now && log == map[]
      ensures this.settings == settings
    {
      this.settings, log, sent, clock := settings, map[], [], now;
    }

    method Skips(sender: string) returns (skip: bool)
      ensures skip <==> Skipped(sender)
    {
      var lower := Lower(sender);
      for k := 0 to |SKIP_WORDS|
        invariant forall j :: 0 <= j < k ==> !Contains(lower, SKIP_WORDS[j])
      {
        if Contains(lower, SKIP_WORDS[k]) {
          return true;
        }
      }
      return false;
    }

    ghost function View(): Diary
      reads this
    {
      Diary(log, sent)
    }

    /** ProcessAutoReply.  A reply goes out exactly when one is due, a relay exists, and sending
        works; a failed send leaves the cooldown alone.  The server always passes a relay; without
        one the cooldown would start all the same.  A log that cannot be read counts as empty. */
    method Process(m: Incoming) returns (replied: bool)
      requires Valid() && clock <= m.now
      modifies this`log, this`sent, this`clock
      ensures Valid() && clock == m.now
      ensures replied <==> Due(settings, old(log), m) && m.relay && m.sends
      ensures View() == After(settings, old(View()), m)
      ensures replied <==>
                && m.settingsRead && m.recipient in settings && settings[m.recipient].enabled
                && (settings[m.recipient].start.Some? ==> settings[m.recipient].start.value <= m.now)
                && (settings[m.recipient].end.Some? ==> m.now <= settings[m.recipient].end.value)
                && !MentionsAny(Lower(m.sender))
                && !(m.logRead && (m.recipient, m.sender) in old(log)
                     && m.now - old(log)[(m.recipient, m.sender)] < 86400)
                && m.relay && m.sends
      ensures replied && m.logged ==> log == old(log)[(m.recipient, m.sender) := m.now]
      ensures replied && !m.logged ==> log == old(log)
      ensures m.relay && !replied ==> log == old(log)
    {
      SkipMeaning(m.sender);
      clock, replied := m.now, false;
      if !m.settingsRead || m.recipient !in settings || !settings[m.recipient].enabled {
        return;
      }
      var reply := settings[m.recipient];
      if reply.start.Some? && m.now < reply.start.value {
        return;
      }
      if reply.end.Some? && m.now > reply.end.value {
        return;
      }
      var skip := Skips(m.sender);
      if skip || (m.logRead && Recently(log, m.recipient, m.sender, m.now)) {
        return;
      }
      if m.relay {
        if !m.sends {
          return;
        }
        SentOne(log, sent, old(clock), ReplyTo(m));
        sent := sent + [ReplyTo(m)];
        replied := true;
      }
      if m.logged {
        log := log[(m.recipient, m.sender) := m.now];
      }
    }

    /** Any run of incoming mail under a clock that never goes back: the replies are those the mails call
        for; they are spaced, lie in the configured range, and never go to a sender on the skip list. */
    method Run(mails: seq<Incoming>)
      requires Valid()
      requires forall i :: 0 <= i < |mails| ==> clock <= mails[i].now
      requires forall i, j :: 0 <= i < j < |mails| ==> mails[i].now <= mails[j].now
      modifies this`log, this`sent, this`clock
      ensures Valid() && View() == AfterAll(settings, old(View()), mails)
      ensures old(sent) <= sent && forall i :: |old(sent)| <= i < |sent| ==> Proper(sent[i])
    {
      for k := 0 to |mails|
        invariant Valid() && forall i :: k <= i < |mails| ==> clock <= mails[i].now
        invariant View() == AfterAll(settings, old(View()), mails[..k])
        invariant old(sent) <= sent && forall i :: |old(sent)| <= i < |sent| ==> Proper(sent[i])
      {
        TakeNext(mails, k);
        AfterNext(settings, old(View()), mails[..k], mails[k]);
        var replied := Process(mails[k]);
      }
      assert mails[..|mails|] == mails;
    }

    ghost predicate Proper(r: Reply)
      reads this`settings
    {
      r.recipient in settings && settings[r.recipient].enabled && InRange(settings[r.recipient], r.at)
        && !Skipped(r.sender)
    }
  }
}

/** One SMTP session from AUTH to DATA (internal/smtp/backend.go:73-243, 369-398).
    Reading and MIME-parsing the message is an input here; module Mime models the parser. */
module SmtpSession {
  import opened Basics
  import RateLimit
  import opened Strings
  import opened Aliases
  import opened Filters
  import opened ParsedMail
  import opened MailStore
  import opened Delivery

  /** What reading the DATA bytes yields. */
  datatype Received =
    | Unreadable(raw: string)
    | Readable(headerFrom: string, headerTo: seq<Address>, headerCc: seq<Address>, subject: string,
               contentType: string, body: string, parsed: seq<Parsed>, headers: map<string, string>)

  /** `Failed`: a plain error, for which the SMTP library picks the code. */
  datatype Reply = Ok | Refused(code: int) | Failed

  function MailFor(from: Address, envelope: seq<Address>, r: Received): Mail
    requires r.Readable?
  {
    var to := if r.headerTo == [] then envelope else r.headerTo;
    Mail(if from == "" then r.headerFrom else from, to, r.headerCc, BlindRecipients(envelope, to, r.headerCc),
         r.subject, r.contentType, r.body)
  }

  /** The envelope recipients no header mentions. */
  function BlindRecipients(envelope: seq<Address>, to: seq<Address>, cc: seq<Address>): seq<Address> {
    Without(envelope, set a | a in to + cc)
  }

  function RawMail(from: Address, envelope: seq<Address>, raw: string): Mail {
    Mail(from, envelope, [], [], "(no subject)", "text/plain", raw)
  }

  function External(served: set<string>, addrs: seq<Address>): seq<Address> {
    if addrs == [] then []
    else
      var a, r := addrs[|addrs| - 1], External(served, addrs[..|addrs| - 1]);
      if SplitEmail(a).1 in served then r else r + [a]
  }

  /** No envelope recipient is lost, and nobody is blind-copied twice over. */
  lemma EnvelopeCovered(from: Address, envelope: seq<Address>, r: Received, a: Address)
    requires r.Readable? && a in envelope
    ensures a in Recipients(MailFor(from, envelope, r))
    ensures a in MailFor(from, envelope, r).bcc <==>
            a !in MailFor(from, envelope, r).to && a !in MailFor(from, envelope, r).cc
  {
    var m := MailFor(from, envelope, r);
    WithoutMembers(envelope, (set x | x in m.to + m.cc), a);
  }

  /** What is saved of a message that was read: the envelope's sender and recipients stand in for a missing From
      or To line, and subject, type and body are its own. */
  lemma MailForMeaning(from: Address, envelope: seq<Address>, r: Received)
    requires r.Readable?
    ensures var m := MailFor(from, envelope, r);
            && m.from == (if from == "" then r.headerFrom else from)
            && m.to == (if r.headerTo == [] then envelope else r.headerTo) && m.cc == r.headerCc
            && m.subject == r.subject && m.contentType == r.contentType && m.body == r.body
  {
  }

  /** Relayed are the addresses of other domains, as often as they are given, and no others. */
  lemma {:induction false} ExternalMeaning(served: set<string>, addrs: seq<Address>, a: Address)
    ensures multiset(External(served, addrs))[a] == if SplitEmail(a).1 in served then 0 else multiset(addrs)[a]
  {
    if addrs != [] {
      var last, rest := addrs[|addrs| - 1], addrs[..|addrs| - 1];
      assert addrs == rest + [last];
      ExternalMeaning(served, rest, a);
      CountLast(rest, last, a);
      CountLast(External(served, rest), last, a);
    }
  }

  lemma ExternalMembers(served: set<string>, addrs: seq<Address>)
    ensures forall a :: a in External(served, addrs) <==> a in addrs && SplitEmail(a).1 !in served
  {
    forall a ensures a in External(served, addrs) <==> a in addrs && SplitEmail(a).1 !in served {
      ExternalMeaning(served, addrs, a);
    }
  }

  class Session {
    const store: Store
    const maxAttachment: int
    const served: set<string>
    const limiter: RateLimit.RateLimiter?       // null when no security checker is configured
    const remoteIP: Option<RateLimit.IP>
    var from: Address
    var to: seq<Address>
    var authed: bool
    var user: Address
    var requireTLS: bool

    constructor (store: Store, maxAttachment: int, served: set<string>,
                 limiter: RateLimit.RateLimiter?, remoteIP: Option<RateLimit.IP>)
      ensures this.store == store && this.maxAttachment == maxAttachment && this.served == served
      ensures this.limiter == limiter && this.remoteIP == remoteIP
      ensures from == "" && to == [] && !authed && !requireTLS
    {
      this.store, this.maxAttachment, this.served := store, maxAttachment, served;
      this.limiter, this.remoteIP := limiter, remoteIP;
      from, to, authed, user, requireTLS := "", [], false, "", false;
    }

    predicate Locked(now: int)
      reads limiter, if limiter != null then limiter.authFails.Values else {}
    {
      limiter != null && remoteIP.Some? && RateLimit.LockedOut(limiter.limits, limiter.View(), remoteIP.value, now)
    }

    /** AUTH PLAIN: the lockout is checked first, then the outcome recorded.  `account` is whose
        password or application token was given, if anyone's.  Only right credentials from an
        address that is not locked out authenticate the session. */
    method AuthPlain(account: Option<Address>, now: int) returns (reply: Reply)
      requires limiter != null ==> limiter.Valid()
      modifies this`authed, this`user, limiter, if limiter != null then limiter.authFails.Values else {}
      ensures limiter != null ==> limiter.Valid()
      ensures reply == if old(Locked(now)) then Refused(421) else if account.None? then Refused(535) else Ok
      ensures if reply == Ok then authed && user == account.value else authed == old(authed) && user == old(user)
      ensures limiter != null && remoteIP.Some? ==>
                limiter.View() ==
                old(RateLimit.Attempted(limiter.limits, limiter.View(), remoteIP.value, now, account.Some?))
    {
      var evaluated := true;
      if limiter != null {
        evaluated := limiter.Attempt(remoteIP, now, account.Some?);
      }
      if !evaluated {
        return Refused(421);
      }
      if account.None? {
        return Refused(535);
      }
      authed, user := true, account.value;
      return Ok;
    }

    method Mail(from: Address, options: bool, requireTLS: bool)
      modifies this`from, this`requireTLS
      ensures this.from == from
      ensures this.requireTLS == if options then requireTLS else old(this.requireTLS)
    {
      this.from := from;
      if options {
        this.requireTLS := requireTLS;
      }
    }

    method Rcpt(to: Address)
      modifies this`to
      ensures this.to == old(this.to) + [to]
    {
      this.to := this.to + [to];
    }

    /** RSET forgets the envelope; authentication and REQUIRETLS survive it. */
    method Reset()
      modifies this`from, this`to
      ensures from == "" && to == []
    {
      from, to := "", [];
    }

    method CollectBCC(to: seq<Address>, cc: seq<Address>) returns (bcc: seq<Address>)
      ensures bcc == BlindRecipients(this.to, to, cc)
    {
      var headerAddrs := set a | a in to + cc;
      bcc := [];
      for i := 0 to |this.to|
        invariant bcc == Without(this.to[..i], headerAddrs)
      {
        TakeNext(this.to, i);
        WithoutLast(this.to[..i], this.to[i], headerAddrs);
        if this.to[i] !in headerAddrs {
          bcc := bcc + [this.to[i]];
        }
      }
      assert this.to[..|this.to|] == this.to;
    }

    method ExternalOf(addrs: seq<Address>) returns (external: seq<Address>)
      ensures external == External(served, addrs)
    {
      external := [];
      for i := 0 to |addrs|
        invariant external == External(served, addrs[..i])
      {
        TakeNext(addrs, i);
        if SplitEmail(addrs[i]).1 !in served {
          external := external + [addrs[i]];
        }
      }
      assert addrs[..|addrs|] == addrs;
    }

    /** DATA.  `relayed` is what is handed to the relay, with the session's REQUIRETLS. */
    method Data(r: Received, verdict: Verdict) returns (reply: Reply, relayed: seq<Address>, ghost saves: seq<Save>)
      requires store.Valid()
      modifies store
      ensures store.Valid() && Recorded(store.world, old(store.Whole()), saves, Parts(r), store.Whole())
      ensures r.Unreadable? ==>
                relayed == []
                && var mail := MailStore.Mail(from, to, [], [], "(no subject)", "text/plain", r.raw);
                   var plan := IncomingPlan(LocalRecipients(store.tables, Recipients(mail)), mail, "INBOX");
                   Follows(store.world, old(store.drawn), saves, plan, reply == Ok)
      ensures r.Readable? && TooLarge(r) ==> reply == Refused(552) && saves == [] && relayed == []
      ensures r.Readable? && !TooLarge(r) && verdict.reject ==> reply == Refused(550) && saves == [] && relayed == []
      ensures r.Readable? && !TooLarge(r) && !verdict.reject && authed ==>
                Follows(store.world, old(store.drawn), saves, OutgoingPlan(store.tables, user, MailFor(from, to, r)),
                        reply == Ok)
                && relayed == if reply == Ok then External(served, Recipients(MailFor(from, to, r))) else []
      ensures r.Readable? && !TooLarge(r) && !verdict.reject && !authed ==>
                var mail := Marked(MailFor(from, to, r), verdict);
                reply == Ok && relayed == []
                && Copies(saves) == InboundPlan(store.tables, store.lists, mail,
                     DirectContext(store.lists, store.filters, mail, r.parsed,
                                   if verdict.folder == "" then "INBOX" else verdict.folder, r.headers))
    {
      relayed, saves := [], [];
      if r.Unreadable? {
        var ok;
        ok, saves := SaveIncomingMail(store, RawMail(from, to, r.raw), "INBOX", []);
        reply := if ok then Ok else Failed;
        return;
      }
      if TooLarge(r) {
        return Refused(552), [], [];
      }
      var headerTo := if r.headerTo == [] then to else r.headerTo;
      var bcc := CollectBCC(headerTo, r.headerCc);
      var mail := MailStore.Mail(if from == "" then r.headerFrom else from, headerTo, r.headerCc, bcc,
                                 r.subject, r.contentType, r.body);
      if authed {
        reply, relayed, saves := HandleOutbound(mail, r.parsed, verdict);
      } else {
        var accepted;
        accepted, saves := HandleInbound(store, mail, r.parsed, verdict, r.headers);
        reply := if accepted then Ok else Refused(550);
      }
    }

    predicate TooLarge(r: Received)
      requires r.Readable?
    {
      exists i :: 0 <= i < |r.parsed| && |r.parsed[i].data| > maxAttachment
    }

    /** One attachment over the limit is enough, and one at the limit is not. */
    lemma TooLargeMeaning(r: Received)
      requires r.Readable?
      ensures TooLarge(r) <==> exists p :: p in r.parsed && |p.data| > maxAttachment
    {
      if TooLarge(r) {
        var i :| 0 <= i < |r.parsed| && |r.parsed[i].data| > maxAttachment;
        assert r.parsed[i] in r.parsed;
      }
    }

    method HandleOutbound(mail: Mail, parsed: seq<Parsed>, verdict: Verdict)
      returns (reply: Reply, relayed: seq<Address>, ghost saves: seq<Save>)
      requires store.Valid()
      modifies store
      ensures store.Valid() && Recorded(store.world, old(store.Whole()), saves, parsed, store.Whole())
      ensures verdict.reject ==> reply == Refused(550) && saves == [] && relayed == []
      ensures !verdict.reject ==> reply == Ok || reply == Refused(451)
      ensures !verdict.reject ==>
                Follows(store.world, old(store.drawn), saves, OutgoingPlan(store.tables, user, mail), reply == Ok)
                && relayed == if reply == Ok then External(served, Recipients(mail)) else []
      ensures forall a :: a in relayed <==>
                !verdict.reject && reply == Ok && a in mail.to + mail.cc + mail.bcc && SplitEmail(a).1 !in served
    {
      ExternalMembers(served, Recipients(mail));
      relayed, saves := [], [];
      if verdict.reject {
        return Refused(550), [], [];
      }
      var ok;
      ok, saves := SaveOutgoingMail(store, user, mail, parsed);
      if !ok {
        return Refused(451), [], saves;
      }
      relayed := ExternalOf(mail.to + mail.cc + mail.bcc);
      reply := Ok;
    }
  }

  /** The attachments of what was read. */
  function Parts(r: Received): seq<Parsed> { if r.Readable? then r.parsed else [] }

  /** End to end, from what Data promises of an unauthenticated session whose mail is accepted: for
      each envelope recipient that is not a list and every address it resolves to, the message table
      gains no row if that address's filters delete the mail, and otherwise exactly one - the row of
      one request, if the database takes it, with all attachments if nothing of them is refused. */
  lemma EnvelopeDelivered(t: Tables, lists: map<Address, MailingList>, filters: map<Address, seq<Filter>>,
                          from: Address, envelope: seq<Address>, r: Received, verdict: Verdict, folder: string,
                          saves: seq<Save>, a: Address, x: Address, w: World, s: State, s': State)
    requires r.Readable? && a in envelope && a !in lists && x in Resolve(t, a, 0)
    requires Sound(w, s) && Recorded(w, s, saves, Parts(r), s')
    requires var mail := Marked(MailFor(from, envelope, r), verdict);
             Copies(saves) == InboundPlan(t, lists, mail,
                                DirectContext(lists, filters, mail, r.parsed, folder, r.headers))
    ensures var mail := Marked(MailFor(from, envelope, r), verdict);
            var c := DirectContext(lists, filters, mail, r.parsed, folder, r.headers);
            if EffectFor(c, x).delete then |NewRows(s.messages, s'.messages, DirectCopy(c, x))| == 0
            else exists k :: 0 <= k < |saves| && DeliveredBy(w, s, s', saves, k, DirectCopy(c, x), r.parsed)
  {
    var mail := Marked(MailFor(from, envelope, r), verdict);
    var c := DirectContext(lists, filters, mail, r.parsed, folder, r.headers);
    EnvelopeCovered(from, envelope, r, a);
    InboundExactlyOnce(t, lists, mail, c, Parts(r), saves, x, w, s, s');
    if !EffectFor(c, x).delete {
      assert Due(t, lists, mail, c, x) == 1;
      var k :| 0 <= k < |saves| && saves[k].copy == DirectCopy(c, x)
               && |NewRows(s.messages, s'.messages, DirectCopy(c, x))| == if Taken(w, s.drawn, k) then 1 else 0;
      if Taken(w, s.drawn, k) {
        ReplayAttachments(w, s, saves, k);
      }
      assert DeliveredBy(w, s, s', saves, k, DirectCopy(c, x), r.parsed);
    }
  }

  /** The copy is there once if request `k` is taken, else not at all; and it is complete if nothing
      of its attachments is refused. */
  ghost predicate DeliveredBy(w: World, s: State, s': State, saves: seq<Save>, k: nat, copy: Copy,
                              parsed: seq<Parsed>)
    requires k < |saves|
  {
    var id := w.uuid(s.drawn + k);
    && saves[k].copy == copy
    && |NewRows(s.messages, s'.messages, copy)| == (if Taken(w, s.drawn, k) then 1 else 0)
    && (Taken(w, s.drawn, k) ==>
          id in s'.messages && s'.messages[id].copy == copy
          && (AllSaved(s'.files, id, parsed) <==> parsed == [] || Takes(w, id, parsed)))
  }
}

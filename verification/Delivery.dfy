/** Inbound and outbound delivery: internal/store/store.go:97-131 and 297-322, and the SMTP
    session of internal/smtp/backend.go. */
module Delivery {
  import opened Basics
  import opened Strings
  import opened Aliases
  import opened Filters
  import opened ParsedMail
  import opened MailStore

  // ----- plans: which copies a mail should produce, in order -----

  /** Local copies never show the blind recipients. */
  function IncomingCopy(mail: Mail, folder: string, seen: bool, owner: Address): Copy {
    Copy(owner, folder, seen, mail.(bcc := []))
  }

  function IncomingPlan(owners: seq<Address>, mail: Mail, folder: string): seq<Copy> {
    seq(|owners|, i requires 0 <= i < |owners| => IncomingCopy(mail, folder, false, owners[i]))
  }

  function Recipients(mail: Mail): seq<Address> { mail.to + mail.cc + mail.bcc }

  function SentCopy(sender: Address, mail: Mail): Copy { Copy(sender, "Sent", true, mail) }

  function OutgoingPlan(t: Tables, sender: Address, mail: Mail): seq<Copy> {
    [SentCopy(sender, mail)] + IncomingPlan(LocalRecipients(t, Recipients(mail)), mail, "INBOX")
  }

  /** SaveIncomingMail: stops at the first row that cannot be written. */
  method SaveIncomingMail(s: Store, mail: Mail, folder: string, parsed: seq<Parsed>)
    returns (ok: bool, ghost saves: seq<Save>)
    requires s.Valid()
    modifies s
    ensures s.Valid() && Recorded(s.world, old(s.Whole()), saves, parsed, s.Whole())
    ensures var plan := IncomingPlan(LocalRecipients(s.tables, Recipients(mail)), mail,
                                     if folder == "" then "INBOX" else folder);
            Follows(s.world, old(s.drawn), saves, plan, ok)
  {
    var recipients := CollectLocalRecipients(s.tables, mail.to, mail.cc, mail.bcc);
    ok, saves := s.DeliverAll(IncomingPlan(recipients, mail, if folder == "" then "INBOX" else folder), parsed,
                              s.Whole(), []);
  }

  /** SaveOutgoingMail: the sender's copy first, then the local recipients. */
  method SaveOutgoingMail(s: Store, sender: Address, mail: Mail, parsed: seq<Parsed>)
    returns (ok: bool, ghost saves: seq<Save>)
    requires s.Valid()
    modifies s
    ensures s.Valid() && Recorded(s.world, old(s.Whole()), saves, parsed, s.Whole())
    ensures var plan := OutgoingPlan(s.tables, sender, mail);
            Follows(s.world, old(s.drawn), saves, plan, ok)
  {
    ghost var start := s.Whole();
    ok, saves := s.DeliverNext(SentCopy(sender, mail), parsed, start, []);
    assert ok == Taken(s.world, start.drawn, 0);
    if ok {
      var recipients := CollectLocalRecipients(s.tables, mail.to, mail.cc, mail.bcc);
      DrawnAfter(s.world, start, saves);
      ok, saves := s.DeliverAll(IncomingPlan(recipients, mail, "INBOX"), parsed, start, saves);
    }
  }

  lemma {:induction false} StoredWhenTaken(w: World, drawn: nat, saves: seq<Save>)
    requires AllTaken(w, drawn, |saves|)
    ensures Stored(w, drawn, saves) == Copies(saves)
  {
    if saves != [] {
      var k := |saves| - 1;
      StoredWhenTaken(w, drawn, saves[..k]);
      assert Taken(w, drawn, k) && Copies(saves) == Copies(saves[..k]) + [saves[k].copy];
    }
  }

  lemma {:induction false} PlanCount(owners: seq<Address>, mail: Mail, folder: string, r: Address)
    ensures multiset(IncomingPlan(owners, mail, folder))[IncomingCopy(mail, folder, false, r)] == multiset(owners)[r]
  {
    if owners != [] {
      var last := |owners| - 1;
      PlanCount(owners[..last], mail, folder, r);
      var plan := IncomingPlan(owners, mail, folder);
      assert plan == IncomingPlan(owners[..last], mail, folder) + [plan[last]];
      assert owners == owners[..last] + [owners[last]];
    }
  }

  /** A successful SaveOutgoingMail adds one Sent row for the sender and exactly one INBOX row
      for each address some recipient resolves to. */
  lemma OutgoingExactlyOnce(t: Tables, sender: Address, mail: Mail, parsed: seq<Parsed>, saves: seq<Save>, r: Address,
                            w: World, s: State, s': State)
    requires Sound(w, s) && Recorded(w, s, saves, parsed, s')
    requires Follows(w, s.drawn, saves, OutgoingPlan(t, sender, mail), true)
    ensures |NewRows(s.messages, s'.messages, Copy(sender, "Sent", true, mail))| == 1
    ensures |NewRows(s.messages, s'.messages, Copy(r, "INBOX", false, mail.(bcc := [])))| ==
            if exists a :: a in mail.to + mail.cc + mail.bcc && r in Resolve(t, a, 0) then 1 else 0
  {
    assert SentCopy(sender, mail) == Copy(sender, "Sent", true, mail);
    assert IncomingCopy(mail, "INBOX", false, r) == Copy(r, "INBOX", false, mail.(bcc := []));
    StoredWhenTaken(w, s.drawn, saves);
    var owners := LocalRecipients(t, Recipients(mail));
    var rest := IncomingPlan(owners, mail, "INBOX");
    assert SentCopy(sender, mail) !in rest;
    ReplayRows(w, s, saves, SentCopy(sender, mail));
    ReplayRows(w, s, saves, IncomingCopy(mail, "INBOX", false, r));
    PlanCount(owners, mail, "INBOX", r);
    LocalRecipientsMeaning(t, Recipients(mail), r);
  }

  /** A successful SaveIncomingMail adds exactly one unread row, without the blind recipients, for each address
      some recipient resolves to. */
  lemma IncomingExactlyOnce(t: Tables, mail: Mail, folder: string, saves: seq<Save>, r: Address, w: World, s: State)
    requires Sound(w, s)
    requires Follows(w, s.drawn, saves, IncomingPlan(LocalRecipients(t, Recipients(mail)), mail, folder), true)
    ensures |NewRows(s.messages, Replay(w, s, saves).messages, Copy(r, folder, false, mail.(bcc := [])))| ==
            if exists a :: a in mail.to + mail.cc + mail.bcc && r in Resolve(t, a, 0) then 1 else 0
  {
    assert IncomingCopy(mail, folder, false, r) == Copy(r, folder, false, mail.(bcc := []));
    StoredWhenTaken(w, s.drawn, saves);
    ReplayRows(w, s, saves, IncomingCopy(mail, folder, false, r));
    PlanCount(LocalRecipients(t, Recipients(mail)), mail, folder, r);
    LocalRecipientsMeaning(t, Recipients(mail), r);
  }

  // ----- mailing lists -----

  function ListMail(list: Address, name: string, mail: Mail): Mail {
    var tag := "[" + name + "]";
    var subject := if name != "" && !Contains(mail.subject, tag) then tag + " " + mail.subject else mail.subject;
    mail.(to := [list], cc := [], bcc := [], subject := subject)
  }

  /** Every member that is a user, except the author. */
  function ListPlan(t: Tables, members: seq<Address>, mail: Mail): seq<Copy> {
    if members == [] then []
    else
      var m, r := members[|members| - 1], ListPlan(t, members[..|members| - 1], mail);
      if m == mail.from || !UserExists(t, m) then r else r + [Copy(m, "INBOX", false, mail)]
  }

  method DistributeToList(s: Store, list: Address, mail: Mail, parsed: seq<Parsed>,
                          ghost start: State, ghost saves: seq<Save>)
    returns (ghost saves': seq<Save>)
    requires s.Valid() && list in s.lists && Recorded(s.world, start, saves, parsed, s.Whole())
    modifies s
    ensures s.Valid() && Recorded(s.world, start, saves', parsed, s.Whole())
    ensures Copies(saves') == Copies(saves)
              + ListPlan(s.tables, s.lists[list].members, ListMail(list, s.lists[list].name, mail))
  {
    var members := s.lists[list].members;
    var listed := ListMail(list, s.lists[list].name, mail);
    saves' := saves;
    for i := 0 to |members|
      invariant s.Valid() && Recorded(s.world, start, saves', parsed, s.Whole())
      invariant Copies(saves') == Copies(saves) + ListPlan(s.tables, members[..i], listed)
    {
      assert members[..i + 1][..i] == members[..i];
      if members[i] == mail.from || !UserExists(s.tables, members[i]) {
        continue;
      }
      var ok;
      ok, saves' := s.DeliverNext(Copy(members[i], "INBOX", false, listed), parsed, start, saves');
    }
    assert members[..|members|] == members;
  }

  function ListsPlan(t: Tables, lists: map<Address, MailingList>, addrs: seq<Address>, mail: Mail): seq<Copy> {
    if addrs == [] then []
    else
      var a, r := addrs[|addrs| - 1], ListsPlan(t, lists, addrs[..|addrs| - 1], mail);
      if a in lists then r + ListPlan(t, lists[a].members, ListMail(a, lists[a].name, mail)) else r
  }

  /** The addresses of `addrs` outside `gone`, in their order. */
  function Without(addrs: seq<Address>, gone: set<Address>): seq<Address> {
    if addrs == [] then []
    else
      var r := Without(addrs[..|addrs| - 1], gone);
      if addrs[|addrs| - 1] in gone then r else r + [addrs[|addrs| - 1]]
  }

  lemma WithoutLast(addrs: seq<Address>, a: Address, gone: set<Address>)
    ensures Without(addrs + [a], gone) == if a in gone then Without(addrs, gone) else Without(addrs, gone) + [a]
  {
    assert (addrs + [a])[..|addrs|] == addrs;
  }

  lemma {:induction false} WithoutMembers(addrs: seq<Address>, gone: set<Address>, a: Address)
    ensures a in Without(addrs, gone) <==> a in addrs && a !in gone
  {
    if addrs != [] {
      assert addrs == addrs[..|addrs| - 1] + [addrs[|addrs| - 1]];
      WithoutMembers(addrs[..|addrs| - 1], gone, a);
    }
  }

  method RemoveAddr(addrs: seq<Address>, target: Address) returns (result: seq<Address>)
    ensures result == Without(addrs, {target})
  {
    result := [];
    for i := 0 to |addrs|
      invariant result == Without(addrs[..i], {target})
    {
      assert addrs[..i + 1] == addrs[..i] + [addrs[i]];
      WithoutLast(addrs[..i], addrs[i], {target});
      if addrs[i] != target {
        result := result + [addrs[i]];
      }
    }
    assert addrs[..|addrs|] == addrs;
  }

  lemma {:induction false} WithoutTwice(addrs: seq<Address>, a: set<Address>, b: set<Address>)
    ensures Without(Without(addrs, a), b) == Without(addrs, a + b)
  {
    if addrs != [] {
      var last := addrs[|addrs| - 1];
      WithoutTwice(addrs[..|addrs| - 1], a, b);
      if last !in a {
        assert Without(addrs, a) == Without(addrs[..|addrs| - 1], a) + [last];
        WithoutLast(Without(addrs[..|addrs| - 1], a), last, b);
      }
    }
  }

  lemma {:induction false} WithoutNothing(addrs: seq<Address>)
    ensures Without(addrs, {}) == addrs
  {
    if addrs != [] {
      WithoutNothing(addrs[..|addrs| - 1]);
      assert addrs == addrs[..|addrs| - 1] + [addrs[|addrs| - 1]];
    }
  }

  /** Only what occurs in `addrs` matters for what is removed from it. */
  lemma {:induction false} WithoutSame(addrs: seq<Address>, a: set<Address>, b: set<Address>)
    requires forall x :: x in addrs ==> (x in a <==> x in b)
    ensures Without(addrs, a) == Without(addrs, b)
  {
    if addrs != [] {
      assert addrs == addrs[..|addrs| - 1] + [addrs[|addrs| - 1]];
      WithoutSame(addrs[..|addrs| - 1], a, b);
    }
  }

  /** The mail with some addresses struck from every recipient header. */
  function Strike(mail: Mail, gone: set<Address>): Mail {
    mail.(to := Without(mail.to, gone), cc := Without(mail.cc, gone), bcc := Without(mail.bcc, gone))
  }

  lemma StrikeTwice(mail: Mail, a: set<Address>, b: set<Address>)
    ensures Strike(Strike(mail, a), b) == Strike(mail, a + b)
  {
    WithoutTwice(mail.to, a, b);
    WithoutTwice(mail.cc, a, b);
    WithoutTwice(mail.bcc, a, b);
  }

  lemma StrikeNothing(mail: Mail)
    ensures Strike(mail, {}) == mail
  {
    WithoutNothing(mail.to);
    WithoutNothing(mail.cc);
    WithoutNothing(mail.bcc);
  }

  lemma StrikeSame(mail: Mail, a: set<Address>, b: set<Address>)
    requires forall x :: x in Recipients(mail) ==> (x in a <==> x in b)
    ensures Strike(mail, a) == Strike(mail, b)
  {
    WithoutSame(mail.to, a, b);
    WithoutSame(mail.cc, a, b);
    WithoutSame(mail.bcc, a, b);
  }

  method StrikeOne(mail: Mail, target: Address) returns (r: Mail)
    ensures r == Strike(mail, {target})
  {
    var to := RemoveAddr(mail.to, target);
    var cc := RemoveAddr(mail.cc, target);
    var bcc := RemoveAddr(mail.bcc, target);
    r := mail.(to := to, cc := cc, bcc := bcc);
  }

  /** The mail as its direct recipients see it: list addresses are gone. */
  function Direct(lists: map<Address, MailingList>, mail: Mail): Mail { Strike(mail, lists.Keys) }

  // ----- direct delivery under per-user filters -----

  datatype Context = Context(mail: Mail, folder: string, facts: Facts, filters: map<Address, seq<Filter>>)

  function EffectFor(c: Context, target: Address): Effect {
    Outcome(if target in c.filters then c.filters[target] else [], c.facts)
  }

  /** The folder of the last matching `move`, or else the one security checks chose; read if
      some matching filter says so. */
  function DirectCopy(c: Context, target: Address): Copy {
    var e := EffectFor(c, target);
    IncomingCopy(c.mail, if e.folder != "" then e.folder else c.folder, e.markRead, target)
  }

  function DirectPlan(c: Context, targets: seq<Address>): seq<Copy> {
    if targets == [] then []
    else
      var t, r := targets[|targets| - 1], DirectPlan(c, targets[..|targets| - 1]);
      if EffectFor(c, t).delete then r else r + [DirectCopy(c, t)]
  }

  /** The loop over the targets of one address; `flat` is everything resolved before. */
  method DeliverResolved(s: Store, c: Context, delivered: set<Address>, resolved: seq<Address>,
                         parsed: seq<Parsed>, ghost flat: seq<Address>, ghost base: seq<Copy>,
                         ghost start: State, ghost saves: seq<Save>)
    returns (delivered': set<Address>, ghost saves': seq<Save>)
    requires s.Valid() && s.filters == c.filters && forall x :: x in delivered <==> x in Dedup(flat)
    requires Recorded(s.world, start, saves, parsed, s.Whole())
    requires Copies(saves) == base + DirectPlan(c, Dedup(flat))
    modifies s
    ensures s.Valid() && Recorded(s.world, start, saves', parsed, s.Whole())
    ensures forall x :: x in delivered' <==> x in Dedup(flat + resolved)
    ensures Copies(saves') == base + DirectPlan(c, Dedup(flat + resolved))
  {
    delivered', saves' := delivered, saves;
    assert flat + resolved[..0] == flat;
    for j := 0 to |resolved|
      invariant s.Valid() && Recorded(s.world, start, saves', parsed, s.Whole())
      invariant forall x :: x in delivered' <==> x in Dedup(flat + resolved[..j])
      invariant Copies(saves') == base + DirectPlan(c, Dedup(flat + resolved[..j]))
    {
      var target := resolved[j];
      DedupNext(flat, resolved, j);
      if target in delivered' {
        continue;
      }
      delivered' := delivered' + {target};
      saves' := DeliverFiltered(s, c, target, parsed, base, Dedup(flat + resolved[..j]), start, saves');
    }
    assert resolved[..|resolved|] == resolved;
  }

  lemma DedupNext(flat: seq<Address>, resolved: seq<Address>, j: nat)
    requires j < |resolved|
    ensures var before := Dedup(flat + resolved[..j]);
            Dedup(flat + resolved[..j + 1]) == if resolved[j] in before then before else before + [resolved[j]]
  {
    assert (flat + resolved[..j + 1])[..|flat| + j] == flat + resolved[..j];
  }

  /** One target: consult its filters, then save its copy unless they delete it. */
  method DeliverFiltered(s: Store, c: Context, target: Address, parsed: seq<Parsed>,
                         ghost base: seq<Copy>, ghost before: seq<Address>,
                         ghost start: State, ghost saves: seq<Save>)
    returns (ghost saves': seq<Save>)
    requires s.Valid() && s.filters == c.filters && Recorded(s.world, start, saves, parsed, s.Whole())
    requires Copies(saves) == base + DirectPlan(c, before)
    modifies s
    ensures s.Valid() && Recorded(s.world, start, saves', parsed, s.Whole())
    ensures Copies(saves') == base + DirectPlan(c, before + [target])
  {
    saves' := saves;
    DirectPlanNext(c, base, before, target);
    var copy := FilteredCopy(c, target);
    if copy.Some? {
      var ok;
      ok, saves' := s.DeliverNext(copy.value, parsed, start, saves);
    }
  }

  /** What the target's filters make of its copy; none when they delete it. */
  method FilteredCopy(c: Context, target: Address) returns (copy: Option<Copy>)
    ensures copy == if EffectFor(c, target).delete then None else Some(DirectCopy(c, target))
  {
    var userFolder, userSeen := c.folder, false;
    if target in c.filters && c.filters[target] != [] {
      var result := Apply(c.filters[target], c.facts);
      assert result.Value() == EffectFor(c, target);
      if result.delete {
        return None;
      }
      if result.folder != "" {
        userFolder := result.folder;
      }
      userSeen := result.markRead;
    } else {
      NoFilters(c, target);
    }
    return Some(IncomingCopy(c.mail, userFolder, userSeen, target));
  }

  lemma DirectPlanNext(c: Context, base: seq<Copy>, before: seq<Address>, target: Address)
    ensures base + DirectPlan(c, before + [target]) ==
            if EffectFor(c, target).delete then base + DirectPlan(c, before)
            else base + DirectPlan(c, before) + [DirectCopy(c, target)]
  {
    assert (before + [target])[..|before|] == before;
    Regroup(base, DirectPlan(c, before), [DirectCopy(c, target)], []);
  }

  lemma NoFilters(c: Context, target: Address)
    requires target !in c.filters || c.filters[target] == []
    ensures EffectFor(c, target) == Effect("", false, false, [], false)
  {
  }

  /** A direct copy belongs to its target and shows the mail without blind recipients; it is in the folder the
      target's filters name, or else in the one given, and read exactly if one of them says so. */
  lemma DirectCopyMeaning(c: Context, x: Address)
    ensures var copy, fs := DirectCopy(c, x), if x in c.filters then c.filters[x] else [];
            && copy.owner == x && copy.mail == c.mail.(bcc := [])
            && (copy.seen <==> exists f, v :: f in fs && Fires(f, c.facts) && Action("mark_read", v) in f.actions)
            && (copy.folder == c.folder
                || exists f :: f in fs && Fires(f, c.facts) && Action("move", copy.folder) in f.actions)
            && ((forall f, v :: f in fs && Fires(f, c.facts) ==> Action("move", v) !in f.actions) ==>
                  copy.folder == c.folder)
  {
    OutcomeMeaning(if x in c.filters then c.filters[x] else [], c.facts);
  }

  /** And it is deleted before it is saved exactly if one of them says so. */
  lemma DeletedMeaning(c: Context, x: Address)
    ensures var fs := if x in c.filters then c.filters[x] else [];
            EffectFor(c, x).delete <==>
              exists f, v :: f in fs && Fires(f, c.facts) && Action("delete", v) in f.actions
  {
    OutcomeMeaning(if x in c.filters then c.filters[x] else [], c.facts);
  }

  // ----- handleInbound -----

  /** What the security checks decided. */
  datatype Verdict = Verdict(reject: bool, subjectPrefix: string, folder: string)

  function TotalBytes(parsed: seq<Parsed>): nat {
    if parsed == [] then 0 else |parsed[0].data| + TotalBytes(parsed[1..])
  }

  function Marked(mail: Mail, verdict: Verdict): Mail {
    if verdict.subjectPrefix == "" then mail else mail.(subject := verdict.subjectPrefix + " " + mail.subject)
  }

  /** What the per-user filters see and what direct recipients are given. */
  function DirectContext(lists: map<Address, MailingList>, filters: map<Address, seq<Filter>>, mail: Mail,
                         parsed: seq<Parsed>, folder: string, headers: map<string, string>): Context {
    var d := Direct(lists, mail);
    Context(d, folder, Facts(d.from, d.to, d.subject, TotalBytes(parsed), headers), filters)
  }

  function Targets(t: Tables, lists: map<Address, MailingList>, mail: Mail): seq<Address> {
    LocalRecipients(t, Recipients(Direct(lists, mail)))
  }

  function InboundPlan(t: Tables, lists: map<Address, MailingList>, mail: Mail, c: Context): seq<Copy> {
    ListsPlan(t, lists, Recipients(mail), mail) + DirectPlan(c, Targets(t, lists, mail))
  }

  method HandleInbound(s: Store, original: Mail, parsed: seq<Parsed>, verdict: Verdict, headers: map<string, string>)
    returns (accepted: bool, ghost saves: seq<Save>)
    requires s.Valid()
    modifies s
    ensures s.Valid() && Recorded(s.world, old(s.Whole()), saves, parsed, s.Whole())
    ensures accepted == !verdict.reject
    ensures !accepted ==> saves == []
    ensures accepted ==>
              var mail := Marked(original, verdict);
              var c := DirectContext(s.lists, s.filters, mail, parsed,
                                     if verdict.folder == "" then "INBOX" else verdict.folder, headers);
              Copies(saves) == InboundPlan(s.tables, s.lists, mail, c)
  {
    accepted, saves := !verdict.reject, [];
    if verdict.reject {
      return;
    }
    var mail := Marked(original, verdict);
    var folder := if verdict.folder == "" then "INBOX" else verdict.folder;
    ghost var start := s.Whole();
    var direct;
    direct, saves := ExtractLists(s, mail, parsed, start);
    var c := Context(direct, folder, Facts(direct.from, direct.to, direct.subject, TotalBytes(parsed), headers),
                     s.filters);
    saves := DeliverDirect(s, c, direct.to + direct.cc + direct.bcc, 0, parsed, start, saves);
  }

  /** The list pass: every list address is distributed and struck from the recipients. */
  method ExtractLists(s: Store, mail: Mail, parsed: seq<Parsed>, ghost start: State)
    returns (direct: Mail, ghost saves: seq<Save>)
    requires s.Valid() && Recorded(s.world, start, [], parsed, s.Whole())
    modifies s
    ensures s.Valid() && Recorded(s.world, start, saves, parsed, s.Whole())
    ensures direct == Direct(s.lists, mail)
    ensures Copies(saves) == ListsPlan(s.tables, s.lists, Recipients(mail), mail)
  {
    saves, direct := [], mail;
    StrikeNothing(mail);
    var all := mail.to + mail.cc + mail.bcc;
    ghost var gone := {};
    for i := 0 to |all|
      invariant s.Valid() && Recorded(s.world, start, saves, parsed, s.Whole())
      invariant Copies(saves) == ListsPlan(s.tables, s.lists, all[..i], mail)
      invariant forall a :: a in gone <==> a in s.lists && a in all[..i]
      invariant direct == Strike(mail, gone)
    {
      TakeNext(all, i);
      if all[i] in s.lists {
        saves := DistributeToList(s, all[i], mail, parsed, start, saves);
        direct := StrikeOne(direct, all[i]);
        StrikeTwice(mail, gone, {all[i]});
        gone := gone + {all[i]};
      }
    }
    assert all[..|all|] == all;
    StrikeSame(mail, gone, s.lists.Keys);
  }

  method DeliverDirect(s: Store, c: Context, addrs: seq<Address>, depth: nat, parsed: seq<Parsed>,
                       ghost start: State, ghost saves: seq<Save>)
    returns (ghost saves': seq<Save>)
    requires s.Valid() && s.filters == c.filters && Recorded(s.world, start, saves, parsed, s.Whole())
    modifies s
    ensures s.Valid() && Recorded(s.world, start, saves', parsed, s.Whole())
    ensures Copies(saves') == Copies(saves) + DirectPlan(c, Dedup(ResolveAll(s.tables, addrs, depth)))
  {
    saves' := saves;
    var delivered := {};
    ghost var flat := [];
    for i := 0 to |addrs|
      invariant s.Valid() && Recorded(s.world, start, saves', parsed, s.Whole())
      invariant flat == ResolveAll(s.tables, addrs[..i], depth)
      invariant forall x :: x in delivered <==> x in Dedup(flat)
      invariant Copies(saves') == Copies(saves) + DirectPlan(c, Dedup(flat))
    {
      assert addrs[..i + 1][..i] == addrs[..i];
      var resolved := ResolveRecipient(s.tables, addrs[i], depth);
      delivered, saves' := DeliverResolved(s, c, delivered, resolved, parsed, flat, Copies(saves), start, saves');
      flat := flat + resolved;
    }
    assert addrs[..|addrs|] == addrs;
  }

  // ----- what the inbound plan guarantees -----

  /** What security checks add is a prefix to the subject, and nothing without one. */
  lemma MarkedMeaning(mail: Mail, verdict: Verdict)
    ensures var m := Marked(mail, verdict);
            && m.from == mail.from && m.to == mail.to && m.cc == mail.cc && m.bcc == mail.bcc
            && m.body == mail.body && m.contentType == mail.contentType
            && m.subject == (if verdict.subjectPrefix == "" then mail.subject
                             else verdict.subjectPrefix + " " + mail.subject)
  {
  }

  /** What the filters of direct recipients look at is the mail without lists: author, To line, subject, the
      bytes of all attachments, and the headers. */
  lemma ContextMeaning(lists: map<Address, MailingList>, filters: map<Address, seq<Filter>>, mail: Mail,
                       parsed: seq<Parsed>, folder: string, headers: map<string, string>)
    ensures var c := DirectContext(lists, filters, mail, parsed, folder, headers);
            && c.folder == folder && c.filters == filters && c.facts.headers == headers
            && c.mail.from == c.facts.from == mail.from && c.mail.subject == c.facts.title == mail.subject
            && c.facts.to == c.mail.to && c.mail.body == mail.body && c.mail.contentType == mail.contentType
            && (forall a :: a in c.mail.to <==> a in mail.to && a !in lists)
            && (forall a :: a in c.mail.cc <==> a in mail.cc && a !in lists)
  {
    var c := DirectContext(lists, filters, mail, parsed, folder, headers);
    forall a ensures a in c.mail.to <==> a in mail.to && a !in lists { WithoutMembers(mail.to, lists.Keys, a); }
    forall a ensures a in c.mail.cc <==> a in mail.cc && a !in lists { WithoutMembers(mail.cc, lists.Keys, a); }
  }

  lemma {:induction false} TotalBytesNext(parsed: seq<Parsed>, p: Parsed)
    ensures TotalBytes(parsed + [p]) == TotalBytes(parsed) + |p.data| && TotalBytes([]) == 0
  {
    if parsed == [] {
      assert parsed + [p] == [p];
    } else {
      assert (parsed + [p])[1..] == parsed[1..] + [p];
      TotalBytesNext(parsed[1..], p);
    }
  }

  /** After the list pass no list address is left, and nothing else is lost. */
  lemma DirectHasNoLists(lists: map<Address, MailingList>, mail: Mail, a: Address)
    ensures a in Recipients(Direct(lists, mail)) <==> a in Recipients(mail) && a !in lists
  {
    WithoutMembers(mail.to, lists.Keys, a);
    WithoutMembers(mail.cc, lists.Keys, a);
    WithoutMembers(mail.bcc, lists.Keys, a);
  }

  lemma {:induction false} ListPlanTo(t: Tables, members: seq<Address>, mail: Mail, c: Copy)
    requires c in ListPlan(t, members, mail)
    ensures c.mail == mail && c.owner in members && c.owner != mail.from && UserExists(t, c.owner)
  {
    if members != [] && c in ListPlan(t, members[..|members| - 1], mail) {
      ListPlanTo(t, members[..|members| - 1], mail, c);
    }
  }

  lemma {:induction false} ListsPlanTo(t: Tables, lists: map<Address, MailingList>, addrs: seq<Address>, mail: Mail,
                                       c: Copy)
    requires c in ListsPlan(t, lists, addrs, mail)
    ensures exists a :: a in lists && a in addrs && c.mail.to == [a] && c.owner in lists[a].members
  {
    var a, rest := addrs[|addrs| - 1], addrs[..|addrs| - 1];
    assert addrs == rest + [a];
    if c in ListsPlan(t, lists, rest, mail) {
      ListsPlanTo(t, lists, rest, mail, c);
    } else {
      ListPlanTo(t, lists[a].members, ListMail(a, lists[a].name, mail), c);
    }
  }

  lemma CountLast<T>(s: seq<T>, last: T, x: T)
    ensures multiset(s + [last])[x] == multiset(s)[x] + if last == x then 1 else 0
  {
  }

  lemma {:induction false} DirectPlanCount(c: Context, targets: seq<Address>, x: Address)
    ensures multiset(DirectPlan(c, targets))[DirectCopy(c, x)] ==
            if EffectFor(c, x).delete then 0 else multiset(targets)[x]
  {
    if targets != [] {
      var last, rest := targets[|targets| - 1], targets[..|targets| - 1];
      assert targets == rest + [last];
      DirectPlanCount(c, rest, x);
      PlanCountNext(c, rest, last, x);
      CountLast(rest, last, x);
    }
  }

  lemma PlanCountNext(c: Context, rest: seq<Address>, last: Address, x: Address)
    ensures multiset(DirectPlan(c, rest + [last]))[DirectCopy(c, x)] ==
            multiset(DirectPlan(c, rest))[DirectCopy(c, x)] + if last == x && !EffectFor(c, x).delete then 1 else 0
  {
    assert (rest + [last])[..|rest|] == rest;
    DirectOwner(c, last, x);
    if !EffectFor(c, last).delete {
      CountLast(DirectPlan(c, rest), DirectCopy(c, last), DirectCopy(c, x));
    }
  }

  lemma DirectOwner(c: Context, a: Address, b: Address)
    ensures DirectCopy(c, a) == DirectCopy(c, b) <==> a == b
  {
    assert DirectCopy(c, a).owner == a && DirectCopy(c, b).owner == b;
  }

  lemma {:induction false} StoredWithin(w: World, drawn: nat, saves: seq<Save>, c: Copy)
    ensures multiset(Stored(w, drawn, saves))[c] <= multiset(Copies(saves))[c]
  {
    if saves != [] {
      var k := |saves| - 1;
      StoredWithin(w, drawn, saves[..k], c);
      assert Copies(saves) == Copies(saves[..k]) + [saves[k].copy];
    }
  }

  /** A copy asked for once is stored exactly if its row is taken. */
  lemma {:induction false} StoredOnce(w: World, drawn: nat, saves: seq<Save>, k: nat)
    requires k < |saves| && multiset(Copies(saves))[saves[k].copy] == 1
    ensures multiset(Stored(w, drawn, saves))[saves[k].copy] == if Taken(w, drawn, k) then 1 else 0
  {
    var n, c := |saves| - 1, saves[k].copy;
    var before := saves[..n];
    assert Copies(saves) == Copies(before) + [saves[n].copy];
    if k < n {
      assert before[k] == saves[k] && Copies(before)[k] == c;
      assert c in Copies(before);
      StoredOnce(w, drawn, before, k);
    } else {
      StoredWithin(w, drawn, before, c);
    }
  }

  lemma NotInLists(t: Tables, lists: map<Address, MailingList>, mail: Mail, c: Context, x: Address)
    requires c.mail == Direct(lists, mail)
    ensures DirectCopy(c, x) !in ListsPlan(t, lists, Recipients(mail), mail)
  {
    var copy := DirectCopy(c, x);
    if copy in ListsPlan(t, lists, Recipients(mail), mail) {
      ListsPlanTo(t, lists, Recipients(mail), mail, copy);
      var a :| a in lists && copy.mail.to == [a];
      assert a in Without(mail.to, lists.Keys);
      WithoutMembers(mail.to, lists.Keys, a);
    }
  }

  /** How many direct copies `x` should be asked for. */
  ghost function Due(t: Tables, lists: map<Address, MailingList>, mail: Mail, c: Context, x: Address): nat {
    if (exists a :: a in Recipients(mail) && a !in lists && x in Resolve(t, a, 0)) && !EffectFor(c, x).delete
    then 1 else 0
  }

  /** Exactly once: an inbound mail asks for one direct copy for each address that some
      non-list recipient resolves to - in the folder and with the seen flag its own filters
      determine - none if those filters delete it, and none for anybody else; and the message
      table gains that row exactly when the database takes it. */
  lemma InboundExactlyOnce(t: Tables, lists: map<Address, MailingList>, mail: Mail, c: Context, parsed: seq<Parsed>,
                           saves: seq<Save>, x: Address, w: World, s: State, s': State)
    requires Sound(w, s) && Recorded(w, s, saves, parsed, s')
    requires c.mail == Direct(lists, mail) && Copies(saves) == InboundPlan(t, lists, mail, c)
    ensures multiset(Copies(saves))[DirectCopy(c, x)] == Due(t, lists, mail, c, x)
    ensures Due(t, lists, mail, c, x) == 0 ==> |NewRows(s.messages, s'.messages, DirectCopy(c, x))| == 0
    ensures Due(t, lists, mail, c, x) == 1 ==>
              exists k :: 0 <= k < |saves| && saves[k].copy == DirectCopy(c, x)
                && |NewRows(s.messages, s'.messages, DirectCopy(c, x))| == if Taken(w, s.drawn, k) then 1 else 0
  {
    var copy := DirectCopy(c, x);
    InboundCount(t, lists, mail, c, x);
    ReplayRows(w, s, saves, copy);
    StoredWithin(w, s.drawn, saves, copy);
    if Due(t, lists, mail, c, x) == 1 {
      assert copy in Copies(saves);
      var k :| 0 <= k < |saves| && Copies(saves)[k] == copy;
      StoredOnce(w, s.drawn, saves, k);
    }
  }

  lemma InboundCount(t: Tables, lists: map<Address, MailingList>, mail: Mail, c: Context, x: Address)
    requires c.mail == Direct(lists, mail)
    ensures multiset(InboundPlan(t, lists, mail, c))[DirectCopy(c, x)] == Due(t, lists, mail, c, x)
  {
    DirectPlanCount(c, Targets(t, lists, mail), x);
    NotInLists(t, lists, mail, c, x);
    LocalRecipientsMeaning(t, Recipients(Direct(lists, mail)), x);
    forall a ensures a in Recipients(Direct(lists, mail)) <==> a in Recipients(mail) && a !in lists {
      DirectHasNoLists(lists, mail, a);
    }
  }

  /** Whatever else is requested comes from a mailing list: a copy for one of its members that
      is addressed to the list. */
  lemma InboundNothingElse(t: Tables, lists: map<Address, MailingList>, mail: Mail, c: Context, copy: Copy)
    requires c.mail == Direct(lists, mail) && copy in InboundPlan(t, lists, mail, c)
    ensures copy == DirectCopy(c, copy.owner)
            || exists a :: a in lists && a in Recipients(mail) && copy.mail.to == [a] && copy.owner in lists[a].members
  {
    if copy in ListsPlan(t, lists, Recipients(mail), mail) {
      ListsPlanTo(t, lists, Recipients(mail), mail, copy);
    } else {
      DirectPlanMembers(c, Targets(t, lists, mail), copy);
    }
  }

  lemma {:induction false} DirectPlanMembers(c: Context, targets: seq<Address>, copy: Copy)
    requires copy in DirectPlan(c, targets)
    ensures copy == DirectCopy(c, copy.owner) && copy.owner in targets && !EffectFor(c, copy.owner).delete
  {
    if copy in DirectPlan(c, targets[..|targets| - 1]) {
      DirectPlanMembers(c, targets[..|targets| - 1], copy);
    }
  }

  // ----- what the members of a mailing list get -----

  /** A list copy goes to the list and nobody else, shows no other recipient, and keeps author, body and type;
      its subject ends in the original one, which is tagged with the name of the list unless it is already or
      the list has none. */
  lemma ListMailMeaning(list: Address, name: string, mail: Mail)
    ensures var m := ListMail(list, name, mail);
            && m.to == [list] && m.cc == [] && m.bcc == []
            && m.from == mail.from && m.body == mail.body && m.contentType == mail.contentType
            && m.subject == (if name == "" || Contains(mail.subject, "[" + name + "]") then mail.subject
                             else "[" + name + "] " + mail.subject)
  {
    var tag := "[" + name + "]";
    assert tag + " " == "[" + name + "] ";
  }

  /** How many copies of a list's mail a member is due: one for each time the list has it, if it is a user and
      not the author. */
  function MemberDue(t: Tables, members: seq<Address>, author: Address, x: Address): nat {
    if x != author && UserExists(t, x) then multiset(members)[x] else 0
  }

  lemma {:induction false} ListPlanCount(t: Tables, members: seq<Address>, mail: Mail, x: Address)
    ensures multiset(ListPlan(t, members, mail))[Copy(x, "INBOX", false, mail)] ==
            if x != mail.from && UserExists(t, x) then multiset(members)[x] else 0
  {
    if members != [] {
      var last, rest := members[|members| - 1], members[..|members| - 1];
      assert members == rest + [last];
      ListPlanCount(t, rest, mail, x);
      CountLast(rest, last, x);
      CountLast(ListPlan(t, rest, mail), Copy(last, "INBOX", false, mail), Copy(x, "INBOX", false, mail));
    }
  }

  /** The copy of a member `x` of the list `a`. */
  function ListCopy(lists: map<Address, MailingList>, mail: Mail, a: Address, x: Address): Copy
    requires a in lists
  {
    Copy(x, "INBOX", false, ListMail(a, lists[a].name, mail))
  }

  lemma {:induction false} ListsPlanCount(t: Tables, lists: map<Address, MailingList>, addrs: seq<Address>, mail: Mail,
                                          a: Address, x: Address)
    requires a in lists
    ensures multiset(ListsPlan(t, lists, addrs, mail))[ListCopy(lists, mail, a, x)] ==
            multiset(addrs)[a] * MemberDue(t, lists[a].members, mail.from, x)
  {
    if addrs != [] {
      var last, rest := addrs[|addrs| - 1], addrs[..|addrs| - 1];
      assert addrs == rest + [last];
      ListsPlanCount(t, lists, rest, mail, a, x);
      CountLast(rest, last, a);
      ListsPlanNext(t, lists, rest, last, mail, a, x);
      OneMore(multiset(rest)[a], MemberDue(t, lists[a].members, mail.from, x));
    }
  }

  lemma OneMore(k: nat, n: nat)
    ensures (k + 1) * n == k * n + n
  {
  }

  lemma ListsPlanNext(t: Tables, lists: map<Address, MailingList>, rest: seq<Address>, last: Address, mail: Mail,
                      a: Address, x: Address)
    requires a in lists
    ensures multiset(ListsPlan(t, lists, rest + [last], mail))[ListCopy(lists, mail, a, x)] ==
            multiset(ListsPlan(t, lists, rest, mail))[ListCopy(lists, mail, a, x)]
            + if last == a then MemberDue(t, lists[a].members, mail.from, x) else 0
  {
    assert (rest + [last])[..|rest|] == rest;
    if last in lists {
      OneListCount(t, lists, mail, last, a, x);
      CountBoth(ListsPlan(t, lists, rest, mail),
                ListPlan(t, lists[last].members, ListMail(last, lists[last].name, mail)), ListCopy(lists, mail, a, x));
    }
  }

  lemma CountBoth<T>(s: seq<T>, t: seq<T>, x: T)
    ensures multiset(s + t)[x] == multiset(s)[x] + multiset(t)[x]
  {
  }

  lemma OneListCount(t: Tables, lists: map<Address, MailingList>, mail: Mail, b: Address, a: Address, x: Address)
    requires a in lists && b in lists
    ensures multiset(ListPlan(t, lists[b].members, ListMail(b, lists[b].name, mail)))[ListCopy(lists, mail, a, x)] ==
            if b == a then MemberDue(t, lists[a].members, mail.from, x) else 0
  {
    var plan, copy := ListPlan(t, lists[b].members, ListMail(b, lists[b].name, mail)), ListCopy(lists, mail, a, x);
    if b == a {
      ListPlanCount(t, lists[a].members, ListMail(a, lists[a].name, mail), x);
    } else if copy in plan {
      ListPlanTo(t, lists[b].members, ListMail(b, lists[b].name, mail), copy);
    }
  }

  /** Over the whole inbound mail: for each time a list is named among the recipients, each of its members that
      is a user and not the author is sent its copy. */
  lemma ListCount(t: Tables, lists: map<Address, MailingList>, mail: Mail, c: Context, a: Address, x: Address)
    requires c.mail == Direct(lists, mail) && a in lists
    ensures multiset(InboundPlan(t, lists, mail, c))[ListCopy(lists, mail, a, x)] ==
            multiset(Recipients(mail))[a] * MemberDue(t, lists[a].members, mail.from, x)
  {
    var copy, direct := ListCopy(lists, mail, a, x), DirectPlan(c, Targets(t, lists, mail));
    ListsPlanCount(t, lists, Recipients(mail), mail, a, x);
    if copy in direct {
      DirectPlanMembers(c, Targets(t, lists, mail), copy);
      assert a in Without(mail.to, lists.Keys);
      WithoutMembers(mail.to, lists.Keys, a);
    }
  }

  /** The requests for a copy that the database takes. */
  function TakenFor(w: World, drawn: nat, saves: seq<Save>, c: Copy): set<nat> {
    set k: nat | k < |saves| && saves[k].copy == c && Taken(w, drawn, k)
  }

  lemma {:induction false} StoredCount(w: World, drawn: nat, saves: seq<Save>, c: Copy)
    ensures multiset(Stored(w, drawn, saves))[c] == |TakenFor(w, drawn, saves, c)|
  {
    if saves == [] {
      assert TakenFor(w, drawn, saves, c) == {};
    } else {
      var n := |saves| - 1;
      StoredCount(w, drawn, saves[..n], c);
      TakenForNext(w, drawn, saves, c);
      CountLast(Stored(w, drawn, saves[..n]), saves[n].copy, c);
    }
  }

  lemma TakenForNext(w: World, drawn: nat, saves: seq<Save>, c: Copy)
    requires saves != []
    ensures var n := |saves| - 1;
            |TakenFor(w, drawn, saves, c)| ==
            |TakenFor(w, drawn, saves[..n], c)| + if saves[n].copy == c && Taken(w, drawn, n) then 1 else 0
  {
    var n := |saves| - 1;
    var before := TakenFor(w, drawn, saves[..n], c);
    assert forall k: nat :: k < n ==> saves[..n][k] == saves[k];
    assert TakenFor(w, drawn, saves, c) == before + if saves[n].copy == c && Taken(w, drawn, n) then {n} else {};
    assert n !in before;
  }

  /** Mailing lists, end to end: the requests for a member's copy are as many as it is due, and the message
      table gains exactly the rows of those the database takes. */
  lemma ListExactly(t: Tables, lists: map<Address, MailingList>, mail: Mail, c: Context, parsed: seq<Parsed>,
                    saves: seq<Save>, a: Address, x: Address, w: World, s: State, s': State)
    requires Sound(w, s) && Recorded(w, s, saves, parsed, s')
    requires c.mail == Direct(lists, mail) && Copies(saves) == InboundPlan(t, lists, mail, c) && a in lists
    ensures var copy := Copy(x, "INBOX", false, ListMail(a, lists[a].name, mail));
            && multiset(Copies(saves))[copy] ==
               multiset(Recipients(mail))[a] * MemberDue(t, lists[a].members, mail.from, x)
            && |NewRows(s.messages, s'.messages, copy)| == |TakenFor(w, s.drawn, saves, copy)|
  {
    assert ListCopy(lists, mail, a, x) == Copy(x, "INBOX", false, ListMail(a, lists[a].name, mail));
    ListCount(t, lists, mail, c, a, x);
    RowsTaken(w, s, saves, ListCopy(lists, mail, a, x));
  }

  /** The table gains a row for each request for the copy that it takes. */
  lemma RowsTaken(w: World, s: State, saves: seq<Save>, c: Copy)
    requires Sound(w, s)
    ensures |NewRows(s.messages, Replay(w, s, saves).messages, c)| == |TakenFor(w, s.drawn, saves, c)|
  {
    ReplayRows(w, s, saves, c);
    StoredCount(w, s.drawn, saves, c);
  }
}

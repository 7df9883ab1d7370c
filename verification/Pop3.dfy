/** POP3 sessions: a maildrop fixed at login, marks, and the deletions at QUIT
    (internal/pop3/server.go:63-122 and 128-300). */
module Pop3 {
  import opened Strings
  import opened Aliases
  import opened LineReader
  import opened MailStore

  // ----- message numbers -----

  /** The zero-based position an argument names, -1 for anything that is not a run of digits. */
  function Position(arg: string): int {
    var s := TrimSpace(arg);
    if AllDigits(s) then DigitsValue(s) - 1 else -1
  }

  /** parseIndex. */
  method ParseIndex(arg: string) returns (n: int)
    ensures n == Position(arg)
  {
    var s := TrimSpace(arg);
    n := 0;
    for i := 0 to |s|
      invariant AllDigits(s[..i]) && n == DigitsValue(s[..i])
    {
      assert s[..i + 1][..i] == s[..i];
      if !IsDigit(s[i]) {
        return -1;
      }
      n := n * 10 + (s[i] as int - '0' as int);
    }
    assert s[..|s|] == s;
    n := n - 1;
  }

  /** Anything else than digits names no message, and no digits at all do not either. */
  lemma PositionRefuses(arg: string, i: nat)
    requires TrimSpace(arg) == "" || (i < |TrimSpace(arg)| && !IsDigit(TrimSpace(arg)[i]))
    ensures Position(arg) == -1
  {
  }

  /** The number a message is listed under leads back to it. */
  lemma ListedNumberParses(i: nat)
    ensures Position(Decimal(i + 1)) == i
  {
    var s := Decimal(i + 1);
    assert IsDigit(s[0]) && IsDigit(s[|s| - 1]);
    TrimSpaceId(s);
    DecimalValue(i + 1);
  }

  // ----- what is listed and what is doomed -----

  /** The unmarked positions below `n`, in order. */
  function Unmarked(n: nat, marks: set<nat>): seq<nat> {
    if n == 0 then []
    else if n - 1 in marks then Unmarked(n - 1, marks)
    else Unmarked(n - 1, marks) + [n - 1]
  }

  ghost predicate Within(marks: set<nat>, n: nat) {
    forall i :: i in marks ==> i < n
  }

  /** Exactly the unmarked positions, ascending, so each once. */
  lemma {:induction false} UnmarkedMeaning(n: nat, marks: set<nat>)
    ensures forall i :: i in Unmarked(n, marks) <==> 0 <= i < n && i !in marks
    ensures forall i, j :: 0 <= i < j < |Unmarked(n, marks)| ==> Unmarked(n, marks)[i] < Unmarked(n, marks)[j]
  {
    if n > 0 {
      UnmarkedMeaning(n - 1, marks);
      var before := Unmarked(n - 1, marks);
      assert forall i :: 0 <= i < |before| ==> before[i] in before;
    }
  }

  lemma {:induction false} UnmarkedCount(n: nat, marks: set<nat>)
    requires Within(marks, n)
    ensures |Unmarked(n, marks)| == n - |marks|
  {
    if n == 0 {
      assert marks == {};
    } else {
      var less := marks - {n - 1};
      UnmarkedCount(n - 1, less);
      UnmarkedSame(n - 1, marks, less);
      assert n - 1 !in marks ==> less == marks;
    }
  }

  lemma {:induction false} UnmarkedSame(n: nat, marks: set<nat>, others: set<nat>)
    requires forall i :: 0 <= i < n ==> (i in marks <==> i in others)
    ensures Unmarked(n, marks) == Unmarked(n, others)
  {
    if n > 0 {
      UnmarkedSame(n - 1, marks, others);
    }
  }

  /** The number LIST announces is the number of lines it sends exactly if nothing is marked. */
  lemma {:induction false} ListHeader(n: nat, marks: set<nat>, texts: seq<string>)
    requires |texts| == n
    ensures |Entries(n, marks, texts)| == n <==> forall i :: 0 <= i < n ==> i !in marks
    ensures |Entries(n, marks, texts)| <= n
  {
    if n > 0 {
      ListHeader(n - 1, marks, texts[..n - 1]);
    }
  }

  /** The messages that QUIT would delete. */
  function Doomed(ids: seq<string>, marks: set<nat>): set<string> {
    set i | i in marks && 0 <= i < |ids| :: ids[i]
  }

  /** `order` lists the messages at the positions in `done`, each once. */
  ghost predicate Enumerated(order: seq<string>, ids: seq<string>, done: set<nat>) {
    Distinct(order) && forall id :: id in order <==> id in Doomed(ids, done)
  }

  lemma EnumeratedNext(order: seq<string>, ids: seq<string>, done: set<nat>, i: nat)
    requires Enumerated(order, ids, done) && Distinct(ids) && i !in done
    ensures Enumerated(if i < |ids| then order + [ids[i]] else order, ids, done + {i})
  {
    if i < |ids| {
      DoomedMember(ids, done, i);
      DoomedMore(ids, done, i);
      forall k | 0 <= k < |order| ensures order[k] != ids[i] { assert order[k] in order; }
    } else {
      assert Doomed(ids, done + {i}) == Doomed(ids, done);
    }
  }

  lemma DoomedMember(ids: seq<string>, marks: set<nat>, i: nat)
    requires Distinct(ids) && i < |ids|
    ensures ids[i] in Doomed(ids, marks) <==> i in marks
  {
  }

  lemma DoomedMore(ids: seq<string>, marks: set<nat>, i: nat)
    requires i < |ids|
    ensures Doomed(ids, marks + {i}) == Doomed(ids, marks) + {ids[i]}
  {
  }

  ghost predicate Distinct(ids: seq<string>) {
    forall i, j :: 0 <= i < j < |ids| ==> ids[i] != ids[j]
  }

  // ----- a second PASS -----

  /** Messages that both lists hold come in the same order. */
  ghost predicate SameOrder(ids: seq<string>, now: seq<string>) {
    forall k, l :: 0 <= k < l < |now| ==>
      forall i, j :: 0 <= i < |ids| && 0 <= j < |ids| && now[k] == ids[i] && now[l] == ids[j] ==> i < j
  }

  /** Every marked position still holds its message. */
  ghost predicate Holds(ids: seq<string>, now: seq<string>, marks: set<nat>) {
    forall i :: i in marks && i < |ids| ==> i < |now| && now[i] == ids[i]
  }

  /** Marks survive a second PASS but the list does not.  Whatever came or went in between, as long as the
      messages both lists hold come in the same order, the marks mean the same messages exactly if every
      marked position still holds its message. */
  lemma Relisted(ids: seq<string>, now: seq<string>, marks: set<nat>)
    requires Distinct(ids) && Distinct(now) && SameOrder(ids, now) && Within(marks, |ids|)
    ensures Doomed(now, marks) == Doomed(ids, marks) <==> Holds(ids, now, marks)
  {
    if Doomed(now, marks) == Doomed(ids, marks) {
      SameHolds(ids, now, marks);
    }
  }

  /** They come in the same order when no two messages arrived at the same time: both lists are newest first,
      and times of arrival do not change. */
  lemma DatedOrder(m: map<string, Row>, m': map<string, Row>, ids: seq<string>, now: seq<string>)
    requires NewestFirst(m, ids) && NewestFirst(m', now)
    requires forall id :: id in ids && id in now ==> m'[id].receivedAt == m[id].receivedAt
    requires forall i, j :: 0 <= i < j < |ids| ==> m[ids[i]].receivedAt != m[ids[j]].receivedAt
    requires Distinct(now)
    ensures SameOrder(ids, now)
  {
    forall k, l, i, j | 0 <= k < l < |now| && 0 <= i < |ids| && 0 <= j < |ids| && now[k] == ids[i] && now[l] == ids[j]
      ensures i < j
    {
      assert ids[i] in ids && ids[j] in ids && now[k] in now && now[l] in now;
      assert m[ids[i]].receivedAt >= m[ids[j]].receivedAt;
      assert i != j;
    }
  }

  /** In another order the marks may mean the same messages at other positions. */
  lemma Reordered()
    ensures var ids, now := ["a", "b"], ["b", "a"];
            Doomed(now, {0, 1}) == Doomed(ids, {0, 1}) && !Holds(ids, now, {0, 1})
  {
    var ids, now := ["a", "b"], ["b", "a"];
    assert ids[0] in Doomed(ids, {0, 1}) && ids[1] in Doomed(ids, {0, 1});
    assert now[0] in Doomed(now, {0, 1}) && now[1] in Doomed(now, {0, 1});
    assert 0 in {0, 1} && now[0] != ids[0];
  }

  lemma {:induction false} SameHolds(ids: seq<string>, now: seq<string>, marks: set<nat>)
    requires Distinct(ids) && Distinct(now) && SameOrder(ids, now) && Within(marks, |ids|)
    requires Doomed(now, marks) == Doomed(ids, marks)
    ensures Holds(ids, now, marks)
    decreases |marks|
  {
    if marks != {} {
      var m := Greatest(marks);
      LastHolds(ids, now, marks, m);
      DoomedLess(ids, marks, m);
      DoomedLess(now, marks, m);
      SameHolds(ids, now, marks - {m});
      assert forall i :: i in marks ==> i == m || i in marks - {m};
    }
  }

  lemma DoomedLess(ids: seq<string>, marks: set<nat>, m: nat)
    requires Distinct(ids) && m in marks && m < |ids|
    ensures Doomed(ids, marks - {m}) == Doomed(ids, marks) - {ids[m]}
  {
    assert marks == marks - {m} + {m};
    DoomedMore(ids, marks - {m}, m);
    DoomedMember(ids, marks - {m}, m);
  }

  /** When the marks mean the same messages, the last one marks the same message. */
  lemma LastHolds(ids: seq<string>, now: seq<string>, marks: set<nat>, m: nat)
    requires Distinct(ids) && Distinct(now) && SameOrder(ids, now) && Within(marks, |ids|)
    requires m in marks && (forall i :: i in marks ==> i <= m) && Doomed(now, marks) == Doomed(ids, marks)
    ensures m < |now| && now[m] == ids[m]
  {
    assert ids[m] in Doomed(ids, marks);
    var j :| j in marks && 0 <= j < |now| && now[j] == ids[m];
    if m < |now| {
      assert now[m] in Doomed(now, marks);
      var k :| k in marks && 0 <= k < |ids| && ids[k] == now[m];
      Swapped(ids, now, j, m, k);
    } else {
      Fewer(ids, now, marks, m);
    }
  }

  lemma Swapped(ids: seq<string>, now: seq<string>, j: nat, m: nat, k: nat)
    requires SameOrder(ids, now) && j <= m < |now| && m < |ids| && k < |ids| && now[j] == ids[m] && now[m] == ids[k]
    ensures j < m ==> m < k
  {
  }

  lemma Fewer(ids: seq<string>, now: seq<string>, marks: set<nat>, m: nat)
    requires Distinct(ids) && Within(marks, |ids|) && m in marks && m >= |now|
    ensures Doomed(now, marks) != Doomed(ids, marks)
  {
    DoomedSize(ids, marks);
    assert Doomed(now, marks) == Doomed(now, marks - {m});
    DoomedAtMost(now, marks - {m});
  }

  lemma {:induction false} DoomedAtMost(ids: seq<string>, marks: set<nat>)
    ensures |Doomed(ids, marks)| <= |marks|
    decreases |marks|
  {
    if marks == {} {
      assert Doomed(ids, marks) == {};
    } else {
      var i :| i in marks;
      DoomedAtMost(ids, marks - {i});
      if i < |ids| {
        DoomedMore(ids, marks - {i}, i);
        assert marks - {i} + {i} == marks;
      } else {
        assert Doomed(ids, marks) == Doomed(ids, marks - {i});
      }
    }
  }

  lemma {:induction false} Greatest(s: set<nat>) returns (m: nat)
    requires s != {}
    ensures m in s && forall x :: x in s ==> x <= m
    decreases |s|
  {
    var a :| a in s;
    m := a;
    if s != {a} {
      var b := Greatest(s - {a});
      m := if a < b then b else a;
    }
    assert forall x :: x in s ==> x == a || x in s - {a};
  }

  /** Another account's messages: the marks mean the same exactly if there are none. */
  lemma OtherAccount(ids: seq<string>, now: seq<string>, marks: set<nat>)
    requires Distinct(ids) && Distinct(now) && Within(marks, |ids|) && forall id :: id in now ==> id !in ids
    ensures Doomed(now, marks) == Doomed(ids, marks) <==> marks == {}
  {
    forall k, i | 0 <= k < |now| && 0 <= i < |ids| ensures now[k] != ids[i] { assert now[k] in now && ids[i] in ids; }
    Relisted(ids, now, marks);
    if marks != {} {
      var m :| m in marks;
      assert m < |now| ==> now[m] != ids[m];
    }
  }

  /** What is left of a list after the messages at some positions were removed. */
  function Kept(ids: seq<string>, gone: set<nat>): seq<string> {
    if ids == [] then []
    else
      var n := |ids| - 1;
      Kept(ids[..n], gone) + if n in gone then [] else [ids[n]]
  }

  lemma {:induction false} KeptMembers(ids: seq<string>, gone: set<nat>)
    ensures |Kept(ids, gone)| <= |ids| && forall id :: id in Kept(ids, gone) ==> id in ids
  {
    if ids != [] {
      KeptMembers(ids[..|ids| - 1], gone);
    }
  }

  lemma {:induction false} KeptOrder(ids: seq<string>, gone: set<nat>)
    requires Distinct(ids)
    ensures Distinct(Kept(ids, gone)) && SameOrder(ids, Kept(ids, gone))
  {
    if ids != [] {
      var n := |ids| - 1;
      KeptOrder(ids[..n], gone);
      KeptMembers(ids[..n], gone);
      OrderNext(ids, Kept(ids[..n], gone));
    }
  }

  lemma OrderNext(ids: seq<string>, before: seq<string>)
    requires Distinct(ids) && ids != [] && Distinct(before) && SameOrder(ids[..|ids| - 1], before)
    requires forall id :: id in before ==> id in ids[..|ids| - 1]
    ensures SameOrder(ids, before) && SameOrder(ids, before + [ids[|ids| - 1]])
    ensures Distinct(before + [ids[|ids| - 1]])
  {
    var n := |ids| - 1;
    forall k | 0 <= k < |before| ensures before[k] != ids[n] { assert before[k] in before; }
    forall k, l, i, j | 0 <= k < l < |before| && 0 <= i < |ids| && 0 <= j < |ids|
                        && before[k] == ids[i] && before[l] == ids[j]
      ensures i < j
    {
      assert i < n && j < n && ids[..n][i] == ids[i] && ids[..n][j] == ids[j];
    }
    forall k, i | 0 <= k < |before| && 0 <= i < |ids| && before[k] == ids[i] ensures i < n {}
  }

  lemma {:induction false} KeptPlaces(ids: seq<string>, gone: set<nat>)
    requires Distinct(ids)
    ensures var now := Kept(ids, gone);
            forall i :: 0 <= i < |ids| ==>
              (i < |now| && now[i] == ids[i] <==> forall g :: 0 <= g <= i ==> g !in gone)
  {
    if ids != [] {
      KeptPlaces(ids[..|ids| - 1], gone);
      KeptFull(ids, gone);
      KeptFull(ids[..|ids| - 1], gone);
      KeptMembers(ids[..|ids| - 1], gone);
      LastPlace(ids, gone);
    }
  }

  lemma LastPlace(ids: seq<string>, gone: set<nat>)
    requires Distinct(ids) && ids != []
    ensures var n, now := |ids| - 1, Kept(ids, gone);
            n < |now| && now[n] == ids[n] <==> forall g :: 0 <= g <= n ==> g !in gone
  {
    KeptFull(ids, gone);
    KeptMembers(ids, gone);
    if forall g :: 0 <= g < |ids| ==> g !in gone {
      KeptAll(ids, gone);
    }
  }

  /** All are left exactly if none is gone. */
  lemma {:induction false} KeptFull(ids: seq<string>, gone: set<nat>)
    ensures |Kept(ids, gone)| == |ids| <==> forall g :: 0 <= g < |ids| ==> g !in gone
  {
    KeptMembers(ids, gone);
    if ids != [] {
      KeptFull(ids[..|ids| - 1], gone);
      KeptMembers(ids[..|ids| - 1], gone);
    }
  }

  lemma {:induction false} KeptAll(ids: seq<string>, gone: set<nat>)
    requires forall g :: 0 <= g < |ids| ==> g !in gone
    ensures Kept(ids, gone) == ids
  {
    if ids != [] {
      KeptAll(ids[..|ids| - 1], gone);
    }
  }

  /** Removals alone: the marks mean the same messages exactly if none at or before the last mark is gone. */
  lemma AfterRemovals(ids: seq<string>, gone: set<nat>, marks: set<nat>)
    requires Distinct(ids) && Within(marks, |ids|)
    ensures Doomed(Kept(ids, gone), marks) == Doomed(ids, marks) <==>
            forall m, g :: m in marks && g in gone ==> g > m
  {
    KeptOrder(ids, gone);
    KeptPlaces(ids, gone);
    Relisted(ids, Kept(ids, gone), marks);
  }

  /** New mail alone: the marks mean the same messages exactly if there are none. */
  lemma SecondLogin(ids: seq<string>, arrived: seq<string>, marks: set<nat>)
    requires Distinct(arrived + ids) && arrived != [] && Within(marks, |ids|)
    ensures Doomed(arrived + ids, marks) == Doomed(ids, marks) <==> marks == {}
  {
    var now := arrived + ids;
    forall i | 0 <= i < |ids| ensures ids[i] == now[|arrived| + i] {}
    Relisted(ids, now, marks);
    if marks != {} {
      var m :| m in marks;
      assert m < |now| && now[m] != now[|arrived| + m];
    }
  }

  // ----- the session -----

  /** What checking a name and a password against the user table yields, and whether the mailbox can
      then be listed. */
  datatype Login = Refused | Accepted(email: Address, listed: bool)

  /** A negative reply, a single line, or a header and numbered lines ending in a dot. */
  datatype Reply = Err | Line(number: nat, text: string) | Listing(header: nat, entries: seq<(nat, string)>)

  const ESTIMATED_SIZE: string := "500"

  function Entries(n: nat, marks: set<nat>, texts: seq<string>): seq<(nat, string)>
    requires |texts| == n
  {
    var open := Unmarked(n, marks);
    seq(|open|, k requires 0 <= k < |open| => (open[k] + 1, TextOf(texts, open[k])))
  }

  ghost predicate Ascending(entries: seq<(nat, string)>) {
    forall i, j :: 0 <= i < j < |entries| ==> entries[i].0 < entries[j].0
  }

  /** An entry for each unmarked message: its own number, counted from one, and its own text. */
  lemma EntriesMeaning(n: nat, marks: set<nat>, texts: seq<string>)
    requires |texts| == n
    ensures Ascending(Entries(n, marks, texts))
    ensures forall k, text :: (k, text) in Entries(n, marks, texts) <==>
              0 < k <= n && k - 1 !in marks && text == texts[k - 1]
  {
    var open, entries := Unmarked(n, marks), Entries(n, marks, texts);
    UnmarkedMeaning(n, marks);
    forall i | 0 <= i < |open| ensures open[i] < n && entries[i] == (open[i] + 1, texts[open[i]]) {
      assert open[i] in open;
    }
    forall p: nat | p < n && p !in marks ensures (p + 1, texts[p]) in entries {
      assert p in open;
      var i :| 0 <= i < |open| && open[i] == p;
      assert entries[i] == (p + 1, texts[p]);
    }
  }

  function TextOf(texts: seq<string>, i: nat): string { if i < |texts| then texts[i] else "" }

  function Sizes(n: nat): seq<string> { seq(n, i => ESTIMATED_SIZE) }

  class Session {
    const store: Store
    var username: Address
    var authed: bool
    var messages: seq<string>
    var deleted: set<nat>
    ghost var logins: nat            // successful PASS commands
    ghost var marked: set<string>    // messages DELEd since the last RSET

    /** As long as nobody logged in twice, the marks are the messages DELEd since the last
        RSET. */
    ghost predicate Valid()
      reads this
    {
      && Distinct(messages) && (authed <==> logins > 0)
      && (logins == 0 ==> messages == [] && deleted == {} && marked == {})
      && (logins <= 1 ==> Within(deleted, |messages|) && Doomed(messages, deleted) == marked)
    }

    constructor (store: Store)
      ensures Valid() && this.store == store && !authed && logins == 0
    {
      this.store, username, authed, messages, deleted := store, "", false, [], {};
      logins, marked := 0, {};
    }

    method HandleUser(arg: string)
      modifies this`username
      ensures username == TrimSpace(arg)
    {
      username := TrimSpace(arg);
    }

    /** PASS: fixes the list of messages, newest first.  Marks are not cleared. */
    method HandlePass(login: Login) returns (reply: Reply)
      requires Valid()
      modifies this`username, this`authed, this`messages, this`logins
      ensures Valid() && deleted == old(deleted) && marked == old(marked)
      ensures username == if old(username) != "" && login.Accepted? then login.email else old(username)
      ensures if old(username) != "" && login.Accepted? && login.listed then
                && authed && logins == old(logins) + 1 && reply == Line(|messages|, "messages")
                && Lists(store.messages, username, "INBOX", messages) && NewestFirst(store.messages, messages)
                && forall id :: id in messages <==>
                     id in store.messages && store.messages[id].copy.owner == login.email
                     && store.messages[id].copy.folder == "INBOX" && !store.messages[id].deleted
              else reply == Err && messages == old(messages) && authed == old(authed) && logins == old(logins)
    {
      if username == "" || login.Refused? {
        return Err;
      }
      username := login.email;
      var ids := store.ListMessages(username, "INBOX", login.listed);
      if !login.listed {
        return Err;
      }
      messages, authed, logins := ids, true, logins + 1;
      return Line(|ids|, "messages");
    }

    /** STAT: the number of unmarked messages. */
    method HandleStat() returns (reply: Reply)
      ensures reply == if authed then Line(|Unmarked(|messages|, deleted)|, "") else Err
    {
      if !authed {
        return Err;
      }
      var count := 0;
      for i := 0 to |messages|
        invariant count == |Unmarked(i, deleted)|
      {
        if i !in deleted {
          count := count + 1;
        }
      }
      return Line(count, "");
    }

    /** With one login and the marks made since, STAT counts the messages less the marks. */
    lemma StatCount()
      requires Valid() && logins == 1
      ensures |Unmarked(|messages|, deleted)| == |messages| - |deleted|
      ensures |deleted| == |marked|
    {
      UnmarkedCount(|messages|, deleted);
      DoomedSize(messages, deleted);
    }

    predicate Names(idx: int)
      reads this
    {
      0 <= idx < |messages| && idx !in deleted
    }

    /** LIST and UIDL: one line for a given number, or all unmarked messages under their
        numbers.  LIST announces the number of all messages, marked ones included. */
    method HandleList(arg: string, uidl: bool) returns (reply: Reply)
      ensures !authed ==> reply == Err
      ensures authed && arg == "" ==>
                reply == Listing(if uidl then 0 else |messages|, Entries(|messages|, deleted, Texts(uidl)))
      ensures authed && arg == "" ==>
                && reply.Listing? && Ascending(reply.entries)
                && forall n, text :: (n, text) in reply.entries <==>
                     0 < n <= |messages| && n - 1 !in deleted && text == if uidl then messages[n - 1] else "500"
      ensures authed && arg != "" ==>
                var idx := Position(arg);
                reply == if 0 <= idx < |messages| && idx !in deleted
                         then Line(idx + 1, if uidl then messages[idx] else "500") else Err
      ensures authed && arg != "" ==>
                var idx := Position(arg);
                reply == if Names(idx) then Line(idx + 1, Texts(uidl)[idx]) else Err
    {
      if !authed {
        return Err;
      }
      if arg != "" {
        var idx := ParseIndex(arg);
        if !Names(idx) {
          return Err;
        }
        return Line(idx + 1, if uidl then messages[idx] else ESTIMATED_SIZE);
      }
      var entries := [];
      for i := 0 to |messages|
        invariant entries == Entries(i, deleted, Texts(uidl)[..i])
      {
        UnmarkedMeaning(i, deleted);
        if i !in deleted {
          entries := entries + [(i + 1, if uidl then messages[i] else ESTIMATED_SIZE)];
        }
        assert entries == Entries(i + 1, deleted, Texts(uidl)[..i + 1]);
      }
      assert Texts(uidl)[..|messages|] == Texts(uidl);
      EntriesMeaning(|messages|, deleted, Texts(uidl));
      return Listing(if uidl then 0 else |messages|, entries);
    }

    function Texts(uidl: bool): (texts: seq<string>)
      reads this
      ensures |texts| == |messages|
    {
      if uidl then messages else Sizes(|messages|)
    }

    method HandleDele(arg: string) returns (reply: Reply)
      requires Valid()
      modifies this`deleted, this`marked
      ensures Valid()
      ensures var idx := Position(arg);
              if authed && old(Names(idx))
              then reply == Line(idx + 1, "deleted")
                   && deleted == old(deleted) + {idx} && marked == old(marked) + {messages[idx]}
              else reply == Err && deleted == old(deleted) && marked == old(marked)
    {
      if !authed {
        return Err;
      }
      var idx := ParseIndex(arg);
      if !Names(idx) {
        return Err;
      }
      DoomedMore(messages, deleted, idx);
      deleted, marked := deleted + {idx}, marked + {messages[idx]};
      return Line(idx + 1, "deleted");
    }

    method HandleRset()
      requires Valid()
      modifies this`deleted, this`marked
      ensures Valid() && deleted == {} && marked == {}
    {
      deleted, marked := {}, {};
      assert Doomed(messages, deleted) == {};
    }

    /** What QUIT would delete. */
    function AtQuit(): set<string>
      reads this
    {
      if authed then Doomed(messages, deleted) else {}
    }

    /** QUIT: deletes the doomed messages, each once, in an order of its own; `luck` says which calls
        of each deletion work.  After one login the doomed messages are those DELEd since the last
        RSET. */
    method HandleQuit(luck: string -> Removal) returns (ghost order: seq<string>)
      requires Valid() && store.Valid()
      modifies store
      ensures store.Valid() && Distinct(order) && (forall id :: id in order <==> id in AtQuit())
      ensures store.Whole() == RemoveAll(store.world, old(store.Whole()), order, luck)
      ensures store.messages == old(store.messages) - Removable(AtQuit(), luck)
      ensures authed && logins <= 1 ==> AtQuit() == marked
      ensures forall id :: id in store.messages <==>
                id in old(store.messages)
                && !(authed && luck(id).messageGone
                     && exists i :: i in deleted && i < |messages| && messages[i] == id)
    {
      order := [];
      if authed {
        order := DeleteMarked(luck);
      }
      RemoveAllExactly(store.world, old(store.Whole()), order, luck);
      assert (set id | id in order) == AtQuit();
    }

    method DeleteMarked(luck: string -> Removal) returns (ghost order: seq<string>)
      requires Valid() && store.Valid()
      modifies store
      ensures store.Valid() && Enumerated(order, messages, deleted)
      ensures store.Whole() == RemoveAll(store.world, old(store.Whole()), order, luck)
    {
      order := [];
      var todo := deleted;
      ghost var done: set<nat> := {};
      assert Enumerated(order, messages, done);
      while todo != {}
        invariant store.Valid() && todo + done == deleted && todo !! done
        invariant Enumerated(order, messages, done)
        invariant store.Whole() == RemoveAll(store.world, old(store.Whole()), order, luck)
        decreases todo
      {
        var idx: nat :| idx in todo;
        todo := todo - {idx};
        EnumeratedNext(order, messages, done, idx);
        if idx < |messages| {
          RemoveNext(store.world, old(store.Whole()), order, messages[idx], luck);
          var ok := store.DeleteMessageFull(messages[idx], luck(messages[idx]));
          order := order + [messages[idx]];
        }
        done := done + {idx};
      }
      assert done == deleted;
    }

    ghost function Value(): Maildrop
      reads this
    {
      Maildrop(username, authed, messages, deleted)
    }

    /** The connection loop: commands until QUIT, or until the connection drops.  `answers` says
        how the user table replies to the PASS commands.  Whatever is sent before QUIT, the store stays
        as it was; QUIT deletes the messages at the marked positions, less those whose deletion fails;
        a connection that drops deletes nothing. */
    method Serve(lines: seq<string>, answers: seq<Login>, luck: string -> Removal)
      returns (quit: bool, ghost states: seq<Maildrop>, ghost order: seq<string>)
      requires Valid() && store.Valid() && |answers| == |lines|
      modifies this, store
      ensures Valid() && store.Valid()
      ensures 1 <= |states| <= |lines| + 1 && states[0] == old(Value()) && states[|states| - 1] == Value()
      ensures Run(states, Commands(lines), answers, old(store.messages), |states| - 1)
      ensures quit <==> |states| <= |lines|
      ensures quit ==> Commands(lines)[|states| - 1] == Quit
      ensures !quit ==> store.Whole() == old(store.Whole())
      ensures quit ==>
                && store.Whole() == RemoveAll(store.world, old(store.Whole()), order, luck)
                && store.messages == old(store.messages) - Removable(AtQuit(), luck)
                && (authed && logins <= 1 ==> AtQuit() == marked)
    {
      quit, states := ServeToQuit(Commands(lines), answers);
      order := [];
      if quit {
        order := HandleQuit(luck);
      }
    }

    /** The loop, up to QUIT. */
    method ServeToQuit(cmds: seq<Command>, answers: seq<Login>) returns (quit: bool, ghost states: seq<Maildrop>)
      requires Valid() && |answers| == |cmds|
      modifies this
      ensures Valid()
      ensures 1 <= |states| <= |cmds| + 1 && states[0] == old(Value()) && states[|states| - 1] == Value()
      ensures Run(states, cmds, answers, store.messages, |states| - 1)
      ensures quit <==> |states| <= |cmds|
      ensures quit ==> cmds[|states| - 1] == Quit
    {
      quit, states := false, [Value()];
      for k := 0 to |cmds|
        invariant Valid() && |states| == k + 1 && states[0] == old(Value()) && states[k] == Value()
        invariant Run(states, cmds, answers, store.messages, k)
      {
        if cmds[k] == Quit {
          return true, states;
        }
        Dispatch(cmds[k], answers[k]);
        RunNext(states, cmds, answers, store.messages, Value());
        states := states + [Value()];
      }
    }

    method Dispatch(cmd: Command, answer: Login)
      requires Valid()
      modifies this
      ensures Valid() && Stepped(old(Value()), cmd, answer, store.messages, Value())
    {
      match cmd
      case User(arg) => HandleUser(arg);
      case Pass => var reply := HandlePass(answer);
      case Stat => var reply := HandleStat();
      case List(arg) => var reply := HandleList(arg, false);
      case Uidl(arg) => var reply := HandleList(arg, true);
      case Dele(arg) => var reply := HandleDele(arg);
      case Rset => HandleRset();
      case Quit =>
      case Other =>
    }
  }

  // ----- whole sessions -----

  datatype Command = User(arg: string) | Pass | Stat | List(arg: string) | Uidl(arg: string) | Dele(arg: string)
                   | Rset | Quit | Other

  /** The word before the first space, in any case, and what follows that space. */
  function CommandOf(line: string): Command {
    var s := TrimSpace(line);
    var i := IndexOf(s, ' ');
    var word, arg := Upper(s[..i]), if i < |s| then s[i + 1..] else "";
    if word == "USER" then User(arg)
    else if word == "PASS" then Pass
    else if word == "STAT" then Stat
    else if word == "LIST" then List(arg)
    else if word == "UIDL" then Uidl(arg)
    else if word == "DELE" then Dele(arg)
    else if word == "RSET" then Rset
    else if word == "QUIT" then Quit
    else Other
  }

  /** A word and an argument, one space apart, are read as that command; the word may be in any case, and what is
      not known is passed over. */
  lemma CommandRead(word: string, arg: string)
    requires word != "" && arg != "" && ' ' !in word && !IsSpace(word[0]) && !IsSpace(arg[|arg| - 1])
    ensures var c, w := CommandOf(word + " " + arg), Upper(word);
            && (w == "USER" <==> c == User(arg)) && (w == "DELE" <==> c == Dele(arg))
            && (w == "LIST" <==> c == List(arg)) && (w == "UIDL" <==> c == Uidl(arg))
            && (w == "PASS" <==> c == Pass) && (w == "RSET" <==> c == Rset) && (w == "QUIT" <==> c == Quit)
            && (w == "STAT" <==> c == Stat)
  {
    var s := word + " " + arg;
    assert s[0] == word[0] && s[|s| - 1] == arg[|arg| - 1];
    TrimSpaceId(s);
    IndexOfMiddle(word, ' ', arg);
    assert s[..|word|] == word && s[|word| + 1..] == arg;
  }

  /** And a word alone. */
  lemma CommandAlone(word: string)
    requires word != "" && ' ' !in word && !IsSpace(word[0]) && !IsSpace(word[|word| - 1])
    ensures var c, w := CommandOf(word), Upper(word);
            && (w == "LIST" <==> c == List("")) && (w == "UIDL" <==> c == Uidl(""))
            && (w == "RSET" <==> c == Rset) && (w == "QUIT" <==> c == Quit) && (w == "STAT" <==> c == Stat)
  {
    TrimSpaceId(word);
    IndexOfIs(word, ' ', |word|);
    assert word[..|word|] == word;
  }

  function Commands(lines: seq<string>): seq<Command> {
    seq(|lines|, k requires 0 <= k < |lines| => CommandOf(lines[k]))
  }

  datatype Maildrop = Maildrop(username: Address, authed: bool, messages: seq<string>, deleted: set<nat>)

  /** One command before QUIT, against the table `m`. */
  ghost predicate Stepped(s: Maildrop, cmd: Command, answer: Login, m: map<string, Row>, t: Maildrop) {
    match cmd
    case User(arg) => t == s.(username := TrimSpace(arg))
    case Pass =>
      if s.username == "" || answer.Refused? then t == s
      else if !answer.listed then t == s.(username := answer.email)
      else LoggedIn(s, answer.email, m, t)
    case Dele(arg) => t == if Deletes(s, Position(arg)) then s.(deleted := s.deleted + {Position(arg)}) else s
    case Rset => t == s.(deleted := {})
    case _ => t == s
  }

  ghost predicate LoggedIn(s: Maildrop, email: Address, m: map<string, Row>, t: Maildrop) {
    t == Maildrop(email, true, t.messages, s.deleted)
    && Lists(m, email, "INBOX", t.messages) && NewestFirst(m, t.messages)
  }

  predicate Deletes(s: Maildrop, i: int) {
    s.authed && 0 <= i < |s.messages| && i !in s.deleted
  }

  /** The first `n` commands lead through the given states. */
  ghost predicate Run(states: seq<Maildrop>, cmds: seq<Command>, answers: seq<Login>, m: map<string, Row>, n: nat) {
    n < |states| && n <= |cmds| == |answers|
    && forall k :: 0 <= k < n ==> StepAt(states, cmds, answers, m, k)
  }

  /** Command number `k` of a run. */
  ghost predicate StepAt(states: seq<Maildrop>, cmds: seq<Command>, answers: seq<Login>, m: map<string, Row>, k: int) {
    0 <= k < |cmds| && k < |answers| && k + 1 < |states| && Stepped(states[k], cmds[k], answers[k], m, states[k + 1])
  }

  lemma RunNext(states: seq<Maildrop>, cmds: seq<Command>, answers: seq<Login>, m: map<string, Row>, t: Maildrop)
    requires states != [] && Run(states, cmds, answers, m, |states| - 1) && |states| <= |cmds|
    requires Stepped(states[|states| - 1], cmds[|states| - 1], answers[|states| - 1], m, t)
    ensures Run(states + [t], cmds, answers, m, |states|)
  {
    forall k | 0 <= k < |states| ensures StepAt(states + [t], cmds, answers, m, k) {
      assert k < |states| - 1 ==> StepAt(states, cmds, answers, m, k);
    }
  }

  /** Among the first `n` commands, number `k` is an honoured DELE of position `i`, and no RSET
      comes after it. */
  ghost predicate DeletedAt(states: seq<Maildrop>, cmds: seq<Command>, n: nat, i: nat, k: nat)
    requires n <= |cmds| && n < |states|
  {
    k < n && cmds[k].Dele? && Position(cmds[k].arg) == i && Deletes(states[k], i)
    && forall j :: k < j < n ==> cmds[j] != Rset
  }

  ghost predicate DeletedSinceReset(states: seq<Maildrop>, cmds: seq<Command>, n: nat, i: nat)
    requires n <= |cmds| && n < |states|
  {
    exists k: nat :: DeletedAt(states, cmds, n, i, k)
  }

  /** Over any run, a position is marked exactly when some honoured DELE named it and no RSET
      came later - whatever other commands, failed logins and repeated PASSes lie between. */
  lemma {:induction false} MarkedSinceReset(states: seq<Maildrop>, cmds: seq<Command>, answers: seq<Login>,
                                            m: map<string, Row>, n: nat, i: nat)
    requires Run(states, cmds, answers, m, n) && states[0].deleted == {}
    ensures i in states[n].deleted <==> DeletedSinceReset(states, cmds, n, i)
  {
    if n > 0 {
      MarkedSinceReset(states, cmds, answers, m, n - 1, i);
      MarkedNext(states, cmds, answers, m, n - 1, i);
      DeletedNext(states, cmds, n - 1, i);
    }
  }

  lemma DeletedNext(states: seq<Maildrop>, cmds: seq<Command>, n: nat, i: nat)
    requires n < |cmds| && n + 1 < |states|
    ensures DeletedSinceReset(states, cmds, n + 1, i) <==>
            DeletedAt(states, cmds, n + 1, i, n) || (cmds[n] != Rset && DeletedSinceReset(states, cmds, n, i))
  {
    if DeletedSinceReset(states, cmds, n + 1, i) {
      var k: nat :| DeletedAt(states, cmds, n + 1, i, k);
      assert k < n ==> DeletedAt(states, cmds, n, i, k);
    }
    if cmds[n] != Rset && DeletedSinceReset(states, cmds, n, i) {
      var k: nat :| DeletedAt(states, cmds, n, i, k);
      assert DeletedAt(states, cmds, n + 1, i, k);
    }
  }

  lemma MarkedNext(states: seq<Maildrop>, cmds: seq<Command>, answers: seq<Login>, m: map<string, Row>, n: nat, i: nat)
    requires Run(states, cmds, answers, m, n + 1)
    ensures i in states[n + 1].deleted <==>
            DeletedAt(states, cmds, n + 1, i, n) || (cmds[n] != Rset && i in states[n].deleted)
  {
    assert StepAt(states, cmds, answers, m, n);
  }

  lemma {:induction false} DoomedSize(ids: seq<string>, marks: set<nat>)
    requires Distinct(ids) && Within(marks, |ids|)
    ensures |Doomed(ids, marks)| == |marks|
    decreases |marks|
  {
    if marks == {} {
      assert Doomed(ids, marks) == {};
    } else {
      var i :| i in marks;
      DoomedSize(ids, marks - {i});
      DoomedMember(ids, marks - {i}, i);
      DoomedMore(ids, marks - {i}, i);
      assert marks - {i} + {i} == marks;
    }
  }

  // ----- RETR on the wire -----

  /** The message as sent: its text, a line break, and a line holding a dot.  Lines of the text
      are sent as they are. */
  function Sent(content: string): string { content + CRLF + "." + CRLF }

  /** The lines a client takes for the message: everything up to the first lone dot, less the
      first dot of each line (section 3 of RFC 1939). */
  function Received(lines: seq<string>): seq<string> {
    if lines == [] || lines[0] == "." then []
    else [if lines[0] != "" && lines[0][0] == '.' then lines[0][1..] else lines[0]] + Received(lines[1..])
  }

  ghost predicate NoLeadingDot(lines: seq<string>) {
    forall i :: 0 <= i < |lines| ==> lines[i] == "" || lines[i][0] != '.'
  }

  /** Since no dot is doubled, the client sees the message's lines exactly when none of them
      starts with a dot. */
  lemma RetrievedIntact(content: string)
    ensures Received(Lines(Sent(content))) == Lines(content + CRLF) <==> NoLeadingDot(Lines(content + CRLF))
  {
    SentLines(content);
    ReceivedExactly(Lines(content + CRLF));
  }

  lemma SentLines(content: string)
    ensures Lines(Sent(content)) == Lines(content + CRLF) + ["."]
  {
    assert CRLF == [CR] + [LF];
    Regroup(content, [CR], [LF], "");
    Regroup(content + CRLF, ".", CRLF, "");
    LinesAppend(content + [CR], "." + CRLF);
    DotLine();
  }

  lemma DotLine()
    ensures Lines("." + CRLF) == ["."]
  {
    var s := "." + CRLF;
    IndexOfIs(s, LF, 2);
    assert s[2] == LF && s[..2] == ['.', CR] && s[3..] == "";
    assert TrimReturns(['.', CR]) == "." by {
      assert ['.', CR][..1] == ".";
    }
  }

  lemma {:induction false} LinesAppend(a: string, b: string)
    ensures Lines(a + [LF] + b) == Lines(a + [LF]) + Lines(b)
    decreases |a|
  {
    if LF in a {
      var i := IndexOf(a, LF);
      assert i < |a|;
      assert a == a[..i] + [LF] + a[i + 1..];
      LinesAppend(a[i + 1..], b);
      LinesPrepend(a[..i], a[i + 1..], b);
    } else {
      LinesOne(a, b);
    }
  }

  lemma LinesOne(line: string, b: string)
    requires LF !in line
    ensures Lines(line + [LF] + b) == Lines(line + [LF]) + Lines(b)
  {
    LinesFirst(line, b);
    LinesFirst(line, "");
    assert line + [LF] == line + [LF] + "";
    assert Lines("") == [];
  }

  lemma LinesPrepend(line: string, rest: string, b: string)
    requires LF !in line && Lines(rest + [LF] + b) == Lines(rest + [LF]) + Lines(b)
    ensures Lines(line + [LF] + rest + [LF] + b) == Lines(line + [LF] + rest + [LF]) + Lines(b)
  {
    LinesFirst(line, rest + [LF] + b);
    LinesFirst(line, rest + [LF]);
    Regroup(line + [LF], rest, [LF], b);
    Regroup([TrimReturns(line)], Lines(rest + [LF]), Lines(b), []);
  }

  lemma LinesFirst(line: string, rest: string)
    requires LF !in line
    ensures Lines(line + [LF] + rest) == [TrimReturns(line)] + Lines(rest)
  {
    var s := line + [LF] + rest;
    IndexOfMiddle(line, LF, rest);
    assert s[|line|] == LF && s[..|line|] == line && s[|line| + 1..] == rest;
  }

  lemma {:induction false} ReceivedExactly(lines: seq<string>)
    ensures Received(lines + ["."]) == lines <==> NoLeadingDot(lines)
  {
    if lines != [] {
      var all := lines + ["."];
      assert all[1..] == lines[1..] + ["."];
      ReceivedExactly(lines[1..]);
      assert NoLeadingDot(lines) <==> (lines[0] == "" || lines[0][0] != '.') && NoLeadingDot(lines[1..]);
      if lines[0] != "" && lines[0][0] == '.' {
        if lines[0] != "." {
          assert Received(all)[0] == lines[0][1..] != lines[0];
        }
      } else {
        assert Received(all) == [lines[0]] + Received(lines[1..] + ["."]);
        if Received(all) == lines {
          assert Received(all)[1..] == lines[1..];
        }
        assert lines == [lines[0]] + lines[1..];
      }
    }
  }
}

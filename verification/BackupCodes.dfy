/** Two-factor settings of accounts and their single-use backup codes
    (internal/auth/auth.go:36-110, 14-22). */
module BackupCodes {
  import opened Strings

  const CODE_COUNT: nat := 10

  /** The two-factor columns of a row of `user_account`. */
  datatype Account = Account(enabled: bool, secret: string, backups: string)

  /** A backup code accepted for the hash it matches. */
  datatype Use = Use(hash: string, code: string)

  /** What happened to the backup codes of one account since it was last set up: the hashes stored
      then, those left, the uses that were struck off and those that were not because the write
      failed. */
  datatype Ledger = Ledger(initial: seq<string>, left: seq<string>, spent: seq<Use>, unstruck: seq<Use>)

  ghost predicate Storable(hashes: seq<string>) {
    FreeOf(hashes, '|') && forall h :: h in hashes ==> h != ""
  }

  function Hashes(uses: seq<Use>): seq<string> {
    seq(|uses|, i requires 0 <= i < |uses| => uses[i].hash)
  }

  /** The stored string is the remaining hashes, joined; nothing was lost or added: what is left
      and what was spent make up what was set up. */
  ghost predicate Balanced(l: Ledger, backups: string, matches: (string, string) -> bool) {
    && |l.initial| == CODE_COUNT && Storable(l.left) && backups == Join(l.left, "|")
    && multiset(l.left) + multiset(Hashes(l.spent)) == multiset(l.initial)
    && (forall u :: u in l.spent + l.unstruck ==> matches(u.hash, u.code) && u.hash in l.initial)
  }

  /** The stored string always splits back into the remaining hashes, and is empty only when none
      is left. */
  lemma SplitsBack(l: Ledger, backups: string, matches: (string, string) -> bool)
    requires Balanced(l, backups, matches)
    ensures backups == "" <==> l.left == []
    ensures backups != "" ==> Split(backups, '|') == l.left
  {
    if l.left != [] {
      assert l.left[0] in l.left;
      SplitJoin(l.left, '|');
    }
  }

  lemma SetUp(hashes: seq<string>, matches: (string, string) -> bool)
    requires Storable(hashes) && |hashes| == CODE_COUNT
    ensures Balanced(Ledger(hashes, hashes, [], []), Join(hashes, "|"), matches)
  {
    assert Hashes([]) == [];
  }

  function Without(s: seq<string>, i: nat): seq<string>
    requires i < |s|
  {
    s[..i] + s[i + 1..]
  }

  /** The ledger after hash number `i` accepted `code`. */
  ghost function Spent(l: Ledger, i: nat, code: string, written: bool): Ledger
    requires i < |l.left|
  {
    var use := Use(l.left[i], code);
    if written then l.(left := Without(l.left, i), spent := l.spent + [use])
    else l.(unstruck := l.unstruck + [use])
  }

  lemma SpendOne(l: Ledger, backups: string, matches: (string, string) -> bool, i: nat, code: string, written: bool)
    requires Balanced(l, backups, matches) && i < |l.left| && matches(l.left[i], code)
    ensures Balanced(Spent(l, i, code, written), if written then Join(Without(l.left, i), "|") else backups, matches)
  {
    var h, use := l.left[i], Use(l.left[i], code);
    assert l.left == l.left[..i] + [h] + l.left[i + 1..];
    assert h in multiset(l.left) && h in multiset(l.initial);
    if written {
      assert multiset(l.left) == multiset(Without(l.left, i)) + multiset{h};
      assert Hashes(l.spent + [use]) == Hashes(l.spent) + [h];
      forall x | x in Without(l.left, i) ensures x in l.left {}
    }
    forall u | u in Spent(l, i, code, written).spent + Spent(l, i, code, written).unstruck
      ensures matches(u.hash, u.code) && u.hash in l.initial
    {
      assert u in l.spent + l.unstruck || u == use;
    }
  }

  /** A code just accepted is accepted again exactly if striking it off failed or another remaining
      hash accepts it too. */
  lemma AcceptedAgain(l: Ledger, i: nat, code: string, written: bool, matches: (string, string) -> bool)
    requires i < |l.left| && matches(l.left[i], code)
    ensures (exists h :: h in Spent(l, i, code, written).left && matches(h, code)) <==>
            !written || exists k: nat :: k < |l.left| && k != i && matches(l.left[k], code)
  {
    var left' := Spent(l, i, code, written).left;
    if written {
      forall k: nat | k < |l.left| && k != i ensures l.left[k] in left' {
        assert l.left[k] == left'[if k < i then k else k - 1];
      }
      forall h | h in left' ensures exists k: nat :: k < |l.left| && k != i && l.left[k] == h {
        var j: nat :| j < |left'| && left'[j] == h;
        assert h == l.left[if j < i then j else j + 1];
      }
    } else {
      assert l.left[i] in left';
    }
  }

  // ----- how often codes can succeed -----

  /** How many of the hashes accept the code. */
  function Accepting(hashes: seq<string>, matches: (string, string) -> bool, code: string): nat {
    if hashes == [] then 0
    else Accepting(hashes[1..], matches, code) + if matches(hashes[0], code) then 1 else 0
  }

  function Successes(uses: seq<Use>, code: string): nat {
    if uses == [] then 0 else Successes(uses[1..], code) + if uses[0].code == code then 1 else 0
  }

  lemma {:induction false} AcceptingMore(small: seq<string>, large: seq<string>, matches: (string, string) -> bool,
                                         code: string)
    requires multiset(small) <= multiset(large)
    ensures Accepting(small, matches, code) <= Accepting(large, matches, code)
  {
    if small != [] {
      var h := small[0];
      assert small == [h] + small[1..];
      assert h in multiset(small) && h in large;
      var k :| 0 <= k < |large| && large[k] == h;
      assert large == large[..k] + [h] + large[k + 1..];
      assert multiset(Without(large, k)) == multiset(large) - multiset{h};
      assert multiset(small[1..]) == multiset(small) - multiset{h};
      AcceptingMore(small[1..], Without(large, k), matches, code);
      AcceptingWithout(large, k, matches, code);
    }
  }

  lemma {:induction false} AcceptingWithout(s: seq<string>, k: nat, matches: (string, string) -> bool, code: string)
    requires k < |s|
    ensures Accepting(s, matches, code) ==
            Accepting(Without(s, k), matches, code) + if matches(s[k], code) then 1 else 0
  {
    if k == 0 {
      assert Without(s, 0) == s[1..];
    } else {
      AcceptingWithout(s[1..], k - 1, matches, code);
      assert Without(s, k)[1..] == Without(s[1..], k - 1);
    }
  }

  lemma {:induction false} SuccessesAccepted(uses: seq<Use>, matches: (string, string) -> bool, code: string)
    requires forall u :: u in uses ==> matches(u.hash, u.code)
    ensures Successes(uses, code) <= Accepting(Hashes(uses), matches, code)
  {
    if uses != [] {
      assert uses[0] in uses;
      SuccessesAccepted(uses[1..], matches, code);
      assert Hashes(uses)[1..] == Hashes(uses[1..]);
    }
  }

  /** Between two set-ups a code is struck off no more often than hashes accept it, and with what is
      left the codes struck off make ten in all. */
  lemma SpentBound(l: Ledger, backups: string, matches: (string, string) -> bool, code: string)
    requires Balanced(l, backups, matches)
    ensures Successes(l.spent, code) <= Accepting(l.initial, matches, code)
    ensures |l.left| + |l.spent| == 10
  {
    forall u | u in l.spent ensures matches(u.hash, u.code) { assert u in l.spent + l.unstruck; }
    SuccessesAccepted(l.spent, matches, code);
    assert multiset(Hashes(l.spent)) <= multiset(l.initial);
    AcceptingMore(Hashes(l.spent), l.initial, matches, code);
    assert |multiset(l.left) + multiset(Hashes(l.spent))| == |multiset(l.initial)|;
  }

  // ----- what was set up -----

  /** A change of an account's second factor that reached the database. */
  datatype Change = TurnedOn(email: string, secret: string) | TurnedOff(email: string)

  /** Change number `i` is the last one of the account, and turned the factor on. */
  ghost predicate InForce(history: seq<Change>, email: string, i: int) {
    0 <= i < |history| && history[i].TurnedOn? && history[i].email == email
    && forall k :: i < k < |history| ==> history[k].email != email
  }

  /** The row shows the last change of its account. */
  ghost predicate Shows(a: Account, history: seq<Change>, email: string) {
    if a.enabled then exists i :: InForce(history, email, i) && history[i].secret == a.secret
    else forall i :: !InForce(history, email, i)
  }

  /** Every row does, and no change was to an account without a row. */
  ghost predicate AllShow(rows: map<string, Account>, history: seq<Change>) {
    (forall e :: e in rows ==> Shows(rows[e], history, e)) && forall c :: c in history ==> c.email in rows
  }

  lemma InForceNext(history: seq<Change>, c: Change, email: string, i: int)
    ensures InForce(history + [c], email, i) <==>
            if c.email == email then c.TurnedOn? && i == |history| else InForce(history, email, i)
  {
    var longer := history + [c];
    assert longer[|history|] == c;
    if c.email != email && 0 <= i < |history| {
      assert longer[i] == history[i];
      assert InForce(longer, email, i) ==> forall k :: i < k < |history| ==> history[k] == longer[k];
    }
  }

  lemma ShowsNext(a: Account, history: seq<Change>, c: Change, email: string)
    requires c.email != email && Shows(a, history, email)
    ensures Shows(a, history + [c], email)
  {
    forall i ensures InForce(history + [c], email, i) <==> InForce(history, email, i) {
      InForceNext(history, c, email, i);
    }
    if a.enabled {
      var i :| InForce(history, email, i) && history[i].secret == a.secret;
      assert InForce(history + [c], email, i);
    }
  }

  /** After a change nothing but that change is in force for its account. */
  lemma InForceOnly(history: seq<Change>, c: Change)
    ensures forall i :: InForce(history + [c], c.email, i) <==> c.TurnedOn? && i == |history|
  {
    forall i ensures InForce(history + [c], c.email, i) <==> c.TurnedOn? && i == |history| {
      InForceNext(history, c, c.email, i);
    }
  }

  /** A row written with each change shows the last one. */
  lemma RowsShown(rows: map<string, Account>, history: seq<Change>, c: Change, row: Account)
    requires AllShow(rows, history) && c.email in rows
    requires row.enabled == c.TurnedOn? && (c.TurnedOn? ==> row.secret == c.secret)
    ensures AllShow(rows[c.email := row], history + [c])
  {
    var rows' := rows[c.email := row];
    forall e | e in rows' ensures Shows(rows'[e], history + [c], e) {
      if e == c.email {
        InForceOnly(history, c);
        assert c.TurnedOn? ==> InForce(history + [c], e, |history|);
      } else {
        ShowsNext(rows[e], history, c, e);
      }
    }
  }

  /** The backup codes of a row do not matter for that. */
  lemma StillShown(rows: map<string, Account>, history: seq<Change>, email: string, backups: string)
    requires AllShow(rows, history) && email in rows
    ensures AllShow(rows[email := rows[email].(backups := backups)], history)
  {
    var rows' := rows[email := rows[email].(backups := backups)];
    forall e | e in rows' ensures Shows(rows'[e], history, e) {
      assert Shows(rows[e], history, e);
    }
  }

  /** The secret in force is the one in the row. */
  lemma ShownSecret(rows: map<string, Account>, history: seq<Change>, email: string)
    requires AllShow(rows, history)
    ensures forall i :: InForce(history, email, i) ==>
              email in rows && rows[email].enabled && rows[email].secret == history[i].secret
    ensures email in rows && rows[email].enabled ==> exists i :: InForce(history, email, i)
  {
    forall i | InForce(history, email, i)
      ensures email in rows && rows[email].enabled && rows[email].secret == history[i].secret
    {
      assert history[i] in history;
      assert Shows(rows[email], history, email);
      var k :| InForce(history, email, k) && history[k].secret == rows[email].secret;
      assert k == i;
    }
  }

  // ----- what each call changes -----

  /** The table, and what the proofs remember of its accounts. */
  datatype Factors = Factors(rows: map<string, Account>, ledgers: map<string, Ledger>, history: seq<Change>)

  /** The code is right for the secret of the last change of the account, and that change turned
      the factor on. */
  ghost predicate TotpGood(totp: (string, string, int) -> bool, history: seq<Change>, email: string, code: string,
                           now: int, read: bool)
  {
    read && exists i :: InForce(history, email, i) && history[i].secret != "" && totp(history[i].secret, code, now)
  }

  /** Some remaining hash accepts the code. */
  ghost predicate BackupGood(matches: (string, string) -> bool, f: Factors, email: string, code: string, read: bool) {
    read && email in f.rows && f.rows[email].enabled && email in f.ledgers
    && exists i :: 0 <= i < |f.ledgers[email].left| && matches(f.ledgers[email].left[i], code)
  }

  /** The first hash that accepts the code, or the number of hashes. */
  function FirstIndex(hashes: seq<string>, matches: (string, string) -> bool, code: string): (i: nat)
    ensures i <= |hashes| && forall k :: 0 <= k < i ==> !matches(hashes[k], code)
    ensures i < |hashes| ==> matches(hashes[i], code)
  {
    if hashes == [] || matches(hashes[0], code) then 0 else 1 + FirstIndex(hashes[1..], matches, code)
  }

  ghost function AfterSetUp(f: Factors, email: string, secret: string, hashes: seq<string>, written: bool): Factors {
    if written && email in f.rows then
      Factors(f.rows[email := Account(true, secret, Join(hashes, "|"))],
              f.ledgers[email := Ledger(hashes, hashes, [], [])], f.history + [TurnedOn(email, secret)])
    else f
  }

  ghost function AfterDisable(totp: (string, string, int) -> bool, f: Factors, email: string, code: string, now: int,
                              read: bool, written: bool): Factors
  {
    if TotpGood(totp, f.history, email, code, now, read) && written then
      f.(rows := f.rows[email := Account(false, "", "")], history := f.history + [TurnedOff(email)])
    else f
  }

  /** The first hash that accepts the code is gone, or would be had the write worked. */
  ghost function AfterBackup(matches: (string, string) -> bool, f: Factors, email: string, code: string, read: bool,
                             written: bool): Factors
  {
    if !BackupGood(matches, f, email, code, read) then f
    else
      var l, row := f.ledgers[email], f.rows[email];
      var i := FirstIndex(l.left, matches, code);
      f.(ledgers := f.ledgers[email := Spent(l, i, code, written)],
         rows := if written then f.rows[email := row.(backups := Join(Without(l.left, i), "|"))] else f.rows)
  }

  /** Every row shows the last change of its account, and the backup codes of an account with a second
      factor balance. */
  ghost predicate Consistent(f: Factors, matches: (string, string) -> bool) {
    && (forall e :: e in f.rows && f.rows[e].enabled ==>
          e in f.ledgers && Balanced(f.ledgers[e], f.rows[e].backups, matches))
    && AllShow(f.rows, f.history)
  }

  lemma BackupConsistent(matches: (string, string) -> bool, f: Factors, email: string, code: string, read: bool,
                         written: bool)
    requires Consistent(f, matches)
    ensures Consistent(AfterBackup(matches, f, email, code, read, written), matches)
  {
    if BackupGood(matches, f, email, code, read) {
      var l, row := f.ledgers[email], f.rows[email];
      var i := FirstIndex(l.left, matches, code);
      SpendOne(l, row.backups, matches, i, code, written);
      StillShown(f.rows, f.history, email, Join(Without(l.left, i), "|"));
    }
  }

  /** What an accepted code changes: the first remaining hash that accepts it is gone, in the row as well, if that
      could be written; and nothing else is touched. */
  lemma BackupStruck(matches: (string, string) -> bool, f: Factors, email: string, code: string, written: bool)
    requires email in f.rows && f.rows[email].enabled && email in f.ledgers
    requires exists h :: h in f.ledgers[email].left && matches(h, code)
    ensures var g, before := AfterBackup(matches, f, email, code, true, written), f.ledgers[email].left;
            && email in g.ledgers && email in g.rows && g.history == f.history
            && (!written ==> g.rows == f.rows && g.ledgers[email].left == before)
            && (written ==>
                  && g.rows == f.rows[email := f.rows[email].(backups := Join(g.ledgers[email].left, "|"))]
                  && exists i: nat :: i < |before| && FirstAccepted(matches, before, i, code)
                       && g.ledgers[email].left == before[..i] + before[i + 1..])
  {
    var before := f.ledgers[email].left;
    var h :| h in before && matches(h, code);
    var k :| 0 <= k < |before| && before[k] == h;
    var i := FirstIndex(before, matches, code);
    assert i <= k && FirstAccepted(matches, before, i, code);
  }

  ghost predicate FirstAccepted(matches: (string, string) -> bool, hashes: seq<string>, i: nat, code: string)
    requires i < |hashes|
  {
    matches(hashes[i], code) && forall k :: 0 <= k < i ==> !matches(hashes[k], code)
  }

  // ----- the accounts -----

  class Accounts {
    const matches: (string, string) -> bool           // hash, code
    const totp: (string, string, int) -> bool         // secret, code, time
    var rows: map<string, Account>
    ghost var ledgers: map<string, Ledger>
    ghost var history: seq<Change>

    ghost function View(): Factors
      reads this
    {
      Factors(rows, ledgers, history)
    }

    ghost predicate Valid()
      reads this
    {
      Consistent(View(), matches)
    }

    constructor (matches: (string, string) -> bool, totp: (string, string, int) -> bool, emails: set<string>)
      ensures Valid() && this.matches == matches && this.totp == totp
      ensures rows.Keys == emails && history == []
    {
      this.matches, this.totp := matches, totp;
      rows, ledgers, history := map e | e in emails :: Account(false, "", ""), map[], [];
    }

    /** Setup2FA: ten hashes, and the second factor demanded at once.  From then on the account's
        codes are those of the new secret, and any one of the ten. */
    method Setup(email: string, secret: string, hashes: seq<string>, written: bool) returns (ok: bool)
      requires Valid() && Storable(hashes) && |hashes| == CODE_COUNT
      modifies this
      ensures Valid() && ok == written
      ensures View() == AfterSetUp(old(View()), email, secret, hashes, written)
      ensures written && email in rows ==>
                && rows[email].enabled && rows[email].secret == secret && rows[email].backups == Join(hashes, "|")
      ensures written && email in rows ==>
                forall code, now, read :: TotpAccepts(email, code, now, read) <==>
                                          read && secret != "" && totp(secret, code, now)
      ensures written && email in rows ==>
                forall code, read :: BackupAccepts(email, code, read) <==>
                                     read && exists i :: 0 <= i < |hashes| && matches(hashes[i], code)
    {
      ok := written;
      if written && email in rows {
        SetUp(hashes, matches);
        ghost var c := TurnedOn(email, secret);
        RowsShown(rows, history, c, Account(true, secret, Join(hashes, "|")));
        rows := rows[email := Account(true, secret, Join(hashes, "|"))];
        ledgers := ledgers[email := Ledger(hashes, hashes, [], [])];
        InForceOnly(history, c);
        history := history + [c];
        assert forall i :: InForce(history, email, i) <==> i == |history| - 1;
      }
    }

    ghost predicate TotpAccepts(email: string, code: string, now: int, read: bool)
      reads this
    {
      TotpGood(totp, history, email, code, now, read)
    }

    /** Verify2FA. */
    method Verify(email: string, code: string, now: int, read: bool) returns (valid: bool)
      requires Valid()
      ensures valid <==> TotpAccepts(email, code, now, read)
    {
      ShownSecret(rows, history, email);
      valid := read && email in rows && rows[email].enabled && rows[email].secret != ""
        && totp(rows[email].secret, code, now);
    }

    /** Disable2FA: only with a valid code.  From then on no code is accepted. */
    method Disable(email: string, code: string, now: int, read: bool, written: bool) returns (ok: bool)
      requires Valid()
      modifies this`rows, this`history
      ensures Valid() && ok == (old(TotpAccepts(email, code, now, read)) && written)
      ensures View() == AfterDisable(totp, old(View()), email, code, now, read, written)
      ensures ok ==> email in rows && !rows[email].enabled
      ensures ok ==> forall x, t, r :: !TotpAccepts(email, x, t, r)
      ensures ok ==> forall x, r :: !BackupAccepts(email, x, r)
    {
      var valid := Verify(email, code, now, read);
      ok := valid && written;
      if ok {
        ghost var c := TurnedOff(email);
        ShownSecret(rows, history, email);
        RowsShown(rows, history, c, Account(false, "", ""));
        rows := rows[email := Account(false, "", "")];
        InForceOnly(history, c);
        history := history + [c];
        forall x, t, r ensures !TotpAccepts(email, x, t, r) {
          assert forall i :: !InForce(history, email, i);
        }
      }
    }

    ghost predicate BackupAccepts(email: string, code: string, read: bool)
      reads this
    {
      BackupGood(matches, View(), email, code, read)
    }

    method FirstAccepting(hashes: seq<string>, code: string) returns (i: nat)
      ensures i == FirstIndex(hashes, matches, code)
    {
      i := 0;
      while i < |hashes| && !matches(hashes[i], code)
        invariant i <= |hashes| && FirstIndex(hashes, matches, code) == i + FirstIndex(hashes[i..], matches, code)
      {
        i := i + 1;
      }
    }

    /** VerifyBackupCode: the first hash that accepts the code is struck off - unless the write
        fails, which goes unnoticed. */
    method VerifyBackup(email: string, code: string, read: bool, written: bool) returns (valid: bool)
      requires Valid()
      modifies this`rows, this`ledgers
      ensures Valid() && valid == old(BackupAccepts(email, code, read))
      ensures View() == AfterBackup(matches, old(View()), email, code, read, written)
    {
      if !read || email !in rows || !rows[email].enabled {
        return false;
      }
      BackupConsistent(matches, View(), email, code, true, written);
      SplitsBack(ledgers[email], rows[email].backups, matches);
      if rows[email].backups == "" {
        return false;
      }
      var codes := Split(rows[email].backups, '|');
      var k := FirstAccepting(codes, code);
      valid := k < |codes|;
      if valid {
        Strike(email, codes, k, code, written);
      }
    }

    method Strike(email: string, codes: seq<string>, k: nat, code: string, written: bool)
      requires email in rows && rows[email].enabled && email in ledgers
      requires codes == ledgers[email].left && k < |codes| && k == FirstIndex(codes, matches, code)
      modifies this`rows, this`ledgers
      ensures View() == AfterBackup(matches, old(View()), email, code, true, written)
    {
      ledgers := ledgers[email := Spent(ledgers[email], k, code, written)];
      if written {
        rows := rows[email := rows[email].(backups := Join(codes[..k] + codes[k + 1..], "|"))];
      }
    }
  }
}

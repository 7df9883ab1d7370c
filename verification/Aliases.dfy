/** Alias, catch-all and user tables, and the depth-limited resolution of an address
    (internal/store/store.go:241-295). */
module Aliases {
  import opened Strings

  type Address = string

  /** `mail_alias` (a catch-all is the row whose key is "@domain") and `user_account`. */
  datatype Tables = Tables(aliases: map<Address, seq<Address>>, users: set<(string, string)>)

  const MAX_DEPTH: nat := 10

  function SplitEmail(e: Address): (string, string) {
    var i := IndexOf(e, '@');
    if i == |e| then (e, "") else (e[..i], e[i + 1..])
  }

  predicate UserExists(t: Tables, e: Address) { SplitEmail(e) in t.users }

  /** A missing row and a row without targets are treated alike by the callers. */
  function GetAlias(t: Tables, e: Address): seq<Address> {
    if e in t.aliases then t.aliases[e] else []
  }

  function GetCatchAll(t: Tables, domain: string): seq<Address> {
    GetAlias(t, "@" + domain)
  }

  /** The targets an address is rewritten to, [] when no rule applies: the address's own
      alias first, then the catch-all of its domain. */
  function Rule(t: Tables, e: Address): seq<Address> {
    var targets := GetAlias(t, e);
    var domain := SplitEmail(e).1;
    if targets != [] then targets
    else if domain != "" then GetCatchAll(t, domain)
    else []
  }

  function Budget(depth: nat): nat {
    if depth > MAX_DEPTH then 0 else MAX_DEPTH + 1 - depth
  }

  function Resolve(t: Tables, e: Address, depth: nat): seq<Address>
    decreases Budget(depth), 0
  {
    if depth > MAX_DEPTH then [e]
    else if Rule(t, e) != [] then ResolveAll(t, Rule(t, e), depth + 1)
    else if UserExists(t, e) then [e]
    else []
  }

  /** The resolutions of all targets, concatenated in order. */
  function ResolveAll(t: Tables, targets: seq<Address>, depth: nat): seq<Address>
    decreases Budget(depth), |targets| + 1
  {
    if targets == [] then []
    else ResolveAll(t, targets[..|targets| - 1], depth) + Resolve(t, targets[|targets| - 1], depth)
  }

  /** The rule spelled out: the address's own alias wins; without one, the catch-all of its domain; either counts only
      if it has targets.  A user is looked up by the parts before and after the @. */
  lemma RuleMeaning(t: Tables, user: string, domain: string)
    requires '@' !in user
    ensures var e, all := user + "@" + domain, "@" + domain;
            && (e in t.aliases && t.aliases[e] != [] ==> Rule(t, e) == t.aliases[e])
            && (!(e in t.aliases && t.aliases[e] != []) ==>
                  Rule(t, e) == if domain != "" && all in t.aliases then t.aliases[all] else [])
            && (UserExists(t, e) <==> (user, domain) in t.users)
    ensures Rule(t, user) == if user in t.aliases then t.aliases[user] else []
    ensures UserExists(t, user) <==> (user, "") in t.users
  {
    IndexOfMiddle(user, '@', domain);
    assert (user + "@" + domain)[..|user|] == user && (user + "@" + domain)[|user| + 1..] == domain;
    IndexOfIs(user, '@', |user|);
  }

  /** One level of resolution: the targets of the alias, or else of the catch-all, or else the user, or else nobody;
      and from the eleventh level on the address itself. */
  lemma ResolveMeaning(t: Tables, user: string, domain: string, depth: nat)
    requires '@' !in user
    ensures var e, all := user + "@" + domain, "@" + domain;
            Resolve(t, e, depth) ==
            if depth > 10 then [e]
            else if e in t.aliases && t.aliases[e] != [] then ResolveAll(t, t.aliases[e], depth + 1)
            else if domain != "" && all in t.aliases && t.aliases[all] != [] then
              ResolveAll(t, t.aliases[all], depth + 1)
            else if (user, domain) in t.users then [e]
            else []
  {
    RuleMeaning(t, user, domain);
  }

  /** Several addresses: what the first resolves to comes first. */
  lemma {:induction false} ResolveAllFirst(t: Tables, e: Address, rest: seq<Address>, depth: nat)
    ensures ResolveAll(t, [], depth) == []
    ensures ResolveAll(t, [e] + rest, depth) == Resolve(t, e, depth) + ResolveAll(t, rest, depth)
    decreases |rest|
  {
    var all, n := [e] + rest, |rest|;
    if n == 0 {
      assert all[..0] == [];
    } else {
      ResolveAllFirst(t, e, rest[..n - 1], depth);
      assert all[..n] == [e] + rest[..n - 1] && all[n] == rest[n - 1];
    }
  }

  method ResolveRecipient(t: Tables, email: Address, depth: nat) returns (resolved: seq<Address>)
    ensures resolved == Resolve(t, email, depth)
    decreases Budget(depth)
  {
    if depth > MAX_DEPTH {
      return [email];
    }
    var targets := GetAlias(t, email);
    if targets != [] {
      resolved := ResolveTargets(t, targets, depth);
      return;
    }
    var domain := SplitEmail(email).1;
    if domain != "" {
      targets := GetCatchAll(t, domain);
      if targets != [] {
        resolved := ResolveTargets(t, targets, depth);
        return;
      }
    }
    if UserExists(t, email) {
      return [email];
    }
    return [];
  }

  method ResolveTargets(t: Tables, targets: seq<Address>, depth: nat) returns (resolved: seq<Address>)
    requires depth <= MAX_DEPTH
    ensures resolved == ResolveAll(t, targets, depth + 1)
    decreases Budget(depth), 0
  {
    resolved := [];
    for i := 0 to |targets|
      invariant resolved == ResolveAll(t, targets[..i], depth + 1)
    {
      var r := ResolveRecipient(t, targets[i], depth + 1);
      resolved := resolved + r;
      assert targets[..i + 1][..i] == targets[..i];
    }
    assert targets[..|targets|] == targets;
  }

  // ----- reachability, defined without depth or recursion -----

  /** A chain of rewriting steps. */
  ghost predicate Chain(t: Tables, p: seq<Address>) {
    p != [] && forall i :: 0 <= i < |p| - 1 ==> p[i + 1] in Rule(t, p[i])
  }

  ghost predicate ChainFrom(t: Tables, e: Address, r: Address, p: seq<Address>) {
    Chain(t, p) && p[0] == e && p[|p| - 1] == r
  }

  ghost predicate Reachable(t: Tables, e: Address, r: Address) {
    exists p :: ChainFrom(t, e, r, p)
  }

  /** Where mail should end up: an existing user that no rule rewrites. */
  ghost predicate Terminal(t: Tables, r: Address) { Rule(t, r) == [] && UserExists(t, r) }

  /** `p` ends at a terminal within `n` steps, or has just spent all `n` steps. */
  ghost predicate Yields(t: Tables, e: Address, r: Address, n: nat, p: seq<Address>) {
    ChainFrom(t, e, r, p) && (|p| == n + 1 || (|p| <= n && Terminal(t, r)))
  }

  lemma {:induction false} InResolveAll(t: Tables, targets: seq<Address>, depth: nat, r: Address)
    ensures r in ResolveAll(t, targets, depth) <==> exists x :: x in targets && r in Resolve(t, x, depth)
    decreases |targets|
  {
    if targets != [] {
      var last := |targets| - 1;
      InResolveAll(t, targets[..last], depth, r);
      assert ResolveAll(t, targets, depth) ==
             ResolveAll(t, targets[..last], depth) + Resolve(t, targets[last], depth);
      forall x | x in targets && r in Resolve(t, x, depth)
        ensures r in ResolveAll(t, targets, depth)
      {
        if x != targets[last] {
          assert targets == targets[..last] + [targets[last]];
          assert x in targets[..last];
        }
      }
      if r in Resolve(t, targets[last], depth) {
        assert targets[last] in targets;
      }
    }
  }

  /** Resolution is exact at every depth: what it returns is precisely the terminals within
      the remaining steps, plus whatever stands at the end of a chain that spends them all. */
  lemma {:induction false} ResolveExact(t: Tables, e: Address, depth: nat, r: Address)
    requires depth <= MAX_DEPTH + 1
    ensures r in Resolve(t, e, depth) <==> exists p :: Yields(t, e, r, Budget(depth), p)
    decreases Budget(depth)
  {
    if r in Resolve(t, e, depth) {
      var p := ResolveSound(t, e, depth, r);
    }
    forall p | Yields(t, e, r, Budget(depth), p) ensures r in Resolve(t, e, depth) {
      ResolveComplete(t, e, depth, r, p);
    }
  }

  lemma {:induction false} ResolveSound(t: Tables, e: Address, depth: nat, r: Address) returns (p: seq<Address>)
    requires depth <= MAX_DEPTH + 1 && r in Resolve(t, e, depth)
    ensures Yields(t, e, r, Budget(depth), p)
    decreases Budget(depth)
  {
    if depth > MAX_DEPTH || Rule(t, e) == [] {
      p := [e];
    } else {
      InResolveAll(t, Rule(t, e), depth + 1, r);
      var x :| x in Rule(t, e) && r in Resolve(t, x, depth + 1);
      var q := ResolveSound(t, x, depth + 1, r);
      p := [e] + q;
      LongerChain(t, e, x, r, q);
    }
  }

  lemma LongerChain(t: Tables, e: Address, x: Address, r: Address, q: seq<Address>)
    requires ChainFrom(t, x, r, q) && x in Rule(t, e)
    ensures ChainFrom(t, e, r, [e] + q)
  {
    var p := [e] + q;
    forall i | 0 <= i < |p| - 1 ensures p[i + 1] in Rule(t, p[i]) {
      if i > 0 {
        assert q[(i - 1) + 1] in Rule(t, q[i - 1]);
      }
    }
  }

  lemma {:induction false} ResolveComplete(t: Tables, e: Address, depth: nat, r: Address, p: seq<Address>)
    requires depth <= MAX_DEPTH + 1 && Yields(t, e, r, Budget(depth), p)
    ensures r in Resolve(t, e, depth)
    decreases Budget(depth)
  {
    if depth <= MAX_DEPTH && |p| > 1 {
      assert p[0 + 1] in Rule(t, p[0]);
      var q := p[1..];
      assert Chain(t, q) by {
        forall i | 0 <= i < |q| - 1 ensures q[i + 1] in Rule(t, q[i]) {
          assert p[(i + 1) + 1] in Rule(t, p[i + 1]);
        }
      }
      ResolveComplete(t, p[1], depth + 1, r, q);
      InResolveAll(t, Rule(t, e), depth + 1, r);
    }
  }

  /** No chain of rewriting steps from `e` is longer than the depth limit. */
  ghost predicate Shallow(t: Tables, e: Address) {
    forall p :: Chain(t, p) && p[0] == e ==> |p| - 1 <= MAX_DEPTH
  }

  /** On a graph that is not too deep, resolution is the set of terminals of the closure. */
  lemma ResolveIsClosure(t: Tables, e: Address, r: Address)
    requires Shallow(t, e)
    ensures r in Resolve(t, e, 0) <==> Reachable(t, e, r) && Terminal(t, r)
  {
    ResolveExact(t, e, 0, r);
    if r in Resolve(t, e, 0) {
      var p :| Yields(t, e, r, Budget(0), p);
      assert Chain(t, p) && p[0] == e;
    }
    if Reachable(t, e, r) && Terminal(t, r) {
      var p :| ChainFrom(t, e, r, p);
      assert Yields(t, e, r, Budget(0), p);
    }
  }

  /** Even when the graph has cycles, no terminal within the limit is missed, and nothing
      unreachable is ever returned. */
  lemma NearTerminalsFound(t: Tables, e: Address, r: Address, p: seq<Address>)
    requires ChainFrom(t, e, r, p) && |p| - 1 <= MAX_DEPTH && Terminal(t, r)
    ensures r in Resolve(t, e, 0)
  {
    assert Yields(t, e, r, Budget(0), p);
    ResolveExact(t, e, 0, r);
  }

  /** The result holds a non-user exactly when some chain of eleven steps ends at one: the
      depth limit returns the address it stopped at without looking it up. */
  lemma NonUserReturned(t: Tables, e: Address, r: Address)
    requires !UserExists(t, r)
    ensures r in Resolve(t, e, 0) <==> exists p :: ChainFrom(t, e, r, p) && |p| - 1 == MAX_DEPTH + 1
  {
    ResolveExact(t, e, 0, r);
    if r in Resolve(t, e, 0) {
      var p :| Yields(t, e, r, Budget(0), p);
      assert ChainFrom(t, e, r, p) && |p| - 1 == MAX_DEPTH + 1;
    }
    if exists p :: ChainFrom(t, e, r, p) && |p| - 1 == MAX_DEPTH + 1 {
      var p :| ChainFrom(t, e, r, p) && |p| - 1 == MAX_DEPTH + 1;
      assert Yields(t, e, r, Budget(0), p);
    }
  }

  /** A rule that maps an address to itself alone keeps it, whether or not a user exists.
      (A catch-all that points at a mailbox of its own domain works this way.) */
  lemma {:induction false} SelfRule(t: Tables, e: Address, depth: nat)
    requires Rule(t, e) == [e]
    ensures Resolve(t, e, depth) == [e]
    decreases Budget(depth)
  {
    if depth <= MAX_DEPTH {
      SelfRule(t, e, depth + 1);
      assert [e][..0] == [];
      assert ResolveAll(t, [e][..0], depth + 1) == [];
    }
  }

  /** An address is its own result exactly when it is a user that no rule rewrites, or when a chain of eleven
      steps leads from it back to it. */
  lemma OwnAddress(t: Tables, e: Address)
    ensures e in Resolve(t, e, 0) <==>
            Terminal(t, e) || exists p :: ChainFrom(t, e, e, p) && |p| - 1 == MAX_DEPTH + 1
  {
    ResolveExact(t, e, 0, e);
    if Terminal(t, e) {
      assert Yields(t, e, e, Budget(0), [e]);
    }
    if exists p :: ChainFrom(t, e, e, p) && |p| - 1 == MAX_DEPTH + 1 {
      var p :| ChainFrom(t, e, e, p) && |p| - 1 == MAX_DEPTH + 1;
      assert Yields(t, e, e, Budget(0), p);
    }
  }

  /** A domain's catch-all is consulted before its users: a user of such a domain who has no alias receives
      what is addressed to them only through a chain of eleven steps back to themselves. */
  lemma CatchAllHidesUser(t: Tables, e: Address)
    requires GetAlias(t, e) == []
    requires SplitEmail(e).1 != "" && GetCatchAll(t, SplitEmail(e).1) != []
    ensures e in Resolve(t, e, 0) <==> exists p :: ChainFrom(t, e, e, p) && |p| - 1 == MAX_DEPTH + 1
  {
    OwnAddress(t, e);
  }

  // ----- how much resolution can produce -----

  /** No rule has more than `b` targets. */
  ghost predicate Narrow(t: Tables, b: nat) { forall x :: |Rule(t, x)| <= b }

  function Pow(b: nat, n: nat): nat { if n == 0 then 1 else b * Pow(b, n - 1) }

  lemma {:induction false} ExpansionBound(t: Tables, e: Address, depth: nat, b: nat)
    requires depth <= MAX_DEPTH + 1 && b >= 1
    requires Narrow(t, b)
    ensures |Resolve(t, e, depth)| <= Pow(b, Budget(depth))
    decreases Budget(depth), 0
  {
    PowPositive(b, Budget(depth));
    if depth <= MAX_DEPTH && Rule(t, e) != [] {
      ExpansionBoundAll(t, Rule(t, e), depth + 1, b);
      MulMonotone(|Rule(t, e)|, b, Pow(b, Budget(depth + 1)));
    }
  }

  lemma {:induction false} ExpansionBoundAll(t: Tables, targets: seq<Address>, depth: nat, b: nat)
    requires depth <= MAX_DEPTH + 1 && b >= 1
    requires Narrow(t, b)
    ensures |ResolveAll(t, targets, depth)| <= |targets| * Pow(b, Budget(depth))
    decreases Budget(depth), |targets| + 1
  {
    if targets != [] {
      var last := |targets| - 1;
      ExpansionBoundAll(t, targets[..last], depth, b);
      ExpansionBound(t, targets[last], depth, b);
      MulSuccessor(last, Pow(b, Budget(depth)));
    }
  }

  lemma MulMonotone(a: nat, b: nat, c: nat)
    requires a <= b
    ensures a * c <= b * c
  {
  }

  lemma MulSuccessor(a: nat, c: nat)
    ensures a * c + c == (a + 1) * c
  {
  }

  lemma {:induction false} PowPositive(b: nat, n: nat)
    requires b >= 1
    ensures Pow(b, n) >= 1
  {
    if n > 0 {
      PowPositive(b, n - 1);
    }
  }

  // ----- duplicate removal in first-occurrence order -----

  function Dedup(s: seq<Address>): seq<Address> {
    if s == [] then []
    else
      var r := Dedup(s[..|s| - 1]);
      if s[|s| - 1] in r then r else r + [s[|s| - 1]]
  }

  function FirstIndex(s: seq<Address>, x: Address): (i: nat)
    requires x in s
    ensures i < |s| && s[i] == x && x !in s[..i]
  {
    if s[0] == x then 0 else 1 + FirstIndex(s[1..], x)
  }

  lemma FirstIndexPrefix(s: seq<Address>, m: nat, x: Address)
    requires m <= |s| && x in s[..m]
    ensures x in s && FirstIndex(s, x) == FirstIndex(s[..m], x)
  {
    var i, j := FirstIndex(s, x), FirstIndex(s[..m], x);
  }

  /** Same members, no member twice, and ordered by where each is first seen: these three
      clauses determine the list. */
  lemma {:induction false} DedupMeaning(s: seq<Address>)
    ensures forall x :: x in Dedup(s) <==> x in s
    ensures forall i, j :: 0 <= i < j < |Dedup(s)| ==>
              Dedup(s)[i] in s && Dedup(s)[j] in s
              && FirstIndex(s, Dedup(s)[i]) < FirstIndex(s, Dedup(s)[j])
  {
    if s != [] {
      var m := |s| - 1;
      DedupMeaning(s[..m]);
      assert s == s[..m] + [s[m]];
      var r, d := Dedup(s[..m]), Dedup(s);
      forall i, j | 0 <= i < j < |d|
        ensures d[i] in s && d[j] in s && FirstIndex(s, d[i]) < FirstIndex(s, d[j])
      {
        assert d[i] == r[i] && r[i] in r;
        FirstIndexPrefix(s, m, d[i]);
        if j < |r| {
          assert r[j] in r;
          FirstIndexPrefix(s, m, d[j]);
        } else {
          assert d[j] == s[m] && s[m] !in s[..m];
        }
      }
    }
  }

  /** No address twice, and the same addresses: how callers read `DedupMeaning`. */
  lemma DedupDistinct(s: seq<Address>)
    ensures forall i, j :: 0 <= i < j < |Dedup(s)| ==> Dedup(s)[i] != Dedup(s)[j]
    ensures forall x :: x in Dedup(s) <==> x in s
  {
    DedupMeaning(s);
  }

  method CollectLocalRecipients(t: Tables, to: seq<Address>, cc: seq<Address>, bcc: seq<Address>)
    returns (result: seq<Address>)
    ensures result == LocalRecipients(t, to + cc + bcc)
  {
    result := CollectFrom(t, to + cc + bcc, 0);
  }

  method CollectFrom(t: Tables, allAddrs: seq<Address>, depth: nat) returns (result: seq<Address>)
    ensures result == Dedup(ResolveAll(t, allAddrs, depth))
  {
    var seen := {};
    result := [];
    ghost var flat := [];
    for i := 0 to |allAddrs|
      invariant flat == ResolveAll(t, allAddrs[..i], depth)
      invariant result == Dedup(flat)
      invariant forall x :: x in seen <==> x in result
    {
      var resolved := ResolveRecipient(t, allAddrs[i], depth);
      seen, result := AppendUnseen(seen, result, resolved, flat);
      flat := flat + resolved;
      assert allAddrs[..i + 1][..i] == allAddrs[..i];
    }
    assert allAddrs[..|allAddrs|] == allAddrs;
  }

  /** The inner loop: `flat` is everything offered so far. */
  method AppendUnseen(seen: set<Address>, result: seq<Address>, resolved: seq<Address>, ghost flat: seq<Address>)
    returns (seen': set<Address>, result': seq<Address>)
    requires result == Dedup(flat) && forall x :: x in seen <==> x in result
    ensures result' == Dedup(flat + resolved) && forall x :: x in seen' <==> x in result'
  {
    seen', result' := seen, result;
    assert flat + resolved[..0] == flat;
    for j := 0 to |resolved|
      invariant result' == Dedup(flat + resolved[..j])
      invariant forall x :: x in seen' <==> x in result'
    {
      var r := resolved[j];
      assert (flat + resolved[..j + 1])[..|flat| + j] == flat + resolved[..j];
      if r !in seen' {
        seen' := seen' + {r};
        result' := result' + [r];
      }
    }
    assert resolved[..|resolved|] == resolved;
  }

  /** The duplicate-free union of the resolutions of a recipient list. */
  function LocalRecipients(t: Tables, addrs: seq<Address>): seq<Address> {
    Dedup(ResolveAll(t, addrs, 0))
  }

  /** Each address some recipient resolves to is listed exactly once, and nothing else is. */
  lemma LocalRecipientsMeaning(t: Tables, addrs: seq<Address>, r: Address)
    ensures multiset(LocalRecipients(t, addrs))[r] ==
            if exists a :: a in addrs && r in Resolve(t, a, 0) then 1 else 0
  {
    var d := LocalRecipients(t, addrs);
    DedupDistinct(ResolveAll(t, addrs, 0));
    InResolveAll(t, addrs, 0, r);
    CountDistinct(d, r);
  }

  lemma {:induction false} CountDistinct(d: seq<Address>, r: Address)
    requires forall i, j :: 0 <= i < j < |d| ==> d[i] != d[j]
    ensures multiset(d)[r] == if r in d then 1 else 0
  {
    if d != [] {
      var last := |d| - 1;
      CountDistinct(d[..last], r);
      assert d == d[..last] + [d[last]];
    }
  }
}

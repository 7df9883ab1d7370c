/** Authorization codes and access tokens (internal/oauth/oauth.go:166-255, 276-293;
    internal/model/oauth.go; RFC 6749).  Requests are atomic; every database call may fail. */
module OAuth {
  import opened Basics
  import opened Strings

  const CODE_LIFETIME: nat := 600
  const TOKEN_LIFETIME: nat := 3600

  /** A row of `oauth_code`. */
  datatype Code = Code(client: string, user: string, redirect: string, scope: string, nonce: string, expiresAt: int,
                       used: bool)

  /** A row of `oauth_token`. */
  datatype Token = Token(client: string, user: string, scope: string, expiresAt: int)

  datatype TokenRequest = TokenRequest(grantType: string, code: string, redirect: string, client: string,
                                       secret: string)

  datatype Refusal = UnsupportedGrant | InvalidClient | InvalidGrant | ServerError

  datatype TokenReply = Issued(token: string, scope: string) | Error(why: Refusal)

  /** Which of a token request's calls succeed: reading the client, reading the code, marking it
      used, drawing a random value, writing the token. */
  datatype Luck = Luck(clientRead: bool, codeRead: bool, marked: bool, drawn: bool, written: bool)

  // ----- what the proofs remember -----

  /** A token handed out: for which code, to which client, with which redirect URI, when. */
  datatype Mint = Mint(token: string, code: string, client: string, redirect: string, at: int)

  /** The tables, the codes as issued, the tokens handed out in order, the codes whose mark-used
      write failed (once per failure), those for which it worked, and every random value drawn. */
  datatype Books = Books(codes: map<string, Code>, tokens: map<string, Token>, grants: map<string, Code>,
                         mints: seq<Mint>, misses: seq<string>, marks: set<string>, values: set<string>)

  function Minted(mints: seq<Mint>, code: string): nat {
    if mints == [] then 0
    else Minted(mints[..|mints| - 1], code) + if mints[|mints| - 1].code == code then 1 else 0
  }

  function Missed(misses: seq<string>, code: string): nat {
    if misses == [] then 0
    else Missed(misses[..|misses| - 1], code) + if misses[|misses| - 1] == code then 1 else 0
  }

  /** The token was rightly issued: its code was issued to the client that presented it, had not
      expired, and came with no other redirect URI. */
  ghost predicate Rightful(m: Mint, grants: map<string, Code>) {
    m.code in grants && m.client == grants[m.code].client && m.at <= grants[m.code].expiresAt
    && (m.redirect == "" || m.redirect == grants[m.code].redirect)
  }

  /** The row of a token is the one its code calls for. */
  ghost predicate Backed(t: Token, m: Mint, grants: map<string, Code>)
    requires m.code in grants
  {
    t == Token(grants[m.code].client, grants[m.code].user, grants[m.code].scope, m.at + TOKEN_LIFETIME)
  }

  /** Tokens a code may have yielded: one, once it is used up, and one for each failure to mark
      it. */
  function Allowance(b: Books, code: string): nat {
    Missed(b.misses, code) + if code in b.codes && !b.codes[code].used then 0 else 1
  }

  ghost predicate Provenance(b: Books) {
    && (forall c :: c in b.codes ==> c in b.grants && b.codes[c] == b.grants[c].(used := c in b.marks))
    && (forall c :: c in b.grants ==> !b.grants[c].used) && b.marks <= b.grants.Keys
    && (forall c :: c in b.grants ==> c in b.values)
    && (forall i :: 0 <= i < |b.mints| ==> Rightful(b.mints[i], b.grants) && b.mints[i].token in b.values)
    && (forall i, j :: 0 <= i < j < |b.mints| ==> b.mints[i].token != b.mints[j].token)
    && (forall t :: t in b.tokens ==> HasMint(b, t))
  }

  ghost predicate HasMint(b: Books, t: string)
    requires t in b.tokens
  {
    exists i :: 0 <= i < |b.mints| && b.mints[i].token == t
      && b.mints[i].code in b.grants && Backed(b.tokens[t], b.mints[i], b.grants)
  }

  ghost predicate Sound(b: Books) {
    Provenance(b) && forall c :: c in b.grants ==> Minted(b.mints, c) <= Allowance(b, c)
  }

  // ----- steps on the books -----

  ghost function WithCode(b: Books, code: string, row: Code): Books {
    b.(codes := b.codes[code := row], grants := b.grants[code := row], values := b.values + {code})
  }

  lemma {:induction false} NeverMinted(b: Books, n: nat, code: string)
    requires n <= |b.mints| && Provenance(b) && code !in b.values
    ensures Minted(b.mints[..n], code) == 0
  {
    if n > 0 {
      assert b.mints[..n][..n - 1] == b.mints[..n - 1];
      assert Rightful(b.mints[n - 1], b.grants);
      NeverMinted(b, n - 1, code);
    }
  }

  lemma CodeIssued(b: Books, code: string, row: Code)
    requires Sound(b) && code !in b.values && !row.used
    ensures Sound(WithCode(b, code, row))
  {
    NeverMinted(b, |b.mints|, code);
    assert b.mints[..|b.mints|] == b.mints;
    CodeProvenance(b, code, row);
  }

  lemma CodeProvenance(b: Books, code: string, row: Code)
    requires Provenance(b) && code !in b.values && !row.used
    ensures Provenance(WithCode(b, code, row))
  {
    var b' := WithCode(b, code, row);
    forall i | 0 <= i < |b.mints| ensures Rightful(b'.mints[i], b'.grants) {
      assert Rightful(b.mints[i], b.grants);
    }
    forall t | t in b'.tokens ensures HasMint(b', t) {
      assert HasMint(b, t);
      var i :| 0 <= i < |b.mints| && b.mints[i].token == t && b.mints[i].code in b.grants
               && Backed(b.tokens[t], b.mints[i], b.grants);
      assert Backed(b'.tokens[t], b'.mints[i], b'.grants);
    }
  }

  /** Marking a code used, or failing to. */
  ghost function WithMark(b: Books, code: string, marked: bool): Books
    requires code in b.codes
  {
    if marked then b.(codes := b.codes[code := b.codes[code].(used := true)], marks := b.marks + {code})
    else b.(misses := b.misses + [code])
  }

  /** After the mark, there is room for exactly one more token of the code. */
  lemma RoomForOne(b: Books, code: string, marked: bool)
    requires Sound(b) && code in b.codes && !b.codes[code].used
    ensures Sound(WithMark(b, code, marked))
    ensures Minted(b.mints, code) + 1 <= Allowance(WithMark(b, code, marked), code)
  {
    var b' := WithMark(b, code, marked);
    assert (b.misses + [code])[..|b.misses|] == b.misses;
    forall t | t in b'.tokens ensures HasMint(b', t) {
      assert HasMint(b, t);
    }
  }

  /** A fresh value is handed out as a token; its row may fail to be written. */
  ghost function WithMint(b: Books, m: Mint, written: bool): Books
    requires m.code in b.grants
  {
    var g := b.grants[m.code];
    var row := Token(g.client, g.user, g.scope, m.at + TOKEN_LIFETIME);
    b.(mints := b.mints + [m], values := b.values + {m.token},
       tokens := if written then b.tokens[m.token := row] else b.tokens)
  }

  lemma TokenMinted(b: Books, m: Mint, written: bool)
    requires Sound(b) && Rightful(m, b.grants) && m.token !in b.values
    requires Minted(b.mints, m.code) + 1 <= Allowance(b, m.code)
    ensures Sound(WithMint(b, m, written))
  {
    var b' := WithMint(b, m, written);
    assert b'.mints[..|b.mints|] == b.mints && b'.mints[|b.mints|] == m;
    MintProvenance(b, m, written);
  }

  lemma MintProvenance(b: Books, m: Mint, written: bool)
    requires Provenance(b) && Rightful(m, b.grants) && m.token !in b.values
    ensures Provenance(WithMint(b, m, written))
  {
    var b' := WithMint(b, m, written);
    forall t | t in b'.tokens ensures HasMint(b', t) {
      if t == m.token && written {
        assert Backed(b'.tokens[t], b'.mints[|b.mints|], b'.grants);
      } else {
        assert HasMint(b, t);
        var i :| 0 <= i < |b.mints| && b.mints[i].token == t && b.mints[i].code in b.grants
                 && Backed(b.tokens[t], b.mints[i], b.grants);
        assert b'.mints[i] == b.mints[i];
      }
    }
  }

  lemma RowsDropped(b: Books, codes: map<string, Code>, tokens: map<string, Token>)
    requires Sound(b)
    requires forall c :: c in codes ==> c in b.codes && codes[c] == b.codes[c]
    requires forall t :: t in tokens ==> t in b.tokens && tokens[t] == b.tokens[t]
    ensures Sound(b.(codes := codes, tokens := tokens))
  {
    var b' := b.(codes := codes, tokens := tokens);
    forall t | t in tokens ensures HasMint(b', t) {
      assert HasMint(b, t);
    }
  }

  // ----- the main results on the books -----

  /** Single use: a code whose mark-used writes never failed yields at most one token. */
  lemma SingleUse(b: Books, i: nat, j: nat)
    requires Sound(b) && i < j < |b.mints| && b.mints[i].code == b.mints[j].code
    ensures b.mints[i].code in b.misses
  {
    var c := b.mints[i].code;
    assert Rightful(b.mints[i], b.grants);
    MintedTwice(b.mints, c, i, j);
    MissedMember(b.misses, c);
  }

  lemma {:induction false} MintedTwice(mints: seq<Mint>, c: string, i: nat, j: nat)
    requires i < j < |mints| && mints[i].code == mints[j].code == c
    ensures Minted(mints, c) >= 2
    decreases |mints|
  {
    var n := |mints| - 1;
    if j < n {
      MintedTwice(mints[..n], c, i, j);
    } else {
      MintedOnce(mints[..n], c, i);
    }
  }

  lemma {:induction false} MintedOnce(mints: seq<Mint>, c: string, i: nat)
    requires i < |mints| && mints[i].code == c
    ensures Minted(mints, c) >= 1
    decreases |mints|
  {
    var n := |mints| - 1;
    if i < n {
      MintedOnce(mints[..n], c, i);
    }
  }

  lemma {:induction false} MissedMember(misses: seq<string>, c: string)
    ensures Missed(misses, c) > 0 <==> c in misses
  {
    if misses != [] {
      MissedMember(misses[..|misses| - 1], c);
      assert misses == misses[..|misses| - 1] + [misses[|misses| - 1]];
    }
  }

  // ----- what each request changes -----

  datatype Request =
    | Consent(client: string, user: string, redirect: string, scope: string, nonce: string, now: int, written: bool)
    | Redeem(q: TokenRequest, now: int, luck: Luck)
    | UserInfo(token: string, now: int, read: bool)
    | CleanUp(now: int)

  datatype World = World(clients: map<string, string>, checkSecret: (string, string) -> bool, random: nat -> string)

  datatype State = State(drawn: nat, books: Books)

  predicate ClientOk(w: World, q: TokenRequest, luck: Luck) {
    luck.clientRead && q.client in w.clients && w.checkSecret(w.clients[q.client], q.secret)
  }

  /** The request names the redirect URI the code was issued with, or none. */
  predicate RedirectOk(q: TokenRequest, g: Code) { q.redirect == "" || g.redirect == q.redirect }

  /** Section 4.1.3 of RFC 6749 wants the two URIs identical.  The check agrees exactly if the request
      names one or the code was issued without one. */
  lemma RedirectOptional(q: TokenRequest, g: Code)
    ensures (RedirectOk(q, g) <==> q.redirect == g.redirect) <==> q.redirect != "" || g.redirect == ""
  {
  }

  /** The request is in order for the code as it was issued, whether or not it was redeemed before; the
      row is still there. */
  ghost predicate InOrder(w: World, b: Books, q: TokenRequest, now: int, luck: Luck) {
    && q.grantType == "authorization_code" && ClientOk(w, q, luck)
    && luck.codeRead && q.code in b.codes && q.code in b.grants && now <= b.grants[q.code].expiresAt
    && b.grants[q.code].client == q.client && RedirectOk(q, b.grants[q.code])
  }

  function Issuable(client: string, user: string, redirect: string, scope: string, nonce: string, now: int): Code {
    Code(client, user, redirect, scope, nonce, now + CODE_LIFETIME, false)
  }

  ghost function AfterConsent(w: World, s: State, row: Code, written: bool): State {
    State(s.drawn + 1, if written then WithCode(s.books, w.random(s.drawn), row) else s.books)
  }

  /** The code is marked, or should be; then the token is minted if a value can be drawn for it. */
  ghost function AfterRedeem(w: World, s: State, q: TokenRequest, now: int, luck: Luck): State {
    if !InOrder(w, s.books, q, now, luck) || q.code in s.books.marks then s
    else
      var b := WithMark(s.books, q.code, luck.marked);
      if luck.drawn then
        State(s.drawn + 1, WithMint(b, Mint(w.random(s.drawn), q.code, q.client, q.redirect, now), luck.written))
      else State(s.drawn, b)
  }

  function LiveCodes(codes: map<string, Code>, now: int): map<string, Code> {
    map c | c in codes && codes[c].expiresAt >= now :: codes[c]
  }

  function LiveTokens(tokens: map<string, Token>, now: int): map<string, Token> {
    map t | t in tokens && tokens[t].expiresAt >= now :: tokens[t]
  }

  ghost function Step(w: World, s: State, r: Request): State {
    match r
    case Consent(client, user, redirect, scope, nonce, now, written) =>
      AfterConsent(w, s, Issuable(client, user, redirect, scope, nonce, now), written)
    case Redeem(q, now, luck) => AfterRedeem(w, s, q, now, luck)
    case UserInfo(_, _, _) => s
    case CleanUp(now) =>
      s.(books := s.books.(codes := LiveCodes(s.books.codes, now), tokens := LiveTokens(s.books.tokens, now)))
  }

  ghost function Replay(w: World, s: State, rs: seq<Request>): State {
    if rs == [] then s else Step(w, Replay(w, s, rs[..|rs| - 1]), rs[|rs| - 1])
  }

  lemma ReplayNext(w: World, s: State, rs: seq<Request>, r: Request)
    ensures Replay(w, s, rs + [r]) == Step(w, Replay(w, s, rs), r)
  {
    assert (rs + [r])[..|rs|] == rs;
  }

  // ----- a step keeps the books sound -----

  ghost predicate Sane(w: World, s: State) {
    Sound(s.books) && NoRepeats(w.random) && Unspent(w.random, s.drawn, s.books.values)
  }

  lemma RedeemSound(w: World, s: State, q: TokenRequest, now: int, luck: Luck)
    requires Sane(w, s)
    ensures Sane(w, AfterRedeem(w, s, q, now, luck))
  {
    if InOrder(w, s.books, q, now, luck) && q.code !in s.books.marks {
      var b := WithMark(s.books, q.code, luck.marked);
      RoomForOne(s.books, q.code, luck.marked);
      if luck.drawn {
        TokenMinted(b, Mint(w.random(s.drawn), q.code, q.client, q.redirect, now), luck.written);
      }
    }
  }

  lemma StepSound(w: World, s: State, r: Request)
    requires Sane(w, s)
    ensures Sane(w, Step(w, s, r))
  {
    match r
    case Consent(client, user, redirect, scope, nonce, now, written) =>
      if written {
        CodeIssued(s.books, w.random(s.drawn), Issuable(client, user, redirect, scope, nonce, now));
      }
    case Redeem(q, now, luck) => RedeemSound(w, s, q, now, luck);
    case UserInfo(_, _, _) =>
    case CleanUp(now) => RowsDropped(s.books, LiveCodes(s.books.codes, now), LiveTokens(s.books.tokens, now));
  }

  lemma {:induction false} ReplaySound(w: World, s: State, rs: seq<Request>)
    requires Sane(w, s)
    ensures Sane(w, Replay(w, s, rs))
    decreases |rs|
  {
    if rs != [] {
      ReplaySound(w, s, rs[..|rs| - 1]);
      StepSound(w, Replay(w, s, rs[..|rs| - 1]), rs[|rs| - 1]);
    }
  }

  // ----- what the books owe to the requests -----

  ghost predicate Fresh(w: World, s: State) {
    NoRepeats(w.random) && s.books == Books(map[], map[], map[], [], [], {}, {})
  }

  lemma FreshSane(w: World, s: State)
    requires Fresh(w, s)
    ensures Sane(w, s)
  {
  }

  /** Request number `k` is a consent for which the code was issued. */
  ghost predicate ConsentBy(w: World, s: State, rs: seq<Request>, k: nat, code: string, g: Code) {
    k < |rs| && rs[k].Consent? && rs[k].written && code == w.random(Replay(w, s, rs[..k]).drawn)
    && g == Issuable(rs[k].client, rs[k].user, rs[k].redirect, rs[k].scope, rs[k].nonce, rs[k].now)
  }

  /** Request number `k` presents a code, in order and not marked used before. */
  ghost predicate PresentedBy(w: World, s: State, rs: seq<Request>, k: nat, code: string) {
    k < |rs| && rs[k].Redeem? && rs[k].q.code == code
    && var b := Replay(w, s, rs[..k]).books; InOrder(w, b, rs[k].q, rs[k].now, rs[k].luck) && code !in b.marks
  }

  /** Request number `k` is the redemption for which the token was minted. */
  ghost predicate RedeemBy(w: World, s: State, rs: seq<Request>, k: nat, m: Mint) {
    PresentedBy(w, s, rs, k, m.code) && rs[k].luck.drawn
    && m == Mint(w.random(Replay(w, s, rs[..k]).drawn), m.code, rs[k].q.client, rs[k].q.redirect, rs[k].now)
  }

  /** Request number `k` could not mark its code used. */
  ghost predicate MissedBy(w: World, s: State, rs: seq<Request>, k: nat, code: string) {
    PresentedBy(w, s, rs, k, code) && !rs[k].luck.marked
  }

  lemma PrefixOwes(w: World, s: State, rs: seq<Request>, n: nat, k: nat)
    requires k < n <= |rs|
    ensures forall c, g :: ConsentBy(w, s, rs[..n], k, c, g) ==> ConsentBy(w, s, rs, k, c, g)
    ensures forall m :: RedeemBy(w, s, rs[..n], k, m) ==> RedeemBy(w, s, rs, k, m)
    ensures forall c :: MissedBy(w, s, rs[..n], k, c) ==> MissedBy(w, s, rs, k, c)
  {
    assert rs[..n][..k] == rs[..k];
  }

  /** What the last step adds. */
  lemma GrantAdded(w: World, s: State, rs: seq<Request>, c: string)
    requires rs != [] && c in Replay(w, s, rs).books.grants
    ensures var n, g := |rs| - 1, Replay(w, s, rs).books.grants[c];
            var b := Replay(w, s, rs[..n]).books;
            (c in b.grants && g == b.grants[c]) || ConsentBy(w, s, rs, n, c, g)
  {
  }

  lemma MintAdded(w: World, s: State, rs: seq<Request>)
    requires rs != []
    ensures var n, mints := |rs| - 1, Replay(w, s, rs).books.mints;
            var before := Replay(w, s, rs[..n]).books.mints;
            mints == before
            || (|mints| == |before| + 1 && before < mints && RedeemBy(w, s, rs, n, mints[|before|]))
  {
  }

  lemma MissAdded(w: World, s: State, rs: seq<Request>)
    requires rs != []
    ensures var n, misses := |rs| - 1, Replay(w, s, rs).books.misses;
            var before := Replay(w, s, rs[..n]).books.misses;
            misses == before
            || (|misses| == |before| + 1 && before < misses && MissedBy(w, s, rs, n, misses[|before|]))
  {
  }

  lemma {:induction false} GrantOwed(w: World, s: State, rs: seq<Request>, c: string)
    requires Fresh(w, s) && c in Replay(w, s, rs).books.grants
    ensures exists k: nat :: ConsentBy(w, s, rs, k, c, Replay(w, s, rs).books.grants[c])
    decreases |rs|
  {
    var n := |rs| - 1;
    var b, g := Replay(w, s, rs[..n]).books, Replay(w, s, rs).books.grants[c];
    GrantAdded(w, s, rs, c);
    if !ConsentBy(w, s, rs, n, c, g) {
      GrantOwed(w, s, rs[..n], c);
      var k: nat :| ConsentBy(w, s, rs[..n], k, c, g);
      PrefixOwes(w, s, rs, n, k);
    }
  }

  lemma {:induction false} MintOwed(w: World, s: State, rs: seq<Request>, i: nat)
    requires Fresh(w, s) && i < |Replay(w, s, rs).books.mints|
    ensures exists k: nat :: RedeemBy(w, s, rs, k, Replay(w, s, rs).books.mints[i])
    decreases |rs|
  {
    var n := |rs| - 1;
    var b, m := Replay(w, s, rs[..n]).books, Replay(w, s, rs).books.mints[i];
    MintAdded(w, s, rs);
    if i < |b.mints| {
      MintOwed(w, s, rs[..n], i);
      var k: nat :| RedeemBy(w, s, rs[..n], k, m);
      PrefixOwes(w, s, rs, n, k);
    }
  }

  lemma {:induction false} MissOwed(w: World, s: State, rs: seq<Request>, i: nat)
    requires Fresh(w, s) && i < |Replay(w, s, rs).books.misses|
    ensures exists k: nat :: MissedBy(w, s, rs, k, Replay(w, s, rs).books.misses[i])
    decreases |rs|
  {
    var n := |rs| - 1;
    var b, c := Replay(w, s, rs[..n]).books, Replay(w, s, rs).books.misses[i];
    MissAdded(w, s, rs);
    if i < |b.misses| {
      MissOwed(w, s, rs[..n], i);
      var k: nat :| MissedBy(w, s, rs[..n], k, c);
      PrefixOwes(w, s, rs, n, k);
    }
  }

  // ----- the main results over runs -----

  /** The token is the one drawn for request `k`, which presented its code in order and not yet marked used;
      it goes to the client of that request, whose secret was right, for the user and the scope that request
      `c` consented to for that client at most ten minutes before; it lasts an hour. */
  ghost predicate Granted(w: World, s: State, rs: seq<Request>, t: string, row: Token, c: nat, k: nat) {
    c < k < |rs| && rs[c].Consent? && rs[k].Redeem? && rs[k].luck.clientRead && rs[k].q.client in w.clients
    && w.checkSecret(w.clients[rs[k].q.client], rs[k].q.secret)
    && PresentedBy(w, s, rs, k, rs[k].q.code) && t == w.random(Replay(w, s, rs[..k]).drawn)
    && rs[c].client == rs[k].q.client && (rs[k].q.redirect == "" || rs[k].q.redirect == rs[c].redirect)
    && rs[k].now <= rs[c].now + 600
    && rs[k].q.code == w.random(Replay(w, s, rs[..c]).drawn)
    && row == Token(rs[c].client, rs[c].user, rs[c].scope, rs[k].now + 3600)
  }

  lemma MintGranted(w: World, s: State, rs: seq<Request>, k: nat, m: Mint, g: Code) returns (c: nat)
    requires Fresh(w, s) && RedeemBy(w, s, rs, k, m)
    requires m.code in Replay(w, s, rs[..k]).books.grants && g == Replay(w, s, rs[..k]).books.grants[m.code]
    ensures Granted(w, s, rs, m.token, Token(g.client, g.user, g.scope, m.at + TOKEN_LIFETIME), c, k)
  {
    GrantOwed(w, s, rs[..k], m.code);
    c :| ConsentBy(w, s, rs[..k], c, m.code, g);
    PrefixOwes(w, s, rs, k, c);
  }

  /** Grants never change. */
  lemma {:induction false} GrantStays(w: World, s: State, rs: seq<Request>, k: nat, c: string)
    requires Fresh(w, s) && k <= |rs| && c in Replay(w, s, rs[..k]).books.grants
    ensures c in Replay(w, s, rs).books.grants
    ensures Replay(w, s, rs).books.grants[c] == Replay(w, s, rs[..k]).books.grants[c]
    decreases |rs|
  {
    var n := |rs| - 1;
    if k == |rs| {
      assert rs[..k] == rs;
    } else {
      assert rs[..n][..k] == rs[..k];
      GrantStays(w, s, rs[..n], k, c);
      FreshSane(w, s);
      ReplaySound(w, s, rs[..n]);
      GrantKept(w, Replay(w, s, rs[..n]), rs[n], c);
    }
  }

  lemma GrantKept(w: World, s: State, r: Request, c: string)
    requires Sane(w, s) && c in s.books.grants
    ensures c in Step(w, s, r).books.grants && Step(w, s, r).books.grants[c] == s.books.grants[c]
  {
    assert c in s.books.values && c != w.random(s.drawn);
  }

  /** Over any run from empty tables every token was granted, each by a redemption of its own: the value drawn
      tells which. */
  lemma TokenGranted(w: World, s: State, rs: seq<Request>, t: string) returns (c: nat, k: nat)
    requires Fresh(w, s) && t in Replay(w, s, rs).books.tokens
    ensures Granted(w, s, rs, t, Replay(w, s, rs).books.tokens[t], c, k)
  {
    var b := Replay(w, s, rs).books;
    FreshSane(w, s);
    ReplaySound(w, s, rs);
    assert HasMint(b, t);
    var i :| 0 <= i < |b.mints| && b.mints[i].token == t && b.mints[i].code in b.grants
             && Backed(b.tokens[t], b.mints[i], b.grants);
    var m := b.mints[i];
    MintOwed(w, s, rs, i);
    k :| RedeemBy(w, s, rs, k, m);
    GrantStays(w, s, rs, k, m.code);
    c := MintGranted(w, s, rs, k, m, b.grants[m.code]);
  }

  /** Two tokens for one code take a redemption of it that could not mark it used. */
  lemma SecondNeedsMiss(w: World, s: State, rs: seq<Request>, i: nat, j: nat) returns (k: nat)
    requires Fresh(w, s) && i < j < |Replay(w, s, rs).books.mints|
    requires Replay(w, s, rs).books.mints[i].code == Replay(w, s, rs).books.mints[j].code
    ensures MissedBy(w, s, rs, k, Replay(w, s, rs).books.mints[i].code)
  {
    var b := Replay(w, s, rs).books;
    FreshSane(w, s);
    ReplaySound(w, s, rs);
    SingleUse(b, i, j);
    var n :| 0 <= n < |b.misses| && b.misses[n] == b.mints[i].code;
    MissOwed(w, s, rs, n);
    k :| MissedBy(w, s, rs, k, b.misses[n]);
  }

  // ----- the same request again and again -----

  /** One time a request is made, and which of its calls succeed. */
  datatype Try = Try(now: int, luck: Luck)

  /** One of the first `k` tries was in order and marked its code used. */
  ghost predicate Spent(ready: seq<bool>, tries: seq<Try>, k: nat)
    requires k <= |tries| == |ready|
  {
    exists i :: 0 <= i < k && ready[i] && tries[i].luck.marked
  }

  lemma SpentNext(ready: seq<bool>, tries: seq<Try>, k: nat)
    requires k < |tries| == |ready|
    ensures Spent(ready, tries, k + 1) <==> Spent(ready, tries, k) || (ready[k] && tries[k].luck.marked)
  {
  }

  /** A try is honoured exactly if it is in order, a value can be drawn, and the code is not yet
      marked used: neither before (`clear`) nor by one of the earlier tries. */
  ghost predicate Exact(honoured: seq<bool>, ready: seq<bool>, tries: seq<Try>, clear: bool) {
    |honoured| <= |ready| == |tries|
    && forall k :: 0 <= k < |honoured| ==>
         (honoured[k] <==> ready[k] && tries[k].luck.drawn && clear && !Spent(ready, tries, k))
  }

  lemma ExactNext(honoured: seq<bool>, ready: seq<bool>, tries: seq<Try>, clear: bool, next: bool)
    requires Exact(honoured, ready, tries, clear) && |honoured| < |tries|
    requires next <==> ready[|honoured|] && tries[|honoured|].luck.drawn && clear && !Spent(ready, tries, |honoured|)
    ensures Exact(honoured + [next], ready, tries, clear)
  {
    var longer := honoured + [next];
    forall k | 0 <= k < |longer|
      ensures longer[k] <==> ready[k] && tries[k].luck.drawn && clear && !Spent(ready, tries, k)
    {
      assert k < |honoured| ==> longer[k] == honoured[k];
    }
  }

  // ----- the server -----

  class Server {
    const clients: map<string, string>                   // client id to secret hash
    const checkSecret: (string, string) -> bool
    const random: nat -> string
    var drawn: nat
    var codes: map<string, Code>
    var tokens: map<string, Token>
    ghost var grants: map<string, Code>
    ghost var mints: seq<Mint>
    ghost var misses: seq<string>
    ghost var marks: set<string>
    ghost var values: set<string>

    ghost function View(): Books
      reads this
    {
      Books(codes, tokens, grants, mints, misses, marks, values)
    }

    function Given(): World { World(clients, checkSecret, random) }

    ghost function Whole(): State
      reads this
    {
      State(drawn, View())
    }

    ghost predicate Valid()
      reads this
    {
      Sane(Given(), Whole())
    }

    constructor (clients: map<string, string>, checkSecret: (string, string) -> bool, random: nat -> string)
      requires NoRepeats(random)
      ensures Valid() && Fresh(Given(), Whole())
      ensures this.clients == clients && this.checkSecret == checkSecret && this.random == random
    {
      this.clients, this.checkSecret, this.random := clients, checkSecret, random;
      drawn, codes, tokens, grants, mints, misses, marks, values := 0, map[], map[], map[], [], [], {}, {};
    }

    method Draw() returns (value: string)
      modifies this`drawn
      ensures value == random(old(drawn)) && drawn == old(drawn) + 1
    {
      value := random(drawn);
      drawn := drawn + 1;
    }

    /** IssueCode, after the user consented.  `written` says whether the row could be stored. */
    method IssueCode(client: string, user: string, redirect: string, scope: string, nonce: string, now: int,
                     written: bool)
      returns (r: Option<string>)
      requires Valid()
      modifies this
      ensures var row := Issuable(client, user, redirect, scope, nonce, now);
              Valid() && Whole() == AfterConsent(Given(), old(Whole()), row, written)
      ensures r == if written then Some(random(old(drawn))) else None
      ensures r.Some? ==> r.value !in old(grants) && r.value in codes
                          && codes[r.value] == Code(client, user, redirect, scope, nonce, now + 600, false)
    {
      var row := Issuable(client, user, redirect, scope, nonce, now);
      if written {
        CodeIssued(View(), random(drawn), row);
      }
      var code := Draw();
      if !written {
        return None;
      }
      StoreCode(code, row);
      return Some(code);
    }

    method StoreCode(code: string, row: Code)
      modifies this`codes, this`grants, this`values
      ensures View() == WithCode(old(View()), code, row)
    {
      codes, grants, values := codes[code := row], grants[code := row], values + {code};
    }

    predicate GrantOk(q: TokenRequest, now: int, luck: Luck)
      reads this
    {
      && luck.codeRead && q.code in codes && !codes[q.code].used && now <= codes[q.code].expiresAt
      && codes[q.code].client == q.client && RedirectOk(q, codes[q.code])
    }

    /** HandleToken: exactly when a token is issued - among other things, no earlier mark-used write
        for the code worked - and what then changes.  A failure to mark the
        code used goes unnoticed; so does a failure to store the token; and when no random value
        can be drawn the code is gone without a token. */
    method HandleToken(q: TokenRequest, now: int, luck: Luck) returns (reply: TokenReply)
      requires Valid()
      modifies this
      ensures Valid() && Whole() == AfterRedeem(Given(), old(Whole()), q, now, luck)
      ensures reply.Issued? <==> InOrder(Given(), old(View()), q, now, luck) && q.code !in old(marks) && luck.drawn
      ensures marks == old(marks) + if InOrder(Given(), old(View()), q, now, luck) && luck.marked then {q.code} else {}
      ensures reply.Issued? ==> reply == Issued(random(old(drawn)), grants[q.code].scope)
      ensures reply.Issued? <==>
                && q.grantType == "authorization_code"
                && luck.clientRead && q.client in clients && checkSecret(clients[q.client], q.secret)
                && luck.codeRead && q.code in old(codes) && !old(codes)[q.code].used
                && now <= old(codes)[q.code].expiresAt && old(codes)[q.code].client == q.client
                && (q.redirect == "" || q.redirect == old(codes)[q.code].redirect) && luck.drawn
      ensures reply.Issued? ==>
                && (luck.marked ==> q.code in codes && codes[q.code].used)
                && (luck.written ==>
                      && reply.token in tokens && tokens[reply.token].client == q.client
                      && tokens[reply.token].user == old(codes)[q.code].user
                      && tokens[reply.token].scope == reply.scope == old(codes)[q.code].scope
                      && tokens[reply.token].expiresAt == now + 3600)
      ensures q.grantType != "authorization_code" ==> reply == Error(UnsupportedGrant)
      ensures q.grantType == "authorization_code"
              && !(luck.clientRead && q.client in clients && checkSecret(clients[q.client], q.secret)) ==>
                reply == Error(InvalidClient)
    {
      RedeemSound(Given(), Whole(), q, now, luck);
      if q.grantType != "authorization_code" {
        return Error(UnsupportedGrant);
      }
      if !ClientOk(Given(), q, luck) {
        return Error(InvalidClient);
      }
      if !GrantOk(q, now, luck) {
        return Error(InvalidGrant);
      }
      reply := Honour(q, now, luck);
    }

    /** The code is marked used; then the token is made. */
    method Honour(q: TokenRequest, now: int, luck: Luck) returns (reply: TokenReply)
      requires Sound(View()) && InOrder(Given(), View(), q, now, luck) && q.code !in marks
      modifies this
      ensures Whole() == AfterRedeem(Given(), old(Whole()), q, now, luck) && q.code in grants
      ensures reply == if luck.drawn then Issued(random(old(drawn)), grants[q.code].scope) else Error(ServerError)
    {
      MarkUsed(q.code, luck.marked);
      if !luck.drawn {
        return Error(ServerError);
      }
      reply := Grant(q, now, luck.written);
    }

    /** The token for a code just marked. */
    method Grant(q: TokenRequest, now: int, written: bool) returns (reply: TokenReply)
      requires q.code in codes && q.code in grants && codes[q.code].(used := false) == grants[q.code]
      requires codes[q.code].client == q.client
      modifies this
      ensures q.code in grants && reply == Issued(random(old(drawn)), grants[q.code].scope)
      ensures var m := Mint(random(old(drawn)), q.code, q.client, q.redirect, now);
              drawn == old(drawn) + 1 && View() == WithMint(old(View()), m, written)
    {
      var row := codes[q.code];
      var token := Draw();
      ghost var m := Mint(token, q.code, q.client, q.redirect, now);
      assert row.user == grants[q.code].user && row.scope == grants[q.code].scope;
      StoreToken(token, Token(q.client, row.user, row.scope, now + TOKEN_LIFETIME), written, m);
      return Issued(token, row.scope);
    }

    /** The row of a new token, if it can be written. */
    method StoreToken(token: string, row: Token, written: bool, ghost m: Mint)
      requires m.code in grants && m.token == token && Backed(row, m, grants)
      modifies this`tokens, this`mints, this`values
      ensures View() == WithMint(old(View()), m, written)
    {
      mints, values := mints + [m], values + {token};
      if written {
        tokens := tokens[token := row];
      }
    }

    method MarkUsed(code: string, marked: bool)
      requires code in codes
      modifies this`codes, this`misses, this`marks
      ensures View() == WithMark(old(View()), code, marked)
    {
      if marked {
        codes, marks := codes[code := codes[code].(used := true)], marks + {code};
      } else {
        misses := misses + [code];
      }
    }

    /** Which tries are in order, as things stand. */
    ghost function Ready(q: TokenRequest, tries: seq<Try>): (ready: seq<bool>)
      reads this
      ensures |ready| == |tries|
      ensures forall k :: 0 <= k < |tries| ==> ready[k] == InOrder(Given(), View(), q, tries[k].now, tries[k].luck)
    {
      if tries == [] then []
      else
        var last := tries[|tries| - 1];
        Ready(q, tries[..|tries| - 1]) + [InOrder(Given(), View(), q, last.now, last.luck)]
    }

    /** The same request any number of times: it is honoured exactly until the first time its code
        could be marked used. */
    method Redeem(q: TokenRequest, tries: seq<Try>) returns (honoured: seq<bool>)
      requires Valid()
      modifies this
      ensures Valid() && Exact(honoured, old(Ready(q, tries)), tries, q.code !in old(marks)) && |honoured| == |tries|
    {
      honoured := [];
      ghost var ready, clear := Ready(q, tries), q.code !in marks;
      for k := 0 to |tries|
        invariant Valid() && |honoured| == k && Exact(honoured, ready, tries, clear)
        invariant forall j :: k <= j < |tries| ==> ready[j] == InOrder(Given(), View(), q, tries[j].now, tries[j].luck)
        invariant q.code !in marks <==> clear && !Spent(ready, tries, k)
      {
        var reply := RedeemOnce(q, tries[k].now, tries[k].luck);
        SpentNext(ready, tries, k);
        ExactNext(honoured, ready, tries, clear, reply);
        honoured := honoured + [reply];
      }
    }

    method RedeemOnce(q: TokenRequest, now: int, luck: Luck) returns (honoured: bool)
      requires Valid()
      modifies this
      ensures Valid() && forall t, l ::
                InOrder(Given(), View(), q, t, l) == InOrder(Given(), old(View()), q, t, l)
      ensures var ready := InOrder(Given(), old(View()), q, now, luck);
              (honoured <==> ready && q.code !in old(marks) && luck.drawn)
              && (q.code in marks <==> q.code in old(marks) || (ready && luck.marked))
    {
      var reply := HandleToken(q, now, luck);
      honoured := reply.Issued?;
    }

    /** HandleUserInfo: the user bound to the code when it was issued. */
    method HandleUserInfo(token: string, now: int, read: bool) returns (r: Option<string>)
      requires Valid()
      ensures r.Some? <==> token != "" && read && token in tokens && now <= tokens[token].expiresAt
      ensures r.Some? ==> r.value == tokens[token].user
      ensures r.Some? ==> exists i :: 0 <= i < |mints| && UserOf(i, token, now, r.value)
    {
      if token == "" || !read || token !in tokens || now > tokens[token].expiresAt {
        return None;
      }
      assert HasMint(View(), token);
      ghost var i :| 0 <= i < |mints| && mints[i].token == token && mints[i].code in grants
                     && Backed(tokens[token], mints[i], grants);
      assert UserOf(i, token, now, tokens[token].user);
      return Some(tokens[token].user);
    }

    ghost predicate UserOf(i: nat, token: string, now: int, user: string)
      requires i < |mints|
      reads this
    {
      mints[i].token == token && now <= mints[i].at + TOKEN_LIFETIME
      && Rightful(mints[i], grants) && grants[mints[i].code].user == user
    }

    /** The clean-up of expired rows. */
    method DeleteExpired(now: int)
      requires Valid()
      modifies this`codes, this`tokens
      ensures Valid() && Whole() == Step(Given(), old(Whole()), CleanUp(now))
      ensures forall c :: c in codes <==> c in old(codes) && old(codes)[c].expiresAt >= now
      ensures forall t :: t in tokens <==> t in old(tokens) && old(tokens)[t].expiresAt >= now
    {
      RowsDropped(View(), LiveCodes(codes, now), LiveTokens(tokens, now));
      codes, tokens := LiveCodes(codes, now), LiveTokens(tokens, now);
    }

    /** Any series of requests, in any order and at any times, is served one by one.  A server that starts
        with empty tables hands out only tokens that were granted, and two for the same code only if it
        could not be marked used in between. */
    method Serve(requests: seq<Request>)
      requires Valid()
      modifies this
      ensures Valid() && Whole() == Replay(Given(), old(Whole()), requests)
      ensures old(Fresh(Given(), Whole())) ==>
                forall t :: t in tokens ==>
                  exists c, k :: Granted(Given(), old(Whole()), requests, t, tokens[t], c, k)
      ensures old(Fresh(Given(), Whole())) ==>
                forall i, j :: 0 <= i < j < |mints| && mints[i].code == mints[j].code ==>
                  exists k :: MissedBy(Given(), old(Whole()), requests, k, mints[i].code)
    {
      for i := 0 to |requests|
        invariant Valid() && Whole() == Replay(Given(), old(Whole()), requests[..i])
      {
        TakeNext(requests, i);
        ReplayNext(Given(), old(Whole()), requests[..i], requests[i]);
        Execute(requests[i]);
      }
      assert requests[..|requests|] == requests;
      if old(Fresh(Given(), Whole())) {
        forall t | t in tokens ensures exists c, k :: Granted(Given(), old(Whole()), requests, t, tokens[t], c, k) {
          var c, k := TokenGranted(Given(), old(Whole()), requests, t);
        }
        forall i, j | 0 <= i < j < |mints| && mints[i].code == mints[j].code
          ensures exists k :: MissedBy(Given(), old(Whole()), requests, k, mints[i].code)
        {
          var k := SecondNeedsMiss(Given(), old(Whole()), requests, i, j);
        }
      }
    }

    method Execute(r: Request)
      requires Valid()
      modifies this
      ensures Valid() && Whole() == Step(Given(), old(Whole()), r)
    {
      match r
      case Consent(client, user, redirect, scope, nonce, now, written) =>
        var code := IssueCode(client, user, redirect, scope, nonce, now, written);
      case Redeem(q, now, luck) =>
        var reply := HandleToken(q, now, luck);
      case UserInfo(token, now, read) =>
        var user := HandleUserInfo(token, now, read);
      case CleanUp(now) =>
        DeleteExpired(now);
    }
  }
}

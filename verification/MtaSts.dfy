/** MTA-STS policies: parsing, caching and matching of mail hosts
    (internal/security/mtasts.go; RFC 8461). */
module MtaSts {
  import opened Basics
  import opened Strings

  datatype Policy = Policy(mode: string, mx: seq<string>, maxAge: int)

  const ENFORCE: string := "enforce"

  // ----- matching a host against a pattern -----

  /** matchMXPattern. */
  predicate MatchMx(pattern: string, host: string) { MatchLower(Lower(pattern), Lower(host)) }

  predicate MatchLower(p: string, h: string) {
    p == h || (HasPrefix(p, "*.") && HasSuffix(h, p[1..]) && '.' !in h[..|h| - |p[1..]|])
  }

  /** The same labels, or a leftmost `*` standing for exactly one label. */
  ghost predicate LabelsMatch(ps: seq<string>, hs: seq<string>) {
    ps == hs || (|ps| >= 2 && ps[0] == "*" && |hs| == |ps| && hs[1..] == ps[1..])
  }

  lemma SplitFirst(a: string, rest: string)
    requires '.' !in a
    ensures Split(a + ['.'] + rest, '.') == [a] + Split(rest, '.')
  {
    var s := a + ['.'] + rest;
    IndexOfMiddle(a, '.', rest);
    assert s[..|a|] == a && s[|a| + 1..] == rest;
  }

  lemma SplitInjective(s: string, t: string)
    requires Split(s, '.') == Split(t, '.')
    ensures s == t
  {
    SplitParts(s, '.');
    SplitParts(t, '.');
  }

  /** A pattern admits a host exactly when their dot-separated labels agree, upper and lower
      case alike, or agree but for a leftmost `*`, which stands for one label (section 4.1 of
      RFC 8461). */
  lemma MatchMxLabels(pattern: string, host: string)
    ensures MatchMx(pattern, host) <==> LabelsMatch(Split(Lower(pattern), '.'), Split(Lower(host), '.'))
  {
    var p, h := Lower(pattern), Lower(host);
    if Split(p, '.') == Split(h, '.') {
      SplitInjective(p, h);
    } else if HasPrefix(p, "*.") {
      assert p == "*" + ['.'] + p[2..];
      WildcardLabels(p[2..], h);
    } else if |Split(p, '.')| >= 2 && Split(p, '.')[0] == "*" {
      StarFirst(p);
      assert false;
    }
  }

  lemma WildcardLabels(rest: string, h: string)
    ensures var p := "*" + ['.'] + rest; MatchLower(p, h) <==> LabelsMatch(Split(p, '.'), Split(h, '.'))
  {
    var p := "*" + ['.'] + rest;
    SplitFirst("*", rest);
    assert p[..2] == "*." && p[1..] == "." + rest && Split(p, '.')[1..] == Split(rest, '.');
    if p == h {
    } else if HasSuffix(h, p[1..]) {
      SuffixLabels(rest, h);
    } else if |Split(h, '.')| == |Split(p, '.')| && Split(h, '.')[1..] == Split(rest, '.') {
      HostOfLabels(h, rest);
      assert false;
    } else if Split(p, '.') == Split(h, '.') {
      SplitInjective(p, h);
    }
  }

  lemma SuffixLabels(rest: string, h: string)
    requires HasSuffix(h, "." + rest)
    ensures '.' !in h[..|h| - |"." + rest|] <==>
            |Split(h, '.')| == 1 + |Split(rest, '.')| && Split(h, '.')[1..] == Split(rest, '.')
  {
    var lead := h[..|h| - |"." + rest|];
    assert h == lead + ['.'] + rest;
    if '.' !in lead {
      SplitFirst(lead, rest);
    } else if |Split(h, '.')| == 1 + |Split(rest, '.')| && Split(h, '.')[1..] == Split(rest, '.') {
      HostOfLabels(h, rest);
    }
  }

  /** A host whose labels after the first are those of `rest` is one label, a dot and `rest`. */
  lemma HostOfLabels(h: string, rest: string)
    requires |Split(h, '.')| >= 2 && Split(h, '.')[1..] == Split(rest, '.')
    ensures HasSuffix(h, "." + rest) && '.' !in h[..|h| - |"." + rest|]
  {
    var i := IndexOf(h, '.');
    assert i < |h|;
    assert Split(h, '.')[1..] == Split(h[i + 1..], '.');
    SplitInjective(h[i + 1..], rest);
    assert |h| - |"." + rest| == i && h[i..] == ['.'] + rest;
  }

  lemma StarFirst(p: string)
    requires |Split(p, '.')| >= 2 && Split(p, '.')[0] == "*"
    ensures HasPrefix(p, "*.")
  {
    var i := IndexOf(p, '.');
    assert i < |p|;
    assert p[..i] == "*" && p[i] == '.';
  }

  /** The one label a `*` stands for may be empty: the code does not ask for a name there. */
  lemma EmptyLabelMatches(suffix: string)
    ensures MatchMx("*." + suffix, "." + suffix)
  {
    var p, h := Lower("*." + suffix), Lower("." + suffix);
    assert p[..2] == "*.";
    assert p[1..] == h && h[0..] == h;
  }

  /** The standard's reading: the one label has to be there. */
  ghost predicate StrictMatch(pattern: string, host: string) {
    var ps, hs := Split(Lower(pattern), '.'), Split(Lower(host), '.');
    ps == hs || (|ps| >= 2 && ps[0] == "*" && |hs| == |ps| && hs[1..] == ps[1..] && hs[0] != "")
  }

  /** The code and the standard part exactly where a host is a wildcard pattern without its star. */
  lemma EmptyLabelOnly(pattern: string, host: string)
    ensures (MatchMx(pattern, host) <==> StrictMatch(pattern, host)) <==>
            !(HasPrefix(Lower(pattern), "*.") && Lower(host) == Lower(pattern)[1..])
  {
    var p, h := Lower(pattern), Lower(host);
    var ps, hs := Split(p, '.'), Split(h, '.');
    MatchMxLabels(pattern, host);
    if |ps| >= 2 && ps[0] == "*" && |hs| == |ps| && hs[1..] == ps[1..] && hs[0] == "" {
      EmptyFirst(p, h);
    }
    if HasPrefix(p, "*.") && h == p[1..] {
      BareDot(p, h);
    }
  }

  lemma EmptyFirst(p: string, h: string)
    requires |Split(p, '.')| >= 2 && Split(p, '.')[0] == "*"
    requires |Split(h, '.')| == |Split(p, '.')| && Split(h, '.')[1..] == Split(p, '.')[1..] && Split(h, '.')[0] == ""
    ensures HasPrefix(p, "*.") && h == p[1..]
  {
    StarFirst(p);
    assert p == "*" + ['.'] + p[2..];
    SplitFirst("*", p[2..]);
    HostOfLabels(h, p[2..]);
    DotFirst(h, p[2..]);
  }

  /** A pattern without its star has the pattern's labels, but for an empty first one. */
  lemma BareDot(p: string, h: string)
    requires HasPrefix(p, "*.") && h == p[1..]
    ensures Split(h, '.') == [""] + Split(p[2..], '.') && Split(p, '.') == ["*"] + Split(p[2..], '.')
  {
    assert p == "*" + ['.'] + p[2..] && h == "" + ['.'] + p[2..];
    SplitFirst("*", p[2..]);
    SplitFirst("", p[2..]);
  }

  lemma DotFirst(h: string, rest: string)
    requires HasSuffix(h, "." + rest) && '.' !in h[..|h| - |"." + rest|] && Split(h, '.')[0] == ""
    ensures h == "." + rest
  {
    var lead := h[..|h| - |"." + rest|];
    assert h == lead + ['.'] + rest;
    SplitFirst(lead, rest);
  }

  /** strings.TrimSuffix(s, "."). */
  function TrimDot(s: string): string {
    if s != "" && s[|s| - 1] == '.' then s[..|s| - 1] else s
  }

  ghost predicate Admits(p: Policy, host: string) {
    exists i :: 0 <= i < |p.mx| && LabelsMatch(Split(Lower(p.mx[i]), '.'), Split(Lower(TrimDot(host)), '.'))
  }

  /** A policy admits the hosts that one of its patterns matches, a final dot of the host apart. */
  lemma AdmitsMeaning(p: Policy, host: string)
    ensures Admits(p, host) <==> exists x :: x in p.mx && MatchMx(x, TrimDot(host))
  {
    forall x ensures MatchMx(x, TrimDot(host)) <==>
                     LabelsMatch(Split(Lower(x), '.'), Split(Lower(TrimDot(host)), '.'))
    {
      MatchMxLabels(x, TrimDot(host));
    }
  }

  /** ValidateMX: without a policy every host is fine. */
  method ValidateMx(policy: Option<Policy>, mxHost: string) returns (ok: bool)
    ensures ok <==> policy.None? || Admits(policy.value, mxHost)
  {
    if policy.None? {
      return true;
    }
    var host := TrimDot(mxHost);
    for i := 0 to |policy.value.mx|
      invariant forall k :: 0 <= k < i ==> !LabelsMatch(Split(Lower(policy.value.mx[k]), '.'), Split(Lower(host), '.'))
    {
      MatchMxLabels(policy.value.mx[i], host);
      if MatchMx(policy.value.mx[i], host) {
        return true;
      }
    }
    return false;
  }

  // ----- the policy file -----

  datatype Field = Field(key: string, value: string)

  /** The fields of the lines that hold a colon, in order, both sides trimmed. */
  function Fields(lines: seq<string>): seq<Field> {
    if lines == [] then []
    else
      var before, line := Fields(lines[..|lines| - 1]), TrimSpace(lines[|lines| - 1]);
      if ':' in line then before + [FieldOf(line)] else before
  }

  function FieldOf(line: string): Field
    requires ':' in line
  {
    var i := IndexOf(line, ':');
    Field(TrimSpace(line[..i]), if i < |line| then TrimSpace(line[i + 1..]) else "")
  }

  function Values(fs: seq<Field>, key: string): seq<string> {
    if fs == [] then []
    else
      var before, f := Values(fs[..|fs| - 1], key), fs[|fs| - 1];
      if f.key == key then before + [f.value] else before
  }

  function Last(values: seq<string>, otherwise: string): string {
    if values == [] then otherwise else values[|values| - 1]
  }

  function LeadingDigits(s: string): string {
    if s != "" && IsDigit(s[0]) then [s[0]] + LeadingDigits(s[1..]) else ""
  }

  /** fmt.Sscanf with %d: what stands there unless the text starts with a number. */
  function ScanInt(s: string, otherwise: int): int {
    var signed := s != "" && (s[0] == '-' || s[0] == '+');
    var digits := LeadingDigits(if signed then s[1..] else s);
    if digits == "" then otherwise
    else if signed && s[0] == '-' then 0 - DigitsValue(digits) else DigitsValue(digits)
  }

  function Ages(values: seq<string>): int {
    if values == [] then 86400 else ScanInt(values[|values| - 1], Ages(values[..|values| - 1]))
  }

  ghost predicate Parseable(fs: seq<Field>) { OneVersion(fs) && Last(Values(fs, "mode"), "") != "" }

  ghost predicate OneVersion(fs: seq<Field>) {
    forall v :: v in Values(fs, "version") ==> v == "STSv1"
  }

  ghost function Parsed(fs: seq<Field>): Policy {
    Policy(Last(Values(fs, "mode"), ""), Values(fs, "mx"), Ages(Values(fs, "max_age")))
  }

  /** parseMTASTSPolicy: refused if any version line names another version or no mode is given;
      a missing version line is not noticed.  Later modes and ages override earlier ones, mail
      hosts accumulate. */
  method ParsePolicy(body: string) returns (r: Option<Policy>)
    ensures var fs := Fields(Split(body, LF));
            r == if Parseable(fs) then Some(Parsed(fs)) else None
  {
    var lines := Split(body, LF);
    var ok, policy := true, Policy("", [], 86400);
    for i := 0 to |lines|
      invariant ok && OneVersion(Fields(lines[..i])) && policy == Parsed(Fields(lines[..i]))
    {
      ok, policy := ApplyLine(policy, lines, i);
      if !ok {
        VersionStays(Fields(lines[..i + 1]), lines, i + 1);
        return None;
      }
    }
    assert lines[..|lines|] == lines;
    r := if policy.mode == "" then None else Some(policy);
  }

  /** One line more. */
  method ApplyLine(policy: Policy, lines: seq<string>, i: nat) returns (ok: bool, p: Policy)
    requires i < |lines| && OneVersion(Fields(lines[..i])) && policy == Parsed(Fields(lines[..i]))
    ensures ok <==> OneVersion(Fields(lines[..i + 1]))
    ensures ok ==> p == Parsed(Fields(lines[..i + 1]))
  {
    TakeNext(lines, i);
    ok, p := true, policy;
    var line := TrimSpace(lines[i]);
    if ':' in line {
      ok, p := Apply(policy, FieldOf(line), Fields(lines[..i]));
    }
  }

  /** One field more. */
  method Apply(policy: Policy, f: Field, ghost fs: seq<Field>) returns (ok: bool, p: Policy)
    requires policy == Parsed(fs) && OneVersion(fs)
    ensures ok <==> OneVersion(fs + [f])
    ensures ok ==> p == Parsed(fs + [f])
  {
    NextValue(fs, f, "version");
    NextValue(fs, f, "mode");
    NextValue(fs, f, "mx");
    NextValue(fs, f, "max_age");
    ok, p := true, policy;
    if f.key == "version" {
      LastRefused(Values(fs, "version"), f.value);
      ok := f.value == "STSv1";
    } else if f.key == "mode" {
      p := p.(mode := f.value);
    } else if f.key == "mx" {
      p := p.(mx := p.mx + [f.value]);
    } else if f.key == "max_age" {
      NextAge(Values(fs, "max_age"), f.value);
      p := p.(maxAge := ScanInt(f.value, p.maxAge));
    }
  }

  lemma LastRefused(vs: seq<string>, v: string)
    requires forall x :: x in vs ==> x == "STSv1"
    ensures (forall x :: x in vs + [v] ==> x == "STSv1") <==> v == "STSv1"
  {
    assert v in vs + [v];
  }

  lemma NextValue(fs: seq<Field>, f: Field, key: string)
    ensures Values(fs + [f], key) == if f.key == key then Values(fs, key) + [f.value] else Values(fs, key)
  {
    assert (fs + [f])[..|fs|] == fs;
  }

  lemma NextAge(values: seq<string>, v: string)
    ensures Ages(values + [v]) == ScanInt(v, Ages(values))
  {
    assert (values + [v])[..|values|] == values;
  }

  lemma {:induction false} VersionStays(fs: seq<Field>, lines: seq<string>, n: nat)
    requires n <= |lines| && fs == Fields(lines[..n]) && !OneVersion(fs)
    ensures !OneVersion(Fields(lines))
    decreases |lines| - n
  {
    if n == |lines| {
      assert lines[..n] == lines;
    } else {
      TakeNext(lines, n);
      var line := TrimSpace(lines[n]);
      if ':' in line {
        NextValue(fs, FieldOf(line), "version");
        var v :| v in Values(fs, "version") && v != "STSv1";
        assert v in Values(fs + [FieldOf(line)], "version");
      }
      VersionStays(Fields(lines[..n + 1]), lines, n + 1);
    }
  }

  /** A version line that names another version refuses the policy, wherever it stands. */
  lemma VersionRefused(lines: seq<string>, k: nat, f: Field)
    requires k < |lines| && TrimSpace(lines[k]) == f.key + ": " + f.value
    requires PlainField(f) && f.key == "version" && f.value != "STSv1"
    ensures !Parseable(Fields(lines))
  {
    FieldLineRead(f);
    TrimmedField(f);
    TakeNext(lines, k);
    WrongVersion(Fields(lines[..k]), f);
    VersionStays(Fields(lines[..k]) + [f], lines, k + 1);
  }

  lemma WrongVersion(fs: seq<Field>, f: Field)
    requires f.key == "version" && f.value != "STSv1"
    ensures !OneVersion(fs + [f])
  {
    NextValue(fs, f, "version");
    assert f.value in Values(fs + [f], "version");
  }

  lemma TrimmedField(f: Field)
    requires PlainField(f)
    ensures TrimSpace(FieldLine(f)) == f.key + ": " + f.value
  {
    TrimReturn(f.key + ": " + f.value);
  }

  /** Without a mode there is no policy. */
  lemma {:induction false} ModeNeeded(fs: seq<Field>)
    requires forall f :: f in fs ==> f.key != "mode"
    ensures Values(fs, "mode") == [] && !Parseable(fs)
  {
    if fs != [] {
      assert fs[|fs| - 1] in fs;
      ModeNeeded(fs[..|fs| - 1]);
    }
  }

  /** What one more line does: a mode replaces the mode before it, a mail host joins those before it, and a readable
      age replaces the age. */
  lemma ModeReplaced(fs: seq<Field>, f: Field)
    requires f.key == "mode"
    ensures Parsed(fs + [f]) == Policy(f.value, Parsed(fs).mx, Parsed(fs).maxAge)
  {
    FieldAdded(fs, f);
  }

  lemma HostJoined(fs: seq<Field>, f: Field)
    requires f.key == "mx"
    ensures Parsed(fs + [f]) == Policy(Parsed(fs).mode, Parsed(fs).mx + [f.value], Parsed(fs).maxAge)
  {
    FieldAdded(fs, f);
  }

  lemma AgeReplaced(fs: seq<Field>, f: Field, n: nat)
    requires f.key == "max_age" && f.value == Decimal(n)
    ensures Parsed(fs + [f]) == Policy(Parsed(fs).mode, Parsed(fs).mx, n) && Parsed([]) == Policy("", [], 86400)
  {
    FieldAdded(fs, f);
    NextAge(Values(fs, "max_age"), f.value);
    ReadableAge(n, Ages(Values(fs, "max_age")));
  }

  lemma ReadableAge(n: nat, otherwise: int)
    ensures ScanInt(Decimal(n), otherwise) == n
  {
    LeadingDigitsAll(Decimal(n));
    DecimalValue(n);
  }

  lemma FieldAdded(fs: seq<Field>, f: Field)
    ensures Values(fs + [f], "mode") == Values(fs, "mode") + if f.key == "mode" then [f.value] else []
    ensures Values(fs + [f], "mx") == Values(fs, "mx") + if f.key == "mx" then [f.value] else []
    ensures Values(fs + [f], "max_age") == Values(fs, "max_age") + if f.key == "max_age" then [f.value] else []
  {
    assert (fs + [f])[..|fs|] == fs;
  }

  // ----- printing a policy and reading it back -----

  function FieldLine(f: Field): string { f.key + ": " + f.value + [CR] }

  function FieldLines(fs: seq<Field>): seq<string> {
    seq(|fs|, i requires 0 <= i < |fs| => FieldLine(fs[i]))
  }

  function MxFields(mx: seq<string>): seq<Field> {
    seq(|mx|, i requires 0 <= i < |mx| => Field("mx", mx[i]))
  }

  function PolicyFields(p: Policy): seq<Field>
    requires p.maxAge >= 0
  {
    [Field("version", "STSv1"), Field("mode", p.mode)] + MxFields(p.mx) + [Field("max_age", Decimal(p.maxAge))]
  }

  /** A policy file: one field a line, each line ending in CRLF (section 3.2 of RFC 8461). */
  function PolicyText(p: Policy): string
    requires p.maxAge >= 0
  {
    Join(FieldLines(PolicyFields(p)) + [""], [LF])
  }

  ghost predicate Plain(s: string) {
    s != "" && LF !in s && !IsSpace(s[0]) && !IsSpace(s[|s| - 1])
  }

  ghost predicate PlainField(f: Field) { Plain(f.key) && ':' !in f.key && Plain(f.value) }

  lemma TrimReturn(s: string)
    requires Plain(s)
    ensures TrimSpace(s + [CR]) == s && TrimSpace(" " + s) == s
  {
    var t := s + [CR];
    assert TrimLeft(t) == t && t[..|t| - 1] == s;
    assert TrimRight(t) == TrimRight(s) == s;
    assert (" " + s)[1..] == s;
    TrimSpaceId(s);
  }

  lemma FieldLineRead(f: Field)
    requires PlainField(f)
    ensures var line := TrimSpace(FieldLine(f));
            ':' in line && FieldOf(line) == f && LF !in FieldLine(f)
  {
    var line := f.key + ": " + f.value;
    assert Plain(line);
    TrimReturn(line);
    assert line == f.key + [':'] + (" " + f.value);
    IndexOfMiddle(f.key, ':', " " + f.value);
    assert line[|f.key|] == ':' && line[..|f.key|] == f.key && line[|f.key| + 1..] == " " + f.value;
    TrimReturn(f.value);
    TrimSpaceId(f.key);
  }

  lemma {:induction false} FieldsRead(fs: seq<Field>)
    requires forall f :: f in fs ==> PlainField(f)
    ensures Fields(FieldLines(fs)) == fs && FreeOf(FieldLines(fs), LF)
  {
    if fs != [] {
      var n := |fs| - 1;
      FieldsRead(fs[..n]);
      assert fs[n] in fs;
      FieldLineRead(fs[n]);
      assert FieldLines(fs)[..n] == FieldLines(fs[..n]);
      NextFieldLine(FieldLines(fs[..n]), fs[..n], fs[n]);
      assert fs == fs[..n] + [fs[n]] && FieldLines(fs) == FieldLines(fs[..n]) + [FieldLine(fs[n])];
    }
  }

  lemma NextFieldLine(lines: seq<string>, fs: seq<Field>, f: Field)
    requires Fields(lines) == fs && FreeOf(lines, LF) && LF !in FieldLine(f)
    requires ':' in TrimSpace(FieldLine(f)) && FieldOf(TrimSpace(FieldLine(f))) == f
    ensures Fields(lines + [FieldLine(f)]) == fs + [f] && FreeOf(lines + [FieldLine(f)], LF)
  {
    assert (lines + [FieldLine(f)])[..|lines|] == lines;
  }

  lemma {:induction false} MxValues(fs: seq<Field>, mx: seq<string>, key: string)
    ensures Values(fs + MxFields(mx), key) == if key == "mx" then Values(fs, key) + mx else Values(fs, key)
    decreases |mx|
  {
    if mx == [] {
      assert fs + MxFields(mx) == fs && Values(fs, key) + mx == Values(fs, key);
    } else {
      var n := |mx| - 1;
      MxValues(fs, mx[..n], key);
      NextValue(fs + MxFields(mx[..n]), Field("mx", mx[n]), key);
      assert fs + MxFields(mx) == fs + MxFields(mx[..n]) + [Field("mx", mx[n])];
      assert mx == mx[..n] + [mx[n]];
    }
  }

  lemma {:induction false} LeadingDigitsAll(s: string)
    requires forall i :: 0 <= i < |s| ==> IsDigit(s[i])
    ensures LeadingDigits(s) == s
  {
    if s != "" {
      LeadingDigitsAll(s[1..]);
    }
  }

  lemma DecimalPlain(n: nat)
    ensures Plain(Decimal(n)) && ScanInt(Decimal(n), 86400) == n
  {
    var s := Decimal(n);
    assert IsDigit(s[0]) && IsDigit(s[|s| - 1]);
    LeadingDigitsAll(s);
    DecimalValue(n);
  }

  /** Reading a printed policy gives the policy back. */
  lemma PolicyRoundTrip(p: Policy)
    requires Plain(p.mode) && p.maxAge >= 0 && forall x :: x in p.mx ==> Plain(x)
    ensures var fs := Fields(Split(PolicyText(p), LF)); Parseable(fs) && Parsed(fs) == p
  {
    var fs := PolicyFields(p);
    PolicyPlain(p);
    FieldsRead(fs);
    LastLineEmpty(FieldLines(fs));
    SplitJoin(FieldLines(fs) + [""], LF);
    PrintedValues(p);
  }

  lemma LastLineEmpty(lines: seq<string>)
    requires FreeOf(lines, LF)
    ensures FreeOf(lines + [""], LF) && Fields(lines + [""]) == Fields(lines)
  {
    assert (lines + [""])[..|lines|] == lines && TrimSpace("") == "";
  }

  lemma PolicyPlain(p: Policy)
    requires Plain(p.mode) && p.maxAge >= 0 && forall x :: x in p.mx ==> Plain(x)
    ensures forall f :: f in PolicyFields(p) ==> PlainField(f)
  {
    DecimalPlain(p.maxAge);
    forall f | f in MxFields(p.mx) ensures PlainField(f) {
      var i :| 0 <= i < |p.mx| && f == Field("mx", p.mx[i]);
      assert p.mx[i] in p.mx;
    }
  }

  lemma PrintedValues(p: Policy)
    requires Plain(p.mode) && p.maxAge >= 0
    ensures Parseable(PolicyFields(p)) && Parsed(PolicyFields(p)) == p
  {
    PrintedValue(p, "version");
    PrintedValue(p, "mode");
    PrintedValue(p, "mx");
    PrintedValue(p, "max_age");
    DecimalPlain(p.maxAge);
  }

  lemma PrintedValue(p: Policy, key: string)
    requires p.maxAge >= 0
    ensures Values(PolicyFields(p), key) ==
            if key == "version" then ["STSv1"]
            else if key == "mode" then [p.mode]
            else if key == "mx" then p.mx
            else if key == "max_age" then [Decimal(p.maxAge)]
            else []
  {
    var v, m := Field("version", "STSv1"), Field("mode", p.mode);
    NextValue([], v, key);
    NextValue([v], m, key);
    assert [] + [v] == [v] && [v] + [m] == [v, m];
    MxValues([v, m], p.mx, key);
    NextValue([v, m] + MxFields(p.mx), Field("max_age", Decimal(p.maxAge)), key);
  }

  // ----- the cache -----

  datatype Entry = Entry(policy: Policy, fetchedAt: int)

  /** What DNS and the policy host answer: a failure, no policy, or the body of one. */
  datatype Answer = Failed | NoPolicy | Body(text: string)

  class Checker {
    var cache: map<string, Entry>
    ghost var served: set<(string, Policy, int)>     // every policy fetched, with domain and time

    ghost predicate Valid()
      reads this
    {
      forall d :: d in cache ==> (d, cache[d].policy, cache[d].fetchedAt) in served
    }

    constructor ()
      ensures Valid() && cache == map[] && served == {}
    {
      cache, served := map[], {};
    }

    /** GetPolicy: while an entry is young the network is not asked; afterwards its answer
        decides, and a failure loses the policy.  A policy handed out was fetched for that domain
        now or less than its max_age ago. */
    method GetPolicy(domain: string, now: int, answer: Answer) returns (r: Option<Policy>, ok: bool)
      requires Valid()
      modifies this
      ensures Valid() && old(served) <= served
      ensures forall d :: d != domain ==>
                (d in cache <==> d in old(cache)) && (d in cache ==> cache[d] == old(cache)[d])
      ensures Young(old(cache), domain, now) ==>
                ok && r == Some(old(cache)[domain].policy) && cache == old(cache) && served == old(served)
      ensures !Young(old(cache), domain, now) ==>
                match answer
                case Failed => r == None && !ok && cache == old(cache)
                case NoPolicy => r == None && ok && cache == old(cache)
                case Body(text) =>
                  var fs := Fields(Split(text, LF));
                  ok == Parseable(fs) && r == (if ok then Some(Parsed(fs)) else None)
                  && cache == if ok then old(cache)[domain := Entry(Parsed(fs), now)] else old(cache)
      ensures domain in old(cache)
              && now - old(cache)[domain].fetchedAt < old(cache)[domain].policy.maxAge ==>
                ok && r == Some(old(cache)[domain].policy)
      ensures r.Some? ==> exists t :: (domain, r.value, t) in served && (t == now || now - t < r.value.maxAge)
      ensures served <= old(served) + (if r.Some? then {(domain, r.value, now)} else {})
    {
      if Young(cache, domain, now) {
        assert (domain, cache[domain].policy, cache[domain].fetchedAt) in served;
        return Some(cache[domain].policy), true;
      }
      match answer
      case Failed => return None, false;
      case NoPolicy => return None, true;
      case Body(text) =>
        r := ParsePolicy(text);
        ok := r.Some?;
        if ok {
          cache := cache[domain := Entry(r.value, now)];
          served := served + {(domain, r.value, now)};
          assert (domain, r.value, now) in served;
        }
    }
  }

  predicate Young(cache: map<string, Entry>, domain: string, now: int) {
    domain in cache && now - cache[domain].fetchedAt < cache[domain].policy.maxAge
  }
}

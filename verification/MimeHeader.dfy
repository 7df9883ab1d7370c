/** Message and part headers: printing as internal/mimeutil/build.go does, reading as Go's
    net/mail and mime packages do. */
module MimeHeader {
  import opened Basics
  import opened Strings

  datatype Field = Field(name: string, value: string)

  // ----- printing -----

  function PrintField(f: Field): string { f.name + ": " + f.value + CRLF }

  function PrintHeader(fs: seq<Field>): string {
    if fs == [] then "" else PrintField(fs[0]) + PrintHeader(fs[1..])
  }

  lemma {:induction false} PrintHeaderAppend(fs: seq<Field>, f: Field)
    ensures PrintHeader(fs + [f]) == PrintHeader(fs) + PrintField(f)
  {
    if fs == [] {
      assert [f][1..] == [];
      assert [] + [f] == [f];
    } else {
      PrintHeaderAppend(fs[1..], f);
      assert (fs + [f])[1..] == fs[1..] + [f];
      Regroup(PrintField(fs[0]), PrintHeader(fs[1..]), PrintField(f), "");
    }
  }

  // ----- reading -----

  predicate IsBlank(c: char) { c == ' ' || c == '\t' }

  function TrimBlankLeft(s: string): (r: string)
    ensures |r| <= |s|
  {
    if s != "" && IsBlank(s[0]) then TrimBlankLeft(s[1..]) else s
  }

  function TrimBlankRight(s: string): (r: string)
    ensures |r| <= |s|
  {
    if s != "" && IsBlank(s[|s| - 1]) then TrimBlankRight(s[..|s| - 1]) else s
  }

  function TrimBlank(s: string): string { TrimBlankRight(TrimBlankLeft(s)) }

  /** The text up to the line feed, without a carriage return before it. */
  function LineText(s: string): string {
    var i := IndexOf(s, LF);
    if i < |s| && i > 0 && s[i - 1] == CR then s[..i - 1] else s[..i]
  }

  function AfterLine(s: string): (r: string)
    ensures s != "" ==> |r| < |s|
    ensures |r| <= |s|
  {
    var i := IndexOf(s, LF);
    if i == |s| then "" else s[i + 1..]
  }

  /** Lines that start with a blank continue the one before. */
  function Continued(text: string, s: string): (string, string)
    decreases |s|
  {
    if s != "" && IsBlank(s[0]) then Continued(text + " " + TrimBlank(LineText(s)), AfterLine(s))
    else (text, s)
  }

  lemma {:induction false} ContinuedShorter(text: string, s: string)
    ensures |Continued(text, s).1| <= |s|
    decreases |s|
  {
    if s != "" && IsBlank(s[0]) {
      ContinuedShorter(text + " " + TrimBlank(LineText(s)), AfterLine(s));
    }
  }

  datatype Header = Header(fields: seq<Field>, rest: string)

  /** Fields up to the empty line (or the end of the text); None when a line has no colon. */
  function ReadHeader(s: string): Option<Header>
    decreases |s|
  {
    if s == "" then Some(Header([], ""))
    else if LineText(s) == "" then Some(Header([], AfterLine(s)))
    else
      var (line, rest) := Continued(TrimBlank(LineText(s)), AfterLine(s));
      ContinuedShorter(TrimBlank(LineText(s)), AfterLine(s));
      var i := IndexOf(line, ':');
      if line == "" then Some(Header([], rest))
      else if i == |line| then None
      else
        match ReadHeader(rest)
        case None => None
        case Some(h) =>
          if i == 0 then Some(h)
          else Some(h.(fields := [Field(line[..i], TrimBlankLeft(line[i + 1..]))] + h.fields))
  }

  /** net/mail: a message must not start with a blank. */
  function ReadMessage(s: string): Option<Header> {
    if s != "" && IsBlank(s[0]) then None else ReadHeader(s)
  }

  /** The value of the first field of that name, "" when absent; names ignore case. */
  function Get(fs: seq<Field>, name: string): string {
    if fs == [] then ""
    else if Lower(fs[0].name) == Lower(name) then fs[0].value
    else Get(fs[1..], name)
  }

  // ----- printed headers read back -----

  predicate NameChar(c: char) { 'a' <= c <= 'z' || 'A' <= c <= 'Z' || c == '-' }

  predicate OneLine(s: string) { CR !in s && LF !in s }

  /** A header value without control bytes: the reader of part headers takes no other. */
  predicate Clean(s: string) { forall c :: c in s ==> c == '\t' || (' ' <= c && c as int != 0x7f) }

  predicate AllClean(fs: seq<Field>) { forall f :: f in fs ==> Clean(f.value) }

  predicate GoodField(f: Field) {
    f.name != "" && (forall c :: c in f.name ==> NameChar(c)) && OneLine(f.value)
  }

  function ReadBack(fs: seq<Field>): seq<Field> {
    if fs == [] then [] else [Field(fs[0].name, TrimBlank(fs[0].value))] + ReadBack(fs[1..])
  }

  lemma {:induction false} ReadBackClean(fs: seq<Field>)
    ensures AllClean(ReadBack(fs)) <==> AllClean(fs)
  {
    if fs != [] {
      var rest := ReadBack(fs[1..]);
      TrimmedClean(fs[0].value);
      ReadBackClean(fs[1..]);
      AllCleanNext(fs);
      AllCleanNext(ReadBack(fs));
      assert ReadBack(fs)[1..] == rest;
    }
  }

  lemma AllCleanNext(fs: seq<Field>)
    requires fs != []
    ensures AllClean(fs) <==> Clean(fs[0].value) && AllClean(fs[1..])
  {
    assert fs == [fs[0]] + fs[1..];
  }

  /** Trimming takes blanks away, and blanks are clean. */
  lemma TrimmedClean(s: string)
    ensures Clean(TrimBlank(s)) <==> Clean(s)
  {
    TrimLeftClean(s);
    TrimRightClean(TrimBlankLeft(s));
  }

  lemma {:induction false} TrimLeftClean(s: string)
    ensures Clean(TrimBlankLeft(s)) <==> Clean(s)
  {
    if s != "" && IsBlank(s[0]) {
      TrimLeftClean(s[1..]);
      CleanAppend([s[0]], s[1..]);
      assert s == [s[0]] + s[1..] && Clean([s[0]]);
    }
  }

  lemma {:induction false} TrimRightClean(s: string)
    ensures Clean(TrimBlankRight(s)) <==> Clean(s)
  {
    if s != "" && IsBlank(s[|s| - 1]) {
      TrimRightClean(s[..|s| - 1]);
      CleanAppend(s[..|s| - 1], [s[|s| - 1]]);
      assert s == s[..|s| - 1] + [s[|s| - 1]] && Clean([s[|s| - 1]]);
    }
  }

  lemma CleanAppend(a: string, b: string)
    ensures Clean(a + b) <==> Clean(a) && Clean(b)
  {
    assert forall c :: c in a + b <==> c in a || c in b;
  }

  lemma FirstLine(text: string, rest: string)
    requires OneLine(text)
    ensures LineText(text + CRLF + rest) == text && AfterLine(text + CRLF + rest) == rest
  {
    var s := text + CRLF + rest;
    assert s == (text + [CR]) + [LF] + rest;
    IndexOfMiddle(text + [CR], LF, rest);
    assert s[..|text|] == text && s[|text| + 2..] == rest;
  }

  lemma {:induction false} TrimBlankLeftSkip(v: string)
    ensures TrimBlankLeft(" " + v) == TrimBlankLeft(v)
  {
    assert (" " + v)[1..] == v;
  }

  /** Trimming the right end of "head + v" trims `v` alone when the head ends in a colon. */
  lemma {:induction false} TrimBlankRightColon(head: string, v: string)
    requires head != "" && !IsBlank(head[|head| - 1])
    ensures TrimBlankRight(head + v) == head + TrimBlankRight(v)
  {
    if v != "" && IsBlank(v[|v| - 1]) {
      TrimBlankRightColon(head, v[..|v| - 1]);
      assert (head + v)[..|head + v| - 1] == head + v[..|v| - 1];
    } else if v == "" {
      assert head + v == head;
    }
  }

  lemma {:induction false} TrimBlankSwap(v: string)
    ensures TrimBlankLeft(TrimBlankRight(v)) == TrimBlankRight(TrimBlankLeft(v))
    decreases |v|
  {
    if v == "" {
    } else if IsBlank(v[0]) {
      TrimBlankSwap(v[1..]);
      if IsBlank(v[|v| - 1]) {
        TrimBlankSwap(v[..|v| - 1]);
        if |v| > 1 {
          assert v[..|v| - 1][1..] == v[1..][..|v[1..]| - 1];
          TrimBlankRightStep(v[1..]);
          TrimBlankSwap(v[1..][..|v| - 2]);
        }
      }
    } else {
      TrimBlankRightFirst(v);
    }
  }

  lemma TrimBlankRightStep(v: string)
    requires v != "" && IsBlank(v[|v| - 1])
    ensures TrimBlankRight(v) == TrimBlankRight(v[..|v| - 1])
  {
  }

  lemma {:induction false} TrimBlankRightFirst(v: string)
    requires v != "" && !IsBlank(v[0])
    ensures TrimBlankRight(v) != "" && TrimBlankRight(v)[0] == v[0]
  {
    if IsBlank(v[|v| - 1]) {
      TrimBlankRightFirst(v[..|v| - 1]);
    }
  }

  /** A printed field is read back as its name and its trimmed value. */
  lemma FieldLine(f: Field)
    requires GoodField(f)
    ensures var line := TrimBlank(f.name + ": " + f.value);
            IndexOf(line, ':') == |f.name| < |line| && line[..|f.name|] == f.name
            && TrimBlankLeft(line[|f.name| + 1..]) == TrimBlank(f.value)
  {
    var head := f.name + ":";
    assert f.name[0] in f.name;
    assert f.name + ": " + f.value == head + (" " + f.value);
    TrimBlankRightColon(head, " " + f.value);
    var line := TrimBlank(f.name + ": " + f.value);
    assert line == head + TrimBlankRight(" " + f.value);
    assert ':' !in f.name;
    assert line == f.name + [':'] + TrimBlankRight(" " + f.value);
    IndexOfMiddle(f.name, ':', TrimBlankRight(" " + f.value));
    assert line[|f.name| + 1..] == TrimBlankRight(" " + f.value);
    TrimBlankSwap(" " + f.value);
    TrimBlankLeftSkip(f.value);
  }

  lemma ReadStep(s: string, line: string, rest: string, i: nat, h: Header)
    requires s != "" && LineText(s) != "" && Continued(TrimBlank(LineText(s)), AfterLine(s)) == (line, rest)
    requires 0 < i < |line| && i == IndexOf(line, ':') && ReadHeader(rest) == Some(h)
    ensures ReadHeader(s) == Some(h.(fields := [Field(line[..i], TrimBlankLeft(line[i + 1..]))] + h.fields))
  {
  }

  /** A printed field is one line, which nothing continues. */
  lemma FieldStart(f: Field, rest: string)
    requires GoodField(f) && rest != "" && !IsBlank(rest[0])
    ensures var s := PrintField(f) + rest;
            s != "" && LineText(s) != ""
            && Continued(TrimBlank(LineText(s)), AfterLine(s)) == (TrimBlank(f.name + ": " + f.value), rest)
  {
    var text := f.name + ": " + f.value;
    FirstLine(text, rest);
    assert PrintField(f) == text + CRLF;
  }

  lemma ReadOneField(f: Field, rest: string)
    requires GoodField(f) && rest != "" && !IsBlank(rest[0]) && ReadHeader(rest).Some?
    ensures ReadHeader(PrintField(f) + rest) ==
            var h := ReadHeader(rest).value;
            Some(h.(fields := [Field(f.name, TrimBlank(f.value))] + h.fields))
  {
    FieldStart(f, rest);
    FieldLine(f);
    ReadStep(PrintField(f) + rest, TrimBlank(f.name + ": " + f.value), rest, |f.name|, ReadHeader(rest).value);
  }

  /** Reading a printed header yields its fields, values trimmed, and the rest of the text. */
  lemma {:induction false} ReadPrinted(fs: seq<Field>, body: string)
    requires forall f :: f in fs ==> GoodField(f)
    ensures ReadHeader(PrintHeader(fs) + CRLF + body) == Some(Header(ReadBack(fs), body))
  {
    if fs == [] {
      assert PrintHeader(fs) + CRLF == CRLF && "" + CRLF == CRLF;
      FirstLine("", body);
    } else {
      ReadPrinted(fs[1..], body);
      PrintedStart(fs[1..], body);
      Regroup(PrintField(fs[0]), PrintHeader(fs[1..]), CRLF, body);
      ReadOneField(fs[0], PrintHeader(fs[1..]) + CRLF + body);
    }
  }

  lemma PrintedStart(fs: seq<Field>, body: string)
    requires forall f :: f in fs ==> GoodField(f)
    ensures var s := PrintHeader(fs) + CRLF + body; s != "" && !IsBlank(s[0])
  {
    if fs != [] {
      assert fs[0] in fs && fs[0].name[0] in fs[0].name;
    }
  }

  // ----- media types with parameters -----

  predicate IsTSpecial(c: char) {
    c == '(' || c == ')' || c == '<' || c == '>' || c == '@' || c == ',' || c == ';' || c == ':'
    || c == '\\' || c == '\"' || c == '/' || c == '[' || c == ']' || c == '?' || c == '='
  }

  predicate IsTokenChar(c: char) { ' ' < c < 0x7f as char && !IsTSpecial(c) }

  predicate IsToken(s: string) { s != "" && forall c :: c in s ==> IsTokenChar(c) }

  function TokenLength(s: string): (n: nat)
    ensures n <= |s|
    ensures forall i :: 0 <= i < n ==> IsTokenChar(s[i])
    ensures n < |s| ==> !IsTokenChar(s[n])
  {
    if s == "" || !IsTokenChar(s[0]) then 0 else 1 + TokenLength(s[1..])
  }

  lemma TokenLengthIs(token: string, rest: string)
    requires forall c :: c in token ==> IsTokenChar(c)
    requires rest != "" ==> !IsTokenChar(rest[0])
    ensures TokenLength(token + rest) == |token|
  {
    var s, n := token + rest, TokenLength(token + rest);
    forall i | 0 <= i < |token| ensures IsTokenChar(s[i]) { assert s[i] == token[i] && token[i] in token; }
    assert rest != "" ==> s[|token|] == rest[0];
  }

  /** type, or type/subtype. */
  predicate IsMediaType(m: string) {
    var n := TokenLength(m);
    n > 0 && (n == |m| || (m[n] == '/' && IsToken(m[n + 1..])))
  }

  /** The contents of a quoted string after the opening quote and the text after the closing
      one; a backslash escapes a special character; None when it is not closed on the line. */
  function Unquote(s: string): Option<(string, string)> {
    if s == "" || s[0] == CR || s[0] == LF then None
    else if s[0] == '\"' then Some(("", s[1..]))
    else if s[0] == '\\' && |s| > 1 && IsTSpecial(s[1]) then
      match Unquote(s[2..])
      case None => None
      case Some((v, rest)) => Some(([s[1]] + v, rest))
    else
      match Unquote(s[1..])
      case None => None
      case Some((v, rest)) => Some(([s[0]] + v, rest))
  }

  lemma {:induction false} UnquoteShorter(s: string)
    ensures Unquote(s).Some? ==> |Unquote(s).value.1| < |s|
  {
    if s == "" || s[0] == CR || s[0] == LF || s[0] == '\"' {
    } else if s[0] == '\\' && |s| > 1 && IsTSpecial(s[1]) {
      UnquoteShorter(s[2..]);
    } else {
      UnquoteShorter(s[1..]);
    }
  }

  datatype Param = Param(key: string, value: string, rest: string)

  /** One "; key=value"; None when the text does not start with one. */
  function ReadParam(v: string): Option<Param> {
    var s := TrimLeft(v);
    if s == "" || s[0] != ';' then None
    else
      var s := TrimLeft(s[1..]);
      var n := TokenLength(s);
      var key, s := Lower(s[..n]), TrimLeft(s[n..]);
      if key == "" || s == "" || s[0] != '=' then None
      else
        var s := TrimLeft(s[1..]);
        if s != "" && s[0] == '\"' then
          match Unquote(s[1..])
          case None => None
          case Some((value, rest)) => Some(Param(key, value, rest))
        else
          var m := TokenLength(s);
          if m == 0 then None else Some(Param(key, s[..m], s[m..]))
  }

  lemma ReadParamShorter(v: string)
    ensures ReadParam(v).Some? ==> |ReadParam(v).value.rest| < |v|
  {
    var s := TrimLeft(v);
    if s != "" {
      var s1 := TrimLeft(s[1..]);
      var s2 := TrimLeft(s1[TokenLength(s1)..]);
      if s2 != "" {
        var s3 := TrimLeft(s2[1..]);
        if s3 != "" {
          UnquoteShorter(s3[1..]);
        }
      }
    }
  }

  datatype Params = BadParams | Duplicate | Params(values: map<string, string>)

  function ReadParams(v: string, sofar: map<string, string>): Params
    decreases |v|
  {
    var s := TrimLeft(v);
    if s == "" then Params(sofar)
    else
      ReadParamShorter(s);
      match ReadParam(s)
      case None => if TrimSpace(s) == ";" then Params(sofar) else BadParams
      case Some(p) =>
        if p.key in sofar && sofar[p.key] != p.value then Duplicate
        else ReadParams(p.rest, sofar[p.key := p.value])
  }

  /** mime.ParseMediaType.  `name` is "" for an unusable type; `ok` is its error result. */
  datatype MediaType = MediaType(name: string, ok: bool, params: map<string, string>)

  function ParseMediaType(v: string): MediaType {
    var i := IndexOf(v, ';');
    var name := TrimSpace(Lower(v[..i]));
    if !IsMediaType(name) then MediaType("", false, map[])
    else
      match ReadParams(v[i..], map[])
      case BadParams => MediaType(name, false, map[])
      case Duplicate => MediaType("", false, map[])
      case Params(m) => MediaType(name, true, m)
  }

  // ----- printed media types read back -----

  /** A media type that reading neither trims nor lower-cases. */
  predicate PlainType(t: string) {
    IsMediaType(t) && (forall c :: c in t ==> c == '/' || IsTokenChar(c)) && Lower(t) == t
  }

  /** Text that a quoted string carries unchanged. */
  predicate Quotable(s: string) { OneLine(s) && '\"' !in s && '\\' !in s }

  lemma {:induction false} UnquoteQuotable(s: string, rest: string)
    requires Quotable(s)
    ensures Unquote(s + "\"" + rest) == Some((s, rest))
  {
    var t := s + "\"" + rest;
    if s != "" {
      assert s[0] in s;
      UnquoteQuotable(s[1..], rest);
      assert t[1..] == s[1..] + "\"" + rest;
      assert s == [s[0]] + s[1..];
    } else {
      assert t[1..] == rest;
    }
  }

  function Quoted(key: string, value: string): string { "; " + key + "=\"" + value + "\"" }

  lemma TrimOneSpace(s: string)
    requires s != "" && !IsSpace(s[0])
    ensures TrimLeft(" " + s) == s
  {
    Prefixed(" ", s);
  }

  lemma KeyToken(key: string, rest: string)
    requires IsToken(key) && Lower(key) == key
    ensures var s := key + ("=" + rest);
            TrimLeft(" " + s) == s && TokenLength(s) == |key| && s[..|key|] == key && s[|key|..] == "=" + rest
  {
    assert key[0] in key;
    TrimOneSpace(key + ("=" + rest));
    TokenLengthIs(key, "=" + rest);
    Prefixed(key, "=" + rest);
  }

  /** "; key=" leads to what follows it. */
  lemma ParamRead(v: string, key: string, after: string)
    requires IsToken(key) && Lower(key) == key && (after != "" ==> !IsSpace(after[0]))
    requires v == ";" + (" " + (key + ("=" + after)))
    ensures ReadParam(v) ==
            if after != "" && after[0] == '\"' then
              match Unquote(after[1..])
              case None => None
              case Some((value, rest)) => Some(Param(key, value, rest))
            else
              var m := TokenLength(after);
              if m == 0 then None else Some(Param(key, after[..m], after[m..]))
  {
    KeyToken(key, after);
    Prefixed(";", " " + (key + ("=" + after)));
    Prefixed("=", after);
    assert TrimLeft(v) == v && TrimLeft("=" + after) == "=" + after && TrimLeft(after) == after;
  }

  lemma Quotation(key: string, after: string)
    ensures "; " + key + "=" + after == ";" + (" " + (key + ("=" + after)))
  {
    assert "; " == ";" + " ";
    Regroup("; ", key, "=", after);
    Regroup(";", " ", key + ("=" + after), "");
    Regroup(key, "=", after, "");
  }

  lemma ReadQuoted(key: string, value: string)
    requires IsToken(key) && Lower(key) == key && Quotable(value)
    ensures ReadParam(Quoted(key, value)) == Some(Param(key, value, ""))
  {
    var after := "\"" + (value + "\"" + "");
    QuotedIs(key, value);
    Quotation(key, after);
    ParamRead(Quoted(key, value), key, after);
    Prefixed("\"", value + "\"" + "");
    UnquoteQuotable(value, "");
  }

  lemma QuotedIs(key: string, value: string)
    ensures Quoted(key, value) == "; " + key + "=" + ("\"" + (value + "\"" + ""))
  {
    assert "=\"" == "=" + "\"" && value + "\"" + "" == value + "\"";
    Regroup("; " + key, "=", "\"", value + "\"");
  }

  function Unquoted(key: string, value: string): string { "; " + key + "=" + value }

  lemma ReadUnquoted(key: string, value: string)
    requires IsToken(key) && Lower(key) == key && IsToken(value)
    ensures ReadParam(Unquoted(key, value)) == Some(Param(key, value, ""))
  {
    assert value[0] in value;
    Quotation(key, value);
    ParamRead(Unquoted(key, value), key, value);
    TokenLengthIs(value, "");
    assert value + "" == value;
  }

  lemma TypeWithParam(t: string, param: string, key: string, value: string)
    requires PlainType(t) && param != "" && param[0] == ';'
    requires ReadParam(param) == Some(Param(key, value, ""))
    ensures ParseMediaType(t + param) == MediaType(t, true, map[key := value])
  {
    var v := t + param;
    assert ';' !in t;
    assert v == t + [';'] + param[1..];
    IndexOfMiddle(t, ';', param[1..]);
    assert v[..|t|] == t && v[|t|..] == param;
    assert t[0] in t && t[|t| - 1] in t;
    TrimSpaceId(t);
    assert TrimLeft(param) == param;
    assert ReadParams("", map[key := value]) == Params(map[key := value]);
  }

  lemma QuotedType(t: string, key: string, value: string)
    requires PlainType(t) && IsToken(key) && Lower(key) == key && Quotable(value)
    ensures ParseMediaType(t + Quoted(key, value)) == MediaType(t, true, map[key := value])
  {
    ReadQuoted(key, value);
    TypeWithParam(t, Quoted(key, value), key, value);
  }

  lemma UnquotedType(t: string, key: string, value: string)
    requires PlainType(t) && IsToken(key) && Lower(key) == key && IsToken(value)
    ensures ParseMediaType(t + Unquoted(key, value)) == MediaType(t, true, map[key := value])
  {
    ReadUnquoted(key, value);
    TypeWithParam(t, Unquoted(key, value), key, value);
  }
}

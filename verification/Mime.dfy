/** BuildRFC822 (internal/mimeutil/build.go:20-78) and Parse (internal/mimeutil/parse.go:30-130). */
module Mime {
  import opened Basics
  import opened Strings
  import opened ParsedMail
  import opened Base64
  import opened MimeHeader
  import opened Multipart

  // ----- printing -----

  datatype Outgoing = Outgoing(from: string, to: seq<string>, cc: seq<string>, subject: string,
                               contentType: string, body: string, messageId: string, attachments: seq<Parsed>)

  function HeaderFields(m: Outgoing, date: string, contentType: string): seq<Field> {
    var a := [] + [Field("From", m.from)] + [Field("To", Join(m.to, ", "))];
    var b := if m.cc != [] then a + [Field("Cc", Join(m.cc, ", "))] else a;
    var c := b + [Field("Subject", m.subject)];
    var d := if m.messageId != "" then c + [Field("Message-ID", m.messageId)] else c;
    d + [Field("Date", date)] + [Field("MIME-Version", "1.0")] + [Field("Content-Type", contentType)]
  }

  function BodyType(m: Outgoing): string { m.contentType + Unquoted("charset", "UTF-8") }

  function PrintPart(b: string, fs: seq<Field>, content: string): string {
    Dash(b) + CRLF + (PrintHeader(fs) + CRLF + content)
  }

  function AttachmentFields(a: Parsed): seq<Field> {
    [] + [Field("Content-Type", a.contentType + Quoted("name", a.filename))]
    + [Field("Content-Transfer-Encoding", "base64")]
    + [Field("Content-Disposition", "attachment" + Quoted("filename", a.filename))]
  }

  function PrintAttachment(b: string, a: Parsed): string {
    PrintPart(b, AttachmentFields(a), Wrap(Encode(a.data)))
  }

  function PrintAttachments(b: string, atts: seq<Parsed>): string {
    if atts == [] then Dash(b) + "--" + CRLF else PrintAttachment(b, atts[0]) + PrintAttachments(b, atts[1..])
  }

  function Message(m: Outgoing, date: string, b: string): string {
    if m.attachments == [] then
      PrintHeader(HeaderFields(m, date, BodyType(m))) + CRLF + m.body
    else
      PrintHeader(HeaderFields(m, date, "multipart/mixed" + Quoted("boundary", b))) + CRLF
      + (PrintPart(b, [Field("Content-Type", BodyType(m))], m.body) + CRLF + PrintAttachments(b, m.attachments))
  }

  function Boundary(nanos: nat): string { "----=_BDSMail_" + Decimal(nanos) }

  method WriteField(sb: string, name: string, value: string, ghost fs: seq<Field>)
    returns (sb': string, ghost fs': seq<Field>)
    requires sb == PrintHeader(fs)
    ensures fs' == fs + [Field(name, value)] && sb' == PrintHeader(fs')
  {
    PrintHeaderAppend(fs, Field(name, value));
    fs' := fs + [Field(name, value)];
    sb' := sb + (name + ": " + value + CRLF);
  }

  method WriteHeader(m: Outgoing, date: string, contentType: string) returns (sb: string)
    ensures sb == PrintHeader(HeaderFields(m, date, contentType)) + CRLF
  {
    ghost var fs;
    sb, fs := WriteField("", "From", m.from, []);
    sb, fs := WriteField(sb, "To", Join(m.to, ", "), fs);
    if m.cc != [] {
      sb, fs := WriteField(sb, "Cc", Join(m.cc, ", "), fs);
    }
    sb, fs := WriteField(sb, "Subject", m.subject, fs);
    if m.messageId != "" {
      sb, fs := WriteField(sb, "Message-ID", m.messageId, fs);
    }
    sb, fs := WriteField(sb, "Date", date, fs);
    sb, fs := WriteField(sb, "MIME-Version", "1.0", fs);
    sb, fs := WriteField(sb, "Content-Type", contentType, fs);
    sb := sb + CRLF;
  }

  /** BuildRFC822; the clock supplies the date and the boundary. */
  method BuildRFC822(m: Outgoing, date: string, nanos: nat) returns (sb: string)
    ensures sb == Message(m, date, Boundary(nanos))
  {
    if m.attachments == [] {
      sb := WriteHeader(m, date, m.contentType + "; charset=UTF-8");
      assert "; charset=UTF-8" == Unquoted("charset", "UTF-8");
      sb := sb + m.body;
      return;
    }
    var b := "----=_BDSMail_" + Decimal(nanos);
    var header := WriteHeader(m, date, "multipart/mixed" + Quoted("boundary", b));
    assert "; charset=UTF-8" == Unquoted("charset", "UTF-8");
    ghost var textFields := [Field("Content-Type", BodyType(m))];
    assert textFields[1..] == [] && PrintHeader(textFields) == "Content-Type: " + BodyType(m) + CRLF;
    sb := "--" + b + CRLF + ("Content-Type: " + (m.contentType + "; charset=UTF-8") + CRLF + CRLF + m.body) + CRLF;
    var parts := WriteAttachments(b, m.attachments);
    sb := header + (sb + (parts + ("--" + b + "--" + CRLF)));
  }

  /** The attachment loop; the closing boundary is still to come. */
  method WriteAttachments(b: string, atts: seq<Parsed>) returns (sb: string)
    ensures sb + (Dash(b) + "--" + CRLF) == PrintAttachments(b, atts)
  {
    sb := "";
    for i := 0 to |atts|
      invariant sb + PrintAttachments(b, atts[i..]) == PrintAttachments(b, atts)
    {
      var part := WriteAttachment(b, atts[i]);
      assert atts[i..][1..] == atts[i + 1..];
      assert sb + part + PrintAttachments(b, atts[i + 1..]) == sb + (part + PrintAttachments(b, atts[i + 1..]));
      sb := sb + part;
    }
  }

  method WriteAttachment(b: string, a: Parsed) returns (sb: string)
    ensures sb == PrintAttachment(b, a)
  {
    ghost var fs;
    sb, fs := WriteField("", "Content-Type", a.contentType + Quoted("name", a.filename), []);
    sb, fs := WriteField(sb, "Content-Transfer-Encoding", "base64", fs);
    sb, fs := WriteField(sb, "Content-Disposition", "attachment" + Quoted("filename", a.filename), fs);
    var wrapped := WrapLines(Encode(a.data));
    sb := "--" + b + CRLF + (sb + CRLF + wrapped);
  }

  // ----- parsing -----

  datatype Content = Raw(text: string) | Decoded(bytes: seq<byte>)

  /** The bytes of a part, base64 undone when it says so and decodes. */
  function PartContent(fs: seq<Field>, raw: string): Content {
    if Lower(Get(fs, "Content-Transfer-Encoding")) == "base64" then
      match Decode(TrimSpace(raw))
      case Bytes(d) => Decoded(d)
      case Corrupt => Raw(raw)
    else Raw(raw)
  }

  /** Text is bytes: characters stand for 0..255. */
  function ContentBytes(c: Content): seq<byte> {
    if c.Decoded? then c.bytes else seq(|c.text|, i requires 0 <= i < |c.text| => c.text[i] as int % 0x100)
  }

  function ContentText(c: Content): string {
    if c.Raw? then c.text else seq(|c.bytes|, i requires 0 <= i < |c.bytes| => c.bytes[i] as char)
  }

  /** filepath.Base of a non-empty path. */
  function BaseName(path: string): string {
    if path == "" then "/"
    else if path[|path| - 1] == '/' then BaseName(path[..|path| - 1])
    else LastElement(path)
  }

  function LastElement(path: string): string {
    if path == "" || path[|path| - 1] == '/' then "" else LastElement(path[..|path| - 1]) + [path[|path| - 1]]
  }

  lemma {:induction false} BaseNamePlain(path: string)
    requires path != "" && '/' !in path
    ensures BaseName(path) == path
  {
    assert path[|path| - 1] in path;
    LastElementPlain(path);
  }

  lemma {:induction false} LastElementPlain(path: string)
    requires '/' !in path
    ensures LastElement(path) == path
  {
    if path != "" {
      assert path[|path| - 1] in path;
      LastElementPlain(path[..|path| - 1]);
    }
  }

  /** The name an attachment gets when it is the `k`-th one found. */
  function PartName(filename: string, k: nat): string {
    if filename == "" then "attachment_" + Decimal(k) else BaseName(filename)
  }

  function FileName(disposition: string): string {
    var mt := ParseMediaType(disposition);
    if mt.ok && "filename" in mt.params then mt.params["filename"] else ""
  }

  /** One part's contribution to the result. */
  function AddPart(e: ParsedEmail, fs: seq<Field>, raw: string): ParsedEmail {
    AddContent(e, ParseMediaType(Get(fs, "Content-Type")).name, Get(fs, "Content-Disposition"), PartContent(fs, raw))
  }

  function AddContent(e: ParsedEmail, mediaType: string, disposition: string, content: Content): ParsedEmail {
    if HasPrefix(disposition, "attachment") || (disposition == "" && !HasPrefix(mediaType, "text/")) then
      e.(attachments := e.attachments +
           [Parsed(PartName(FileName(disposition), |e.attachments| + 1),
                   if mediaType == "" then "application/octet-stream" else mediaType, ContentBytes(content))])
    else if HasPrefix(mediaType, "text/html") then
      e.(htmlBody := ContentText(content), contentType := "text/html")
    else if HasPrefix(mediaType, "text/plain") then e.(textBody := ContentText(content))
    else e
  }

  /** What becomes of a part.  It is a file if its disposition says so, or if it has none and is no text: the next
      in line, named by its disposition or by its number.  Other HTML or plain text is a body, anything else - an
      inline image, say - is left out. */
  lemma PartMeaning(e: ParsedEmail, fs: seq<Field>, raw: string)
    ensures var t, d := ParseMediaType(Get(fs, "Content-Type")).name, Get(fs, "Content-Disposition");
            var r, file := AddPart(e, fs, raw), HasPrefix(d, "attachment") || (d == "" && !HasPrefix(t, "text/"));
            && (file ==>
                  && r == e.(attachments := r.attachments) && |r.attachments| == |e.attachments| + 1
                  && e.attachments < r.attachments
                  && var a := r.attachments[|e.attachments|];
                     && a.contentType == (if t == "" then "application/octet-stream" else t)
                     && (FileName(d) == "" ==> a.filename == "attachment_" + Decimal(|e.attachments| + 1))
                     && (FileName(d) != "" && '/' !in FileName(d) ==> a.filename == FileName(d))
                     && (PartBytes(fs, raw).Some? ==> a.data == PartBytes(fs, raw).value))
            && (!file && HasPrefix(t, "text/html") ==>
                  r == e.(htmlBody := r.htmlBody, contentType := "text/html")
                  && (PartBytes(fs, raw).None? ==> r.htmlBody == raw))
            && (!file && HasPrefix(t, "text/plain") && !HasPrefix(t, "text/html") ==>
                  r == e.(textBody := r.textBody) && (PartBytes(fs, raw).None? ==> r.textBody == raw))
            && (!file && !HasPrefix(t, "text/html") && !HasPrefix(t, "text/plain") ==> r == e)
  {
    var name := FileName(Get(fs, "Content-Disposition"));
    if name != "" && '/' !in name {
      BaseNamePlain(name);
    }
  }

  /** The bytes of a part in base64, in any case of that word. */
  function PartBytes(fs: seq<Field>, raw: string): Option<seq<byte>> {
    if Lower(Get(fs, "Content-Transfer-Encoding")) != "base64" then None
    else if Decode(TrimSpace(raw)).Corrupt? then None
    else Some(Decode(TrimSpace(raw)).data)
  }

  datatype Found = Found(fields: seq<Field>, raw: string, rest: string, nl: string)

  /** The next part with its body; None ends the loop. */
  function NextFound(s: string, b: string, nl: string, started: bool): (r: Option<Found>)
    requires nl != ""
    ensures r.Some? ==> |r.value.rest| < |s| && r.value.nl != ""
  {
    NextPartShorter(s, b, nl, started, false);
    match NextPart(s, b, nl, started, false)
    case None => None
    case Some(p) =>
      match ReadBody(p.rest, b, p.nl)
      case None => None
      case Some(body) => Some(Found(p.fields, body.data, body.rest, p.nl))
  }

  function ParseParts(s: string, b: string, nl: string, started: bool, e: ParsedEmail): ParsedEmail
    requires nl != ""
    decreases |s|
  {
    match NextFound(s, b, nl, started)
    case None => e
    case Some(f) => ParseParts(f.rest, b, f.nl, true, AddPart(e, f.fields, f.raw))
  }

  function PreferHtml(e: ParsedEmail): ParsedEmail {
    if e.htmlBody != "" && e.textBody == "" then e.(textBody := e.htmlBody) else e
  }

  function Plain(body: string): ParsedEmail { ParsedEmail(body, "", "text/plain", []) }

  function ParseMessage(h: Header): ParsedEmail {
    var ct := Get(h.fields, "Content-Type");
    var mt := ParseMediaType(if ct == "" then "text/plain" else ct);
    if !mt.ok then Plain(h.rest)
    else if !HasPrefix(mt.name, "multipart/") then
      if Contains(mt.name, "html") then Plain(h.rest).(contentType := "text/html") else Plain(h.rest)
    else if "boundary" !in mt.params || mt.params["boundary"] == "" then Plain(h.rest)
    else PreferHtml(ParseParts(h.rest, mt.params["boundary"], CRLF, false, Plain("")))
  }

  /** Parse: the loop over the parts of a multipart message. */
  method Parse(h: Header) returns (result: ParsedEmail)
    ensures result == ParseMessage(h)
    ensures var ct := Get(h.fields, "Content-Type");
            var mt := ParseMediaType(if ct == "" then "text/plain" else ct);
            !mt.ok || !HasPrefix(mt.name, "multipart/") ==>
              var html := mt.ok && Contains(mt.name, "html");
              result == ParsedEmail(h.rest, "", if html then "text/html" else "text/plain", [])
  {
    var ct := Get(h.fields, "Content-Type");
    if ct == "" {
      ct := "text/plain";
    }
    var mt := ParseMediaType(ct);
    if !mt.ok {
      return ParsedEmail(h.rest, "", "text/plain", []);
    }
    if !HasPrefix(mt.name, "multipart/") {
      return ParsedEmail(h.rest, "", if Contains(mt.name, "html") then "text/html" else "text/plain", []);
    }
    var b := if "boundary" in mt.params then mt.params["boundary"] else "";
    if b == "" {
      return ParsedEmail(h.rest, "", "text/plain", []);
    }
    result := ParseAllParts(h.rest, b);
    if result.htmlBody != "" && result.textBody == "" {
      result := result.(textBody := result.htmlBody);
    }
  }

  method ParseAllParts(body: string, b: string) returns (result: ParsedEmail)
    ensures result == ParseParts(body, b, CRLF, false, Plain(""))
  {
    result := ParsedEmail("", "", "text/plain", []);
    var s, nl, started := body, CRLF, false;
    while true
      invariant nl != ""
      invariant ParseParts(s, b, nl, started, result) == ParseParts(body, b, CRLF, false, Plain(""))
      decreases |s|
    {
      var part := NextFound(s, b, nl, started);
      if part.None? {
        return;
      }
      result := AddPart(result, part.value.fields, part.value.raw);
      s, nl, started := part.value.rest, part.value.nl, true;
    }
  }

  // ----- printing, then parsing -----

  /** What can be printed: headers on one line, attachments with a plain media type and a file name
      without quote, backslash or line break.  The content type of the body is any line. */
  ghost predicate Printable(m: Outgoing, date: string) {
    && OneLine(m.from) && OneLine(m.subject) && OneLine(m.messageId) && OneLine(date)
    && (forall a :: a in m.to ==> OneLine(a)) && (forall a :: a in m.cc ==> OneLine(a))
    && OneLine(m.contentType)
    && (forall a :: a in m.attachments ==> PlainType(a.contentType) && Quotable(a.filename))
  }

  /** The two types the parser knows for a body. */
  predicate TextType(t: string) { t == "text/plain" || t == "text/html" }

  /** The media type of the body as the parser reads it: its name is "" when it is unusable. */
  function BodyMedia(m: Outgoing): MediaType { ParseMediaType(TrimBlank(BodyType(m))) }

  /** The attachments as the parser names them: its own name for one printed without, the last
      path element of one printed with slashes. */
  function Named(atts: seq<Parsed>, k: nat): seq<Parsed> {
    if atts == [] then []
    else [atts[0].(filename := PartName(atts[0].filename, k + 1))] + Named(atts[1..], k + 1)
  }

  lemma {:induction false} NamedPlain(atts: seq<Parsed>, k: nat)
    requires forall a :: a in atts ==> a.filename != "" && '/' !in a.filename
    ensures Named(atts, k) == atts
  {
    if atts != [] {
      assert atts[0] in atts;
      BaseNamePlain(atts[0].filename);
      NamedPlain(atts[1..], k + 1);
    }
  }

  lemma {:induction false} JoinOneLine(parts: seq<string>)
    requires forall a :: a in parts ==> OneLine(a)
    ensures OneLine(Join(parts, ", "))
  {
    if parts != [] {
      assert parts[0] in parts;
      JoinOneLine(parts[1..]);
    }
  }

  lemma TrimBlankEnds(s: string)
    requires s != "" && !IsBlank(s[0]) && !IsBlank(s[|s| - 1])
    ensures TrimBlank(s) == s
  {
  }

  lemma {:induction false} GetReadBack(fs: seq<Field>, k: nat)
    requires k < |fs|
    requires forall i :: 0 <= i < k ==> Lower(fs[i].name) != Lower(fs[k].name)
    ensures Get(ReadBack(fs), fs[k].name) == TrimBlank(fs[k].value)
  {
    if k > 0 {
      assert Lower(fs[0].name) != Lower(fs[k].name);
      GetReadBack(fs[1..], k - 1);
    }
  }

  lemma {:induction false} GetNone(fs: seq<Field>, name: string)
    requires forall i :: 0 <= i < |fs| ==> Lower(fs[i].name) != Lower(name)
    ensures Get(ReadBack(fs), name) == ""
  {
    if fs != [] {
      assert Lower(fs[0].name) != Lower(name);
      GetNone(fs[1..], name);
    }
  }

  lemma GoodShortName(name: string, value: string)
    requires name in {"From", "To", "Cc", "Subject", "Date"} && OneLine(value)
    ensures GoodField(Field(name, value))
  {
  }

  lemma GoodDashedName(name: string, value: string)
    requires name in {"Message-ID", "MIME-Version", "Content-Type"} && OneLine(value)
    ensures GoodField(Field(name, value))
  {
    AllNameChars("Message-", "ID");
    AllNameChars("MIME-", "Version");
    AllNameChars("Content-", "Type");
  }

  lemma GoodTransferEncoding(value: string)
    requires OneLine(value)
    ensures GoodField(Field("Content-Transfer-Encoding", value))
  {
    AllNameChars("Content-", "Transfer-");
    AllNameChars("Content-" + "Transfer-", "Encoding");
    assert "Content-Transfer-Encoding" == "Content-" + "Transfer-" + "Encoding";
  }

  lemma GoodDisposition(value: string)
    requires OneLine(value)
    ensures GoodField(Field("Content-Disposition", value))
  {
    AllNameChars("Content-", "Disposition");
    assert "Content-Disposition" == "Content-" + "Disposition";
  }

  lemma AllNameChars(a: string, b: string)
    requires (forall c :: c in a ==> NameChar(c)) && (forall c :: c in b ==> NameChar(c))
    ensures forall c :: c in a + b ==> NameChar(c)
  {
  }

  lemma HeaderIsGood(m: Outgoing, date: string, contentType: string)
    requires Printable(m, date) && OneLine(contentType)
    ensures forall f :: f in HeaderFields(m, date, contentType) ==> GoodField(f)
  {
    JoinOneLine(m.to);
    JoinOneLine(m.cc);
    forall f | f in HeaderFields(m, date, contentType) ensures GoodField(f) {
      if f.name in {"From", "To", "Cc", "Subject", "Date"} {
        GoodShortName(f.name, f.value);
      } else {
        GoodDashedName(f.name, f.value);
      }
    }
  }

  lemma HeaderContentType(m: Outgoing, date: string, contentType: string)
    ensures Get(ReadBack(HeaderFields(m, date, contentType)), "Content-Type") == TrimBlank(contentType)
  {
    var fs := HeaderFields(m, date, contentType);
    assert Lower("Content-Type")[0] == 'c' && Lower("MIME-Version")[0] == 'm';
    GetReadBack(fs, |fs| - 1);
  }

  /** Where the fields of a printed header stand. */
  lemma HeaderPlaces(m: Outgoing, date: string, contentType: string)
    ensures var fs := HeaderFields(m, date, contentType);
            var cc, id := if m.cc == [] then 2 else 3, if m.messageId == "" then 0 else 1;
            && |fs| == cc + id + 4
            && fs[0] == Field("From", m.from) && fs[1] == Field("To", Join(m.to, ", "))
            && (m.cc != [] ==> fs[2] == Field("Cc", Join(m.cc, ", ")))
            && fs[cc] == Field("Subject", m.subject)
            && (m.messageId != "" ==> fs[cc + 1] == Field("Message-ID", m.messageId))
            && fs[cc + id + 1] == Field("Date", date) && fs[cc + id + 2] == Field("MIME-Version", "1.0")
            && fs[cc + id + 3] == Field("Content-Type", contentType)
  {
  }

  /** No two fields of a printed header share a name: first letters and lengths tell them apart. */
  lemma NamesApart(m: Outgoing, date: string, contentType: string)
    ensures var fs := HeaderFields(m, date, contentType);
            forall i, j :: 0 <= i < j < |fs| ==> Lower(fs[i].name) != Lower(fs[j].name)
  {
    assert Lower("From")[0] == 'f' && Lower("Date")[0] == 'd' && Lower("To")[0] == 't' && Lower("Cc")[0] == 'c';
    assert Lower("MIME-Version")[0] == 'm' && Lower("Content-Type")[0] == 'c';
    HeaderPlaces(m, date, contentType);
  }

  /** Field number `k` of a printed header is read back under its name. */
  lemma FieldReadBack(m: Outgoing, date: string, contentType: string, k: nat)
    requires k < |HeaderFields(m, date, contentType)|
    ensures var fs := HeaderFields(m, date, contentType);
            Get(ReadBack(fs), fs[k].name) == TrimBlank(fs[k].value)
  {
    NamesApart(m, date, contentType);
    GetReadBack(HeaderFields(m, date, contentType), k);
  }

  lemma HeaderReadBack(m: Outgoing, date: string, contentType: string)
    ensures var fs := ReadBack(HeaderFields(m, date, contentType));
            && Get(fs, "From") == TrimBlank(m.from) && Get(fs, "To") == TrimBlank(Join(m.to, ", "))
            && Get(fs, "Subject") == TrimBlank(m.subject) && Get(fs, "Date") == TrimBlank(date)
            && Get(fs, "MIME-Version") == "1.0" && Get(fs, "Content-Type") == TrimBlank(contentType)
            && (m.cc != [] ==> Get(fs, "Cc") == TrimBlank(Join(m.cc, ", ")))
            && (m.messageId != "" ==> Get(fs, "Message-ID") == TrimBlank(m.messageId))
  {
    HeaderPlaces(m, date, contentType);
    var cc, id := if m.cc == [] then 2 else 3, if m.messageId == "" then 0 else 1;
    FieldReadBack(m, date, contentType, 0);
    FieldReadBack(m, date, contentType, 1);
    FieldReadBack(m, date, contentType, 2);
    FieldReadBack(m, date, contentType, cc);
    FieldReadBack(m, date, contentType, cc + 1);
    FieldReadBack(m, date, contentType, cc + id + 1);
    FieldReadBack(m, date, contentType, cc + id + 2);
    FieldReadBack(m, date, contentType, cc + id + 3);
    TrimBlankEnds("1.0");
  }

  /** Fields for which there is nothing to say are absent. */
  lemma HeaderAbsent(m: Outgoing, date: string, contentType: string)
    ensures var fs := ReadBack(HeaderFields(m, date, contentType));
            && (m.cc == [] ==> Get(fs, "Cc") == "") && (m.messageId == "" ==> Get(fs, "Message-ID") == "")
  {
    var fs := HeaderFields(m, date, contentType);
    HeaderPlaces(m, date, contentType);
    assert Lower("To")[0] == 't' && Lower("Cc")[0] == 'c';
    if m.cc == [] {
      GetNone(fs, "Cc");
    }
    if m.messageId == "" {
      GetNone(fs, "Message-ID");
    }
  }

  /** The header of every printed message, with or without attachments, says who wrote it to whom, about
      what, when, and under which id. */
  ghost predicate TellsHeader(fs: seq<Field>, m: Outgoing, date: string) {
    && Get(fs, "From") == TrimBlank(m.from) && Get(fs, "To") == TrimBlank(Join(m.to, ", "))
    && Get(fs, "Cc") == (if m.cc == [] then "" else TrimBlank(Join(m.cc, ", ")))
    && Get(fs, "Subject") == TrimBlank(m.subject) && Get(fs, "Message-ID") == TrimBlank(m.messageId)
    && Get(fs, "Date") == TrimBlank(date) && Get(fs, "MIME-Version") == "1.0"
  }

  lemma HeaderTells(m: Outgoing, date: string, contentType: string)
    ensures TellsHeader(ReadBack(HeaderFields(m, date, contentType)), m, date)
  {
    HeaderReadBack(m, date, contentType);
    HeaderAbsent(m, date, contentType);
  }

  lemma TextIsToken()
    ensures IsToken("plain") && IsToken("html") && IsToken("charset") && IsToken("UTF-8")
    ensures Lower("charset") == "charset"
  {
  }

  lemma TextIsPlain(t: string)
    requires TextType(t)
    ensures PlainType(t)
  {
    TextIsToken();
    assert t == "text" + t[4..];
    TokenLengthIs("text", t[4..]);
    assert t[5..] == "plain" || t[5..] == "html";
  }

  /** A plain type is read as it stands. */
  lemma CharsetType(m: Outgoing)
    requires PlainType(m.contentType)
    ensures BodyMedia(m) == MediaType(m.contentType, true, map["charset" := "UTF-8"])
  {
    var t := m.contentType;
    var full := BodyType(m);
    assert t[0] in t && full[0] == t[0] && full[|full| - 1] == '8';
    TrimBlankEnds(full);
    TextIsToken();
    UnquotedType(t, "charset", "UTF-8");
  }

  lemma BodyOneLine(t: string)
    requires OneLine(t)
    ensures OneLine(t + Unquoted("charset", "UTF-8"))
  {
    TextIsToken();
    ParamOneLine("charset", "UTF-8");
    OneLineAppend(t, Unquoted("charset", "UTF-8"));
  }

  lemma TokenOneLine(t: string)
    requires forall c :: c in t ==> c == '/' || IsTokenChar(c)
    ensures OneLine(t)
  {
  }

  lemma ParamOneLine(key: string, value: string)
    requires IsToken(key) && IsToken(value)
    ensures OneLine(Unquoted(key, value))
  {
    TokenOneLine(key);
    TokenOneLine(value);
    assert OneLine("; ") && OneLine("=");
  }

  lemma OneLineAppend(a: string, b: string)
    requires OneLine(a) && OneLine(b)
    ensures OneLine(a + b)
  {
  }

  lemma QuotedTrim(t: string, key: string, value: string)
    requires PlainType(t)
    ensures TrimBlank(t + Quoted(key, value)) == t + Quoted(key, value)
  {
    var full := t + Quoted(key, value);
    assert t[0] in t && full[0] == t[0] && full[|full| - 1] == '\"';
    TrimBlankEnds(full);
  }

  /** The parser takes the body for a multipart message of its own. */
  predicate Nested(mt: MediaType) {
    mt.ok && HasPrefix(mt.name, "multipart/") && "boundary" in mt.params && mt.params["boundary"] != ""
  }

  /** A message without attachments keeps its body, unless its type announces parts and names their
      boundary; of the type it keeps whether it is some kind of html. */
  lemma SimpleRoundTrip(m: Outgoing, date: string, b: string)
    requires Printable(m, date) && m.attachments == []
    ensures var h, mt := ReadMessage(Message(m, date, b)), BodyMedia(m);
            h.Some? && ParseMessage(h.value) ==
              if Nested(mt) then PreferHtml(ParseParts(m.body, mt.params["boundary"], CRLF, false, Plain("")))
              else Plain(m.body).(contentType := SimpleType(mt))
  {
    BodyOneLine(m.contentType);
    HeaderIsGood(m, date, BodyType(m));
    ReadPrinted(HeaderFields(m, date, BodyType(m)), m.body);
    PrintedStart(HeaderFields(m, date, BodyType(m)), m.body);
    HeaderContentType(m, date, BodyType(m));
    BodyTypeGiven(m);
  }

  function SimpleType(mt: MediaType): string {
    if mt.ok && !HasPrefix(mt.name, "multipart/") && Contains(mt.name, "html") then "text/html" else "text/plain"
  }

  lemma BodyTypeGiven(m: Outgoing)
    ensures TrimBlank(BodyType(m)) != ""
  {
    var s := TrimBlankLeft(BodyType(m));
    TrimmedLeft(BodyType(m));
    assert s[|s| - 1] == '8';
  }

  lemma {:induction false} TrimmedLeft(s: string)
    requires s != "" && !IsBlank(s[|s| - 1])
    ensures var r := TrimBlankLeft(s); r != "" && r[|r| - 1] == s[|s| - 1]
  {
    if IsBlank(s[0]) {
      TrimmedLeft(s[1..]);
    }
  }

  lemma PlainNotNested(m: Outgoing)
    requires PlainType(m.contentType)
    ensures !Nested(BodyMedia(m))
  {
    CharsetType(m);
  }

  lemma HtmlIn()
    ensures Contains("text/html", "html") && !Contains("text/plain", "html")
    ensures !HasPrefix("text/html", "multipart/") && !HasPrefix("text/plain", "multipart/")
  {
    assert "text/html"[5..][..4] == "html";
    assert "multipart/"[0] != "text/html"[0] && "multipart/"[0] != "text/plain"[0];
    forall i | 0 <= i <= |"text/plain"| - 4 ensures "text/plain"[i..][..4] != "html" {
      assert "text/plain"[i..][..4][0] == "text/plain"[i] && "text/plain"[i..][..4][1] == "text/plain"[i + 1];
    }
  }

  // ----- attachments -----

  predicate LowerLetters(s: string) { s != "" && forall i :: 0 <= i < |s| ==> 'a' <= s[i] <= 'z' }

  lemma LowerLettersPlain(s: string)
    requires LowerLetters(s)
    ensures IsToken(s) && Lower(s) == s && PlainType(s)
  {
    assert s + "" == s;
    TokenLengthIs(s, "");
  }

  lemma SlashPlain(s: string, t: string)
    requires LowerLetters(s) && LowerLetters(t)
    ensures PlainType(s + "/" + t)
  {
    LowerLettersPlain(s);
    LowerLettersPlain(t);
    var m := s + "/" + t;
    assert m == s + ("/" + t);
    TokenLengthIs(s, "/" + t);
    assert m[|s| + 1..] == t;
  }

  lemma TwoLowerLetters(s: string, t: string)
    requires LowerLetters(s) && LowerLetters(t)
    ensures LowerLetters(s + t)
  {
  }

  lemma AttachmentType()
    ensures PlainType("attachment")
  {
    TwoLowerLetters("attach", "ment");
    assert "attachment" == "attach" + "ment";
    LowerLettersPlain("attachment");
  }

  lemma MixedType()
    ensures PlainType("multipart/mixed")
  {
    SlashPlain("multipart", "mixed");
    assert "multipart/mixed" == "multipart" + "/" + "mixed";
  }

  lemma NameKey()
    ensures IsToken("name") && Lower("name") == "name"
  {
    LowerLettersPlain("name");
  }

  lemma FilenameKey()
    ensures IsToken("filename") && Lower("filename") == "filename"
  {
    LowerLettersPlain("filename");
  }

  lemma BoundaryKey()
    ensures IsToken("boundary") && Lower("boundary") == "boundary"
  {
    LowerLettersPlain("boundary");
  }

  lemma AttachmentFieldsGood(a: Parsed)
    requires PlainType(a.contentType) && Quotable(a.filename)
    ensures forall f :: f in AttachmentFields(a) ==> GoodField(f)
  {
    NameKey();
    FilenameKey();
    AttachmentType();
    TypeOneLine(a.contentType, "name", a.filename);
    TypeOneLine("attachment", "filename", a.filename);
    GoodDashedName("Content-Type", a.contentType + Quoted("name", a.filename));
    GoodTransferEncoding("base64");
    GoodDisposition("attachment" + Quoted("filename", a.filename));
    var fs := AttachmentFields(a);
    AllThreeGood(fs[0], fs[1], fs[2]);
  }

  lemma AllThreeGood(x: Field, y: Field, z: Field)
    requires GoodField(x) && GoodField(y) && GoodField(z)
    ensures forall f :: f in [] + [x] + [y] + [z] ==> GoodField(f)
  {
    forall f | f in [] + [x] + [y] + [z] ensures f == x || f == y || f == z {}
  }

  lemma TypeOneLine(t: string, key: string, value: string)
    requires PlainType(t) && IsToken(key) && OneLine(value)
    ensures OneLine(t + Quoted(key, value))
  {
    TokenOneLine(t);
    QuotedOneLine(key, value);
    OneLineAppend(t, Quoted(key, value));
  }

  /** The header of a printed attachment is clean exactly if its name is. */
  lemma AttachmentFieldsClean(a: Parsed)
    requires PlainType(a.contentType)
    ensures AllClean(AttachmentFields(a)) <==> Clean(a.filename)
  {
    var fs := AttachmentFields(a);
    QuotedClean("name", a.filename);
    QuotedClean("filename", a.filename);
    CleanAppend(a.contentType, Quoted("name", a.filename));
    CleanAppend("attachment", Quoted("filename", a.filename));
    assert Clean("base64") && Clean("attachment") && Clean("name") && Clean("filename");
    assert fs[0] in fs && fs[1] in fs && fs[2] in fs;
  }

  lemma QuotedClean(key: string, value: string)
    ensures Clean(Quoted(key, value)) <==> Clean(key) && Clean(value)
  {
    assert Clean("; ") && Clean("=\"") && Clean("\"");
    CleanAppend("; ", key);
    CleanAppend("; " + key, "=\"");
    CleanAppend("; " + key + "=\"", value);
    CleanAppend("; " + key + "=\"" + value, "\"");
  }

  lemma AttachmentHeaderType(a: Parsed)
    requires PlainType(a.contentType) && Quotable(a.filename)
    ensures Get(ReadBack(AttachmentFields(a)), "Content-Type") == a.contentType + Quoted("name", a.filename)
  {
    GetReadBack(AttachmentFields(a), 0);
    QuotedTrim(a.contentType, "name", a.filename);
  }

  lemma AttachmentHeaderEncoding(a: Parsed)
    ensures Get(ReadBack(AttachmentFields(a)), "Content-Transfer-Encoding") == "base64"
  {
    GetReadBack(AttachmentFields(a), 1);
    TrimBlankEnds("base64");
  }

  lemma AttachmentHeaderDisposition(a: Parsed)
    ensures Get(ReadBack(AttachmentFields(a)), "Content-Disposition") == "attachment" + Quoted("filename", a.filename)
  {
    AttachmentType();
    GetReadBack(AttachmentFields(a), 2);
    QuotedTrim("attachment", "filename", a.filename);
  }

  /** The body text an attachment's bytes are printed as, up to the final line break. */
  function RawOf(data: seq<byte>): string {
    var w := Wrap(Encode(data));
    if data == [] then "" else if |w| < 2 then w else w[..|w| - 2]
  }

  lemma RawBreak(data: seq<byte>)
    requires data != []
    ensures Wrap(Encode(data)) == RawOf(data) + CRLF
  {
    WrappedRoundTrip(data);
    var w := Wrap(Encode(data));
    assert w == w[..|w| - 2] + w[|w| - 2..];
  }

  lemma RawChars(data: seq<byte>)
    ensures forall c :: c in RawOf(data) ==> c != '-'
  {
    EncodeChars(data);
    WrapChars(Encode(data));
    assert forall c :: c in RawOf(data) ==> c in Wrap(Encode(data));
  }

  lemma RawDecodes(data: seq<byte>)
    ensures Decode(TrimSpace(RawOf(data))) == Bytes(data)
  {
    if data == [] {
      assert Unwrap("") == "";
    } else {
      WrappedRoundTrip(data);
      RawTrimmed(data);
    }
  }

  lemma RawTrimmed(data: seq<byte>)
    requires data != []
    ensures TrimSpace(RawOf(data)) == RawOf(data)
  {
    var e := Encode(data);
    EncodeChars(data);
    WrapEnds(e);
    assert IsEncodingChar(e[0]) && IsEncodingChar(e[|e| - 1]);
    TrimSpaceId(RawOf(data));
  }

  lemma {:induction false} WrapChars(e: string)
    requires forall i :: 0 <= i < |e| ==> IsEncodingChar(e[i])
    ensures forall c :: c in Wrap(e) ==> IsEncodingChar(c) || c == CR || c == LF
  {
    if |e| > LINE_LENGTH {
      WrapChars(e[LINE_LENGTH..]);
    }
  }

  lemma {:induction false} WrapEnds(e: string)
    requires e != ""
    ensures var w := Wrap(e); |w| > 2 && w[0] == e[0] && w[|w| - 3] == e[|e| - 1]
  {
    if |e| > LINE_LENGTH {
      WrapEnds(e[LINE_LENGTH..]);
    }
  }

  lemma AddAttachment(e: ParsedEmail, a: Parsed)
    requires PlainType(a.contentType) && Quotable(a.filename)
    ensures AddPart(e, ReadBack(AttachmentFields(a)), RawOf(a.data)) ==
            e.(attachments := e.attachments + [a.(filename := PartName(a.filename, |e.attachments| + 1))])
  {
    AttachmentHeaderType(a);
    AttachmentHeaderDisposition(a);
    AttachmentContent(a);
    NameKey();
    QuotedType(a.contentType, "name", a.filename);
    AddNamed(e, a);
  }

  lemma AttachmentContent(a: Parsed)
    ensures PartContent(ReadBack(AttachmentFields(a)), RawOf(a.data)) == Decoded(a.data)
  {
    AttachmentHeaderEncoding(a);
    LowerBase64();
    RawDecodes(a.data);
  }

  lemma AddNamed(e: ParsedEmail, a: Parsed)
    requires PlainType(a.contentType) && Quotable(a.filename)
    ensures AddContent(e, a.contentType, "attachment" + Quoted("filename", a.filename), Decoded(a.data)) ==
            e.(attachments := e.attachments + [a.(filename := PartName(a.filename, |e.attachments| + 1))])
  {
    AttachmentType();
    FilenameKey();
    QuotedType("attachment", "filename", a.filename);
  }

  lemma LowerBase64()
    ensures Lower("base64") == "base64"
  {
  }

  /** The closing boundary or the next part: either way a boundary and what may follow one. */
  lemma AttachmentsStart(b: string, atts: seq<Parsed>) returns (t: string)
    ensures PrintAttachments(b, atts) == Dash(b) + t && EndsBoundary(t)
  {
    if atts == [] {
      t := "--" + CRLF;
    } else {
      var rest := PrintHeader(AttachmentFields(atts[0])) + CRLF + Wrap(Encode(atts[0].data));
      t := CRLF + rest + PrintAttachments(b, atts[1..]);
      Regroup(Dash(b), CRLF, rest, PrintAttachments(b, atts[1..]));
    }
  }

  lemma PartAppend(b: string, fs: seq<Field>, content: string, rest: string)
    ensures PrintPart(b, fs, content) + rest == Dash(b) + CRLF + (PrintHeader(fs) + CRLF + (content + rest))
  {
  }

  /** What is left of the printed attachments once the first one's bytes are read. */
  function AfterFirst(b: string, atts: seq<Parsed>): string
    requires atts != []
  {
    (if atts[0].data == [] then "" else CRLF) + PrintAttachments(b, atts[1..])
  }

  lemma AttachmentBody(b: string, atts: seq<Parsed>)
    requires OneLine(b) && atts != []
    ensures ReadBody(Wrap(Encode(atts[0].data)) + PrintAttachments(b, atts[1..]), b, CRLF) ==
            Some(Body(RawOf(atts[0].data), AfterFirst(b, atts)))
  {
    var data, w, rest := atts[0].data, Wrap(Encode(atts[0].data)), PrintAttachments(b, atts[1..]);
    var t := AttachmentsStart(b, atts[1..]);
    if data == [] {
      assert w + rest == rest == AfterFirst(b, atts);
      EmptyBodyEnds(b, t);
    } else {
      RawBreak(data);
      RawChars(data);
      Regroup(RawOf(data), CRLF, rest, "");
      ClearOfDashes(RawOf(data), b);
      BodyEnds(RawOf(data), b, t);
    }
  }

  /** A printed attachment is found with its own header and its own bytes, and reading goes on
      right after it - or ends there, if its name holds a control byte. */
  lemma FindAttachment(b: string, atts: seq<Parsed>, expecting: bool)
    requires OneLine(b) && atts != []
    requires PlainType(atts[0].contentType) && Quotable(atts[0].filename)
    ensures var p := NextPart(PrintAttachments(b, atts), b, CRLF, true, expecting);
            if !Clean(atts[0].filename) then p == None
            else p.Some? && p.value.fields == ReadBack(AttachmentFields(atts[0])) && p.value.nl == CRLF
                 && ReadBody(p.value.rest, b, CRLF) == Some(Body(RawOf(atts[0].data), AfterFirst(b, atts)))
  {
    var fs, w, rest := AttachmentFields(atts[0]), Wrap(Encode(atts[0].data)), PrintAttachments(b, atts[1..]);
    AttachmentFieldsClean(atts[0]);
    AttachmentFieldsGood(atts[0]);
    PartAppend(b, fs, w, rest);
    PartStarts(b, fs, w + rest, true, expecting);
    AttachmentBody(b, atts);
  }

  lemma ClearOfDashes(d: string, b: string)
    requires forall c :: c in d ==> c != '-'
    ensures Clear(d, b)
  {
    forall i | 0 <= i <= |d| ensures !At(d, Dash(b), i) {
      if i < |d| {
        assert d[i..][0] in d && Dash(b)[0] == '-';
      }
    }
  }

  lemma NextAttachment(b: string, atts: seq<Parsed>, between: bool, e: ParsedEmail)
    requires OneLine(b) && atts != []
    requires PlainType(atts[0].contentType) && Quotable(atts[0].filename)
    ensures ParseParts((if between then CRLF else "") + PrintAttachments(b, atts), b, CRLF, true, e) ==
            if !Clean(atts[0].filename) then e
            else ParseParts(AfterFirst(b, atts), b, CRLF, true,
                            AddPart(e, ReadBack(AttachmentFields(atts[0])), RawOf(atts[0].data)))
  {
    var s := PrintAttachments(b, atts);
    SkipBreak(b, s);
    assert "" + s == s;
    FindAttachment(b, atts, between);
  }

  lemma NoMoreAttachments(b: string, between: bool, e: ParsedEmail)
    requires OneLine(b)
    ensures ParseParts((if between then CRLF else "") + PrintAttachments(b, []), b, CRLF, true, e) == e
  {
    var s := PrintAttachments(b, []);
    SkipBreak(b, s);
    assert "" + s == s;
    FinalStops(b, true, between);
  }

  lemma NamedNext(found: seq<Parsed>, atts: seq<Parsed>)
    requires atts != []
    ensures var next := found + [atts[0].(filename := PartName(atts[0].filename, |found| + 1))];
            found + Named(atts, |found|) == next + Named(atts[1..], |next|)
  {
    var a := atts[0].(filename := PartName(atts[0].filename, |found| + 1));
    Regroup(found, [a], Named(atts[1..], |found| + 1), []);
  }

  /** The attachments before the first whose name holds a control byte. */
  function Intact(atts: seq<Parsed>): seq<Parsed> {
    if atts == [] || !Clean(atts[0].filename) then [] else [atts[0]] + Intact(atts[1..])
  }

  lemma {:induction false} IntactAll(atts: seq<Parsed>)
    ensures Intact(atts) == atts <==> forall a :: a in atts ==> Clean(a.filename)
    ensures |Intact(atts)| == |atts| ==> Intact(atts) == atts
  {
    if atts != [] {
      IntactAll(atts[1..]);
      assert atts == [atts[0]] + atts[1..];
      IntactShorter(atts[1..]);
    }
  }

  lemma {:induction false} IntactShorter(atts: seq<Parsed>)
    ensures |Intact(atts)| <= |atts|
  {
    if atts != [] {
      IntactShorter(atts[1..]);
    }
  }

  lemma {:induction false} NamedLength(atts: seq<Parsed>, k: nat)
    ensures |Named(atts, k)| == |atts|
  {
    if atts != [] {
      NamedLength(atts[1..], k + 1);
    }
  }

  /** All attachments before the first with a control byte in its name come back, in order, after whatever
      was found before. */
  lemma {:induction false} AttachmentsRoundTrip(b: string, atts: seq<Parsed>, between: bool, e: ParsedEmail)
    requires OneLine(b)
    requires forall a :: a in atts ==> PlainType(a.contentType) && Quotable(a.filename)
    ensures ParseParts((if between then CRLF else "") + PrintAttachments(b, atts), b, CRLF, true, e) ==
            e.(attachments := e.attachments + Named(Intact(atts), |e.attachments|))
    decreases |atts|
  {
    if atts == [] {
      NoMoreAttachments(b, between, e);
      assert e.attachments + [] == e.attachments;
    } else {
      var a := atts[0];
      assert a in atts;
      NextAttachment(b, atts, between, e);
      if Clean(a.filename) {
        AddAttachment(e, a);
        var e' := AddPart(e, ReadBack(AttachmentFields(a)), RawOf(a.data));
        AttachmentsRoundTrip(b, atts[1..], a.data != [], e');
        NamedNext(e.attachments, Intact(atts));
        assert Intact(atts)[1..] == Intact(atts[1..]);
      } else {
        assert e.attachments + [] == e.attachments;
      }
    }
  }

  // ----- the whole message -----

  lemma TextPrefixes(t: string)
    requires TextType(t)
    ensures HasPrefix(t, "text/")
    ensures HasPrefix(t, "text/html") <==> t == "text/html"
    ensures HasPrefix("text/plain", "text/plain")
  {
    assert "text/plain"[5] != "text/html"[5];
  }

  lemma BodyHeaders(m: Outgoing)
    ensures var fs := ReadBack([Field("Content-Type", BodyType(m))]);
            ParseMediaType(Get(fs, "Content-Type")) == BodyMedia(m)
            && Get(fs, "Content-Disposition") == "" && Get(fs, "Content-Transfer-Encoding") == ""
  {
    var fs := [Field("Content-Type", BodyType(m))];
    GetReadBack(fs, 0);
    GetNone(fs, "Content-Disposition");
    GetNone(fs, "Content-Transfer-Encoding");
  }

  /** What the parser makes of the body when attachments follow it: the text, the html, an attachment of
      its own for a type that is no text, and nothing at all for any other text. */
  function BodyPart(name: string, body: string): ParsedEmail {
    if !HasPrefix(name, "text/") then Plain("").(attachments := [BodyAttachment(name, body)])
    else if HasPrefix(name, "text/html") then ParsedEmail("", body, "text/html", [])
    else if HasPrefix(name, "text/plain") then Plain(body)
    else Plain("")
  }

  function BodyAttachment(name: string, body: string): Parsed {
    Parsed("attachment_1", if name == "" then "application/octet-stream" else name, ContentBytes(Raw(body)))
  }

  lemma AddBody(m: Outgoing)
    ensures AddPart(Plain(""), ReadBack([Field("Content-Type", BodyType(m))]), m.body)
            == BodyPart(BodyMedia(m).name, m.body)
  {
    BodyHeaders(m);
    assert Lower("") == "";
    NoDisposition(BodyMedia(m).name, m.body);
  }

  lemma NoDisposition(name: string, body: string)
    ensures AddContent(Plain(""), name, "", Raw(body)) == BodyPart(name, body)
  {
    NoPrefix("attachment");
    NoName();
  }

  lemma NoPrefix(p: string)
    requires p != ""
    ensures !HasPrefix("", p)
  {
  }

  lemma NoName()
    ensures FileName("") == "" && PartName("", 1) == "attachment_1"
  {
    assert Decimal(1) == "1";
    assert "attachment_" + "1" == "attachment_1";
    NoMediaType();
  }

  lemma NoMediaType()
    ensures !ParseMediaType("").ok
  {
  }

  lemma MultipartType(b: string)
    requires Quotable(b)
    ensures ParseMediaType(TrimBlank("multipart/mixed" + Quoted("boundary", b)))
            == MediaType("multipart/mixed", true, map["boundary" := b])
    ensures OneLine("multipart/mixed" + Quoted("boundary", b))
  {
    MixedType();
    BoundaryKey();
    QuotedTrim("multipart/mixed", "boundary", b);
    QuotedType("multipart/mixed", "boundary", b);
    TokenOneLine("multipart/mixed");
    QuotedOneLine("boundary", b);
    OneLineAppend("multipart/mixed", Quoted("boundary", b));
  }

  lemma QuotedOneLine(key: string, value: string)
    requires IsToken(key) && OneLine(value)
    ensures OneLine(Quoted(key, value))
  {
    TokenOneLine(key);
    OneLineAppend("; ", key);
    OneLineAppend("; " + key, "=\"");
    OneLineAppend("; " + key + "=\"", value);
    OneLineAppend("; " + key + "=\"" + value, "\"");
  }

  lemma ReadMultipart(m: Outgoing, date: string, b: string) returns (h: Header)
    requires Printable(m, date) && b != "" && Quotable(b) && m.attachments != []
    ensures ReadMessage(Message(m, date, b)) == Some(h)
    ensures h.fields == ReadBack(HeaderFields(m, date, "multipart/mixed" + Quoted("boundary", b)))
    ensures h.rest == PrintPart(b, [Field("Content-Type", BodyType(m))], m.body) + CRLF
                      + PrintAttachments(b, m.attachments)
    ensures ParseMessage(h) == PreferHtml(ParseParts(h.rest, b, CRLF, false, Plain("")))
  {
    var ct := "multipart/mixed" + Quoted("boundary", b);
    var content := PrintPart(b, [Field("Content-Type", BodyType(m))], m.body) + CRLF
                   + PrintAttachments(b, m.attachments);
    var fs := HeaderFields(m, date, ct);
    MultipartType(b);
    HeaderIsGood(m, date, ct);
    ReadPrinted(fs, content);
    PrintedStart(fs, content);
    h := Header(ReadBack(fs), content);
    HeaderContentType(m, date, ct);
    MixedPrefix();
    IsMultipart(h, "multipart/mixed", b);
  }

  lemma IsMultipart(h: Header, name: string, b: string)
    requires Get(h.fields, "Content-Type") != "" && b != "" && HasPrefix(name, "multipart/")
    requires ParseMediaType(Get(h.fields, "Content-Type")) == MediaType(name, true, map["boundary" := b])
    ensures ParseMessage(h) == PreferHtml(ParseParts(h.rest, b, CRLF, false, Plain("")))
  {
  }

  lemma MixedPrefix()
    ensures HasPrefix("multipart/mixed", "multipart/")
  {
    assert "multipart/mixed" == "multipart/" + "mixed";
  }

  lemma PartsRoundTrip(m: Outgoing, b: string)
    requires OneLine(b) && Clear(m.body, b) && OneLine(m.contentType)
    requires forall a :: a in m.attachments ==> PlainType(a.contentType) && Quotable(a.filename)
    ensures var s := PrintPart(b, [Field("Content-Type", BodyType(m))], m.body)
                     + CRLF + PrintAttachments(b, m.attachments);
            ParseParts(s, b, CRLF, false, Plain(""))
            == if Clean(m.contentType) then WithAttachments(BodyPart(BodyMedia(m).name, m.body), m.attachments)
               else Plain("")
  {
    FindText(m, b);
    AddBody(m);
    AttachmentsRoundTrip(b, m.attachments, true, BodyPart(BodyMedia(m).name, m.body));
  }

  function WithAttachments(e: ParsedEmail, atts: seq<Parsed>): ParsedEmail {
    e.(attachments := e.attachments + Named(Intact(atts), |e.attachments|))
  }

  /** Print, then parse, with attachments: they come back byte for byte, up to the first with a control byte
      in its name, after what the parser made of the body; with a control byte in the content type nothing
      comes back. */
  lemma AttachedRoundTrip(m: Outgoing, date: string, b: string)
    requires Printable(m, date) && m.attachments != [] && b != "" && Quotable(b) && Clear(m.body, b)
    ensures var h := ReadMessage(Message(m, date, b));
            h.Some? && ParseMessage(h.value) ==
              if Clean(m.contentType)
              then PreferHtml(WithAttachments(BodyPart(BodyMedia(m).name, m.body), m.attachments))
              else Plain("")
  {
    var h := ReadMultipart(m, date, b);
    PartsRoundTrip(m, b);
  }

  /** Of a message with attachments the body comes back exactly if its type is clean and starts like plain
      text or html; nothing is put before the attachments exactly if it starts like any text - otherwise the
      body is one more of them. */
  lemma BodyKept(m: Outgoing, date: string, b: string)
    requires Printable(m, date) && m.attachments != [] && b != "" && Quotable(b) && Clear(m.body, b) && m.body != ""
    ensures var h, name := ReadMessage(Message(m, date, b)), BodyMedia(m).name;
            && h.Some?
            && (ParseMessage(h.value).textBody == m.body <==>
                  Clean(m.contentType) && (HasPrefix(name, "text/plain") || HasPrefix(name, "text/html")))
            && ParseMessage(h.value).attachments ==
                 if !Clean(m.contentType) then []
                 else if HasPrefix(name, "text/") then Named(Intact(m.attachments), 0)
                 else [BodyAttachment(name, m.body)] + Named(Intact(m.attachments), 1)
  {
    AttachedRoundTrip(m, date, b);
    var name, atts := BodyMedia(m).name, Intact(m.attachments);
    TextStarts(name);
    assert [] + Named(atts, 0) == Named(atts, 0);
  }

  /** So a table of values sent with an attachment is lost. */
  lemma CsvLost(m: Outgoing, date: string, b: string)
    requires Printable(m, date) && m.attachments != [] && b != "" && Quotable(b) && Clear(m.body, b)
    requires m.contentType == "text/csv"
    ensures var h := ReadMessage(Message(m, date, b));
            h.Some? && ParseMessage(h.value) == ParsedEmail("", "", "text/plain", Named(Intact(m.attachments), 0))
  {
    AttachedRoundTrip(m, date, b);
    CsvIsPlain();
    CharsetType(m);
    CsvIgnored(m.body);
    PlainClean(m.contentType);
    assert [] + Named(Intact(m.attachments), 0) == Named(Intact(m.attachments), 0);
  }

  lemma CsvIsPlain()
    ensures PlainType("text/csv")
  {
    SlashPlain("text", "csv");
    assert "text/csv" == "text" + "/" + "csv";
  }

  lemma CsvIgnored(body: string)
    ensures BodyPart("text/csv", body) == Plain("")
  {
    assert "text/csv"[5] == 'c' && "text/html"[5] == 'h' && "text/plain"[5] == 'p' && "text/csv"[..5] == "text/";
  }

  lemma TextStarts(t: string)
    ensures HasPrefix(t, "text/plain") || HasPrefix(t, "text/html") ==> HasPrefix(t, "text/")
  {
    assert "text/plain"[..5] == "text/" && "text/html"[..5] == "text/";
    assert HasPrefix(t, "text/plain") ==> t[..5] == t[..10][..5];
    assert HasPrefix(t, "text/html") ==> t[..5] == t[..9][..5];
  }

  /** Whatever was sent, the parser knows two types. */
  lemma {:induction false} TwoTypes(s: string, b: string, nl: string, started: bool, e: ParsedEmail)
    requires nl != "" && TextType(e.contentType)
    ensures TextType(ParseParts(s, b, nl, started, e).contentType)
    decreases |s|
  {
    match NextFound(s, b, nl, started)
    case None =>
    case Some(f) =>
      AddedType(e, ParseMediaType(Get(f.fields, "Content-Type")).name, Get(f.fields, "Content-Disposition"),
                PartContent(f.fields, f.raw));
      TwoTypes(f.rest, b, f.nl, true, AddPart(e, f.fields, f.raw));
  }

  lemma AddedType(e: ParsedEmail, mediaType: string, disposition: string, content: Content)
    requires TextType(e.contentType)
    ensures TextType(AddContent(e, mediaType, disposition, content).contentType)
  {
  }

  lemma ParsedTextType(h: Header)
    ensures TextType(ParseMessage(h).contentType)
  {
    forall b ensures TextType(ParseParts(h.rest, b, CRLF, false, Plain("")).contentType) {
      TwoTypes(h.rest, b, CRLF, false, Plain(""));
    }
  }

  /** Both bodies of a text message, as the parser keeps them. */
  lemma TextRoundTrip(m: Outgoing, date: string, b: string)
    requires Printable(m, date) && TextType(m.contentType) && b != "" && Quotable(b)
    requires m.attachments != [] ==> Clear(m.body, b)
    ensures var h := ReadMessage(Message(m, date, b));
            h.Some? && ParseMessage(h.value) ==
              ParsedEmail(m.body, if m.attachments != [] && m.contentType == "text/html" then m.body else "",
                          m.contentType, Named(Intact(m.attachments), 0))
  {
    TextIsPlain(m.contentType);
    PlainClean(m.contentType);
    CharsetType(m);
    PlainNotNested(m);
    HtmlIn();
    if m.attachments == [] {
      SimpleRoundTrip(m, date, b);
    } else {
      AttachedRoundTrip(m, date, b);
      TextPrefixes(m.contentType);
      assert [] + Named(Intact(m.attachments), 0) == Named(Intact(m.attachments), 0);
    }
  }

  /** A message with any content type that fits on a line can be read, and its header with it: sender,
      recipients, subject, id and date stand under their names, and the content type is that of the body or,
      with attachments, multipart with the boundary. */
  lemma HeaderComesBack(m: Outgoing, date: string, b: string)
    requires Printable(m, date) && b != "" && Quotable(b)
    ensures var h := ReadMessage(Message(m, date, b));
            h.Some? && TellsHeader(h.value.fields, m, date)
            && Get(h.value.fields, "Content-Type") ==
                 if m.attachments == [] then TrimBlank(m.contentType + "; charset=UTF-8")
                 else "multipart/mixed" + "; boundary=\"" + b + "\""
  {
    TypesPrinted(m, b);
    if m.attachments == [] {
      BodyOneLine(m.contentType);
      HeaderIsGood(m, date, BodyType(m));
      ReadPrinted(HeaderFields(m, date, BodyType(m)), m.body);
      PrintedStart(HeaderFields(m, date, BodyType(m)), m.body);
      HeaderTells(m, date, BodyType(m));
      HeaderReadBack(m, date, BodyType(m));
    } else {
      var h := ReadMultipart(m, date, b);
      HeaderTells(m, date, "multipart/mixed" + Quoted("boundary", b));
      HeaderReadBack(m, date, "multipart/mixed" + Quoted("boundary", b));
    }
  }

  lemma TypesPrinted(m: Outgoing, b: string)
    requires Quotable(b)
    ensures BodyType(m) == m.contentType + "; charset=UTF-8"
    ensures "multipart/mixed" + Quoted("boundary", b) == "multipart/mixed" + "; boundary=\"" + b + "\""
    ensures TrimBlank("multipart/mixed" + Quoted("boundary", b)) == "multipart/mixed" + Quoted("boundary", b)
  {
    assert Unquoted("charset", "UTF-8") == "; charset=UTF-8";
    BoundaryPrinted(b);
    MixedType();
    QuotedTrim("multipart/mixed", "boundary", b);
  }

  lemma BoundaryPrinted(b: string)
    ensures "multipart/mixed" + Quoted("boundary", b) == "multipart/mixed" + "; boundary=\"" + b + "\""
  {
    var pre := "; " + "boundary" + "=\"";
    assert pre == "; boundary=\"";
    Regroup("multipart/mixed", pre, b, "\"");
  }

  /** Nothing in the headers of the parts stops the parser. */
  predicate NamesClean(m: Outgoing) { forall a :: a in m.attachments ==> Clean(a.filename) }

  /** Print, then parse: for every byte content of every attachment, every body that does not contain the
      boundary and every content type that fits on a line, parsing returns body, type and attachments if
      and only if the type is one of the two the parser knows and no file name holds a control byte. */
  lemma RoundTrip(m: Outgoing, date: string, b: string)
    requires Printable(m, date) && b != "" && Quotable(b)
    requires m.attachments != [] ==> Clear(m.body, b)
    ensures var h := ReadMessage(Message(m, date, b));
            h.Some? && var e := ParseMessage(h.value);
            (e.textBody == m.body && e.contentType == m.contentType && e.attachments == Named(m.attachments, 0)
             <==> TextType(m.contentType) && NamesClean(m))
  {
    HeaderComesBack(m, date, b);
    ParsedTextType(ReadMessage(Message(m, date, b)).value);
    if TextType(m.contentType) {
      TextRoundTrip(m, date, b);
      IntactAll(m.attachments);
      NamedLength(m.attachments, 0);
      NamedLength(Intact(m.attachments), 0);
    }
  }

  /** The text part is found first and its body is exactly the text that was printed. */
  lemma FindText(m: Outgoing, b: string)
    requires OneLine(b) && Clear(m.body, b) && OneLine(m.contentType)
    ensures var fs := [Field("Content-Type", BodyType(m))];
            var atts := PrintAttachments(b, m.attachments);
            NextFound(PrintPart(b, fs, m.body) + CRLF + atts, b, CRLF, false)
            == if Clean(m.contentType) then Some(Found(ReadBack(fs), m.body, CRLF + atts, CRLF)) else None
  {
    var fs := [Field("Content-Type", BodyType(m))];
    var atts := PrintAttachments(b, m.attachments);
    BodyOneLine(m.contentType);
    GoodDashedName("Content-Type", BodyType(m));
    BodyTypeClean(m);
    PartAppend(b, fs, m.body, CRLF + atts);
    Regroup(PrintPart(b, fs, m.body), CRLF, atts, "");
    PartStarts(b, fs, m.body + (CRLF + atts), false, false);
    TextEnds(m.body, b, m.attachments);
  }

  lemma BodyTypeClean(m: Outgoing)
    ensures AllClean([Field("Content-Type", BodyType(m))]) <==> Clean(m.contentType)
  {
    assert Clean(Unquoted("charset", "UTF-8"));
    CleanAppend(m.contentType, Unquoted("charset", "UTF-8"));
    assert Field("Content-Type", BodyType(m)) in [Field("Content-Type", BodyType(m))];
  }

  lemma PlainClean(t: string)
    requires PlainType(t)
    ensures Clean(t)
  {
  }

  lemma TextEnds(body: string, b: string, atts: seq<Parsed>)
    requires OneLine(b) && Clear(body, b)
    ensures var rest := CRLF + PrintAttachments(b, atts); ReadBody(body + rest, b, CRLF) == Some(Body(body, rest))
  {
    var t := AttachmentsStart(b, atts);
    Regroup(body, CRLF, PrintAttachments(b, atts), "");
    BodyEnds(body, b, t);
  }

  lemma {:induction false} DigitsQuotable(n: nat)
    ensures Quotable(Decimal(n))
  {
    var s := Decimal(n);
    forall c | c in s ensures IsDigit(c) {
      var i :| 0 <= i < |s| && s[i] == c;
    }
  }

  /** The boundary the printer chooses can always be printed and read. */
  lemma BoundaryQuotable(nanos: nat)
    ensures Boundary(nanos) != "" && Quotable(Boundary(nanos))
  {
    DigitsQuotable(nanos);
    assert Quotable("----=_BDSMail_");
  }

  /** The law the printer and the parser exist for: with ordinary file names, what was built at
      any moment parses back to exactly what went in - if and only if the content type is plain text or
      html and no file name holds a control byte. */
  lemma BuildThenParse(m: Outgoing, date: string, nanos: nat)
    requires Printable(m, date) && (m.attachments != [] ==> Clear(m.body, Boundary(nanos)))
    requires forall a :: a in m.attachments ==> a.filename != "" && '/' !in a.filename
    ensures var h := ReadMessage(Message(m, date, Boundary(nanos)));
            h.Some? && var e := ParseMessage(h.value);
            (e.textBody == m.body && e.contentType == m.contentType && e.attachments == m.attachments
             <==> TextType(m.contentType) && NamesClean(m))
  {
    BoundaryQuotable(nanos);
    RoundTrip(m, date, Boundary(nanos));
    NamedPlain(m.attachments, 0);
  }
}

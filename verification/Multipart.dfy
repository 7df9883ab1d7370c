/** The splitter behind mime/multipart.Reader: how a body falls apart at a boundary
    (section 5.1.1 of RFC 2046). */
module Multipart {
  import opened Basics
  import opened Strings
  import opened MimeHeader

  // ----- finding text -----

  predicate At(s: string, pat: string, i: nat) { i <= |s| && pat <= s[i..] }

  /** The first occurrence of `pat`, |s| when there is none. */
  function Find(s: string, pat: string): (i: nat)
    requires pat != ""
    ensures i <= |s|
    ensures i < |s| ==> At(s, pat, i)
    ensures forall j :: 0 <= j < i ==> !At(s, pat, j)
  {
    if s == "" || pat <= s then 0
    else
      var i := Find(s[1..], pat);
      assert forall j :: 1 <= j <= |s| ==> s[j..] == s[1..][j - 1..];
      assert forall j :: 1 <= j < 1 + i ==> (At(s, pat, j) <==> At(s[1..], pat, j - 1));
      1 + i
  }

  lemma FindIs(s: string, pat: string, i: nat)
    requires pat != "" && At(s, pat, i)
    requires forall j :: 0 <= j < i ==> !At(s, pat, j)
    ensures Find(s, pat) == i
  {
    assert i < |s|;
  }

  // ----- boundaries -----

  function Dash(b: string): string { "--" + b }

  /** What may follow a boundary: white space, a line break, "--", or the end of the text. */
  predicate EndsBoundary(t: string) {
    t == "" || t[0] == ' ' || t[0] == '\t' || t[0] == CR || t[0] == LF || (|t| >= 2 && t[0] == '-' && t[1] == '-')
  }

  function SkipBlanks(s: string): string {
    if s != "" && IsBlank(s[0]) then SkipBlanks(s[1..]) else s
  }

  /** The first line with its line feed. */
  function TakeLine(s: string): string {
    var i := IndexOf(s, LF);
    if i == |s| then s else s[..i + 1]
  }

  /** A reader whose first boundary line ends in a bare line feed switches to that. */
  function LineBreak(line: string, b: string, nl: string, started: bool): string {
    if !started && Dash(b) <= line && SkipBlanks(line[|Dash(b)|..]) == [LF] then [LF] else nl
  }

  predicate IsDelimiter(line: string, b: string, nl: string) {
    Dash(b) <= line && SkipBlanks(line[|Dash(b)|..]) == nl
  }

  predicate IsFinal(line: string, b: string, nl: string) {
    Dash(b) + "--" <= line
    && (SkipBlanks(line[|Dash(b)| + 2..]) == "" || SkipBlanks(line[|Dash(b)| + 2..]) == nl)
  }

  datatype Part = Part(fields: seq<Field>, rest: string, nl: string)

  /** NextPart: skip the preamble before the first part, or the line break between parts, and
      read the header of the next part; None at the final boundary and on any error. */
  function NextPart(s: string, b: string, nl: string, started: bool, expecting: bool): Option<Part>
    decreases |s|
  {
    var line := TakeLine(s);
    if s == "" || line[|line| - 1] != LF then None
    else
      var nl := LineBreak(line, b, nl, started);
      if IsDelimiter(line, b, nl) then
        match ReadHeader(AfterLine(s))
        case None => None
        case Some(h) => if AllClean(h.fields) then Some(Part(h.fields, h.rest, nl)) else None
      else if IsFinal(line, b, nl) || expecting then None
      else if !started then NextPart(AfterLine(s), b, nl, false, false)
      else if line == nl then NextPart(AfterLine(s), b, nl, true, true)
      else None
  }

  datatype Body = Body(data: string, rest: string)

  /** Where, at or after `from`, a part body ends. */
  function SearchEnd(s: string, pat: string, from: nat): Option<nat>
    requires from <= |s| && pat != ""
    ensures SearchEnd(s, pat, from).Some? ==> SearchEnd(s, pat, from).value <= |s|
    decreases |s| - from
  {
    var i := Find(s[from..], pat);
    if i == |s| - from then None
    else
      assert At(s[from..], pat, i);
      if EndsBoundary(s[from + i + |pat|..]) then Some(from + i)
      else SearchEnd(s, pat, from + i + |pat|)
  }

  /** The body of a part up to the boundary that ends it; None when the text runs out first. */
  function ReadBody(s: string, b: string, nl: string): (r: Option<Body>)
    requires nl != ""
    ensures r.Some? ==> |r.value.rest| <= |s|
  {
    var dash := Dash(b);
    if dash <= s && EndsBoundary(s[|dash|..]) then Some(Body("", s))
    else
      match SearchEnd(s, nl + dash, if dash <= s then |dash| else 0)
      case None => None
      case Some(i) => Some(Body(s[..i], s[i..]))
  }

  // ----- termination measures -----

  lemma {:induction false} ReadHeaderShorter(s: string)
    ensures ReadHeader(s).Some? ==> |ReadHeader(s).value.rest| <= |s|
    decreases |s|
  {
    if s != "" && LineText(s) != "" {
      var (line, rest) := Continued(TrimBlank(LineText(s)), AfterLine(s));
      ContinuedShorter(TrimBlank(LineText(s)), AfterLine(s));
      if line != "" && IndexOf(line, ':') < |line| {
        ReadHeaderShorter(rest);
      }
    }
  }

  lemma {:induction false} NextPartShorter(s: string, b: string, nl: string, started: bool, expecting: bool)
    ensures NextPart(s, b, nl, started, expecting).Some? ==>
              |NextPart(s, b, nl, started, expecting).value.rest| < |s|
    ensures nl != "" && NextPart(s, b, nl, started, expecting).Some? ==>
              NextPart(s, b, nl, started, expecting).value.nl != ""
    decreases |s|
  {
    var line := TakeLine(s);
    if s != "" && line[|line| - 1] == LF {
      var nl := LineBreak(line, b, nl, started);
      if IsDelimiter(line, b, nl) {
        ReadHeaderShorter(AfterLine(s));
      } else if !IsFinal(line, b, nl) && !expecting {
        if !started {
          NextPartShorter(AfterLine(s), b, nl, false, false);
        } else if line == nl {
          NextPartShorter(AfterLine(s), b, nl, true, true);
        }
      }
    }
  }

  // ----- printed parts are found again -----

  /** `d` does not contain the boundary. */
  ghost predicate Clear(d: string, b: string) { forall i :: 0 <= i <= |d| ==> !At(d, Dash(b), i) }

  /** No boundary straddles the end of a clear text: a boundary has no carriage return. */
  lemma NoEarlyBoundary(d: string, b: string, t: string, pat: string, j: nat)
    requires OneLine(b) && Clear(d, b) && j < |d|
    requires pat == Dash(b) || pat == CRLF + Dash(b)
    ensures !At(d + CRLF + t, pat, j)
  {
    var s := d + CRLF + t;
    if |d| < j + |pat| {
      var k := |d| - j;
      NoLaterReturn(b, pat, k);
      assert s[j..][k] == s[|d|] == CR;
    } else if At(s, pat, j) {
      var off := |pat| - |Dash(b)|;
      forall k | 0 <= k < |Dash(b)| ensures d[j + off..][k] == Dash(b)[k] {
        assert s[j..][off + k] == pat[off + k];
      }
      assert At(d, Dash(b), j + off);
    }
  }

  lemma NoLaterReturn(b: string, pat: string, k: nat)
    requires OneLine(b) && 1 <= k < |pat| && (pat == Dash(b) || pat == CRLF + Dash(b))
    ensures pat[k] != CR
  {
    var off := |pat| - |Dash(b)|;
    if k >= off {
      assert pat[k] == Dash(b)[k - off];
      if k - off >= 2 {
        assert Dash(b)[k - off] == b[k - off - 2] && b[k - off - 2] in b;
      }
    }
  }

  /** A body without the boundary ends exactly where the next boundary line was printed. */
  lemma BodyEnds(d: string, b: string, t: string)
    requires OneLine(b) && Clear(d, b) && EndsBoundary(t)
    ensures ReadBody(d + CRLF + (Dash(b) + t), b, CRLF) == Some(Body(d, CRLF + (Dash(b) + t)))
  {
    var pat, after := CRLF + Dash(b), CRLF + (Dash(b) + t);
    var s := d + CRLF + (Dash(b) + t);
    NotAtOnce(d, b, Dash(b) + t);
    forall j | 0 <= j < |d| ensures !At(s, pat, j) {
      NoEarlyBoundary(d, b, Dash(b) + t, pat, j);
    }
    Regroup(d, CRLF, Dash(b), t);
    Prefixed(d, after);
    SearchEndHere(s, pat, |d|, t);
  }

  lemma NotAtOnce(d: string, b: string, t: string)
    requires OneLine(b) && Clear(d, b)
    ensures !(Dash(b) <= d + CRLF + t)
  {
    var s := d + CRLF + t;
    if d != "" {
      NoEarlyBoundary(d, b, t, Dash(b), 0);
      assert s[0..] == s;
    } else {
      assert s[0] == CR && Dash(b)[0] == '-';
    }
  }

  lemma SearchEndHere(s: string, pat: string, i: nat, t: string)
    requires pat != "" && i <= |s| && s[i..] == pat + t && EndsBoundary(t)
    requires forall j :: 0 <= j < i ==> !At(s, pat, j)
    ensures SearchEnd(s, pat, 0) == Some(i)
  {
    assert s[0..] == s;
    FindIs(s, pat, i);
    assert s[i + |pat|..] == t;
  }

  lemma EmptyBodyEnds(b: string, t: string)
    requires EndsBoundary(t)
    ensures ReadBody(Dash(b) + t, b, CRLF) == Some(Body("", Dash(b) + t))
  {
    assert (Dash(b) + t)[|Dash(b)|..] == t;
  }

  lemma BoundaryLine(b: string, tail: string, rest: string)
    requires OneLine(b) && OneLine(tail)
    ensures TakeLine(Dash(b) + tail + CRLF + rest) == Dash(b) + tail + CRLF
    ensures AfterLine(Dash(b) + tail + CRLF + rest) == rest
  {
    var s := Dash(b) + tail + CRLF + rest;
    assert s == (Dash(b) + tail + [CR]) + [LF] + rest;
    assert LF !in Dash(b) + tail + [CR];
    IndexOfMiddle(Dash(b) + tail + [CR], LF, rest);
    assert s[|Dash(b) + tail| + 2..] == rest;
  }

  lemma OpeningLine(b: string, rest: string, started: bool)
    requires OneLine(b)
    ensures var s := Dash(b) + CRLF + rest; var line := TakeLine(s);
            s != "" && line == Dash(b) + CRLF && line[|line| - 1] == LF && AfterLine(s) == rest
            && LineBreak(line, b, CRLF, started) == CRLF && IsDelimiter(line, b, CRLF)
  {
    var line := Dash(b) + CRLF;
    assert Dash(b) + "" == Dash(b);
    BoundaryLine(b, "", rest);
    assert line[|Dash(b)|..] == CRLF && SkipBlanks(CRLF) == CRLF;
  }

  lemma PartFound(s: string, b: string, nl: string, started: bool, expecting: bool, h: Header)
    requires s != "" && TakeLine(s)[|TakeLine(s)| - 1] == LF && ReadHeader(AfterLine(s)) == Some(h)
    requires LineBreak(TakeLine(s), b, nl, started) == nl && IsDelimiter(TakeLine(s), b, nl)
    ensures NextPart(s, b, nl, started, expecting) ==
            if AllClean(h.fields) then Some(Part(h.fields, h.rest, nl)) else None
  {
  }

  /** A printed boundary line followed by a printed header is the start of a part, unless a value holds a
      control byte: then it is the end of all parts. */
  lemma PartStarts(b: string, fs: seq<Field>, body: string, started: bool, expecting: bool)
    requires OneLine(b) && (forall f :: f in fs ==> GoodField(f))
    ensures NextPart(Dash(b) + CRLF + (PrintHeader(fs) + CRLF + body), b, CRLF, started, expecting)
            == if AllClean(fs) then Some(Part(ReadBack(fs), body, CRLF)) else None
  {
    var rest := PrintHeader(fs) + CRLF + body;
    OpeningLine(b, rest, started);
    ReadPrinted(fs, body);
    ReadBackClean(fs);
    PartFound(Dash(b) + CRLF + rest, b, CRLF, started, expecting, Header(ReadBack(fs), body));
  }

  lemma FinalStops(b: string, started: bool, expecting: bool)
    requires OneLine(b)
    ensures NextPart(Dash(b) + "--" + CRLF, b, CRLF, started, expecting) == None
  {
    var s := Dash(b) + "--" + CRLF;
    assert s == Dash(b) + "--" + CRLF + "";
    BoundaryLine(b, "--", "");
    assert TakeLine(s)[|Dash(b)|..] == "--" + CRLF && SkipBlanks("--" + CRLF) == "--" + CRLF;
    assert TakeLine(s)[|Dash(b)| + 2..] == CRLF && SkipBlanks(CRLF) == CRLF;
  }

  /** Between two parts stands one line break. */
  lemma SkipBreak(b: string, s: string)
    ensures NextPart(CRLF + s, b, CRLF, true, false) == NextPart(s, b, CRLF, true, true)
  {
    var t := CRLF + s;
    assert t == [CR] + [LF] + s;
    IndexOfMiddle([CR], LF, s);
    assert TakeLine(t) == CRLF && AfterLine(t) == s;
    assert !(Dash(b) <= CRLF) by { assert Dash(b)[0] == '-'; }
    assert !(Dash(b) + "--" <= CRLF) by { assert (Dash(b) + "--")[0] == '-'; }
  }
}

/** Base64 as attachments use it: Go's StdEncoding (section 4 of RFC 4648) and the 76-column
    wrapping of section 6.8 of RFC 2045 (internal/mimeutil/build.go:64-73). */
module Base64 {
  import opened Strings

  datatype Decoded = Bytes(data: seq<byte>) | Corrupt

  type sextet = n: int | 0 <= n < 64

  predicate IsBase64(c: char) {
    'A' <= c <= 'Z' || 'a' <= c <= 'z' || '0' <= c <= '9' || c == '+' || c == '/'
  }

  function ToChar(n: sextet): (c: char)
    ensures IsBase64(c)
  {
    if n < 26 then (n + 65) as char
    else if n < 52 then (n + 71) as char
    else if n < 62 then (n - 4) as char
    else if n == 62 then '+'
    else '/'
  }

  function FromChar(c: char): sextet
    requires IsBase64(c)
  {
    if 'A' <= c <= 'Z' then c as int - 65
    else if 'a' <= c <= 'z' then c as int - 71
    else if '0' <= c <= '9' then c as int + 4
    else if c == '+' then 62
    else 63
  }

  /** The alphabet of the standard (table 1 of RFC 4648): upper case, lower case, digits, plus and slash. */
  lemma Alphabet(n: sextet)
    ensures n < 26 ==> ToChar(n) == 'A' + n as char
    ensures 26 <= n < 52 ==> ToChar(n) == 'a' + (n - 26) as char
    ensures 52 <= n < 62 ==> ToChar(n) == '0' + (n - 52) as char
    ensures ToChar(62) == '+' && ToChar(63) == '/'
  {
  }

  /** Three bytes are one number of four digits in base 64, the first byte and the first digit weighing most. */
  lemma EncodingMeaning(x: byte, y: byte, z: byte) returns (p: sextet, q: sextet, r: sextet, t: sextet)
    ensures Encode([x, y, z]) == [ToChar(p), ToChar(q), ToChar(r), ToChar(t)]
    ensures ((p * 64 + q) * 64 + r) * 64 + t == (x * 256 + y) * 256 + z
  {
    EncodedThree(x, y, z);
    p, q, r, t := x / 4, x % 4 * 16 + y / 16, y % 16 * 4 + z / 64, z % 64;
    Repack(x, y, z);
  }

  /** Two bytes and one byte are filled up with zero bits and equals signs. */
  lemma PaddingMeaning(x: byte, y: byte) returns (p: sextet, q: sextet, r: sextet, last: sextet)
    ensures Encode([x, y]) == [ToChar(p), ToChar(q), ToChar(r), '=']
    ensures Encode([x]) == [ToChar(p), ToChar(last), '=', '=']
    ensures (p * 64 + q) * 64 + r == (x * 256 + y) * 4 && p * 64 + last == x * 16
  {
    EncodedTwo(x, y);
    p, q, r, last := x / 4, x % 4 * 16 + y / 16, y % 16 * 4, x % 4 * 16;
    Repack(x, y, 0);
  }

  lemma EncodedThree(x: byte, y: byte, z: byte)
    ensures Encode([x, y, z]) == Quad(x / 4, x % 4 * 16 + y / 16, y % 16 * 4 + z / 64, z % 64)
  {
    assert [x, y, z][3..] == [];
  }

  lemma EncodedTwo(x: byte, y: byte)
    ensures Encode([x, y]) == [ToChar(x / 4), ToChar(x % 4 * 16 + y / 16), ToChar(y % 16 * 4), '=']
    ensures Encode([x]) == [ToChar(x / 4), ToChar(x % 4 * 16), '=', '=']
  {
  }

  lemma CharRoundTrip(n: sextet)
    ensures FromChar(ToChar(n)) == n
  {
  }

  function Quad(p: sextet, q: sextet, r: sextet, t: sextet): string {
    [ToChar(p), ToChar(q), ToChar(r), ToChar(t)]
  }

  function Encode(d: seq<byte>): string {
    if d == [] then ""
    else if |d| == 1 then [ToChar(d[0] / 4), ToChar(d[0] % 4 * 16), '=', '=']
    else if |d| == 2 then
      [ToChar(d[0] / 4), ToChar(d[0] % 4 * 16 + d[1] / 16), ToChar(d[1] % 16 * 4), '=']
    else
      Quad(d[0] / 4, d[0] % 4 * 16 + d[1] / 16, d[1] % 16 * 4 + d[2] / 64, d[2] % 64) + Encode(d[3..])
  }

  /** DecodeString on text without line breaks: quadruples, padding only at the very end,
      left-over bits ignored. */
  function DecodeQuads(s: string): Decoded {
    if s == "" then Bytes([])
    else if |s| < 4 || !IsBase64(s[0]) || !IsBase64(s[1]) then Corrupt
    else
      var a, b := FromChar(s[0]), FromChar(s[1]);
      if s[2] == '=' then
        if s[3] == '=' && |s| == 4 then Bytes([a * 4 + b / 16]) else Corrupt
      else if !IsBase64(s[2]) then Corrupt
      else
        var c := FromChar(s[2]);
        if s[3] == '=' then
          if |s| == 4 then Bytes([a * 4 + b / 16, b % 16 * 16 + c / 4]) else Corrupt
        else if !IsBase64(s[3]) then Corrupt
        else
          var rest := DecodeQuads(s[4..]);
          if rest.Corrupt? then Corrupt
          else Bytes([a * 4 + b / 16, b % 16 * 16 + c / 4, c % 4 * 64 + FromChar(s[3])] + rest.data)
  }

  /** Line breaks are skipped wherever they occur. */
  function Unwrap(s: string): string {
    if s == "" then ""
    else if s[0] == CR || s[0] == LF then Unwrap(s[1..])
    else [s[0]] + Unwrap(s[1..])
  }

  function Decode(s: string): Decoded { DecodeQuads(Unwrap(s)) }

  /** Three bytes out of four sextets, and back. */
  lemma Repack(x: byte, y: byte, z: byte)
    ensures var p, q, r, t := x / 4, x % 4 * 16 + y / 16, y % 16 * 4 + z / 64, z % 64;
            0 <= p < 64 && 0 <= q < 64 && 0 <= r < 64 && 0 <= t < 64
            && p * 4 + q / 16 == x && q % 16 * 16 + r / 4 == y && r % 4 * 64 + t == z
  {
  }

  lemma DecodeQuad(p: sextet, q: sextet, r: sextet, t: sextet, rest: string)
    ensures DecodeQuads(Quad(p, q, r, t) + rest) ==
            var d := DecodeQuads(rest);
            if d.Corrupt? then Corrupt else Bytes(Triple(p, q, r, t) + d.data)
  {
    var s := Quad(p, q, r, t) + rest;
    Prefixed(Quad(p, q, r, t), rest);
    CharRoundTrip(p);
    CharRoundTrip(q);
    CharRoundTrip(r);
    CharRoundTrip(t);
    assert s[0] == ToChar(p) && s[1] == ToChar(q) && s[2] == ToChar(r) && s[3] == ToChar(t);
    DecodeStep(s, p, q, r, t);
  }

  lemma DecodeStep(s: string, p: sextet, q: sextet, r: sextet, t: sextet)
    requires |s| >= 4 && s[0] == ToChar(p) && s[1] == ToChar(q) && s[2] == ToChar(r) && s[3] == ToChar(t)
    requires FromChar(s[0]) == p && FromChar(s[1]) == q && FromChar(s[2]) == r && FromChar(s[3]) == t
    ensures DecodeQuads(s) ==
            var d := DecodeQuads(s[4..]);
            if d.Corrupt? then Corrupt else Bytes(Triple(p, q, r, t) + d.data)
  {
  }

  function Triple(p: sextet, q: sextet, r: sextet, t: sextet): seq<byte> {
    [p * 4 + q / 16, q % 16 * 16 + r / 4, r % 4 * 64 + t]
  }

  lemma DecodePadded(p: sextet, q: sextet)
    ensures DecodeQuads([ToChar(p), ToChar(q), '=', '=']) == Bytes([p * 4 + q / 16])
  {
    CharRoundTrip(p);
    CharRoundTrip(q);
  }

  lemma DecodeOne(x: byte)
    ensures DecodeQuads(Encode([x])) == Bytes([x])
  {
    Repack(x, 0, 0);
    EncodedTwo(x, 0);
    DecodePadded(x / 4, x % 4 * 16);
  }

  lemma DecodeTwo(x: byte, y: byte)
    ensures DecodeQuads(Encode([x, y])) == Bytes([x, y])
  {
    Repack(x, y, 0);
    CharRoundTrip(x / 4);
    CharRoundTrip(x % 4 * 16 + y / 16);
    CharRoundTrip(y % 16 * 4);
  }

  lemma TripleIs(p: sextet, q: sextet, r: sextet, t: sextet, x: byte, y: byte, z: byte)
    requires p * 4 + q / 16 == x && q % 16 * 16 + r / 4 == y && r % 4 * 64 + t == z
    ensures Triple(p, q, r, t) == [x, y, z]
  {
  }

  lemma EncodeThree(x: byte, y: byte, z: byte, d: seq<byte>) returns (p: sextet, q: sextet, r: sextet, t: sextet)
    ensures Encode([x, y, z] + d) == Quad(p, q, r, t) + Encode(d) && Triple(p, q, r, t) == [x, y, z]
  {
    Repack(x, y, z);
    p, q, r, t := x / 4, x % 4 * 16 + y / 16, y % 16 * 4 + z / 64, z % 64;
    TripleIs(p, q, r, t, x, y, z);
    assert ([x, y, z] + d)[3..] == d;
  }

  lemma DecodeThree(x: byte, y: byte, z: byte, d: seq<byte>)
    requires DecodeQuads(Encode(d)) == Bytes(d)
    ensures DecodeQuads(Encode([x, y, z] + d)) == Bytes([x, y, z] + d)
  {
    var p, q, r, t := EncodeThree(x, y, z, d);
    DecodeQuad(p, q, r, t, Encode(d));
  }

  lemma FirstThree<T>(d: seq<T>)
    requires |d| >= 3
    ensures d == [d[0], d[1], d[2]] + d[3..]
  {
  }

  lemma {:induction false} DecodeEncode(d: seq<byte>)
    ensures DecodeQuads(Encode(d)) == Bytes(d)
  {
    if d == [] {
    } else if |d| == 1 {
      DecodeOne(d[0]);
      assert d == [d[0]];
    } else if |d| == 2 {
      DecodeTwo(d[0], d[1]);
      assert d == [d[0], d[1]];
    } else {
      DecodeEncode(d[3..]);
      DecodeThree(d[0], d[1], d[2], d[3..]);
      FirstThree(d);
    }
  }

  /** The characters an encoding is made of. */
  predicate IsEncodingChar(c: char) { IsBase64(c) || c == '=' }

  lemma {:induction false} EncodeChars(d: seq<byte>)
    ensures forall i :: 0 <= i < |Encode(d)| ==> IsEncodingChar(Encode(d)[i])
    ensures Encode(d) == "" <==> d == []
  {
    if |d| >= 3 {
      EncodeChars(d[3..]);
    }
  }

  // ----- wrapping -----

  const LINE_LENGTH: nat := 76

  function Wrap(e: string): string {
    if e == "" then ""
    else if |e| <= LINE_LENGTH then e + CRLF
    else e[..LINE_LENGTH] + CRLF + Wrap(e[LINE_LENGTH..])
  }

  /** The loop that writes the lines. */
  method WrapLines(encoded: string) returns (out: string)
    ensures out == Wrap(encoded)
    ensures |encoded| > 76 ==> encoded[..76] + CRLF <= out
    ensures 0 < |encoded| <= 76 ==> out == encoded + CRLF
  {
    out := "";
    var i := 0;
    while i < |encoded|
      invariant 0 <= i
      invariant out + Wrap(encoded[if i < |encoded| then i else |encoded|..]) == Wrap(encoded)
    {
      var end := i + LINE_LENGTH;
      if end > |encoded| {
        end := |encoded|;
      }
      WrapNext(encoded, i, end);
      Regroup(out, encoded[i..end], CRLF, Wrap(encoded[end..]));
      out := out + encoded[i..end] + CRLF;
      i := i + LINE_LENGTH;
    }
  }

  lemma WrapNext(e: string, i: nat, end: nat)
    requires i < |e| && end == if i + LINE_LENGTH > |e| then |e| else i + LINE_LENGTH
    ensures Wrap(e[i..]) == e[i..end] + CRLF + Wrap(e[end..])
  {
    var rest := e[i..];
    assert e[i..end] == rest[..end - i] && e[end..] == rest[end - i..];
    if |rest| <= LINE_LENGTH {
      assert rest[..end - i] == rest && e[i..end] + CRLF + "" == rest + CRLF;
    }
  }

  predicate NoBreaks(s: string) { forall i :: 0 <= i < |s| ==> s[i] != CR && s[i] != LF }

  lemma {:induction false} UnwrapAppend(a: string, b: string)
    ensures Unwrap(a + b) == Unwrap(a) + Unwrap(b)
  {
    if a == "" {
      assert a + b == b;
    } else {
      UnwrapAppend(a[1..], b);
      assert (a + b)[1..] == a[1..] + b;
    }
  }

  lemma {:induction false} UnwrapPlain(s: string)
    requires NoBreaks(s)
    ensures Unwrap(s) == s
  {
    if s != "" {
      UnwrapPlain(s[1..]);
    }
  }

  /** Unwrapping restores the encoding, also when the last line break is missing. */
  lemma {:induction false} UnwrapWrap(e: string)
    requires NoBreaks(e)
    ensures Unwrap(Wrap(e)) == e
    ensures e != "" ==> |Wrap(e)| > 2 && Wrap(e)[|Wrap(e)| - 2..] == CRLF
                        && Unwrap(Wrap(e)[..|Wrap(e)| - 2]) == e
  {
    if e != "" {
      var w := Wrap(e);
      var head := if |e| <= LINE_LENGTH then e else e[..LINE_LENGTH];
      UnwrapPlain(head);
      UnwrapPlain("");
      assert Unwrap(CRLF) == "" by {
        assert CRLF[1..] == "\n" && CRLF[1..][1..] == "";
      }
      UnwrapAppend(head, CRLF);
      if |e| <= LINE_LENGTH {
        assert w[..|w| - 2] == head;
      } else {
        var rest := Wrap(e[LINE_LENGTH..]);
        UnwrapWrap(e[LINE_LENGTH..]);
        UnwrapAppend(head + CRLF, rest);
        UnwrapAppend(head + CRLF, rest[..|rest| - 2]);
        assert w == head + CRLF + rest;
        assert w[|w| - 2..] == rest[|rest| - 2..];
        assert w[..|w| - 2] == head + CRLF + rest[..|rest| - 2];
      }
    }
  }

  /** At most 76 characters and a carriage return, with no break inside. */
  ghost predicate GoodLine(line: string) {
    line == "" || (|line| <= 77 && line[|line| - 1] == CR && NoBreaks(line[..|line| - 1]))
  }

  /** Every line is at most 76 characters, ends in CRLF, and has no break inside. */
  lemma {:induction false} WrapLineLength(e: string, line: string)
    requires NoBreaks(e) && line in Split(Wrap(e), LF)
    ensures GoodLine(line)
    decreases |e|
  {
    if e == "" {
      SplitLine("", "");
    } else {
      var n := if |e| <= LINE_LENGTH then |e| else LINE_LENGTH;
      WrapSplit(e, n);
      if line == e[..n] + [CR] {
        PrintedLine(e[..n]);
      } else {
        WrapLineLength(e[n..], line);
      }
    }
  }

  lemma WrapSplit(e: string, n: nat)
    requires NoBreaks(e) && e != "" && n == if |e| <= LINE_LENGTH then |e| else LINE_LENGTH
    ensures Split(Wrap(e), LF) == [e[..n] + [CR]] + Split(Wrap(e[n..]), LF)
  {
    WrapNext(e, 0, n);
    assert e[0..] == e && e[0..n] == e[..n] && CRLF == [CR] + [LF];
    Regroup(e[..n], [CR], [LF], Wrap(e[n..]));
    SplitLine(e[..n], Wrap(e[n..]));
  }

  lemma PrintedLine(s: string)
    requires NoBreaks(s) && |s| <= LINE_LENGTH
    ensures GoodLine(s + [CR])
  {
    assert (s + [CR])[..|s|] == s;
  }

  lemma SplitLine(head: string, rest: string)
    requires NoBreaks(head)
    ensures Split(head + [CR] + [LF] + rest, LF) == [head + [CR]] + Split(rest, LF)
    ensures Split("", LF) == [""]
    ensures (head + [CR])[..|head|] == head
  {
    var w := head + [CR] + [LF] + rest;
    IndexOfMiddle(head + [CR], LF, rest);
    assert w[..|head| + 1] == head + [CR] && w[|head| + 2..] == rest;
  }

  /** What the mailer prints, the mail reader decodes: for every byte string, the wrapped text
      without its final line break decodes to that string. */
  lemma WrappedRoundTrip(d: seq<byte>)
    requires d != []
    ensures var w := Wrap(Encode(d));
            |w| > 2 && w[|w| - 2..] == CRLF && Decode(w[..|w| - 2]) == Bytes(d)
  {
    EncodeChars(d);
    UnwrapWrap(Encode(d));
    DecodeEncode(d);
  }
}

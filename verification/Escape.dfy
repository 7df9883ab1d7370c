/** Escaping by chained replacement (internal/carddav/server.go:314-319,
    internal/imap/server.go:483-487) and what undoes it. */
module Escape {
  import opened Strings

  /** strings.ReplaceAll of a one-byte text. */
  function ReplaceAll(s: string, c: char, text: string): string {
    if s == "" then "" else (if s[0] == c then text else [s[0]]) + ReplaceAll(s[1..], c, text)
  }

  function XmlEscape(s: string): string {
    ReplaceAll(ReplaceAll(ReplaceAll(s, '&', "&amp;"), '<', "&lt;"), '>', "&gt;")
  }

  function EscapeImapString(s: string): string {
    ReplaceAll(ReplaceAll(s, '\\', "\\\\"), '"', "\\\"")
  }

  lemma {:induction false} ReplaceAppend(a: string, b: string, c: char, text: string)
    ensures ReplaceAll(a + b, c, text) == ReplaceAll(a, c, text) + ReplaceAll(b, c, text)
  {
    if a == "" {
      assert a + b == b;
    } else {
      ReplaceAppend(a[1..], b, c, text);
      assert (a + b)[1..] == a[1..] + b;
      Regroup(if a[0] == c then text else [a[0]], ReplaceAll(a[1..], c, text), ReplaceAll(b, c, text), "");
    }
  }

  lemma {:induction false} ReplaceAbsent(s: string, c: char, text: string)
    requires c !in s
    ensures ReplaceAll(s, c, text) == s
  {
    if s != "" {
      assert s[0] in s;
      ReplaceAbsent(s[1..], c, text);
    }
  }

  lemma ReplaceOne(c: char, d: char, text: string)
    ensures ReplaceAll([c], d, text) == if c == d then text else [c]
  {
    assert [c][1..] == "" && text + "" == text;
  }

  /** A text with every character replaced once, by its own image. */
  function Mapped(s: string, image: char -> string): string {
    if s == "" then "" else image(s[0]) + Mapped(s[1..], image)
  }

  // ----- XML -----

  function XmlImage(c: char): string {
    if c == '&' then "&amp;" else if c == '<' then "&lt;" else if c == '>' then "&gt;" else [c]
  }

  lemma XmlOne(c: char)
    ensures XmlEscape([c]) == XmlImage(c)
  {
    ReplaceOne(c, '&', "&amp;");
    if c == '&' {
      ReplaceAbsent("&amp;", '<', "&lt;");
      ReplaceAbsent("&amp;", '>', "&gt;");
    } else {
      ReplaceOne(c, '<', "&lt;");
      if c == '<' {
        ReplaceAbsent("&lt;", '>', "&gt;");
      } else {
        ReplaceOne(c, '>', "&gt;");
      }
    }
  }

  lemma XmlAppend(a: string, b: string)
    ensures XmlEscape(a + b) == XmlEscape(a) + XmlEscape(b)
  {
    ReplaceAppend(a, b, '&', "&amp;");
    var a1, b1 := ReplaceAll(a, '&', "&amp;"), ReplaceAll(b, '&', "&amp;");
    ReplaceAppend(a1, b1, '<', "&lt;");
    ReplaceAppend(ReplaceAll(a1, '<', "&lt;"), ReplaceAll(b1, '<', "&lt;"), '>', "&gt;");
  }

  /** The chain of replacements escapes each character exactly once: no escape is escaped again. */
  lemma {:induction false} XmlOnePass(s: string)
    ensures XmlEscape(s) == Mapped(s, XmlImage)
  {
    if s != "" {
      XmlOnePass(s[1..]);
      XmlAppend([s[0]], s[1..]);
      XmlOne(s[0]);
      assert s == [s[0]] + s[1..];
    }
  }

  /** No angle bracket survives. */
  lemma {:induction false} XmlNoBrackets(s: string)
    ensures '<' !in Mapped(s, XmlImage) && '>' !in Mapped(s, XmlImage)
  {
    if s != "" {
      XmlNoBrackets(s[1..]);
    }
  }

  /** Reads the three character references back. */
  function XmlUnescape(s: string): string
    decreases |s|
  {
    if s == "" then ""
    else if HasPrefix(s, "&amp;") then "&" + XmlUnescape(s[5..])
    else if HasPrefix(s, "&lt;") then "<" + XmlUnescape(s[4..])
    else if HasPrefix(s, "&gt;") then ">" + XmlUnescape(s[4..])
    else [s[0]] + XmlUnescape(s[1..])
  }

  lemma {:induction false} XmlUnescapeMapped(s: string)
    ensures XmlUnescape(Mapped(s, XmlImage)) == s
  {
    if s != "" {
      var rest := Mapped(s[1..], XmlImage);
      XmlUnescapeMapped(s[1..]);
      XmlUnescapeImage(s[0], rest);
      assert s == [s[0]] + s[1..];
    }
  }

  lemma XmlUnescapeImage(c: char, rest: string)
    ensures XmlUnescape(XmlImage(c) + rest) == [c] + XmlUnescape(rest)
  {
    var t := XmlImage(c) + rest;
    assert t[|XmlImage(c)|..] == rest;
    if c == '&' {
      assert t[..5] == "&amp;";
    } else if c == '<' {
      assert t[..4] == "&lt;" && t[1] == 'l';
      assert !HasPrefix(t, "&amp;") by { assert "&amp;"[1] == 'a'; }
    } else if c == '>' {
      assert t[..4] == "&gt;" && t[1] == 'g';
      assert !HasPrefix(t, "&amp;") by { assert "&amp;"[1] == 'a'; }
      assert !HasPrefix(t, "&lt;") by { assert "&lt;"[1] == 'l'; }
    } else {
      assert t[0] == c;
      assert !HasPrefix(t, "&amp;") by { assert "&amp;"[0] == '&'; }
      assert !HasPrefix(t, "&lt;") by { assert "&lt;"[0] == '&'; }
      assert !HasPrefix(t, "&gt;") by { assert "&gt;"[0] == '&'; }
    }
  }

  /** Escaped text holds no raw angle bracket and reads back as the original. */
  lemma XmlRoundTrip(s: string)
    ensures XmlUnescape(XmlEscape(s)) == s
    ensures '<' !in XmlEscape(s) && '>' !in XmlEscape(s)
  {
    XmlOnePass(s);
    XmlNoBrackets(s);
    XmlUnescapeMapped(s);
  }

  // ----- IMAP quoted strings -----

  function ImapImage(c: char): string {
    if c == '\\' then "\\\\" else if c == '"' then "\\\"" else [c]
  }

  lemma {:induction false} ImapOnePass(s: string)
    ensures EscapeImapString(s) == Mapped(s, ImapImage)
  {
    if s != "" {
      var c, rest := s[0], s[1..];
      ImapOnePass(rest);
      assert s == [c] + rest;
      ReplaceAppend([c], rest, '\\', "\\\\");
      ReplaceAppend(ReplaceAll([c], '\\', "\\\\"), ReplaceAll(rest, '\\', "\\\\"), '"', "\\\"");
      ImapOne(c);
    }
  }

  lemma ImapOne(c: char)
    ensures EscapeImapString([c]) == ImapImage(c)
  {
    ReplaceOne(c, '\\', "\\\\");
    if c == '\\' {
      ReplaceAbsent("\\\\", '"', "\\\"");
    } else {
      ReplaceOne(c, '"', "\\\"");
    }
  }

  /** A character that a quoted string may hold: seven bits, no NUL, no line break (section 9 of RFC 3501,
      TEXT-CHAR). */
  predicate TextChar(c: char) { 0 < c as int < 0x80 && c != CR && c != LF }

  /** A reader of a quoted string (sections 4.3 and 9 of RFC 3501), after the opening quote: a backslash passes
      a quote or a backslash through, a bare quote ends the string, and nothing but text characters may
      come before that. */
  datatype Quoted = Unfinished | Malformed | Closed(text: string, after: string)

  function ReadQuoted(s: string): Quoted
    decreases |s|
  {
    if s == "" then Unfinished
    else if s[0] == '"' then Closed("", s[1..])
    else if s[0] == '\\' then
      if |s| == 1 then Unfinished
      else if s[1] == '"' || s[1] == '\\' then Prepend(s[1], ReadQuoted(s[2..]))
      else Malformed
    else if !TextChar(s[0]) then Malformed
    else Prepend(s[0], ReadQuoted(s[1..]))
  }

  function Prepend(c: char, q: Quoted): Quoted {
    if q.Closed? then Closed([c] + q.text, q.after) else q
  }

  /** A reader of the quoted string gets the text back and stops at the closing quote, exactly if the text
      holds nothing but text characters; other text it rejects.  No quote inside ends the string early. */
  lemma {:induction false} ImapRoundTrip(s: string, after: string)
    ensures ReadQuoted(EscapeImapString(s) + "\"" + after) ==
            if forall c :: c in s ==> TextChar(c) then Closed(s, after) else Malformed
  {
    ImapOnePass(s);
    var all := Mapped(s, ImapImage) + "\"" + after;
    if s == "" {
      assert all == "\"" + after && all[1..] == after;
    } else {
      var c, rest := s[0], s[1..];
      ImapOnePass(rest);
      ImapRoundTrip(rest, after);
      var tail := Mapped(rest, ImapImage) + "\"" + after;
      assert all == ImapImage(c) + tail;
      assert all[|ImapImage(c)|..] == tail;
      assert s == [c] + rest;
    }
  }

  /** A decoded subject with a line feed breaks the quoted string it is printed in. */
  lemma BrokenSubject(after: string)
    ensures ReadQuoted(EscapeImapString("a\nb") + "\"" + after) == Malformed
  {
    assert "a\nb"[1] == LF && LF in "a\nb";
    ImapRoundTrip("a\nb", after);
  }
}

/** The buffered line reader of the IMAP server (internal/imap/server.go:602-640).  Bytes are
    characters; the connection hands them out in chunks of its own choosing and then fails, perhaps
    with some last bytes beside the error. */
module LineReader {
  import opened Strings

  const BUFFER_SIZE: nat := 4096

  function Concat(chunks: seq<string>): string {
    if chunks == [] then "" else chunks[0] + Concat(chunks[1..])
  }

  function TrimReturns(s: string): string {
    if s != "" && s[|s| - 1] == CR then TrimReturns(s[..|s| - 1]) else s
  }

  class Conn {
    var incoming: seq<string>
    var last: string             // what the failing read still brings

    ghost predicate Valid()
      reads this
    {
      |last| <= BUFFER_SIZE && forall c :: c in incoming ==> |c| <= BUFFER_SIZE
    }

    /** Everything the peer sent and the reader has not got. */
    ghost function Sent(): string
      reads this
    {
      Concat(incoming) + last
    }

    constructor (incoming: seq<string>, last: string)
      requires |last| <= BUFFER_SIZE && forall c :: c in incoming ==> |c| <= BUFFER_SIZE
      ensures Valid() && this.incoming == incoming && this.last == last
    {
      this.incoming, this.last := incoming, last;
    }

    /** net.Conn.Read: one chunk, possibly empty; or, once none is left, an error, which like any
        io.Reader's may come with bytes. */
    method Read(buf: array<char>) returns (n: nat, ok: bool)
      requires Valid() && buf.Length == BUFFER_SIZE
      modifies this, buf
      ensures Valid() && ok == (old(incoming) != []) && n <= BUFFER_SIZE
      ensures ok ==> buf[..n] == old(incoming)[0] && incoming == old(incoming)[1..] && last == old(last)
      ensures !ok ==> buf[..n] == old(last) && incoming == [] && last == ""
    {
      ok := incoming != [];
      var chunk := last;
      if ok {
        chunk := incoming[0];
        incoming := incoming[1..];
      } else {
        last := "";
      }
      n := |chunk|;
      forall i | 0 <= i < n {
        buf[i] := chunk[i];
      }
    }
  }

  class Reader {
    const conn: Conn
    const buf: array<char>
    var pos: nat
    var end: nat

    ghost predicate Valid()
      reads this, conn
    {
      buf.Length == BUFFER_SIZE && pos <= end <= BUFFER_SIZE && conn.Valid()
    }

    /** Everything received and not yet returned, and everything that reads without an error will bring. */
    ghost function Pending(): string
      requires Valid()
      reads this, conn, buf
    {
      buf[pos..end] + Concat(conn.incoming)
    }

    constructor (conn: Conn)
      requires conn.Valid()
      ensures Valid() && fresh(buf) && this.conn == conn && Pending() == Concat(conn.incoming)
    {
      this.conn := conn;
      buf := new char[BUFFER_SIZE](i => ' ');
      pos, end := 0, 0;
    }

    /** The first line feed in the buffer, or its end. */
    method Scan() returns (i: nat)
      requires Valid()
      ensures pos <= i <= end && LF !in buf[pos..i] && (i < end ==> buf[i] == LF)
    {
      i := pos;
      while i < end && buf[i] != LF
        invariant pos <= i <= end && LF !in buf[pos..i]
      {
        i := i + 1;
      }
    }

    /** readLine: the text before the next line feed, without trailing carriage returns; what
        follows the line feed stays pending.  When the connection fails first, the error comes with
        all that was pending, but without the bytes of the failing read. */
    method ReadLine() returns (line: string, ok: bool)
      requires Valid()
      modifies this`pos, this`end, buf, conn
      ensures Valid()
      ensures ok == (LF in old(Pending()))
      ensures ok ==> var s := old(Pending());
                     line == TrimReturns(s[..IndexOf(s, LF)]) && Pending() == s[IndexOf(s, LF) + 1..]
                     && conn.last == old(conn.last)
      ensures !ok ==> line == old(Pending()) && conn.incoming == [] && conn.last == ""
    {
      line := "";
      ghost var s, last := Pending(), conn.last;
      while true
        invariant Valid() && conn.last == last
        invariant s == line + Pending() && LF !in line
        decreases |conn.incoming|
      {
        var i := Scan();
        if i < end {
          line := EndLine(line, i, s);
          return line, true;
        }
        line := AddBuffer(line, s);
        var more := Refill();
        if !more {
          assert line + "" == line;
          return line, false;
        }
      }
    }

    /** The whole buffer belongs to the line. */
    method AddBuffer(line: string, ghost s: string) returns (longer: string)
      requires Valid() && LF !in buf[pos..end] && LF !in line && s == line + Pending()
      ensures LF !in longer && s == longer + Concat(conn.incoming)
    {
      Regroup(line, buf[pos..end], Concat(conn.incoming), "");
      longer := line + buf[pos..end];
    }

    /** The line feed at `i` ends the line. */
    method EndLine(line: string, i: nat, ghost s: string) returns (full: string)
      requires Valid() && pos <= i < end && buf[i] == LF && LF !in buf[pos..i]
      requires LF !in line && s == line + Pending()
      modifies this`pos
      ensures Valid() && LF in s
      ensures full == TrimReturns(s[..IndexOf(s, LF)]) && Pending() == s[IndexOf(s, LF) + 1..]
    {
      assert buf[pos..end] == buf[pos..i] + [LF] + buf[i + 1..end];
      FirstBreak(s, line, buf[pos..i], buf[i + 1..end], Concat(conn.incoming));
      full := TrimReturns(line + buf[pos..i]);
      pos := i + 1;
    }

    /** The next chunk replaces the buffer, of which everything was used. */
    method Refill() returns (more: bool)
      requires Valid()
      modifies this`pos, this`end, buf, conn
      ensures Valid() && more == (old(conn.incoming) != [])
      ensures more ==>
                Pending() == Concat(old(conn.incoming)) && |conn.incoming| < |old(conn.incoming)|
                 && conn.last == old(conn.last)
      ensures !more ==> conn.incoming == [] && Concat(old(conn.incoming)) == "" && conn.last == ""
    {
      var n;
      n, more := conn.Read(buf);
      if more {
        pos, end := 0, n;
        assert buf[0..n] == buf[..n];
      }
    }

    /** The connection loop: every line until the connection fails.  Nothing the peer sent is lost exactly
        when the failing read brought no bytes. */
    method ReadLines() returns (lines: seq<string>, tail: string)
      requires Valid()
      modifies this`pos, this`end, buf, conn
      ensures lines == Lines(old(Pending())) && tail == Tail(old(Pending()))
      ensures var sent := old(Pending() + conn.last);
              (lines == Lines(sent) && tail == Tail(sent)) <==> old(conn.last) == ""
    {
      BytesLost(Pending(), conn.last);
      lines, tail := CollectLines();
    }

    method CollectLines() returns (lines: seq<string>, tail: string)
      requires Valid()
      modifies this`pos, this`end, buf, conn
      ensures lines == Lines(old(Pending())) && tail == Tail(old(Pending()))
    {
      lines := [];
      ghost var s := Pending();
      while true
        invariant Valid() && ReadSoFar(s, lines, Pending())
        decreases |Pending()|
      {
        ReadNext(s, lines, Pending());
        var line, ok := ReadLine();
        if !ok {
          return lines, line;
        }
        lines := lines + [line];
      }
    }
  }

  /** `lines` were read of `s`, `rest` is still to come. */
  ghost predicate ReadSoFar(s: string, lines: seq<string>, rest: string) {
    Lines(s) == lines + Lines(rest) && Tail(s) == Tail(rest)
  }

  lemma ReadNext(s: string, lines: seq<string>, rest: string)
    requires ReadSoFar(s, lines, rest)
    ensures if LF in rest then
              ReadSoFar(s, lines + [TrimReturns(rest[..IndexOf(rest, LF)])], rest[IndexOf(rest, LF) + 1..])
            else lines == Lines(s) && rest == Tail(s)
  {
    if LF in rest {
      Regroup(lines, [TrimReturns(rest[..IndexOf(rest, LF)])], Lines(rest[IndexOf(rest, LF) + 1..]), []);
    }
  }

  lemma FirstBreak(s: string, line: string, before: string, after: string, more: string)
    requires LF !in line && LF !in before && s == line + ((before + [LF] + after) + more)
    ensures LF in s && s[..IndexOf(s, LF)] == line + before && s[IndexOf(s, LF) + 1..] == after + more
  {
    Regroup(line, before + [LF] + after, more, "");
    Regroup(line, before, [LF], after);
    Regroup(line + before + [LF], after, more, "");
    assert s == (line + before) + [LF] + (after + more);
    IndexOfMiddle(line + before, LF, after + more);
    assert s[|line + before|] == LF;
    Prefixed(line + before, [LF] + (after + more));
    Prefixed(line + before + [LF], after + more);
  }

  // ----- what the lines of a stream are -----

  function Lines(s: string): seq<string> {
    if LF !in s then []
    else [TrimReturns(s[..IndexOf(s, LF)])] + Lines(s[IndexOf(s, LF) + 1..])
  }

  function Tail(s: string): string {
    if LF !in s then s else Tail(s[IndexOf(s, LF) + 1..])
  }

  /** More text continues the last, unfinished line. */
  lemma {:induction false} LinesContinued(s: string, t: string)
    ensures Lines(s + t) == Lines(s) + Lines(Tail(s) + t) && Tail(s + t) == Tail(Tail(s) + t)
    decreases |s|
  {
    if LF in s {
      LinesContinued(s[IndexOf(s, LF) + 1..], t);
      LinesStep(s);
      ContinuedStep(s, t, Lines(Tail(s) + t));
    } else {
      NoLines(s);
      assert [] + Lines(s + t) == Lines(s + t);
    }
  }

  lemma NoLines(s: string)
    requires LF !in s
    ensures Lines(s) == [] && Tail(s) == s
  {
  }

  lemma ContinuedStep(s: string, t: string, more: seq<string>)
    requires LF in s && Lines(s[IndexOf(s, LF) + 1..] + t) == Lines(s[IndexOf(s, LF) + 1..]) + more
    ensures Lines(s + t) == Lines(s) + more && Tail(s + t) == Tail(s[IndexOf(s, LF) + 1..] + t)
  {
    var i := IndexOf(s, LF);
    FirstLine(s, t, i);
    LinesStep(s);
    LinesStep(s + t);
    Regroup([TrimReturns(s[..i])], Lines(s[i + 1..]), more, []);
  }

  lemma LinesStep(s: string)
    requires LF in s
    ensures Lines(s) == [TrimReturns(s[..IndexOf(s, LF)])] + Lines(s[IndexOf(s, LF) + 1..])
    ensures Tail(s) == Tail(s[IndexOf(s, LF) + 1..])
  {
  }

  lemma FirstLine(s: string, t: string, i: nat)
    requires LF in s && i == IndexOf(s, LF)
    ensures i < |s| && LF in s + t && IndexOf(s + t, LF) == i && (s + t)[..i] == s[..i]
            && (s + t)[i + 1..] == s[i + 1..] + t
  {
    IndexOfIs(s + t, LF, i);
    assert (s + t)[i] == LF;
  }

  /** Dropping the end of a stream shows in its lines or in what is left after them. */
  lemma BytesLost(s: string, last: string)
    ensures (Lines(s) == Lines(s + last) && Tail(s) == Tail(s + last)) <==> last == ""
  {
    var t := Tail(s);
    LinesContinued(s, last);
    if last == "" {
      assert s + last == s;
    } else if LF in last {
      var i :| 0 <= i < |last| && last[i] == LF;
      assert (t + last)[|t| + i] == LF;
      assert |Lines(t + last)| > 0;
    } else {
      TailUnbroken(s);
      assert LF !in t + last;
    }
  }

  lemma {:induction false} TailUnbroken(s: string)
    ensures LF !in Tail(s)
  {
    if LF in s {
      TailUnbroken(s[IndexOf(s, LF) + 1..]);
    }
  }

  function TrimEach(parts: seq<string>): seq<string> {
    seq(|parts|, i requires 0 <= i < |parts| => TrimReturns(parts[i]))
  }

  lemma TrimMore(part: string, parts: seq<string>)
    requires parts != []
    ensures var all := [part] + parts;
            TrimEach(all[..|all| - 1]) == [TrimReturns(part)] + TrimEach(parts[..|parts| - 1])
            && all[|all| - 1] == parts[|parts| - 1]
  {
  }

  /** The lines are the newline split of the whole stream, each without trailing carriage
      returns, and what is left when the connection fails is the split's last part: nothing is
      lost, duplicated or moved to another line, however the stream was cut into chunks. */
  lemma {:induction false} LinesAreSplit(s: string)
    ensures var parts := Split(s, LF);
            Lines(s) == TrimEach(parts[..|parts| - 1]) && Tail(s) == parts[|parts| - 1]
            && Join(parts, [LF]) == s
  {
    SplitParts(s, LF);
    if LF in s {
      var i := IndexOf(s, LF);
      assert i < |s|;
      LinesAreSplit(s[i + 1..]);
      TrimMore(s[..i], Split(s[i + 1..], LF));
    } else {
      IndexOfIs(s, LF, |s|);
    }
  }

  /** No line contains a line feed or ends in a carriage return. */
  lemma {:induction false} LinesClean(s: string, line: string)
    requires line in Lines(s)
    ensures LF !in line && (line != "" ==> line[|line| - 1] != CR)
  {
    var i := IndexOf(s, LF);
    if line == TrimReturns(s[..i]) {
      TrimReturnsClean(s[..i]);
    } else {
      LinesClean(s[i + 1..], line);
    }
  }

  lemma {:induction false} TrimReturnsClean(s: string)
    ensures TrimReturns(s) <= s && (TrimReturns(s) != "" ==> TrimReturns(s)[|TrimReturns(s)| - 1] != CR)
  {
    if s != "" && s[|s| - 1] == CR {
      TrimReturnsClean(s[..|s| - 1]);
    }
  }
}

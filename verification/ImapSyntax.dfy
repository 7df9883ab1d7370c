/** The hand-written IMAP parsers for sequence sets and FETCH items
    (internal/imap/server.go:521-600; section 9 of RFC 3501). */
module ImapSyntax {
  import opened Strings

  // ----- sequence sets -----

  function Clamp(n: nat, total: nat): nat {
    if n < 1 then 1 else if n > total then total else n
  }

  /** parseSeqNum: anything but digits is skipped. */
  function SeqNum(s: string, total: nat): nat {
    if TrimSpace(s) == "*" then total else Clamp(DigitsValue(TrimSpace(s)), total)
  }

  method ParseSeqNum(s: string, total: nat) returns (r: nat)
    ensures r == SeqNum(s, total)
  {
    var t := TrimSpace(s);
    if t == "*" {
      return total;
    }
    var n := 0;
    for i := 0 to |t|
      invariant n == DigitsValue(t[..i])
    {
      TakeNext(t, i);
      if IsDigit(t[i]) {
        n := n * 10 + (t[i] as int - '0' as int);
      }
    }
    assert t[..|t|] == t;
    if n < 1 {
      return 1;
    }
    if n > total {
      return total;
    }
    return n;
  }

  /** The zero-based indices of the numbers from a to b, in order. */
  function Indices(a: nat, b: nat): seq<int> {
    if b < a then [] else seq(b - a + 1, i => a + i - 1)
  }

  function PartIndices(part: string, total: nat): seq<int> {
    var i := IndexOf(part, ':');
    if i < |part| then
      var a, b := SeqNum(part[..i], total), SeqNum(part[i + 1..], total);
      if a > b then Indices(b, a) else Indices(a, b)
    else [SeqNum(part, total) - 1]
  }

  function Flatten(lists: seq<seq<int>>): seq<int> {
    if lists == [] then [] else Flatten(lists[..|lists| - 1]) + lists[|lists| - 1]
  }

  function AllIndices(parts: seq<string>, total: nat): seq<int> {
    Flatten(seq(|parts|, i requires 0 <= i < |parts| => PartIndices(parts[i], total)))
  }

  function SequenceSet(s: string, total: nat): seq<int> { AllIndices(Split(s, ','), total) }

  method RangeIndices(start: nat, end: nat) returns (result: seq<int>)
    requires start <= end
    ensures result == Indices(start, end)
  {
    result := [];
    for i := start to end + 1
      invariant |result| == i - start && forall k :: 0 <= k < i - start ==> result[k] == start + k - 1
    {
      result := result + [i - 1];
    }
  }

  method ParseSequenceSet(s: string, total: nat) returns (result: seq<int>)
    ensures result == SequenceSet(s, total)
  {
    result := [];
    var parts := Split(s, ',');
    for k := 0 to |parts|
      invariant result == AllIndices(parts[..k], total)
    {
      NextPart(parts, k, total);
      var part := ParsePart(parts[k], total);
      result := result + part;
    }
    assert parts[..|parts|] == parts;
  }

  lemma NextPart(parts: seq<string>, k: nat, total: nat)
    requires k < |parts|
    ensures AllIndices(parts[..k + 1], total) == AllIndices(parts[..k], total) + PartIndices(parts[k], total)
  {
    var lists := seq(k + 1, i requires 0 <= i < k + 1 => PartIndices(parts[i], total));
    assert lists[..k] == seq(k, i requires 0 <= i < k => PartIndices(parts[..k][i], total));
    assert lists == seq(k + 1, i requires 0 <= i < k + 1 => PartIndices(parts[..k + 1][i], total));
  }

  method ParsePart(part: string, total: nat) returns (result: seq<int>)
    ensures result == PartIndices(part, total)
  {
    var colon := IndexOf(part, ':');
    if colon < |part| {
      var start := ParseSeqNum(part[..colon], total);
      var end := ParseSeqNum(part[colon + 1..], total);
      if start > end {
        start, end := end, start;
      }
      result := RangeIndices(start, end);
    } else {
      var n: int := ParseSeqNum(part, total);
      result := [n - 1];
    }
  }

  // ----- what a sequence set means -----

  datatype Number = Star | Num(n: nat)
  datatype Range = One(x: Number) | Pair(x: Number, y: Number)

  function PrintNumber(x: Number): string { if x.Star? then "*" else Decimal(x.n) }

  function PrintRange(r: Range): string {
    if r.One? then PrintNumber(r.x) else PrintNumber(r.x) + ":" + PrintNumber(r.y)
  }

  function PrintRanges(rs: seq<Range>): seq<string> {
    seq(|rs|, i requires 0 <= i < |rs| => PrintRange(rs[i]))
  }

  function Print(rs: seq<Range>): string { Join(PrintRanges(rs), ",") }

  /** The message a number stands for, `*` being the last. */
  function Message(x: Number, total: nat): nat { if x.Star? then total else Clamp(x.n, total) }

  /** A range covers what lies between its two ends, whichever comes first. */
  predicate Covers(r: Range, total: nat, message: int) {
    if r.One? then message == Message(r.x, total)
    else
      var a, b := Message(r.x, total), Message(r.y, total);
      a <= message <= b || b <= message <= a
  }

  lemma PrintedNumber(x: Number, total: nat)
    ensures SeqNum(PrintNumber(x), total) == Message(x, total)
    ensures ':' !in PrintNumber(x) && ',' !in PrintNumber(x)
  {
    var s := PrintNumber(x);
    if x.Num? {
      DecimalValue(x.n);
      forall c | c in s ensures IsDigit(c) {
        var i :| 0 <= i < |s| && s[i] == c;
      }
      assert s[0] in s && s[|s| - 1] in s;
    }
    TrimSpaceId(s);
  }

  lemma PrintedRange(r: Range, total: nat)
    ensures ',' !in PrintRange(r)
    ensures PartIndices(PrintRange(r), total) ==
            if r.One? then [Message(r.x, total) - 1]
            else
              var a, b := Message(r.x, total), Message(r.y, total);
              if a > b then Indices(b, a) else Indices(a, b)
  {
    PrintedNumber(r.x, total);
    if r.Pair? {
      PrintedNumber(r.y, total);
      IndexOfMiddle(PrintNumber(r.x), ':', PrintNumber(r.y));
      var s := PrintRange(r);
      assert s[..|PrintNumber(r.x)|] == PrintNumber(r.x) && s[|PrintNumber(r.x)| + 1..] == PrintNumber(r.y);
    } else {
      IndexOfIs(PrintRange(r), ':', |PrintRange(r)|);
    }
  }

  lemma {:induction false} FlattenMember(lists: seq<seq<int>>, i: int)
    ensures i in Flatten(lists) <==> exists k :: 0 <= k < |lists| && i in lists[k]
  {
    if lists != [] {
      FlattenMember(lists[..|lists| - 1], i);
    }
  }

  lemma AllIndicesMeaning(parts: seq<string>, total: nat, i: int)
    ensures i in AllIndices(parts, total) <==> exists k :: 0 <= k < |parts| && i in PartIndices(parts[k], total)
  {
    var lists := seq(|parts|, k requires 0 <= k < |parts| => PartIndices(parts[k], total));
    FlattenMember(lists, i);
    if exists k :: 0 <= k < |parts| && i in PartIndices(parts[k], total) {
      var k :| 0 <= k < |parts| && i in PartIndices(parts[k], total);
      assert i in lists[k];
    }
  }

  /** A printed sequence set selects exactly the messages its ranges cover. */
  lemma SequenceSetMeaning(rs: seq<Range>, total: nat, i: int)
    requires rs != []
    ensures i in SequenceSet(Print(rs), total) <==> exists r :: r in rs && Covers(r, total, i + 1)
  {
    var parts := PrintRanges(rs);
    forall p | p in parts ensures ',' !in p {
      var k :| 0 <= k < |rs| && p == PrintRange(rs[k]);
      PrintedRange(rs[k], total);
    }
    SplitJoin(parts, ',');
    AllIndicesMeaning(parts, total, i);
    forall k | 0 <= k < |rs| ensures i in PartIndices(parts[k], total) <==> Covers(rs[k], total, i + 1) {
      PrintedRange(rs[k], total);
      InIndices(rs[k], total, i);
    }
    if i in SequenceSet(Print(rs), total) {
      var k :| 0 <= k < |parts| && i in PartIndices(parts[k], total);
      assert rs[k] in rs;
    }
    if exists r :: r in rs && Covers(r, total, i + 1) {
      var r :| r in rs && Covers(r, total, i + 1);
      var k :| 0 <= k < |rs| && rs[k] == r;
      assert i in PartIndices(parts[k], total);
    }
  }

  lemma InIndices(r: Range, total: nat, i: int)
    ensures r.Pair? ==>
              var a, b := Message(r.x, total), Message(r.y, total);
              i in (if a > b then Indices(b, a) else Indices(a, b)) <==> Covers(r, total, i + 1)
  {
    if r.Pair? {
      var a, b := Message(r.x, total), Message(r.y, total);
      var lo, hi := if a > b then b else a, if a > b then a else b;
      if lo <= i + 1 <= hi {
        assert Indices(lo, hi)[i + 1 - lo] == i;
      }
    }
  }

  lemma PartInRange(part: string, total: nat, i: int)
    requires total >= 1 && i in PartIndices(part, total)
    ensures 0 <= i < total
  {
  }

  /** On a non-empty mailbox every index any text parses to is in range. */
  lemma IndicesInRange(s: string, total: nat, i: int)
    requires total >= 1 && i in SequenceSet(s, total)
    ensures 0 <= i < total
  {
    var parts := Split(s, ',');
    AllIndicesMeaning(parts, total, i);
    var k :| 0 <= k < |parts| && i in PartIndices(parts[k], total);
    PartInRange(parts[k], total, i);
  }

  /** A star is the last message; zero counts as one, and a number beyond the last message as the last. */
  lemma NumberClamped(n: nat, total: nat)
    ensures SeqNum("*", total) == total
    ensures SeqNum(Decimal(n), total) == if n < 1 then 1 else if n > total then total else n
  {
    PrintedNumber(Star, total);
    PrintedNumber(Num(n), total);
  }

  /** A number within the mailbox prints and parses to itself. */
  lemma NumberIdentity(n: nat, total: nat)
    requires 1 <= n <= total
    ensures SequenceSet(Print([One(Num(n))]), total) == [n - 1]
  {
    var parts := PrintRanges([One(Num(n))]);
    PrintedRange(One(Num(n)), total);
    assert parts == [Decimal(n)];
    SplitJoin(parts, ',');
    NextPart(parts, 0, total);
    assert parts[..0] == [] && parts[..1] == parts && AllIndices([], total) == [];
    assert AllIndices(parts, total) == AllIndices(parts[..0], total) + PartIndices(parts[0], total);
  }

  // ----- FETCH items -----

  predicate StartsBracketed(s: string) { HasPrefix(Upper(s), "BODY") || HasPrefix(Upper(s), "RFC822") }

  /** Length of an item that may hold bracketed sections, in which spaces do not end it. */
  function BracketedLength(s: string): (n: nat)
    ensures n <= |s|
    decreases |s|
  {
    if s == "" || s[0] == ' ' then 0
    else if s[0] == '[' then
      var j := IndexOf(s, ']');
      if j == |s| then |s| else j + 1 + BracketedLength(s[j + 1..])
    else 1 + BracketedLength(s[1..])
  }

  function ItemLength(s: string): (n: nat)
    ensures n <= |s|
    ensures s != "" && s[0] != ' ' ==> n > 0
  {
    if StartsBracketed(s) then BracketedLength(s) else IndexOf(s, ' ')
  }

  function Items(s: string): seq<string>
    decreases |s|
  {
    if s == "" then []
    else if s[0] == ' ' then Items(s[1..])
    else
      var n := ItemLength(s);
      [Upper(s[..n])] + Items(s[n..])
  }

  /** Trimmed, and without one pair of parentheses around it. */
  function Unwrapped(s: string): string {
    var t := TrimSpace(s);
    var u := if HasPrefix(t, "(") then t[1..] else t;
    if HasSuffix(u, ")") then u[..|u| - 1] else u
  }

  function DataItems(s: string): seq<string> { Items(Unwrapped(s)) }

  method ParseDataItems(text: string) returns (items: seq<string>)
    ensures items == DataItems(text)
  {
    var s := Unwrapped(text);
    items := [];
    var i := 0;
    while i < |s|
      invariant 0 <= i <= |s| && Found(s, items, s[i..])
    {
      Slices(s, i, i + 1);
      if s[i] == ' ' {
        i := i + 1;
      } else {
        var start := i;
        i := ItemEnd(s, start);
        Slices(s, start, i);
        NextItem(s[start..i], s[i..]);
        Regroup(items, [Upper(s[start..i])], Items(s[i..]), []);
        items := items + [Upper(s[start..i])];
      }
    }
  }

  /** `items` were found in `s`, `rest` is still to be read. */
  ghost predicate Found(s: string, items: seq<string>, rest: string) { Items(s) == items + Items(rest) }

  lemma Slices(s: string, i: nat, j: nat)
    requires i <= j <= |s|
    ensures s[i..] == s[i..j] + s[j..] && s[i..][j - i..] == s[j..]
  {
  }

  lemma NextItem(item: string, rest: string)
    requires item != "" && item[0] != ' ' && |item| == ItemLength(item + rest)
    ensures Items(item + rest) == [Upper(item)] + Items(rest)
  {
    Prefixed(item, rest);
  }

  method ItemEnd(s: string, start: nat) returns (i: nat)
    requires start < |s| && s[start] != ' '
    ensures start < i <= |s| && i - start == ItemLength(s[start..])
  {
    if StartsBracketed(s[start..]) {
      i := BracketedEnd(s, start);
    } else {
      i := AtomEnd(s, start);
    }
  }

  method AtomEnd(s: string, start: nat) returns (i: nat)
    requires start <= |s|
    ensures start <= i <= |s| && i - start == IndexOf(s[start..], ' ')
  {
    i := start;
    while i < |s| && s[i] != ' '
      invariant start <= i <= |s| && forall k :: start <= k < i ==> s[k] != ' '
    {
      i := i + 1;
    }
    IndexOfIs(s[start..], ' ', i - start);
  }

  method BracketedEnd(s: string, start: nat) returns (i: nat)
    requires start <= |s|
    ensures start <= i <= |s| && i - start == BracketedLength(s[start..])
  {
    i := start;
    while i < |s| && s[i] != ' '
      invariant start <= i <= |s|
      invariant i - start + BracketedLength(s[i..]) == BracketedLength(s[start..])
    {
      var next: nat;
      if s[i] == '[' {
        next := SectionEnd(s, i);
      } else {
        next := i + 1;
      }
      Slices(s, i, next);
      i := next;
    }
  }

  /** Past the bracket that closes the section, or to the end of the text. */
  method SectionEnd(s: string, i: nat) returns (j: nat)
    requires i < |s| && s[i] == '['
    ensures i < j <= |s|
    ensures var k := IndexOf(s[i..], ']'); j == if k == |s| - i then |s| else i + k + 1
  {
    j := i;
    while j < |s| && s[j] != ']'
      invariant i <= j <= |s| && forall k :: i <= k < j ==> s[k] != ']'
    {
      j := j + 1;
    }
    IndexOfIs(s[i..], ']', j - i);
    if j < |s| {
      j := j + 1;
    }
  }

  // ----- printed items are found again -----

  /** A plain item, or a BODY/RFC822 item with one bracketed section. */
  datatype Item = Atom(name: string) | Section(name: string, section: string, suffix: string)

  function Text(x: Item): string {
    if x.Atom? then x.name else x.name + "[" + x.section + "]" + x.suffix
  }

  predicate Bare(s: string) { ' ' !in s && '[' !in s }

  predicate GoodItem(x: Item) {
    x.name != "" && Bare(x.name)
    && (x.Section? ==> StartsBracketed(x.name) && ']' !in x.section && ']' !in x.name && Bare(x.suffix))
  }

  function Texts(xs: seq<Item>): seq<string> {
    seq(|xs|, i requires 0 <= i < |xs| => Text(xs[i]))
  }

  function PrintItems(xs: seq<Item>): string { "(" + Join(Texts(xs), " ") + ")" }

  function UpperEach(ts: seq<string>): seq<string> {
    seq(|ts|, i requires 0 <= i < |ts| => Upper(ts[i]))
  }

  /** Nothing follows, or a space. */
  predicate AtEnd(rest: string) { rest == "" || rest[0] == ' ' }

  lemma {:induction false} BareLength(s: string, rest: string)
    requires Bare(s)
    ensures BracketedLength(s + rest) == |s| + BracketedLength(rest)
    decreases |s|
  {
    if s == "" {
      assert s + rest == rest;
    } else {
      assert s[0] in s && (s + rest)[1..] == s[1..] + rest;
      BareLength(s[1..], rest);
    }
  }

  lemma SectionLength(section: string, rest: string)
    requires ']' !in section
    ensures BracketedLength("[" + section + "]" + rest) == |section| + 2 + BracketedLength(rest)
  {
    var s := "[" + section + "]" + rest;
    assert s == ("[" + section) + [']'] + rest;
    IndexOfMiddle("[" + section, ']', rest);
    assert s[|section| + 2..] == rest;
  }

  /** An item ends where it was printed to end, spaces inside its section notwithstanding. */
  lemma PrintedItem(x: Item, rest: string)
    requires GoodItem(x) && AtEnd(rest)
    ensures ItemLength(Text(x) + rest) == |Text(x)| && Text(x)[0] != ' '
  {
    assert x.name[0] in x.name;
    BareLength(x.name, rest);
    assert BracketedLength(rest) == 0;
    if x.Atom? {
      if rest == "" {
        IndexOfIs(x.name + rest, ' ', |x.name|);
      } else {
        assert x.name + rest == x.name + [' '] + rest[1..];
        IndexOfMiddle(x.name, ' ', rest[1..]);
      }
    } else {
      var after := "[" + x.section + "]" + (x.suffix + rest);
      assert Text(x) + rest == x.name + after;
      BareLength(x.name, after);
      SectionLength(x.section, x.suffix + rest);
      BareLength(x.suffix, rest);
      StillBracketed(x.name, after);
    }
  }

  lemma StillBracketed(name: string, rest: string)
    requires StartsBracketed(name)
    ensures StartsBracketed(name + rest)
  {
    assert Upper(name + rest) == Upper(name) + Upper(rest);
  }

  lemma {:induction false} ItemsOfTexts(xs: seq<Item>)
    requires forall x :: x in xs ==> GoodItem(x)
    ensures Items(Join(Texts(xs), " ")) == UpperEach(Texts(xs))
  {
    if xs != [] {
      var x, rest := xs[0], xs[1..];
      assert x in xs;
      ItemsOfTexts(rest);
      TextsMore(x, rest);
      assert xs == [x] + rest;
      var tail := if rest == [] then "" else " " + Join(Texts(rest), " ");
      PrintedItem(x, tail);
      NextItem(Text(x), tail);
      if rest != [] {
        Prefixed(" ", Join(Texts(rest), " "));
      }
    }
  }

  lemma TextsMore(x: Item, rest: seq<Item>)
    ensures Texts([x] + rest) == [Text(x)] + Texts(rest)
    ensures UpperEach([Text(x)] + Texts(rest)) == [Upper(Text(x))] + UpperEach(Texts(rest))
    ensures Join([Text(x)] + Texts(rest), " ") == Text(x) + if rest == [] then "" else " " + Join(Texts(rest), " ")
  {
    var ts := [Text(x)] + Texts(rest);
    assert ts[0] == Text(x) && ts[1..] == Texts(rest);
    Regroup(Text(x), " ", Join(Texts(rest), " "), "");
    assert Text(x) + "" == Text(x);
  }

  /** A parenthesised list of well-formed items parses to exactly those items, upper-cased. */
  lemma PrintedItems(xs: seq<Item>)
    requires forall x :: x in xs ==> GoodItem(x)
    ensures DataItems(PrintItems(xs)) == UpperEach(Texts(xs))
  {
    var inner := Join(Texts(xs), " ");
    var s := PrintItems(xs);
    TrimSpaceId(s);
    assert s[1..] == inner + ")";
    assert (inner + ")")[..|inner|] == inner;
    ItemsOfTexts(xs);
  }

  /** A single item needs no parentheses. */
  lemma PrintedBareItem(x: Item)
    requires GoodItem(x)
    requires var t := Text(x); !IsSpace(t[0]) && !IsSpace(t[|t| - 1]) && t[0] != '(' && t[|t| - 1] != ')'
    ensures DataItems(Text(x)) == [Upper(Text(x))]
  {
    var t := Text(x);
    TrimSpaceId(t);
    assert Texts([x]) == [t];
    ItemsOfTexts([x]);
    assert UpperEach([t]) == [Upper(t)];
  }
}

/** Per-user mail filters (internal/filter/engine.go). */
module Filters {
  import opened Strings

  datatype Condition = Condition(field: string, operator: string, value: string, header: string)
  datatype Action = Action(kind: string, value: string)
  datatype Filter = Filter(conditions: seq<Condition>, actions: seq<Action>, enabled: bool)

  /** The parts of a message a condition can look at. */
  datatype Facts = Facts(from: string, to: seq<string>, title: string, attachmentBytes: int,
                         headers: map<string, string>)

  // ----- conditions -----

  const MAX_INT64: int := 0x7fff_ffff_ffff_ffff

  /** strconv.ParseInt(s, 10, 64) with its error dropped: 0 on bad syntax, saturated when the
      number does not fit. */
  function ParseInt(s: string): int {
    var negative := s != "" && s[0] == '-';
    var digits := if s != "" && (s[0] == '-' || s[0] == '+') then s[1..] else s;
    if digits == "" || !AllDigits(digits) then 0
    else
      var n: int := DigitsValue(digits);
      if negative then (if n > MAX_INT64 + 1 then -MAX_INT64 - 1 else -n)
      else (if n > MAX_INT64 then MAX_INT64 else n)
  }

  function FieldValue(c: Condition, m: Facts): string {
    if c.field == "from" then Lower(m.from)
    else if c.field == "to" then Lower(Join(m.to, ", "))
    else if c.field == "subject" then Lower(m.title)
    else if Lower(c.header) in m.headers then Lower(m.headers[Lower(c.header)])
    else ""
  }

  predicate MatchCondition(c: Condition, m: Facts) {
    if c.field == "attachment_size_gt" then m.attachmentBytes > ParseInt(c.value)
    else if c.field !in {"from", "to", "subject", "header"} then false
    else
      var field, target := FieldValue(c, m), Lower(c.value);
      match c.operator
      case "contains" => exists part :: part in Split(target, '|') && Contains(field, TrimSpace(part))
      case "equals" => field == target
      case "exists" => field != ""
      case "not_contains" => !Contains(field, target)
      case _ => false
  }

  /** The text a condition looks at: sender, recipients, subject, or a header by its name in lower case, "" when
      the mail has none. */
  predicate LooksAt(c: Condition, m: Facts, text: string) {
    || (c.field == "from" && text == m.from)
    || (c.field == "to" && text == Join(m.to, ", "))
    || (c.field == "subject" && text == m.title)
    || (c.field == "header" && Lower(c.header) in m.headers && text == m.headers[Lower(c.header)])
    || (c.field == "header" && Lower(c.header) !in m.headers && text == "")
  }

  lemma TextLookedAt(c: Condition, m: Facts, text: string)
    requires LooksAt(c, m, text)
    ensures FieldValue(c, m) == Lower(text) && c.field in {"from", "to", "subject", "header"}
  {
    assert Lower("") == "";
  }

  /** What the operators mean, case aside; any other operator matches nothing. */
  lemma OperatorMeaning(c: Condition, m: Facts, text: string)
    requires LooksAt(c, m, text)
    ensures c.operator == "equals" ==> (MatchCondition(c, m) <==> Lower(text) == Lower(c.value))
    ensures c.operator == "exists" ==> (MatchCondition(c, m) <==> text != "")
    ensures c.operator == "not_contains" ==> (MatchCondition(c, m) <==> !Contains(Lower(text), Lower(c.value)))
    ensures c.operator !in {"contains", "equals", "exists", "not_contains"} ==> !MatchCondition(c, m)
  {
    TextLookedAt(c, m, text);
  }

  /** `contains`: the text holds one of the alternatives between the bars, trimmed. */
  lemma ContainsMeaning(c: Condition, m: Facts, text: string)
    requires LooksAt(c, m, text) && c.operator == "contains"
    ensures MatchCondition(c, m) <==>
            exists part :: part in Split(Lower(c.value), '|') && Contains(Lower(text), TrimSpace(part))
  {
    TextLookedAt(c, m, text);
  }

  /** The size condition asks for more bytes of attachments than its value; no other field matches anything. */
  lemma FieldMeaning(c: Condition, m: Facts)
    ensures c.field == "attachment_size_gt" ==> (MatchCondition(c, m) <==> m.attachmentBytes > ParseInt(c.value))
    ensures c.field !in {"attachment_size_gt", "from", "to", "subject", "header"} ==> !MatchCondition(c, m)
  {
  }

  /** A printed number is read back, up to the largest there is; text that is no number counts as zero. */
  lemma ParseIntMeaning(n: nat, s: string)
    ensures ParseInt(Decimal(n)) == if n > MAX_INT64 then MAX_INT64 else n
    ensures (exists c :: c in s && !IsDigit(c) && c != '-' && c != '+') ==> ParseInt(s) == 0
  {
    DecimalValue(n);
    assert IsDigit(Decimal(n)[0]);
    if c :| c in s && !IsDigit(c) && c != '-' && c != '+' {
      var i :| 0 <= i < |s| && s[i] == c;
      if s[0] == '-' || s[0] == '+' {
        assert s[1..][i - 1] == c;
      }
    }
  }

  /** A filter fires exactly if it is enabled, has conditions, and all of them match. */
  lemma FiresMeaning(f: Filter, m: Facts)
    ensures Fires(f, m) <==>
            f.enabled && |f.conditions| > 0
            && forall i :: 0 <= i < |f.conditions| ==> MatchCondition(f.conditions[i], m)
  {
    assert forall i :: 0 <= i < |f.conditions| ==> f.conditions[i] in f.conditions;
  }

  /** A filter without conditions matches nothing. */
  predicate MatchesAll(conditions: seq<Condition>, m: Facts) {
    conditions != [] && forall c :: c in conditions ==> MatchCondition(c, m)
  }

  predicate Fires(f: Filter, m: Facts) { f.enabled && MatchesAll(f.conditions, m) }

  /** Everything the matching filters ask for, in order. */
  function Fired(filters: seq<Filter>, m: Facts): seq<Action> {
    if filters == [] then []
    else
      var f := filters[|filters| - 1];
      Fired(filters[..|filters| - 1], m) + if Fires(f, m) then f.actions else []
  }

  lemma {:induction false} FiredMembers(filters: seq<Filter>, m: Facts, a: Action)
    ensures a in Fired(filters, m) <==> exists f :: f in filters && Fires(f, m) && a in f.actions
  {
    if filters != [] {
      var last := |filters| - 1;
      FiredMembers(filters[..last], m, a);
      assert filters == filters[..last] + [filters[last]];
      assert Fired(filters, m) ==
             Fired(filters[..last], m) + if Fires(filters[last], m) then filters[last].actions else [];
    }
  }

  // ----- what a list of actions amounts to -----

  predicate Asks(actions: seq<Action>, kind: string) {
    exists a :: a in actions && a.kind == kind
  }

  /** The value of the last action of a kind, "" when there is none. */
  function LastValue(actions: seq<Action>, kind: string): (v: string)
    ensures !Asks(actions, kind) ==> v == ""
    ensures Asks(actions, kind) ==>
              exists k :: 0 <= k < |actions| && actions[k] == Action(kind, v)
                          && forall j :: k < j < |actions| ==> actions[j].kind != kind
  {
    if actions == [] then ""
    else
      var last := |actions| - 1;
      assert actions == actions[..last] + [actions[last]];
      if actions[last].kind == kind then
        assert actions[last] == Action(kind, actions[last].value);
        actions[last].value
      else
        assert Asks(actions, kind) <==> Asks(actions[..last], kind);
        LastValue(actions[..last], kind)
  }

  function Values(actions: seq<Action>, kind: string): seq<string> {
    if actions == [] then []
    else
      var a := actions[|actions| - 1];
      Values(actions[..|actions| - 1], kind) + if a.kind == kind then [a.value] else []
  }

  datatype Effect = Effect(folder: string, markRead: bool, delete: bool, forward: seq<string>, flagged: bool)

  function EffectOf(actions: seq<Action>): Effect {
    Effect(LastValue(actions, "move"), Asks(actions, "mark_read"), Asks(actions, "delete"),
           Values(actions, "forward"), Asks(actions, "flag"))
  }

  function Outcome(filters: seq<Filter>, m: Facts): Effect { EffectOf(Fired(filters, m)) }

  /** What a mail's filters decide: it is marked read, deleted or flagged exactly if some firing filter says so,
      and goes to the folder of the last `move` among the actions of the firing filters, in order. */
  lemma OutcomeMeaning(filters: seq<Filter>, m: Facts)
    ensures var e := Outcome(filters, m);
            && (e.markRead <==> exists f, v :: f in filters && Fires(f, m) && Action("mark_read", v) in f.actions)
            && (e.delete <==> exists f, v :: f in filters && Fires(f, m) && Action("delete", v) in f.actions)
            && (e.flagged <==> exists f, v :: f in filters && Fires(f, m) && Action("flag", v) in f.actions)
            && ((forall f, v :: f in filters && Fires(f, m) ==> Action("move", v) !in f.actions) ==> e.folder == "")
            && (e.folder != "" ==> exists f :: f in filters && Fires(f, m) && Action("move", e.folder) in f.actions)
  {
    AskedBy(filters, m, "mark_read");
    AskedBy(filters, m, "delete");
    AskedBy(filters, m, "flag");
    AskedBy(filters, m, "move");
    var fired := Fired(filters, m);
    if LastValue(fired, "move") != "" {
      var k :| 0 <= k < |fired| && fired[k] == Action("move", LastValue(fired, "move"));
      FiredMembers(filters, m, fired[k]);
    }
  }

  lemma AskedBy(filters: seq<Filter>, m: Facts, kind: string)
    ensures Asks(Fired(filters, m), kind) <==>
            exists f, v :: f in filters && Fires(f, m) && Action(kind, v) in f.actions
  {
    forall a ensures a in Fired(filters, m) <==> exists f :: f in filters && Fires(f, m) && a in f.actions {
      FiredMembers(filters, m, a);
    }
    if Asks(Fired(filters, m), kind) {
      var a :| a in Fired(filters, m) && a.kind == kind;
      var f :| f in filters && Fires(f, m) && a in f.actions;
      assert a == Action(kind, a.value);
    }
    if f, v :| f in filters && Fires(f, m) && Action(kind, v) in f.actions {
      assert Action(kind, v) in Fired(filters, m);
    }
  }

  /** The order of the firing filters counts: the last firing filter with a `move` decides, whatever comes
      before it. */
  lemma LastMoveWins(filters: seq<Filter>, m: Facts, f: Filter, before: seq<Action>, v: string, after: seq<Action>)
    requires Fires(f, m) && f.actions == before + [Action("move", v)] + after && !Asks(after, "move")
    ensures Outcome(filters + [f], m).folder == v
  {
    assert (filters + [f])[..|filters|] == filters;
    var fired := Fired(filters, m) + f.actions;
    var k := |Fired(filters, m)| + |before|;
    assert fired[k] == Action("move", v);
    forall j | k < j < |fired| ensures fired[j].kind != "move" {
      assert fired[j] == after[j - k - 1] && after[j - k - 1] in after;
    }
    assert fired[k] in fired;
  }

  class FilterResult {
    var folder: string
    var markRead: bool
    var delete: bool
    var forward: seq<string>
    var flagged: bool

    ghost function Value(): Effect
      reads this
    {
      Effect(folder, markRead, delete, forward, flagged)
    }

    constructor ()
      ensures Value() == EffectOf([])
    {
      folder, markRead, delete, forward, flagged := "", false, false, [], false;
    }

    /** One matching filter's actions on top of those applied so far. */
    method ApplyActions(actions: seq<Action>, ghost sofar: seq<Action>)
      requires Value() == EffectOf(sofar)
      modifies this
      ensures Value() == EffectOf(sofar + actions)
    {
      assert sofar + actions[..0] == sofar;
      for i := 0 to |actions|
        invariant Value() == EffectOf(sofar + actions[..i])
      {
        ApplyAction(actions[i]);
        EffectExtend(sofar + actions[..i], actions[i]);
        assert sofar + actions[..i + 1] == sofar + actions[..i] + [actions[i]];
      }
      assert actions[..|actions|] == actions;
    }

    method ApplyAction(a: Action)
      modifies this
      ensures Value() == Extend(old(Value()), a)
    {
      match a.kind {
        case "move" => folder := a.value;
        case "mark_read" => markRead := true;
        case "delete" => delete := true;
        case "forward" => forward := forward + [a.value];
        case "flag" => flagged := true;
        case _ =>
      }
    }
  }

  /** One more action on top of an effect. */
  function Extend(e: Effect, a: Action): Effect {
    Effect(if a.kind == "move" then a.value else e.folder,
           e.markRead || a.kind == "mark_read",
           e.delete || a.kind == "delete",
           e.forward + (if a.kind == "forward" then [a.value] else []),
           e.flagged || a.kind == "flag")
  }

  lemma EffectExtend(done: seq<Action>, a: Action)
    ensures EffectOf(done + [a]) == Extend(EffectOf(done), a)
  {
    assert (done + [a])[..|done|] == done;
    AsksExtend(done, a, "mark_read");
    AsksExtend(done, a, "delete");
    AsksExtend(done, a, "flag");
  }

  lemma AsksExtend(done: seq<Action>, a: Action, kind: string)
    ensures Asks(done + [a], kind) <==> Asks(done, kind) || a.kind == kind
  {
    if Asks(done, kind) {
      var b :| b in done && b.kind == kind;
      assert b in done + [a];
    }
    if a.kind == kind {
      assert a in done + [a];
    }
  }

  method Apply(filters: seq<Filter>, m: Facts) returns (result: FilterResult)
    ensures fresh(result) && result.Value() == Outcome(filters, m)
  {
    result := new FilterResult();
    ghost var sofar := [];
    for i := 0 to |filters|
      invariant fresh(result)
      invariant sofar == Fired(filters[..i], m) && result.Value() == EffectOf(sofar)
    {
      var f := filters[i];
      assert filters[..i + 1][..i] == filters[..i];
      if f.enabled {
        if MatchesAll(f.conditions, m) {
          result.ApplyActions(f.actions, sofar);
          sofar := sofar + f.actions;
        }
      }
    }
    assert filters[..|filters|] == filters;
  }
}

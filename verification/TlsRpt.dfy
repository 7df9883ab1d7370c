/** TLS reporting: what is recorded per recipient domain, the swap at each report tick, and the
    report built from a snapshot (internal/security/tlsrpt.go:56-131, 163-210; RFC 8460). */
module TlsRpt {
  import opened Strings

  datatype Failure = Failure(resultType: string, receivingMx: string, reason: string)

  /** One call of RecordSuccess or RecordFailure. */
  datatype Record = Success(domain: string) | Failed(domain: string, failure: Failure)

  datatype Totals = Totals(successes: nat, failureCount: nat, failures: seq<Failure>)

  // ----- what a series of records amounts to -----

  function SuccessesOf(rs: seq<Record>, d: string): nat {
    if rs == [] then 0
    else SuccessesOf(rs[..|rs| - 1], d) + if rs[|rs| - 1] == Success(d) then 1 else 0
  }

  function FailuresOf(rs: seq<Record>, d: string): seq<Failure> {
    if rs == [] then []
    else
      var r, before := rs[|rs| - 1], FailuresOf(rs[..|rs| - 1], d);
      if r.Failed? && r.domain == d then before + [r.failure] else before
  }

  ghost predicate Mentions(rs: seq<Record>, d: string) {
    exists i :: 0 <= i < |rs| && rs[i].domain == d
  }

  /** `view` tells exactly what was recorded: every domain mentioned, its successes counted, its
      failures kept in order, and their count in step with them. */
  ghost predicate Summarizes(view: map<string, Totals>, rs: seq<Record>) {
    && (forall d :: d in view <==> Mentions(rs, d))
    && (forall d :: d in view ==>
          view[d] == Totals(SuccessesOf(rs, d), |FailuresOf(rs, d)|, FailuresOf(rs, d)))
  }

  function Bumped(view: map<string, Totals>, r: Record): map<string, Totals> {
    view[r.domain := Counted(TotalsOf(view, r.domain), r)]
  }

  function Counted(t: Totals, r: Record): Totals {
    match r
    case Success(_) => t.(successes := t.successes + 1)
    case Failed(_, f) => t.(failureCount := t.failureCount + 1, failures := t.failures + [f])
  }

  function TotalsOf(view: map<string, Totals>, d: string): Totals {
    if d in view then view[d] else Totals(0, 0, [])
  }

  lemma {:induction false} Unmentioned(rs: seq<Record>, d: string)
    requires !Mentions(rs, d)
    ensures SuccessesOf(rs, d) == 0 && FailuresOf(rs, d) == []
  {
    if rs != [] {
      var n := |rs| - 1;
      assert rs[n].domain != d;
      forall i | 0 <= i < n ensures rs[..n][i].domain != d {
        assert rs[..n][i] == rs[i];
      }
      Unmentioned(rs[..n], d);
    }
  }

  lemma SummarizesNext(view: map<string, Totals>, rs: seq<Record>, r: Record)
    requires Summarizes(view, rs)
    ensures Summarizes(Bumped(view, r), rs + [r])
  {
    var all, next := rs + [r], Bumped(view, r);
    assert all[..|rs|] == rs;
    Mentioned(rs, r);
    forall d | d in next
      ensures next[d] == Totals(SuccessesOf(all, d), |FailuresOf(all, d)|, FailuresOf(all, d))
    {
      if d !in view {
        Unmentioned(rs, d);
      }
    }
  }

  lemma Mentioned(rs: seq<Record>, r: Record)
    ensures forall d :: Mentions(rs + [r], d) <==> Mentions(rs, d) || d == r.domain
  {
    var all := rs + [r];
    assert all[|rs|] == r;
    forall d | Mentions(rs, d) ensures Mentions(all, d) {
      var i :| 0 <= i < |rs| && rs[i].domain == d;
      assert all[i].domain == d;
    }
  }

  // ----- the reporter -----

  /** Results for one recipient domain, updated in place. */
  class DomainEvents {
    var successCount: nat
    var failureCount: nat
    var failures: seq<Failure>

    constructor ()
      ensures successCount == 0 && failureCount == 0 && failures == []
    {
      successCount, failureCount, failures := 0, 0, [];
    }

    function Value(): Totals
      reads this
    {
      Totals(successCount, failureCount, failures)
    }
  }

  ghost predicate Separate(events: map<string, DomainEvents>) {
    forall d, e :: d in events && e in events && d != e ==> events[d] != events[e]
  }

  /** The objects hold the totals of `view`, except perhaps those of `but`. */
  ghost predicate Mirrors(events: map<string, DomainEvents>, view: map<string, Totals>, but: set<string>)
    reads events.Values
  {
    events.Keys == view.Keys && forall d :: d in events && d !in but ==> events[d].Value() == view[d]
  }

  lemma BumpedMirrors(events: map<string, DomainEvents>, before: map<string, Totals>, r: Record)
    requires Mirrors(events, before[r.domain := TotalsOf(before, r.domain)], {r.domain})
    requires r.domain in events && events[r.domain].Value() == Counted(TotalsOf(before, r.domain), r)
    ensures Mirrors(events, Bumped(before, r), {})
  {
  }

  class Reporter {
    var events: map<string, DomainEvents>
    ghost var view: map<string, Totals>
    ghost var pending: seq<Record>      // everything recorded since the last tick

    ghost predicate Valid()
      reads this, events.Values
    {
      Separate(events) && Mirrors(events, view, {}) && Summarizes(view, pending)
    }

    constructor ()
      ensures Valid() && pending == [] && events == map[]
    {
      events, view, pending := map[], map[], [];
    }

    /** The entry of a domain, created on first use. */
    method Entry(domain: string) returns (ev: DomainEvents)
      requires Separate(events) && Mirrors(events, view, {})
      modifies this`events, this`view
      ensures Separate(events) && Mirrors(events, view, {}) && domain in events && events[domain] == ev
      ensures domain in old(events) ==> ev == old(events)[domain]
      ensures domain !in old(events) ==> fresh(ev)
      ensures fresh(events.Values - old(events).Values)
      ensures view == old(view)[domain := TotalsOf(old(view), domain)]
    {
      if domain !in events {
        ev := new DomainEvents();
        events := events[domain := ev];
      } else {
        ev := events[domain];
      }
      view := view[domain := TotalsOf(view, domain)];
    }

    method RecordSuccess(domain: string)
      requires Valid()
      modifies this, if domain in events then {events[domain]} else {}
      ensures Valid() && pending == old(pending) + [Success(domain)]
      ensures fresh(events.Values - old(events).Values)
    {
      ghost var before := view;
      var ev := Entry(domain);
      ev.successCount := ev.successCount + 1;
      Remember(before, Success(domain), ev);
    }

    method RecordFailure(domain: string, failure: Failure)
      requires Valid()
      modifies this, if domain in events then {events[domain]} else {}
      ensures Valid() && pending == old(pending) + [Failed(domain, failure)]
      ensures fresh(events.Values - old(events).Values)
    {
      ghost var before := view;
      var ev := Entry(domain);
      ev.failureCount := ev.failureCount + 1;
      ev.failures := ev.failures + [failure];
      Remember(before, Failed(domain, failure), ev);
    }

    /** Bookkeeping of the proof: one more record. */
    ghost method Remember(before: map<string, Totals>, r: Record, ev: DomainEvents)
      requires Separate(events) && Mirrors(events, view, {r.domain}) && Summarizes(before, pending)
      requires view == before[r.domain := TotalsOf(before, r.domain)]
      requires r.domain in events && events[r.domain] == ev && ev.Value() == Counted(TotalsOf(before, r.domain), r)
      modifies this`view, this`pending
      ensures Valid() && pending == old(pending) + [r] && events == old(events)
    {
      SummarizesNext(before, pending, r);
      BumpedMirrors(events, before, r);
      pending, view := pending + [r], Bumped(before, r);
    }

    /** The swap at a report tick: the snapshot holds all that was pending, and nothing is pending
        any more. */
    method Swap() returns (snapshot: map<string, DomainEvents>, ghost totals: map<string, Totals>)
      requires Valid()
      modifies this
      ensures Valid() && pending == [] && events == map[] && snapshot == old(events)
      ensures Mirrors(snapshot, totals, {}) && Summarizes(totals, old(pending))
    {
      snapshot, totals := events, view;
      events, view, pending := map[], map[], [];
    }

    /** generateAndSendReports: after the swap, one report for each domain that publishes an
        address.  Without a send function, or when sending fails, the snapshot is gone all the
        same. */
    method GenerateReports(canSend: bool, addresses: map<string, string>)
      returns (reports: seq<Report>, ghost snapshot: map<string, Totals>)
      requires Valid()
      modifies this
      ensures Valid() && pending == [] && Summarizes(snapshot, old(pending))
      ensures !canSend ==> reports == []
      ensures canSend ==> Reported(reports, snapshot, addresses, {})
    {
      var taken;
      taken, snapshot := Swap();
      reports := [];
      if canSend {
        reports := ReportAll(taken, snapshot, addresses);
      }
    }
  }

  /** The domains of the snapshot, in no particular order. */
  method ReportAll(taken: map<string, DomainEvents>, ghost snapshot: map<string, Totals>,
                   addresses: map<string, string>) returns (reports: seq<Report>)
    requires Mirrors(taken, snapshot, {})
    ensures Reported(reports, snapshot, addresses, {})
  {
    reports := [];
    var todo := taken.Keys;
    while todo != {}
      invariant todo <= taken.Keys && Reported(reports, snapshot, addresses, todo)
      decreases todo
    {
      var domain :| domain in todo;
      todo := todo - {domain};
      reports := ReportNext(reports, domain, taken[domain].Value(), snapshot, addresses, todo);
    }
  }

  /** One report for each domain of the snapshot that publishes an address, save those in
      `todo`. */
  ghost predicate Reported(reports: seq<Report>, snapshot: map<string, Totals>, addresses: map<string, string>,
                           todo: set<string>)
  {
    && (forall d :: HasReport(reports, d) <==> d in snapshot && d !in todo && d in addresses && addresses[d] != "")
    && (forall i, j :: 0 <= i < j < |reports| ==> reports[i].domain != reports[j].domain)
    && (forall i :: 0 <= i < |reports| ==>
          reports[i].domain in snapshot && Faithful(reports[i], snapshot[reports[i].domain]))
  }

  ghost predicate HasReport(reports: seq<Report>, d: string) {
    exists i :: 0 <= i < |reports| && reports[i].domain == d
  }

  method ReportNext(reports: seq<Report>, domain: string, totals: Totals, ghost snapshot: map<string, Totals>,
                    addresses: map<string, string>, ghost todo: set<string>) returns (reports': seq<Report>)
    requires domain in snapshot && snapshot[domain] == totals && domain !in todo
    requires Reported(reports, snapshot, addresses, todo + {domain})
    ensures Reported(reports', snapshot, addresses, todo)
  {
    reports' := reports;
    if domain in addresses && addresses[domain] != "" {
      var report := BuildReport(domain, totals);
      reports' := reports + [report];
      assert reports'[|reports|].domain == domain && HasReport(reports', domain);
      forall d ensures HasReport(reports', d) <==> HasReport(reports, d) || d == domain {
        if HasReport(reports, d) {
          var i :| 0 <= i < |reports| && reports[i].domain == d;
          assert reports'[i].domain == d;
        }
      }
      forall i | 0 <= i < |reports| ensures reports'[i].domain != domain {
        assert HasReport(reports, reports[i].domain);
      }
    }
  }

  // ----- a run of records and ticks -----

  /** A record, or a tick: whether a send function is set, and the addresses that domains publish. */
  datatype Step = Note(record: Record) | Tick(canSend: bool, addresses: map<string, string>)

  /** What was recorded before a tick and after the one before it, and the tick. */
  datatype Period = Period(records: seq<Record>, canSend: bool, addresses: map<string, string>)

  /** The records since the last tick, `start` being those before the first step. */
  function Open(start: seq<Record>, steps: seq<Step>): seq<Record> {
    if steps == [] then start
    else
      match steps[|steps| - 1]
      case Note(r) => Open(start, steps[..|steps| - 1]) + [r]
      case Tick(_, _) => []
  }

  /** One period for each tick. */
  function Periods(start: seq<Record>, steps: seq<Step>): seq<Period> {
    if steps == [] then []
    else
      var rest := steps[..|steps| - 1];
      match steps[|steps| - 1]
      case Note(_) => Periods(start, rest)
      case Tick(canSend, addresses) => Periods(start, rest) + [Period(Open(start, rest), canSend, addresses)]
  }

  lemma PeriodsNext(start: seq<Record>, steps: seq<Step>, s: Step)
    ensures Open(start, steps + [s]) == if s.Note? then Open(start, steps) + [s.record] else []
    ensures Periods(start, steps + [s]) ==
            if s.Note? then Periods(start, steps)
            else Periods(start, steps) + [Period(Open(start, steps), s.canSend, s.addresses)]
  {
    assert (steps + [s])[..|steps|] == steps;
  }

  /** The snapshot tells exactly what was recorded in the period, and the reports tell it to the domains
      that publish an address. */
  ghost predicate Closed(p: Period, snapshot: map<string, Totals>, reports: seq<Report>) {
    Summarizes(snapshot, p.records) && if p.canSend then Reported(reports, snapshot, p.addresses, {}) else reports == []
  }

  ghost predicate AllClosed(ps: seq<Period>, snapshots: seq<map<string, Totals>>, reports: seq<seq<Report>>) {
    |ps| == |snapshots| == |reports| && forall k :: 0 <= k < |ps| ==> Closed(ps[k], snapshots[k], reports[k])
  }

  function Notes(steps: seq<Step>): seq<Record> {
    if steps == [] then []
    else
      var s, before := steps[|steps| - 1], Notes(steps[..|steps| - 1]);
      if s.Note? then before + [s.record] else before
  }

  function SuccessesIn(views: seq<map<string, Totals>>, d: string): nat {
    if views == [] then 0
    else
      var v := views[|views| - 1];
      SuccessesIn(views[..|views| - 1], d) + if d in v then v[d].successes else 0
  }

  function FailuresIn(views: seq<map<string, Totals>>, d: string): seq<Failure> {
    if views == [] then []
    else
      var v := views[|views| - 1];
      FailuresIn(views[..|views| - 1], d) + if d in v then v[d].failures else []
  }

  /** Everything noted is in the snapshots taken so far or still pending - each event once, the
      failures of each domain in order. */
  ghost predicate Conserved(rs: seq<Record>, snapshots: seq<map<string, Totals>>, pending: seq<Record>, d: string) {
    && SuccessesOf(rs, d) == SuccessesIn(snapshots, d) + SuccessesOf(pending, d)
    && FailuresOf(rs, d) == FailuresIn(snapshots, d) + FailuresOf(pending, d)
  }

  lemma ConservedNote(rs: seq<Record>, snapshots: seq<map<string, Totals>>, pending: seq<Record>, d: string, r: Record)
    requires Conserved(rs, snapshots, pending, d)
    ensures Conserved(rs + [r], snapshots, pending + [r], d)
  {
    NoteNext(rs, r, d);
    NoteNext(pending, r, d);
    if r.Failed? {
      Regroup(FailuresIn(snapshots, d), FailuresOf(pending, d), [r.failure], []);
    }
  }

  lemma NoteNext(rs: seq<Record>, r: Record, d: string)
    ensures SuccessesOf(rs + [r], d) == SuccessesOf(rs, d) + if r == Success(d) then 1 else 0
    ensures FailuresOf(rs + [r], d) ==
            if r.Failed? && r.domain == d then FailuresOf(rs, d) + [r.failure] else FailuresOf(rs, d)
  {
    assert (rs + [r])[..|rs|] == rs;
  }

  lemma ConservedTick(rs: seq<Record>, snapshots: seq<map<string, Totals>>, pending: seq<Record>, d: string,
                      view: map<string, Totals>)
    requires Conserved(rs, snapshots, pending, d) && Summarizes(view, pending)
    ensures Conserved(rs, snapshots + [view], [], d)
  {
    assert (snapshots + [view])[..|snapshots|] == snapshots;
    if d !in view {
      Unmentioned(pending, d);
    }
  }

  ghost predicate AllConserved(rs: seq<Record>, snapshots: seq<map<string, Totals>>, pending: seq<Record>) {
    forall d :: Conserved(rs, snapshots, pending, d)
  }

  /** Any interleaving of records and report ticks: each tick closes a period, whose snapshot and reports tell
      exactly what was recorded in it; what was recorded since is pending; and nothing is lost or told twice. */
  method Drive(r: Reporter, steps: seq<Step>)
    returns (reports: seq<seq<Report>>, ghost snapshots: seq<map<string, Totals>>)
    requires r.Valid()
    modifies r, r.events.Values
    ensures r.Valid() && r.pending == Open(old(r.pending), steps)
    ensures AllClosed(Periods(old(r.pending), steps), snapshots, reports)
    ensures AllConserved(old(r.pending) + Notes(steps), snapshots, r.pending)
  {
    reports, snapshots := [], [];
    ghost var start := r.pending;
    assert start + Notes([]) == start;
    for i := 0 to |steps|
      invariant r.Valid() && fresh(r.events.Values - old(r.events).Values) && r.pending == Open(start, steps[..i])
      invariant AllClosed(Periods(start, steps[..i]), snapshots, reports)
      invariant AllConserved(start + Notes(steps[..i]), snapshots, r.pending)
    {
      TakeNext(steps, i);
      PeriodsNext(start, steps[..i], steps[i]);
      NotesNext(start, steps[..i], steps[i]);
      reports, snapshots :=
        DriveStep(r, steps[i], start + Notes(steps[..i]), Periods(start, steps[..i]), reports, snapshots);
    }
    assert steps[..|steps|] == steps;
  }

  lemma NotesNext(start: seq<Record>, steps: seq<Step>, s: Step)
    ensures start + Notes(steps + [s]) == if s.Note? then (start + Notes(steps)) + [s.record] else start + Notes(steps)
  {
    assert (steps + [s])[..|steps|] == steps;
  }

  method DriveStep(r: Reporter, step: Step, ghost rs: seq<Record>, ghost ps: seq<Period>, before: seq<seq<Report>>,
                   ghost snapped: seq<map<string, Totals>>)
    returns (reports: seq<seq<Report>>, ghost snapshots: seq<map<string, Totals>>)
    requires r.Valid() && AllConserved(rs, snapped, r.pending) && AllClosed(ps, snapped, before)
    modifies r, r.events.Values
    ensures r.Valid() && fresh(r.events.Values - old(r.events).Values)
    ensures r.pending == if step.Note? then old(r.pending) + [step.record] else []
    ensures AllConserved(if step.Note? then rs + [step.record] else rs, snapshots, r.pending)
    ensures AllClosed(if step.Note? then ps else ps + [Period(old(r.pending), step.canSend, step.addresses)],
                      snapshots, reports)
  {
    reports, snapshots := before, snapped;
    match step {
      case Note(Success(domain)) =>
        r.RecordSuccess(domain);
        NoteConserved(rs, snapped, old(r.pending), step.record);
      case Note(Failed(domain, failure)) =>
        r.RecordFailure(domain, failure);
        NoteConserved(rs, snapped, old(r.pending), step.record);
      case Tick(canSend, addresses) =>
        ghost var snapshot;
        var made;
        made, snapshot := r.GenerateReports(canSend, addresses);
        TickConserved(rs, snapped, old(r.pending), snapshot);
        reports, snapshots := before + [made], snapped + [snapshot];
    }
  }

  lemma TickConserved(rs: seq<Record>, snapshots: seq<map<string, Totals>>, pending: seq<Record>,
                      view: map<string, Totals>)
    requires AllConserved(rs, snapshots, pending) && Summarizes(view, pending)
    ensures AllConserved(rs, snapshots + [view], [])
  {
    forall d ensures Conserved(rs, snapshots + [view], [], d) {
      ConservedTick(rs, snapshots, pending, d, view);
    }
  }

  lemma NoteConserved(rs: seq<Record>, snapshots: seq<map<string, Totals>>, pending: seq<Record>, r: Record)
    requires AllConserved(rs, snapshots, pending)
    ensures AllConserved(rs + [r], snapshots, pending + [r])
  {
    forall d ensures Conserved(rs + [r], snapshots, pending + [r], d) {
      ConservedNote(rs, snapshots, pending, d, r);
    }
  }

  // ----- the report -----

  datatype Detail = Detail(resultType: string, receivingMx: string, count: nat, info: string)

  datatype Report = Report(domain: string, totalSuccesses: nat, totalFailures: nat, details: seq<Detail>)

  function Key(f: Failure): string { f.resultType + "|" + f.receivingMx }

  function DetailKey(d: Detail): string { d.resultType + "|" + d.receivingMx }

  /** How many of the failures fall under the key. */
  function GroupSize(fs: seq<Failure>, key: string): nat {
    if fs == [] then 0 else GroupSize(fs[..|fs| - 1], key) + if Key(fs[|fs| - 1]) == key then 1 else 0
  }

  function Keys(fs: seq<Failure>): set<string> {
    set i | 0 <= i < |fs| :: Key(fs[i])
  }

  function Sum(details: seq<Detail>): nat {
    if details == [] then 0 else Sum(details[..|details| - 1]) + details[|details| - 1].count
  }

  /** The details partition the failures: one for each key that occurs, with the true size of its
      group, and the sizes add up to the total reported. */
  ghost predicate Faithful(r: Report, t: Totals) {
    && r.totalSuccesses == t.successes && r.totalFailures == t.failureCount
    && Listing(r.details, t.failures, Keys(t.failures)) && Sum(r.details) == |t.failures|
  }

  /** The groups of a prefix of the failures. */
  ghost predicate Grouped(m: map<string, Detail>, fs: seq<Failure>) {
    m.Keys == Keys(fs)
    && forall key :: key in m ==> DetailKey(m[key]) == key && m[key].count == GroupSize(fs, key) > 0
  }

  lemma GroupedNext(m: map<string, Detail>, fs: seq<Failure>, f: Failure)
    requires Grouped(m, fs)
    ensures var d := if Key(f) in m then m[Key(f)] else Detail(f.resultType, f.receivingMx, 0, f.reason);
            Grouped(m[Key(f) := d.(count := d.count + 1)], fs + [f])
  {
    var all := fs + [f];
    assert all[..|fs|] == fs && all[|fs|] == f;
    assert forall i :: 0 <= i < |fs| ==> all[i] == fs[i];
    assert Keys(all) == Keys(fs) + {Key(f)} by {
      forall k | k in Keys(fs) ensures k in Keys(all) {
        var i :| 0 <= i < |fs| && Key(fs[i]) == k;
        assert Key(all[i]) == k;
      }
      assert Key(all[|fs|]) in Keys(all);
    }
    if Key(f) !in m {
      NoGroup(fs, Key(f));
    }
  }

  lemma {:induction false} NoGroup(fs: seq<Failure>, key: string)
    requires key !in Keys(fs)
    ensures GroupSize(fs, key) == 0
  {
    if fs != [] {
      var n := |fs| - 1;
      assert Key(fs[n]) in Keys(fs);
      forall k | k in Keys(fs[..n]) ensures k in Keys(fs) {
        var i :| 0 <= i < n && Key(fs[..n][i]) == k;
        assert Key(fs[i]) == k;
      }
      NoGroup(fs[..n], key);
    }
  }

  /** How many failures fall under any of the keys. */
  function SizeOf(fs: seq<Failure>, keys: set<string>): nat {
    if fs == [] then 0 else SizeOf(fs[..|fs| - 1], keys) + if Key(fs[|fs| - 1]) in keys then 1 else 0
  }

  lemma {:induction false} SizeOfMore(fs: seq<Failure>, keys: set<string>, key: string)
    requires key !in keys
    ensures SizeOf(fs, keys + {key}) == SizeOf(fs, keys) + GroupSize(fs, key)
  {
    if fs != [] {
      SizeOfMore(fs[..|fs| - 1], keys, key);
    }
  }

  lemma {:induction false} SizeOfAll(fs: seq<Failure>, keys: set<string>)
    ensures Keys(fs) <= keys ==> SizeOf(fs, keys) == |fs|
    ensures keys == {} ==> SizeOf(fs, keys) == 0
  {
    if fs != [] {
      var n := |fs| - 1;
      assert Key(fs[n]) in Keys(fs);
      forall k | k in Keys(fs[..n]) ensures k in Keys(fs) {
        var i :| 0 <= i < n && Key(fs[..n][i]) == k;
        assert Key(fs[i]) == k;
      }
      SizeOfAll(fs[..n], keys);
    }
  }

  /** buildReport. */
  method BuildReport(domain: string, ev: Totals) returns (report: Report)
    ensures report.domain == domain && Faithful(report, ev)
  {
    var byKey: map<string, Detail> := map[];
    for i := 0 to |ev.failures|
      invariant Grouped(byKey, ev.failures[..i])
    {
      TakeNext(ev.failures, i);
      var f := ev.failures[i];
      GroupedNext(byKey, ev.failures[..i], f);
      var d := if Key(f) in byKey then byKey[Key(f)] else Detail(f.resultType, f.receivingMx, 0, f.reason);
      byKey := byKey[Key(f) := d.(count := d.count + 1)];
    }
    assert ev.failures[..|ev.failures|] == ev.failures;
    var details := Listed(byKey, ev.failures);
    report := Report(domain, ev.successes, ev.failureCount, details);
  }

  /** The groups of the keys in `done`, each once and with its true size. */
  ghost predicate Listing(details: seq<Detail>, fs: seq<Failure>, done: set<string>) {
    && (forall key :: key in done <==> HasDetail(details, key))
    && (forall i, j :: 0 <= i < j < |details| ==> DetailKey(details[i]) != DetailKey(details[j]))
    && (forall i :: 0 <= i < |details| ==> details[i].count == GroupSize(fs, DetailKey(details[i])) > 0)
    && Sum(details) == SizeOf(fs, done)
  }

  ghost predicate HasDetail(details: seq<Detail>, key: string) {
    exists i :: 0 <= i < |details| && DetailKey(details[i]) == key
  }

  lemma HasDetailNext(details: seq<Detail>, d: Detail, key: string)
    ensures HasDetail(details + [d], key) <==> HasDetail(details, key) || DetailKey(d) == key
  {
    var all := details + [d];
    assert all[|details|] == d;
    if HasDetail(details, key) {
      var i :| 0 <= i < |details| && DetailKey(details[i]) == key;
      assert all[i] == details[i];
    }
  }

  lemma ListingNext(details: seq<Detail>, fs: seq<Failure>, done: set<string>, d: Detail)
    requires Listing(details, fs, done) && DetailKey(d) !in done
    requires d.count == GroupSize(fs, DetailKey(d)) > 0
    ensures Listing(details + [d], fs, done + {DetailKey(d)})
  {
    assert (details + [d])[..|details|] == details;
    SizeOfMore(fs, done, DetailKey(d));
    forall key ensures HasDetail(details + [d], key) <==> key in done + {DetailKey(d)} {
      HasDetailNext(details, d, key);
    }
    forall i | 0 <= i < |details| ensures DetailKey(details[i]) != DetailKey(d) {
      assert HasDetail(details, DetailKey(details[i]));
    }
  }

  /** The groups, in no particular order. */
  method Listed(byKey: map<string, Detail>, ghost fs: seq<Failure>) returns (details: seq<Detail>)
    requires Grouped(byKey, fs)
    ensures Listing(details, fs, Keys(fs)) && Sum(details) == |fs|
  {
    details := [];
    var todo := byKey.Keys;
    ghost var done: set<string> := {};
    SizeOfAll(fs, {});
    while todo != {}
      invariant todo + done == byKey.Keys && todo !! done
      invariant Listing(details, fs, done)
      decreases todo
    {
      var key :| key in todo;
      todo := todo - {key};
      ListingNext(details, fs, done, byKey[key]);
      details := details + [byKey[key]];
      done := done + {key};
    }
    assert done == Keys(fs);
    SizeOfAll(fs, Keys(fs));
  }

  /** Keys tell groups apart as long as result types hold no bar... */
  lemma KeyInjective(f: Failure, g: Failure)
    requires '|' !in f.resultType && '|' !in g.resultType && Key(f) == Key(g)
    ensures f.resultType == g.resultType && f.receivingMx == g.receivingMx
  {
    IndexOfMiddle(f.resultType, '|', f.receivingMx);
    IndexOfMiddle(g.resultType, '|', g.receivingMx);
    var k := Key(f);
    assert k == f.resultType + ['|'] + f.receivingMx == g.resultType + ['|'] + g.receivingMx;
    assert k[..|f.resultType|] == f.resultType && k[..|g.resultType|] == g.resultType;
    assert k[|f.resultType| + 1..] == f.receivingMx && k[|g.resultType| + 1..] == g.receivingMx;
  }

  /** ... and only so long: with a bar, another result type without one shares the key. */
  lemma KeyCollides(f: Failure) returns (g: Failure)
    requires '|' in f.resultType
    ensures Key(g) == Key(f) && g.resultType != f.resultType && '|' !in g.resultType
  {
    var i := IndexOf(f.resultType, '|');
    assert i < |f.resultType|;
    var a, b := f.resultType[..i], f.resultType[i + 1..];
    g := Failure(a, b + "|" + f.receivingMx, f.reason);
    assert f.resultType == a + "|" + b;
    assert Key(g) == a + "|" + (b + "|" + f.receivingMx);
  }
}

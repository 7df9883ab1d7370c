/** Brute-force protection (internal/security/ratelimit.go:24-27 and 60-130) under the way
    logins use it: check, then record (internal/smtp/backend.go:85-118). */
module RateLimit {
  import opened Basics

  type IP = string

  datatype Tracker = Tracker(failures: int, lockedAt: int)

  type Table = map<IP, Tracker>

  /** maxAuthFail and lockoutDur. */
  datatype Limits = Limits(maxFail: int, lockout: int)

  // ----- what each operation does to the table -----

  predicate Full(l: Limits, t: Table, ip: IP) { ip in t && t[ip].failures >= l.maxFail }

  predicate LockedOut(l: Limits, t: Table, ip: IP, now: int) {
    Full(l, t, ip) && now - t[ip].lockedAt < l.lockout
  }

  /** Checking forgets a lockout that has expired. */
  function Checked(l: Limits, t: Table, ip: IP, now: int): Table {
    if Full(l, t, ip) && !LockedOut(l, t, ip, now) then t - {ip} else t
  }

  function Failed(l: Limits, t: Table, ip: IP, now: int): Table {
    var before := if ip in t then t[ip] else Tracker(0, 0);
    var n := before.failures + 1;
    t[ip := Tracker(n, if n >= l.maxFail then now else before.lockedAt)]
  }

  predicate Stale(l: Limits, t: Table, ip: IP, now: int) {
    Full(l, t, ip) && now - t[ip].lockedAt > 2 * l.lockout
  }

  function Cleaned(l: Limits, t: Table, now: int): Table {
    map ip | ip in t && !Stale(l, t, ip, now) :: t[ip]
  }

  /** Evicted are exactly the trackers that were full and have been so for more than two lockouts; the others stay as
      they are. */
  lemma CleanedMeaning(l: Limits, t: Table, now: int)
    ensures forall ip :: ip in Cleaned(l, t, now) <==>
              ip in t && !(t[ip].failures >= l.maxFail && now - t[ip].lockedAt > 2 * l.lockout)
    ensures forall ip :: ip in Cleaned(l, t, now) ==> Cleaned(l, t, now)[ip] == t[ip]
  {
  }

  // ----- the limiter -----

  class AuthTracker {
    var failures: int
    var lockedAt: int

    constructor ()
      ensures failures == 0 && lockedAt == 0
    {
      failures, lockedAt := 0, 0;
    }
  }

  class RateLimiter {
    const limits: Limits
    var authFails: map<IP, AuthTracker>

    /** No two addresses share a tracker. */
    ghost predicate Valid()
      reads this
    {
      forall a, b :: a in authFails && b in authFails && a != b ==> authFails[a] != authFails[b]
    }

    function View(): Table
      reads this, authFails.Values
    {
      map ip | ip in authFails :: Tracker(authFails[ip].failures, authFails[ip].lockedAt)
    }

    constructor (limits: Limits)
      ensures Valid() && View() == map[] && this.limits == limits
    {
      this.limits := limits;
      authFails := map[];
    }

    /** A request without an address is never limited. */
    method IsLockedOut(ip: Option<IP>, now: int) returns (locked: bool)
      requires Valid()
      modifies this
      ensures Valid() && authFails.Values <= old(authFails.Values)
      ensures ip.None? ==> !locked && View() == old(View())
      ensures locked <==> ip.Some? && ip.value in old(authFails)
                          && old(authFails)[ip.value].failures >= limits.maxFail
                          && now - old(authFails)[ip.value].lockedAt < limits.lockout
      ensures ip.Some? ==> locked == old(LockedOut(limits, View(), ip.value, now))
                           && View() == old(Checked(limits, View(), ip.value, now))
    {
      if ip.None? || ip.value !in authFails {
        return false;
      }
      var tracker := authFails[ip.value];
      if tracker.failures >= limits.maxFail {
        if now - tracker.lockedAt < limits.lockout {
          return true;
        }
        authFails := authFails - {ip.value};
      }
      return false;
    }

    method RecordAuthFailure(ip: Option<IP>, now: int)
      requires Valid()
      modifies this, authFails.Values
      ensures Valid() && fresh(authFails.Values - old(authFails.Values))
      ensures View() == if ip.None? then old(View()) else old(Failed(limits, View(), ip.value, now))
      ensures ip.Some? ==>
                && ip.value in authFails
                && authFails[ip.value].failures ==
                   (if ip.value in old(authFails) then old(authFails[ip.value].failures) else 0) + 1
                && (authFails[ip.value].failures >= limits.maxFail ==> authFails[ip.value].lockedAt == now)
    {
      if ip.None? {
        return;
      }
      if ip.value !in authFails {
        var created := new AuthTracker();
        authFails := authFails[ip.value := created];
      }
      var tracker := authFails[ip.value];
      tracker.failures := tracker.failures + 1;
      if tracker.failures >= limits.maxFail {
        tracker.lockedAt := now;
      }
    }

    method RecordAuthSuccess(ip: Option<IP>)
      requires Valid()
      modifies this
      ensures Valid() && authFails.Values <= old(authFails.Values)
      ensures View() == if ip.None? then old(View()) else old(View()) - {ip.value}
      ensures ip.Some? ==> ip.value !in authFails
    {
      if ip.Some? {
        authFails := authFails - {ip.value};
      }
    }

    /** One tick of the eviction loop. */
    method Cleanup(now: int)
      requires Valid()
      modifies this
      ensures Valid() && authFails.Values <= old(authFails.Values)
      ensures View() == old(Cleaned(limits, View(), now))
    {
      var todo := authFails.Keys;
      while todo != {}
        invariant Valid() && todo <= authFails.Keys
        invariant forall ip :: ip in authFails ==> ip in old(authFails) && authFails[ip] == old(authFails[ip])
        invariant forall ip :: ip in old(authFails) && ip !in authFails ==> old(Stale(limits, View(), ip, now))
        invariant forall ip :: ip in authFails && ip !in todo ==> !old(Stale(limits, View(), ip, now))
        decreases todo
      {
        var key :| key in todo;
        todo := todo - {key};
        var tracker := authFails[key];
        if tracker.failures >= limits.maxFail && now - tracker.lockedAt > 2 * limits.lockout {
          authFails := authFails - {key};
        }
      }
    }

    /** A login attempt as AuthPlain makes it; `good` is whether the credentials are right. */
    method Attempt(ip: Option<IP>, now: int, good: bool) returns (evaluated: bool)
      requires Valid()
      modifies this, authFails.Values
      ensures Valid() && fresh(authFails.Values - old(authFails.Values))
      ensures ip.None? ==> evaluated && View() == old(View())
      ensures ip.Some? ==> evaluated == !old(LockedOut(limits, View(), ip.value, now))
                           && View() == old(Attempted(limits, View(), ip.value, now, good))
    {
      var locked := IsLockedOut(ip, now);
      if locked {
        return false;
      }
      if good {
        RecordAuthSuccess(ip);
      } else {
        RecordAuthFailure(ip, now);
      }
      return true;
    }
  }

  function Attempted(l: Limits, t: Table, ip: IP, now: int, good: bool): Table {
    if LockedOut(l, t, ip, now) then t
    else
      var t' := Checked(l, t, ip, now);
      if good then t' - {ip} else Failed(l, t', ip, now)
  }

  // ----- runs -----

  /** Login attempts from any address, and cleanup ticks. */
  datatype Event = Attempt(ip: IP, time: int, good: bool) | Tick(time: int)

  function Step(l: Limits, t: Table, e: Event): Table {
    match e
    case Attempt(ip, now, good) => Attempted(l, t, ip, now, good)
    case Tick(now) => Cleaned(l, t, now)
  }

  function Run(l: Limits, t: Table, es: seq<Event>): Table
    decreases |es|
  {
    if es == [] then t else Run(l, Step(l, t, es[0]), es[1..])
  }

  /** The attempts of one address with one outcome whose credentials were looked at. */
  function Evaluated(l: Limits, t: Table, es: seq<Event>, ip: IP, good: bool): nat
    decreases |es|
  {
    if es == [] then 0
    else
      var e := es[0];
      (if e.Attempt? && e.ip == ip && e.good == good && !LockedOut(l, t, ip, e.time) then 1 else 0)
      + Evaluated(l, Step(l, t, e), es[1..], ip, good)
  }

  ghost predicate Monotone(es: seq<Event>, start: int) {
    es == [] || (start <= es[0].time && Monotone(es[1..], es[0].time))
  }

  /** Counters are not negative and no lockout lies in the future. */
  ghost predicate Sane(l: Limits, t: Table, now: int) {
    forall ip :: ip in t ==> t[ip].failures >= 0 && (Full(l, t, ip) ==> t[ip].lockedAt <= now)
  }

  lemma SaneStep(l: Limits, t: Table, e: Event, now: int)
    requires Sane(l, t, now) && now <= e.time
    ensures Sane(l, Step(l, t, e), e.time)
  {
  }

  lemma {:induction false} SaneRun(l: Limits, t: Table, es: seq<Event>, start: int, now: int)
    requires Sane(l, t, start) && Monotone(es, start) && start <= now
    requires forall i :: 0 <= i < |es| ==> es[i].time <= now
    ensures Sane(l, Run(l, t, es), now)
    decreases |es|
  {
    if es != [] {
      SaneStep(l, t, es[0], start);
      SaneRun(l, Step(l, t, es[0]), es[1..], es[0].time, now);
    }
  }

  /** The first failure can never be refused. */
  function Allowance(l: Limits): nat { if l.maxFail < 1 then 1 else l.maxFail }

  /** How many failures an address has left in the window that starts at `from`. */
  function Left(l: Limits, t: Table, ip: IP, from: int): int {
    if ip !in t then Allowance(l)
    else if t[ip].failures < l.maxFail then l.maxFail - t[ip].failures
    else if t[ip].lockedAt >= from then 0
    else Allowance(l)
  }

  ghost predicate Inside(es: seq<Event>, from: int, width: int) {
    forall i :: 0 <= i < |es| ==> from <= es[i].time < from + width
  }

  lemma {:induction false} LeftBounds(l: Limits, t: Table, es: seq<Event>, ip: IP, now: int, from: int)
    requires Sane(l, t, now) && Monotone(es, now) && Inside(es, from, l.lockout)
    ensures Evaluated(l, t, es, ip, false) <= Left(l, t, ip, from) + Allowance(l) * Evaluated(l, t, es, ip, true)
    decreases |es|
  {
    if es != [] {
      var e, t' := es[0], Step(l, t, es[0]);
      assert from <= e.time < from + l.lockout;
      SaneStep(l, t, e, now);
      LeftBounds(l, t', es[1..], ip, e.time, from);
      LeftStep(l, t, e, ip, now, from);
      if e.Attempt? && e.ip == ip && e.good && !LockedOut(l, t, ip, e.time) {
        Distribute(Allowance(l), Evaluated(l, t', es[1..], ip, true));
      }
    }
  }

  lemma Distribute(a: int, n: int)
    ensures a * (1 + n) == a + a * n
  {
  }

  lemma LeftStep(l: Limits, t: Table, e: Event, ip: IP, now: int, from: int)
    requires Sane(l, t, now) && now <= e.time && from <= e.time < from + l.lockout
    ensures 0 <= Left(l, t, ip, from) <= Allowance(l)
    ensures var left, left' := Left(l, t, ip, from), Left(l, Step(l, t, e), ip, from);
            if e.Attempt? && e.ip == ip && !LockedOut(l, t, ip, e.time)
            then (if e.good then left' == Allowance(l) else left' + 1 <= left)
            else left' <= left
  {
  }

  /** The sliding window: in every run from an empty table, with any interleaving of other
      addresses and cleanup ticks, the failures of one address that are evaluated in any window
      as long as the lockout are at most maxAuthFail for each success in the window, plus
      maxAuthFail. */
  lemma WindowBound(l: Limits, before: seq<Event>, window: seq<Event>, ip: IP, start: int, from: int)
    requires Monotone(before + window, start) && Inside(window, from, l.lockout)
    ensures var t := Run(l, map[], before);
            Evaluated(l, t, window, ip, false) <= Allowance(l) * (1 + Evaluated(l, t, window, ip, true))
  {
    var t := Run(l, map[], before);
    if window != [] {
      MonotoneSplit(before, window, start);
      var now := if before == [] then start else before[|before| - 1].time;
      SaneRun(l, map[], before, start, now);
      LeftBounds(l, t, window, ip, now, from);
      assert Inside(window, from, l.lockout) && from <= window[0].time < from + l.lockout;
      LeftStep(l, t, window[0], ip, now, from);
      Distribute(Allowance(l), Evaluated(l, t, window, ip, true));
    } else {
      assert Evaluated(l, t, window, ip, false) == 0;
    }
  }

  lemma {:induction false} MonotoneSplit(a: seq<Event>, b: seq<Event>, start: int)
    requires Monotone(a + b, start)
    ensures Monotone(a, start)
    ensures var now := if a == [] then start else a[|a| - 1].time;
            start <= now && Monotone(b, now) && forall i :: 0 <= i < |a| ==> a[i].time <= now
  {
    if a == [] {
      assert a + b == b;
    } else {
      assert (a + b)[1..] == a[1..] + b;
      MonotoneSplit(a[1..], b, a[0].time);
      assert forall i :: 0 < i < |a| ==> a[i] == a[1..][i - 1];
    }
  }

  /** Without a success in the window at most maxAuthFail failures are evaluated. */
  lemma WindowBoundNoSuccess(l: Limits, before: seq<Event>, window: seq<Event>, ip: IP, start: int, from: int)
    requires Monotone(before + window, start) && Inside(window, from, l.lockout) && l.maxFail >= 1
    requires Evaluated(l, Run(l, map[], before), window, ip, true) == 0
    ensures Evaluated(l, Run(l, map[], before), window, ip, false) <= l.maxFail
  {
    WindowBound(l, before, window, ip, start, from);
  }

  /** And that many can be: the bound is reached by failing at once, from any table that does
      not know the address. */
  lemma {:induction false} WindowBoundReached(l: Limits, t: Table, n: nat, ip: IP, now: int)
    requires n <= Left(l, t, ip, now) && l.maxFail >= 1 && !Full(l, t, ip)
    ensures Evaluated(l, t, seq(n, i => Attempt(ip, now, false)), ip, false) == n
    decreases n
  {
    if n > 0 {
      var es := seq(n, i => Attempt(ip, now, false));
      assert es[1..] == seq(n - 1, i => Attempt(ip, now, false));
      var t' := Step(l, t, es[0]);
      if n > 1 {
        WindowBoundReached(l, t', n - 1, ip, now);
      } else {
        assert es[1..] == [];
      }
    }
  }

  // ----- eviction is unobservable -----

  /** For each attempt, whether it was evaluated. */
  function Answers(l: Limits, t: Table, es: seq<Event>): seq<bool>
    decreases |es|
  {
    if es == [] then []
    else
      var e := es[0];
      (if e.Attempt? then [!LockedOut(l, t, e.ip, e.time)] else []) + Answers(l, Step(l, t, e), es[1..])
  }

  function WithoutTicks(es: seq<Event>): seq<Event> {
    if es == [] then []
    else if es[0].Tick? then WithoutTicks(es[1..])
    else [es[0]] + WithoutTicks(es[1..])
  }

  /** `a` is `b` less some expired lockouts. */
  ghost predicate Trimmed(l: Limits, a: Table, b: Table, now: int) {
    && (forall ip :: ip in a ==> ip in b && a[ip] == b[ip])
    && (forall ip :: ip in b && ip !in a ==> Full(l, b, ip) && now - b[ip].lockedAt >= l.lockout)
  }

  /** Under check-then-record, whatever cleanup evicts never changes a later answer. */
  lemma {:induction false} EvictionUnobservable(l: Limits, a: Table, b: Table, es: seq<Event>, now: int)
    requires Sane(l, b, now) && Monotone(es, now) && Trimmed(l, a, b, now)
    ensures Answers(l, a, es) == Answers(l, b, WithoutTicks(es))
    decreases |es|
  {
    if es != [] {
      var e := es[0];
      if e.Tick? {
        EvictionUnobservable(l, Step(l, a, e), b, es[1..], e.time);
      } else {
        SaneStep(l, b, e, now);
        AttemptTrimmed(l, a, b, e, now);
        EvictionUnobservable(l, Step(l, a, e), Step(l, b, e), es[1..], e.time);
        assert WithoutTicks(es)[1..] == WithoutTicks(es[1..]);
      }
    }
  }

  lemma AttemptTrimmed(l: Limits, a: Table, b: Table, e: Event, now: int)
    requires Sane(l, b, now) && now <= e.time && e.Attempt? && Trimmed(l, a, b, now)
    ensures LockedOut(l, a, e.ip, e.time) == LockedOut(l, b, e.ip, e.time)
    ensures Trimmed(l, Step(l, a, e), Step(l, b, e), e.time)
  {
  }

  /** The discipline matters: recording a failure without the check first locks an address
      out at once if its expired lockout is still in the table, but not if it was evicted. */
  lemma RecordWithoutCheck(l: Limits, t: Table, ip: IP, now: int)
    requires l.maxFail >= 2 && l.lockout > 0 && Stale(l, t, ip, now)
    ensures LockedOut(l, Failed(l, t, ip, now), ip, now)
    ensures !LockedOut(l, Failed(l, Cleaned(l, t, now), ip, now), ip, now)
  {
  }
}

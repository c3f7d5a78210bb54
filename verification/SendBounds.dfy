/** What the brake promises over whole runs of sends. */
module SendBounds {
  import opened Wrappers
  import opened Text
  import opened SendGuard

  ghost predicate NoRepeats(scopes: seq<string>) {
    forall i, j :: 0 <= i < j < |scopes| ==> scopes[i] != scopes[j]
  }

  // ---- one bookkeeping call, scope by scope --------------------------------------------------

  /** A failure counts once against each scope it touches, and against nothing else. */
  lemma {:induction false} FailAllTouches(h: map<string, Health>, scopes: seq<string>, now: Time, s: string)
    requires NoRepeats(scopes)
    ensures HealthOf(FailAll(h, scopes, now), s) == if s in scopes then Failed(HealthOf(h, s), now) else HealthOf(h, s)
  {
    if scopes == [] {
    } else {
      var front, last := scopes[..|scopes| - 1], scopes[|scopes| - 1];
      FailAllTouches(h, front, now, s);
      assert scopes == front + [last];
      if s == last { assert s !in front; }
    }
  }

  lemma SucceedAllTouches(h: map<string, Health>, scopes: seq<string>, s: string)
    ensures HealthOf(SucceedAll(h, scopes), s) == if s in scopes then Succeeded(HealthOf(h, s)) else HealthOf(h, s)
  {
  }

  /** What a failed send reports as its pause is the longest that it set. */
  ghost predicate IsLongest(f: Option<Time>, h: map<string, Health>, scopes: seq<string>, now: Time) {
    && (forall s :: s in scopes ==> AtMost(PauseOf(HealthOf(h, s), now), f))
    && (f.Some? ==> exists s :: s in scopes && PauseOf(HealthOf(h, s), now) == f)
  }

  predicate AtMost(a: Option<Time>, b: Option<Time>) { a.None? || (b.Some? && a.value <= b.value) }

  lemma {:induction false} FurthestIsTheLongest(h: map<string, Health>, scopes: seq<string>, now: Time)
    requires NoRepeats(scopes)
    ensures IsLongest(Furthest(h, scopes, now), h, scopes, now)
  {
    if scopes == [] {
    } else {
      var front, last := scopes[..|scopes| - 1], scopes[|scopes| - 1];
      FurthestIsTheLongest(h, front, now);
      FailAllTouches(h, front, now, last);
      LongerByOne(h, front, last, now);
      assert scopes == front + [last];
    }
  }

  lemma LongerByOne(h: map<string, Health>, front: seq<string>, last: string, now: Time)
    requires IsLongest(Furthest(h, front, now), h, front, now)
    ensures IsLongest(Later(Furthest(h, front, now), PauseOf(HealthOf(h, last), now)), h, front + [last], now)
  {
    var f, p, scopes := Furthest(h, front, now), PauseOf(HealthOf(h, last), now), front + [last];
    var g := Later(f, p);
    if g.Some? {
      if g == p {
        assert last in scopes;
      } else {
        var s :| s in front && PauseOf(HealthOf(h, s), now) == f;
        assert s in scopes;
      }
    }
  }

  // ---- when a scope is paused ----------------------------------------------------------------------

  ghost predicate Proper(run: seq<Attempt>) {
    && (forall i :: 0 <= i < |run| ==> NoRepeats(run[i].scopes) && run[i].start <= run[i].finish)
    && (forall i, j :: 0 <= i < j < |run| ==> run[i].finish <= run[j].start)
  }

  /** Whatever has been sent, every scope has the pause it should have: so many minutes from its last failure. */
  lemma {:induction false} PauseIsExact(run: seq<Attempt>, n: nat, s: string)
    requires Proper(run) && n <= |run|
    ensures InOrder(HealthOf(After(map[], run, n), s))
  {
    if n == 0 {
    } else {
      PauseIsExact(run, n - 1, s);
      var h, a := After(map[], run, n - 1), run[n - 1];
      FailAllTouches(h, a.scopes, a.finish, s);
      SucceedAllTouches(h, a.scopes, s);
      FailedInOrder(HealthOf(h, s), a.finish);
    }
  }

  /**
   * A scope is paused exactly while its last failure, the third or a later one
   * in a row, is younger than its rest; so never half an hour after it.
   */
  lemma PausedIsExact(run: seq<Attempt>, n: nat, s: string, now: Time)
    requires Proper(run) && n <= |run|
    ensures var h := After(map[], run, n);
            var x := HealthOf(h, s);
            && (IsPaused(h, s, now) <==>
                  x.failures >= 3 && x.lastFailed.Some? && now < x.lastFailed.value + RestMinutes(x.failures) * 60_000)
            && (IsPaused(h, s, now) ==> now < x.lastFailed.value + 1_800_000)
  {
    PauseIsExact(run, n, s);
  }

  /** A pause in milliseconds, of a scope that has one. */
  function PauseMs(x: Health): int
    requires x.blockedUntil.Some? && x.lastFailed.Some?
  {
    x.blockedUntil.value - x.lastFailed.value
  }

  /**
   * A failed send adds one to each of its scopes; the third failure in a row
   * pauses the scope for a minute, and every further one for twice as long as
   * the one before, or half an hour if that is less.
   */
  lemma PauseDoubles(run: seq<Attempt>, n: nat, s: string)
    requires Proper(run) && n < |run| && !run[n].accepted && s in run[n].scopes
    requires !AnyPaused(After(map[], run, n), run[n].scopes, run[n].start)
    ensures var x, y := HealthOf(After(map[], run, n), s), HealthOf(After(map[], run, n + 1), s);
            && y.failures == x.failures + 1 && y.total == x.total + 1 && y.lastFailed == Some(run[n].finish)
            && (y.failures < 3 ==> y.blockedUntil == None)
            && (y.failures == 3 ==> y.blockedUntil == Some(run[n].finish + 60_000))
            && (y.failures > 3 ==>
                  && x.blockedUntil.Some? && x.lastFailed.Some? && y.blockedUntil.Some?
                  && PauseMs(y) == if 2 * PauseMs(x) < 1_800_000 then 2 * PauseMs(x) else 1_800_000)
  {
    FailAllTouches(After(map[], run, n), run[n].scopes, run[n].finish, s);
    PauseIsExact(run, n, s);
    PauseIsExact(run, n + 1, s);
  }

  /** A send none of whose scopes is resting is not held back, and any other is. */
  lemma ThrottledExactly(run: seq<Attempt>, n: nat, scopes: seq<string>, start: Time)
    requires Proper(run) && n <= |run|
    ensures AnyPaused(After(map[], run, n), scopes, start)
            <==> exists i :: 0 <= i < |scopes| && Rests(HealthOf(After(map[], run, n), scopes[i]), start)
  {
    var h := After(map[], run, n);
    forall i | 0 <= i < |scopes| ensures IsPaused(h, scopes[i], start) <==> Rests(HealthOf(h, scopes[i]), start) {
      PauseIsExact(run, n, scopes[i]);
    }
  }

  /** The pause one more failure leaves on a scope, if it is the third or a later one. */
  lemma PauseSet(h: map<string, Health>, scopes: seq<string>, now: Time, s: string)
    requires NoRepeats(scopes) && s in scopes
    ensures var x := HealthOf(FailAll(h, scopes, now), s);
            && (x.failures >= 3 ==> x.blockedUntil.Some? && PauseOf(HealthOf(h, s), now) == x.blockedUntil)
            && (x.failures < 3 ==> PauseOf(HealthOf(h, s), now) == None)
  {
    FailAllTouches(h, scopes, now, s);
  }

  /** The pause a failed send reports: set on one of its scopes, and on none does one end later. */
  ghost predicate ReportsLongest(until: Option<Time>, after: map<string, Health>, scopes: seq<string>) {
    && (until.Some? ==>
          exists s :: s in scopes && HealthOf(after, s).failures >= 3 && HealthOf(after, s).blockedUntil == until)
    && (forall s :: s in scopes && HealthOf(after, s).failures >= 3 ==> AtMost(HealthOf(after, s).blockedUntil, until))
    && (forall s :: s in scopes && HealthOf(after, s).failures >= 3 ==> HealthOf(after, s).blockedUntil.Some?)
  }

  lemma ReportIsTheLongestPause(h: map<string, Health>, scopes: seq<string>, now: Time)
    requires NoRepeats(scopes)
    ensures ReportsLongest(Furthest(h, scopes, now), FailAll(h, scopes, now), scopes)
  {
    var until := Furthest(h, scopes, now);
    FurthestIsTheLongest(h, scopes, now);
    forall s | s in scopes
      ensures var x := HealthOf(FailAll(h, scopes, now), s);
              x.failures >= 3 ==> x.blockedUntil.Some? && AtMost(x.blockedUntil, until)
    {
      PauseSet(h, scopes, now, s);
    }
    if until.Some? {
      var s :| s in scopes && PauseOf(HealthOf(h, s), now) == until;
      PauseSet(h, scopes, now, s);
    }
  }

  // ---- how fast calls can follow each other --------------------------------------------------------------

  /** The i-th send was handed to the provider and involved the scope. */
  predicate Calls(h: map<string, Health>, run: seq<Attempt>, i: nat, s: string)
    requires i < |run|
  {
    s in run[i].scopes && !AnyPaused(After(h, run, i), run[i].scopes, run[i].start)
  }

  /** No send involving the scope succeeded. */
  ghost predicate NoSuccess(h: map<string, Health>, run: seq<Attempt>, s: string) {
    forall i :: 0 <= i < |run| && Calls(h, run, i, s) ==> !run[i].accepted
  }

  /** The calls among the first `n` sends: how many, when the first and the last began, when the last ended. */
  datatype Tally = Tally(calls: nat, first: Time, last: Time, ended: Time)

  function TallyOf(h: map<string, Health>, run: seq<Attempt>, n: nat, s: string): Tally
    requires n <= |run|
  {
    if n == 0 then Tally(0, 0, 0, 0)
    else
      var t := TallyOf(h, run, n - 1, s);
      if !Calls(h, run, n - 1, s) then t
      else Tally(t.calls + 1, if t.calls == 0 then run[n - 1].start else t.first, run[n - 1].start, run[n - 1].finish)
  }

  /** The waiting that lies between the first and the last of `calls` failures, `f` having gone before. */
  function Span(f: nat, calls: nat): nat {
    if calls <= 1 then 0 else Span(f, calls - 1) + RestMinutes(f + calls - 1) * 60_000
  }

  predicate Spaced(t: Tally, f: nat, x: Health) {
    if t.calls == 0 then x.failures == f
    else
      && x.failures == f + t.calls
      && t.last <= t.ended
      && (x.failures >= 3 ==> x.blockedUntil == Some(t.ended + RestMinutes(x.failures) * 60_000))
      && t.last >= t.first + Span(f, t.calls)
  }

  /** A call is made only once the last one's rest is over. */
  lemma OneMoreCall(t: Tally, f: nat, x: Health, start: Time, finish: Time)
    requires Spaced(t, f, x) && start <= finish && (t.calls > 0 ==> t.ended <= start)
    requires x.blockedUntil.Some? ==> x.blockedUntil.value <= start
    ensures Spaced(Tally(t.calls + 1, if t.calls == 0 then start else t.first, start, finish), f, Failed(x, finish))
  {
    BackoffTable(x.failures + 1);
  }

  lemma SpacedStep(h: map<string, Health>, run: seq<Attempt>, n: nat, s: string, f: nat)
    requires Proper(run) && n < |run| && NoSuccess(h, run, s)
    requires Spaced(TallyOf(h, run, n, s), f, HealthOf(After(h, run, n), s))
    requires TallyOf(h, run, n, s).calls > 0 ==> TallyOf(h, run, n, s).ended <= run[n].start
    ensures Spaced(TallyOf(h, run, n + 1, s), f, HealthOf(After(h, run, n + 1), s))
  {
    var g, a := After(h, run, n), run[n];
    if Calls(h, run, n, s) {
      var i :| 0 <= i < |a.scopes| && a.scopes[i] == s;
      assert !IsPaused(g, a.scopes[i], a.start);
      FailAllTouches(g, a.scopes, a.finish, s);
      OneMoreCall(TallyOf(h, run, n, s), f, HealthOf(g, s), a.start, a.finish);
    } else if !AnyPaused(g, a.scopes, a.start) {
      FailAllTouches(g, a.scopes, a.finish, s);
      SucceedAllTouches(g, a.scopes, s);
    }
  }

  lemma {:induction false} EndedBefore(h: map<string, Health>, run: seq<Attempt>, n: nat, s: string, k: nat)
    requires Proper(run) && n <= k < |run| && TallyOf(h, run, n, s).calls > 0
    ensures TallyOf(h, run, n, s).ended <= run[k].start
  {
    if !Calls(h, run, n - 1, s) { EndedBefore(h, run, n - 1, s, k); }
  }

  /** In an outage the calls of a scope are spaced by its rests. */
  lemma {:induction false} CallsAreSpaced(h: map<string, Health>, run: seq<Attempt>, n: nat, s: string)
    requires Proper(run) && n <= |run| && NoSuccess(h, run, s)
    ensures Spaced(TallyOf(h, run, n, s), HealthOf(h, s).failures, HealthOf(After(h, run, n), s))
  {
    if n == 0 {
    } else {
      CallsAreSpaced(h, run, n - 1, s);
      if TallyOf(h, run, n - 1, s).calls > 0 { EndedBefore(h, run, n - 1, s, n - 1); }
      SpacedStep(h, run, n - 1, s, HealthOf(h, s).failures);
    }
  }

  // ---- the bound --------------------------------------------------------------------------------------------

  lemma {:induction false} SpanGrows(f: nat, calls: nat)
    ensures Span(0, calls) <= Span(f, calls)
  {
    if calls <= 1 {
    } else {
      SpanGrows(f, calls - 1);
    }
  }

  lemma {:induction false} SpanIsLong(calls: nat)
    requires calls >= 8
    ensures Span(0, calls) >= (calls - 7) * MAX_BACKOFF_MS
  {
    if calls == 8 {
      assert Span(0, 3) == 0;
      assert Span(0, 5) == 180_000;
      assert Span(0, 7) == 900_000;
    } else {
      SpanIsLong(calls - 1);
    }
  }

  /**
   * The cost of an outage: in any stretch of sends in which nothing involving
   * the scope succeeds, whatever went before, the provider is called for it at
   * most seven times and once more for every half hour the stretch lasts.
   */
  lemma OutageBound(h: map<string, Health>, run: seq<Attempt>, s: string, period: nat)
    requires Proper(run) && NoSuccess(h, run, s)
    requires var t := TallyOf(h, run, |run|, s); t.last - t.first <= period
    ensures TallyOf(h, run, |run|, s).calls <= 7 + period / MAX_BACKOFF_MS
  {
    var t, f := TallyOf(h, run, |run|, s), HealthOf(h, s).failures;
    if t.calls >= 8 {
      CallsAreSpaced(h, run, |run|, s);
      SpanGrows(f, t.calls);
      SpanIsLong(t.calls);
      HalfHours(t.calls, period);
    }
  }

  lemma HalfHours(calls: nat, period: nat)
    requires (calls - 7) * MAX_BACKOFF_MS <= period
    ensures calls <= 7 + period / MAX_BACKOFF_MS
  {
  }
}

/** The brake on failing sends: what it counts, whom it pauses, and how many calls an outage costs. */
module SendGuard {
  import opened Wrappers
  import opened Text

  type Time = int

  const FREE_FAILURES := 2
  const BASE_BACKOFF_MS := 60_000
  const MAX_BACKOFF_MS := 30 * 60_000

  datatype Health = Health(failures: nat, total: nat, blockedUntil: Option<Time>, lastFailed: Option<Time>)

  const NO_HEALTH := Health(0, 0, None, None)

  const PROVIDER := "provider"

  // ---- scopes ------------------------------------------------------------------------------

  /** A recipient, whatever its case and padding. */
  function NameOf(recipient: string): string { Lower(Trim(recipient)) }

  function Addresses(recipients: seq<string>): (r: seq<string>)
    ensures forall i :: 0 <= i < |r| ==> |r[i]| > 3 && r[i][..3] == "to:"
    ensures forall i :: 0 <= i < |recipients| && NameOf(recipients[i]) != "" ==> "to:" + NameOf(recipients[i]) in r
    ensures forall a :: a in r ==>
              exists i :: 0 <= i < |recipients| && NameOf(recipients[i]) != "" && a == "to:" + NameOf(recipients[i])
  {
    if recipients == [] then []
    else
      var name := NameOf(recipients[0]);
      var rest := Addresses(recipients[1..]);
      assert forall i :: 0 < i < |recipients| ==> recipients[i] == recipients[1..][i - 1];
      if name == "" then rest else ["to:" + name] + rest
  }

  /** The provider, then each distinct recipient, and nothing else. */
  function ScopesFor(recipients: seq<string>): (r: seq<string>)
    ensures r != [] && r[0] == PROVIDER
    ensures forall i, j :: 0 <= i < j < |r| ==> r[i] != r[j]
    ensures forall i :: 0 <= i < |recipients| && NameOf(recipients[i]) != "" ==> "to:" + NameOf(recipients[i]) in r
    ensures forall k :: 0 < k < |r| ==>
              exists i :: 0 <= i < |recipients| && NameOf(recipients[i]) != "" && r[k] == "to:" + NameOf(recipients[i])
  {
    var distinct := Distinct(Addresses(recipients));
    assert forall i :: 0 <= i < |distinct| ==> distinct[i][..3] == "to:";
    assert PROVIDER[..3] == "pro";
    [PROVIDER] + distinct
  }

  // ---- the rules ------------------------------------------------------------------------------

  function Pow2(n: nat): nat { if n == 0 then 1 else 2 * Pow2(n - 1) }

  /** How long a scope is paused after its k-th consecutive failure. */
  function Backoff(k: nat): (ms: nat)
    ensures ms <= MAX_BACKOFF_MS
    ensures ms > 0 <==> k > FREE_FAILURES
  {
    if k <= FREE_FAILURES then 0
    else
      Pow2Positive(k - FREE_FAILURES - 1);
      var grown := BASE_BACKOFF_MS * Pow2(k - FREE_FAILURES - 1);
      if grown < MAX_BACKOFF_MS then grown else MAX_BACKOFF_MS
  }

  lemma {:induction false} Pow2Positive(n: nat)
    ensures Pow2(n) >= 1
  {
    if n == 0 {
    } else {
      Pow2Positive(n - 1);
    }
  }

  lemma {:induction false} Pow2Grows(a: nat, b: nat)
    requires a <= b
    ensures Pow2(a) <= Pow2(b)
  {
    if a == b {
    } else {
      Pow2Grows(a, b - 1);
      Pow2Positive(b - 1);
    }
  }

  /** How many minutes a scope rests after this many failures in a row. */
  function RestMinutes(failures: nat): nat {
    if failures < 3 then 0
    else if failures == 3 then 1
    else if failures == 4 then 2
    else if failures == 5 then 4
    else if failures == 6 then 8
    else if failures == 7 then 16
    else 30
  }

  lemma BackoffTable(k: nat)
    ensures Backoff(k) == RestMinutes(k) * 60_000
  {
    assert Pow2(0) == 1 && Pow2(1) == 2 && Pow2(2) == 4 && Pow2(3) == 8 && Pow2(4) == 16;
    if k >= 8 {
      assert Pow2(5) == 32;
      Pow2Grows(5, k - FREE_FAILURES - 1);
    }
  }

  function HealthOf(h: map<string, Health>, scope: string): Health {
    if scope in h then h[scope] else NO_HEALTH
  }

  function Failed(x: Health, now: Time): Health {
    var k := x.failures + 1;
    Health(k, x.total + 1, if k <= FREE_FAILURES then x.blockedUntil else Some(now + Backoff(k)), Some(now))
  }

  function FailAll(h: map<string, Health>, scopes: seq<string>, now: Time): map<string, Health> {
    if scopes == [] then h
    else
      var front, last := FailAll(h, scopes[..|scopes| - 1], now), scopes[|scopes| - 1];
      front[last := Failed(HealthOf(front, last), now)]
  }

  /** The pause one more failure sets, if any. */
  function PauseOf(x: Health, now: Time): Option<Time> {
    if x.failures + 1 <= FREE_FAILURES then None else Some(now + Backoff(x.failures + 1))
  }

  function Later(a: Option<Time>, b: Option<Time>): Option<Time> {
    if b.Some? && (a.None? || b.value > a.value) then b else a
  }

  function Furthest(h: map<string, Health>, scopes: seq<string>, now: Time): Option<Time> {
    if scopes == [] then None
    else
      var front, last := scopes[..|scopes| - 1], scopes[|scopes| - 1];
      Later(Furthest(h, front, now), PauseOf(HealthOf(FailAll(h, front, now), last), now))
  }

  function Succeeded(x: Health): Health { x.(failures := 0, blockedUntil := None) }

  function SucceedAll(h: map<string, Health>, scopes: seq<string>): map<string, Health> {
    map s | s in h.Keys + (set i | 0 <= i < |scopes| :: scopes[i]) ::
      if s in scopes then Succeeded(HealthOf(h, s)) else h[s]
  }

  /** No failures in a row and no pause; what is remembered of the past stays. */
  predicate Cleared(was: Health, now: Health) {
    now.failures == 0 && now.blockedUntil == None && now.total == was.total && now.lastFailed == was.lastFailed
  }

  lemma ClearedIsSucceeded(h: map<string, Health>, scopes: seq<string>, after: map<string, Health>)
    requires after.Keys == h.Keys + set s | s in scopes
    requires forall s :: s in scopes ==> Cleared(HealthOf(h, s), after[s])
    requires forall s :: s in h && s !in scopes ==> after[s] == h[s]
    ensures after == SucceedAll(h, scopes)
  {
  }

  /** The pause a scope should have: so many minutes from its last failure, the third in a row or a later one. */
  predicate InOrder(x: Health) {
    && (x.failures > 0 ==> x.lastFailed.Some?)
    && (x.failures < 3 ==> x.blockedUntil.None?)
    && (x.failures >= 3 ==>
          x.lastFailed.Some? && x.blockedUntil == Some(x.lastFailed.value + RestMinutes(x.failures) * 60_000))
  }

  /** A scope is resting. */
  predicate Rests(x: Health, now: Time) {
    x.failures >= 3 && x.lastFailed.Some? && now < x.lastFailed.value + RestMinutes(x.failures) * 60_000
  }

  lemma FailedInOrder(x: Health, now: Time)
    requires InOrder(x)
    ensures InOrder(Failed(x, now))
  {
    BackoffTable(x.failures + 1);
  }

  predicate IsPaused(h: map<string, Health>, scope: string, now: Time) {
    scope in h && h[scope].blockedUntil.Some? && h[scope].blockedUntil.value > now
  }

  predicate AnyPaused(h: map<string, Health>, scopes: seq<string>, now: Time) {
    exists i :: 0 <= i < |scopes| && IsPaused(h, scopes[i], now)
  }

  ghost predicate AnyRests(h: map<string, Health>, scopes: seq<string>, now: Time) {
    exists i :: 0 <= i < |scopes| && Rests(HealthOf(h, scopes[i]), now)
  }

  lemma PausedIsResting(h: map<string, Health>, scopes: seq<string>, now: Time)
    requires forall s :: s in h ==> InOrder(h[s])
    ensures AnyPaused(h, scopes, now) <==> AnyRests(h, scopes, now)
  {
    assert forall s :: IsPaused(h, s, now) <==> Rests(HealthOf(h, s), now);
  }

  // ---- the service -------------------------------------------------------------------------------

  datatype Outcome = Throttled(scope: string) | Delivered | Rejected(until: Option<Time>)

  class SendGuardService {
    var health: map<string, Health>

    /** Every pause is the one its scope should have. */
    ghost predicate Valid() reads this { forall s :: s in health ==> InOrder(health[s]) }

    constructor ()
      ensures health == map[] && Valid()
    {
      health := map[];
    }

    /** The paused scope whose block ends last, if any. */
    method BlockedScope(scopes: seq<string>, now: Time) returns (blocked: Option<string>)
      ensures blocked.Some? <==> AnyPaused(health, scopes, now)
      ensures blocked.Some? ==> blocked.value in scopes && IsPaused(health, blocked.value, now)
      ensures blocked.Some? ==> forall s :: s in scopes && IsPaused(health, s, now) ==>
                health[s].blockedUntil.value <= health[blocked.value].blockedUntil.value
    {
      blocked := None;
      for i := 0 to |scopes|
        invariant blocked.Some? ==> blocked.value in scopes && IsPaused(health, blocked.value, now)
        invariant blocked.None? ==> forall j :: 0 <= j < i ==> !IsPaused(health, scopes[j], now)
        invariant blocked.Some? ==> forall j :: 0 <= j < i && IsPaused(health, scopes[j], now) ==>
                    health[scopes[j]].blockedUntil.value <= health[blocked.value].blockedUntil.value
      {
        var s := scopes[i];
        if IsPaused(health, s, now)
           && (blocked.None? || health[s].blockedUntil.value > health[blocked.value].blockedUntil.value) {
          blocked := Some(s);
        }
      }
    }

    /** The upsert for one scope, and the UPDATE that pauses it once the tolerance is used up. */
    method FailOne(scope: string, now: Time) returns (until: Option<Time>)
      modifies this
      ensures health == old(health)[scope := Failed(HealthOf(old(health), scope), now)]
      ensures until == PauseOf(HealthOf(old(health), scope), now)
      ensures old(Valid()) ==> Valid()
    {
      if Valid() { FailedInOrder(HealthOf(health, scope), now); }
      var x := HealthOf(health, scope);
      var k := x.failures + 1;
      health := health[scope := x.(failures := k, total := x.total + 1, lastFailed := Some(now))];
      if k <= FREE_FAILURES { return None; }
      health := health[scope := health[scope].(blockedUntil := Some(now + Backoff(k)))];
      return Some(now + Backoff(k));
    }

    method RecordFailure(scopes: seq<string>, now: Time) returns (furthest: Option<Time>)
      modifies this
      ensures health == FailAll(old(health), scopes, now)
      ensures furthest == Furthest(old(health), scopes, now)
      ensures old(Valid()) ==> Valid()
    {
      furthest := None;
      for i := 0 to |scopes|
        invariant health == FailAll(old(health), scopes[..i], now)
        invariant furthest == Furthest(old(health), scopes[..i], now)
        invariant old(Valid()) ==> Valid()
      {
        assert scopes[..i + 1][..i] == scopes[..i];
        var until := FailOne(scopes[i], now);
        if until.Some? && (furthest.None? || until.value > furthest.value) { furthest := until; }
      }
      assert scopes[..|scopes|] == scopes;
    }

    /** The upsert, scope by scope: a success clears every scope it touched and no other. */
    method RecordSuccess(scopes: seq<string>)
      modifies this
      ensures health.Keys == old(health).Keys + set s | s in scopes
      ensures forall s :: s in scopes ==> Cleared(HealthOf(old(health), s), health[s])
      ensures forall s :: s in old(health) && s !in scopes ==> health[s] == old(health)[s]
      ensures old(Valid()) ==> Valid()
    {
      for i := 0 to |scopes|
        invariant health.Keys == old(health).Keys + set s | s in scopes[..i]
        invariant forall s :: s in scopes[..i] ==> Cleared(HealthOf(old(health), s), health[s])
        invariant forall s :: s in old(health) && s !in scopes[..i] ==> health[s] == old(health)[s]
        invariant old(Valid()) ==> Valid()
      {
        assert scopes[..i + 1] == scopes[..i] + [scopes[i]];
        var x := HealthOf(health, scopes[i]);
        health := health[scopes[i] := x.(failures := 0, blockedUntil := None)];
      }
      assert scopes[..|scopes|] == scopes;
    }

    /** Check, call the provider, record: the order every send takes. */
    method Send(recipients: seq<string>, start: Time, finish: Time, accepted: bool) returns (o: Outcome)
      modifies this
      ensures health == Attempted(old(health), Attempt(ScopesFor(recipients), start, finish, accepted))
      ensures o.Throttled? <==> AnyPaused(old(health), ScopesFor(recipients), start)
      ensures o.Throttled? ==> o.scope in ScopesFor(recipients) && IsPaused(old(health), o.scope, start)
      ensures !o.Throttled? ==> (o.Delivered? <==> accepted)
      ensures o.Rejected? ==> o.until == Furthest(old(health), ScopesFor(recipients), finish)
      // With the pauses in order: throttled exactly while a scope is resting.
      ensures old(Valid()) ==> Valid()
      ensures old(Valid()) ==> (o.Throttled? <==> AnyRests(old(health), ScopesFor(recipients), start))
    {
      if Valid() { PausedIsResting(health, ScopesFor(recipients), start); }
      var scopes := ScopesFor(recipients);
      var blocked := BlockedScope(scopes, start);
      if blocked.Some? { return Throttled(blocked.value); }
      if accepted {
        RecordSuccess(scopes);
        ClearedIsSucceeded(old(health), scopes, health);
        return Delivered;
      }
      var until := RecordFailure(scopes, finish);
      return Rejected(until);
    }
  }

  // ---- runs of sends that do not overlap ---------------------------------------------------------------

  datatype Attempt = Attempt(scopes: seq<string>, start: Time, finish: Time, accepted: bool)

  function Attempted(h: map<string, Health>, a: Attempt): map<string, Health> {
    if AnyPaused(h, a.scopes, a.start) then h
    else if a.accepted then SucceedAll(h, a.scopes)
    else FailAll(h, a.scopes, a.finish)
  }

  function After(h: map<string, Health>, run: seq<Attempt>, n: nat): map<string, Health>
    requires n <= |run|
  {
    if n == 0 then h else Attempted(After(h, run, n - 1), run[n - 1])
  }
}

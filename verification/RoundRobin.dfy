/**
 * Fairness of the round-robin cursor, whoever joins or leaves the set of
 * candidates from one pick to the next.
 */
module RoundRobin {
  import opened Wrappers

  /** User ids are UUIDs; the number stands for their lexicographic order. */
  type UserId = int

  /**
   * `c` follows the cursor in the ring of ids: the least id past it, or the
   * least of all when none is.
   */
  ghost predicate Follows(ids: set<UserId>, cursor: Option<UserId>, c: UserId) {
    && c in ids
    && (|| (cursor.Some? && c > cursor.value && forall d :: d in ids && d > cursor.value ==> c <= d)
        || ((cursor.None? || forall d :: d in ids ==> d <= cursor.value) && forall d :: d in ids ==> c <= d))
  }

  /** A run of picks: each follows the one before it in the set of that moment. */
  ghost predicate Picks(sets: seq<set<UserId>>, start: Option<UserId>, picks: seq<UserId>) {
    && |sets| == |picks|
    && forall k :: 0 <= k < |picks| ==> PickAt(sets, start, picks, k)
  }

  ghost predicate PickAt(sets: seq<set<UserId>>, start: Option<UserId>, picks: seq<UserId>, k: nat)
    requires k < |sets| == |picks|
  {
    Follows(sets[k], CursorAt(start, picks, k), picks[k])
  }

  function CursorAt(start: Option<UserId>, picks: seq<UserId>, k: nat): Option<UserId>
    requires k <= |picks|
  {
    if k == 0 then start else Some(picks[k - 1])
  }

  /** How often `m` is picked at the steps from `i` up to, not including, `j`. */
  function Count(picks: seq<UserId>, m: UserId, i: nat, j: nat): nat
    requires i <= j <= |picks|
    decreases j - i
  {
    if i == j then 0 else Count(picks, m, i, j - 1) + if picks[j - 1] == m then 1 else 0
  }

  lemma {:induction false} CountZero(picks: seq<UserId>, m: UserId, i: nat, j: nat)
    requires i <= j <= |picks|
    ensures Count(picks, m, i, j) == 0 <==> forall k :: i <= k < j ==> picks[k] != m
    decreases j - i
  {
    if i == j {
    } else {
      CountZero(picks, m, i, j - 1);
    }
  }

  /** Going up the ring from the cursor, `m` is met before `a`. */
  predicate Sooner(cursor: Option<UserId>, m: UserId, a: UserId) {
    match cursor
    case None => m < a
    case Some(c) => (c < m < a) || (m < a <= c) || (a <= c < m)
  }

  lemma SoonerStep(ids: set<UserId>, cursor: Option<UserId>, p: UserId, m: UserId, a: UserId)
    requires m != a && m in ids && a in ids && Follows(ids, cursor, p)
    ensures p == a ==> !Sooner(cursor, m, a) && Sooner(Some(p), m, a)
    ensures p == m ==> Sooner(cursor, m, a) && !Sooner(Some(p), m, a)
    ensures p != a && p != m ==> (Sooner(cursor, m, a) <==> Sooner(Some(p), m, a))
  {
  }

  /** Both are candidates at every step from `i` up to `j`. */
  ghost predicate Stay(sets: seq<set<UserId>>, m: UserId, a: UserId, i: nat, j: nat) {
    j <= |sets| && forall k :: i <= k < j ==> m in sets[k] && a in sets[k]
  }

  /**
   * The exact balance of a run, while the set of candidates changes at will:
   * two members who stay candidates are picked equally often, but for who is
   * next in the ring at its two ends.
   */
  lemma {:induction false} Balance(sets: seq<set<UserId>>, start: Option<UserId>, picks: seq<UserId>,
                                   i: nat, j: nat, m: UserId, a: UserId)
    requires Picks(sets, start, picks) && i <= j <= |picks| && m != a && Stay(sets, m, a, i, j)
    ensures Count(picks, a, i, j) - Count(picks, m, i, j)
            == (if Sooner(CursorAt(start, picks, j), m, a) then 1 else 0)
               - (if Sooner(CursorAt(start, picks, i), m, a) then 1 else 0)
    decreases j - i
  {
    if i == j {
    } else {
      Balance(sets, start, picks, i, j - 1, m, a);
      assert PickAt(sets, start, picks, j - 1);
      SoonerStep(sets[j - 1], CursorAt(start, picks, j - 1), picks[j - 1], m, a);
    }
  }

  /** Over any stretch, two members who stay candidates are picked equally often, give or take one. */
  lemma RoundRobinFair(sets: seq<set<UserId>>, start: Option<UserId>, picks: seq<UserId>,
                       i: nat, j: nat, m: UserId, a: UserId)
    requires Picks(sets, start, picks) && i <= j <= |picks| && Stay(sets, m, a, i, j)
    ensures -1 <= Count(picks, a, i, j) - Count(picks, m, i, j) <= 1
  {
    if m != a { Balance(sets, start, picks, i, j, m, a); }
  }

  /** While `m` is a candidate and comes before `a`, `a` is not picked, and `m` goes on coming before it. */
  lemma StillSooner(ids: set<UserId>, cursor: Option<UserId>, p: UserId, m: UserId, a: UserId)
    requires m != a && m in ids && Follows(ids, cursor, p) && Sooner(cursor, m, a)
    ensures p != a && (p != m ==> Sooner(Some(p), m, a))
  {
  }

  lemma {:induction false} StaysSooner(sets: seq<set<UserId>>, start: Option<UserId>, picks: seq<UserId>,
                                       i: nat, j: nat, a: UserId, m: UserId)
    requires Picks(sets, start, picks) && i < j <= |picks| && m != a && picks[i] == a
    requires forall k :: i < k < j ==> m in sets[k] && picks[k] != m
    ensures Sooner(CursorAt(start, picks, j), m, a)
    decreases j - i
  {
    if j == i + 1 {
    } else {
      StaysSooner(sets, start, picks, i, j - 1, a, m);
      assert PickAt(sets, start, picks, j - 1);
      StillSooner(sets[j - 1], CursorAt(start, picks, j - 1), picks[j - 1], m, a);
    }
  }

  /**
   * No starvation: between two picks of `a`, every other member who was a
   * candidate throughout is picked, whoever else joins or leaves meanwhile,
   * `a` included.
   */
  lemma NoStarvation(sets: seq<set<UserId>>, start: Option<UserId>, picks: seq<UserId>,
                     i: nat, j: nat, a: UserId, m: UserId)
    requires Picks(sets, start, picks) && i < j < |picks| && m != a && picks[i] == a && picks[j] == a
    requires forall k :: i < k <= j ==> m in sets[k]
    ensures Count(picks, m, i + 1, j) >= 1
  {
    CountZero(picks, m, i + 1, j);
    if Count(picks, m, i + 1, j) == 0 {
      StaysSooner(sets, start, picks, i, j, a, m);
      assert PickAt(sets, start, picks, j);
      StillSooner(sets[j], CursorAt(start, picks, j), picks[j], m, a);
    }
  }

  /** And exactly once between consecutive picks of a member who stays too. */
  lemma OncePerTurn(sets: seq<set<UserId>>, start: Option<UserId>, picks: seq<UserId>,
                    i: nat, j: nat, a: UserId, m: UserId)
    requires Picks(sets, start, picks) && i < j < |picks| && m != a
    requires picks[i] == a && picks[j] == a && forall k :: i < k < j ==> picks[k] != a
    requires Stay(sets, m, a, i + 1, j + 1)
    ensures Count(picks, m, i + 1, j) == 1
  {
    Balance(sets, start, picks, i + 1, j + 1, m, a);
    CountZero(picks, a, i + 1, j);
  }

  // ---- a fixed set ----------------------------------------------------------------

  /** Picks from a set, each at most once, are no more than the set holds. */
  lemma {:induction false} DistinctFits(ids: set<UserId>, picks: seq<UserId>, i: nat, j: nat)
    requires i <= j <= |picks|
    requires forall k :: i <= k < j ==> picks[k] in ids
    requires forall m :: m in ids ==> Count(picks, m, i, j) <= 1
    ensures j - i <= |ids|
    decreases j - i
  {
    if i == j {
    } else {
      CountZero(picks, picks[j - 1], i, j - 1);
      DistinctFits(ids - {picks[j - 1]}, picks, i, j - 1);
    }
  }

  /** Picking every member of a set takes as many picks as it has members. */
  lemma {:induction false} CoverTakes(ids: set<UserId>, picks: seq<UserId>, i: nat, j: nat)
    requires i <= j <= |picks|
    requires forall m :: m in ids ==> Count(picks, m, i, j) >= 1
    ensures |ids| <= j - i
    decreases j - i
  {
    if i == j {
      forall m ensures m !in ids { assert Count(picks, m, i, j) == 0; }
      assert ids == {};
    } else {
      CoverTakes(ids - {picks[j - 1]}, picks, i, j - 1);
      assert |ids - {picks[j - 1]}| >= |ids| - 1;
    }
  }

  /** And one more if somebody is picked twice. */
  lemma {:induction false} CoverTwiceTakes(ids: set<UserId>, picks: seq<UserId>, i: nat, j: nat, a: UserId)
    requires i <= j <= |picks| && a in ids && Count(picks, a, i, j) >= 2
    requires forall m :: m in ids ==> Count(picks, m, i, j) >= 1
    ensures |ids| < j - i
    decreases j - i
  {
    if picks[j - 1] == a {
      CoverTakes(ids, picks, i, j - 1);
    } else {
      CoverTwiceTakes(ids - {picks[j - 1]}, picks, i, j - 1, a);
      assert |ids - {picks[j - 1]}| >= |ids| - 1;
    }
  }

  lemma AtMostOncePerRound(ids: set<UserId>, sets: seq<set<UserId>>, start: Option<UserId>,
                           picks: seq<UserId>, i: nat, j: nat, a: UserId)
    requires Picks(sets, start, picks) && i <= j <= |picks| && j - i == |ids| && a in ids
    requires forall k :: i <= k < j ==> sets[k] == ids
    ensures Count(picks, a, i, j) <= 1
  {
    if Count(picks, a, i, j) >= 2 {
      forall m | m in ids ensures Count(picks, m, i, j) >= 1 {
        RoundRobinFair(sets, start, picks, i, j, m, a);
      }
      CoverTwiceTakes(ids, picks, i, j, a);
    }
  }

  /** While the set stays one of n members, n consecutive picks are each member once. */
  lemma RoundRobinPermutes(ids: set<UserId>, sets: seq<set<UserId>>, start: Option<UserId>,
                           picks: seq<UserId>, i: nat, j: nat)
    requires Picks(sets, start, picks) && i <= j <= |picks| && j - i == |ids|
    requires forall k :: i <= k < j ==> sets[k] == ids
    ensures forall m :: m in ids ==> Count(picks, m, i, j) == 1
    ensures forall k :: i <= k < j ==> picks[k] in ids
  {
    forall k | i <= k < j ensures picks[k] in ids {
      assert PickAt(sets, start, picks, k);
    }
    forall m | m in ids ensures Count(picks, m, i, j) == 1 {
      forall d | d in ids ensures Count(picks, d, i, j) <= 1 { AtMostOncePerRound(ids, sets, start, picks, i, j, d); }
      CountZero(picks, m, i, j);
      if Count(picks, m, i, j) == 0 { DistinctFits(ids - {m}, picks, i, j); }
    }
  }

  /**
   * A zone without a configuration row has nowhere to store the cursor, so
   * every turn starts from none: whoever has the least id takes every case,
   * and among two or more the others none at all.
   */
  lemma UnstoredCursorStarves(ids: set<UserId>, picks: seq<UserId>, m: UserId)
    requires m in ids && forall k :: 0 <= k < |picks| ==> Follows(ids, None, picks[k])
    ensures Count(picks, m, 0, |picks|) == if forall d :: d in ids ==> m <= d then |picks| else 0
  {
    LeastTakesAll(ids, picks, m, |picks|);
  }

  lemma {:induction false} LeastTakesAll(ids: set<UserId>, picks: seq<UserId>, m: UserId, n: nat)
    requires n <= |picks| && m in ids && forall k :: 0 <= k < |picks| ==> Follows(ids, None, picks[k])
    ensures Count(picks, m, 0, n) == if forall d :: d in ids ==> m <= d then n else 0
  {
    if n == 0 {
    } else {
      LeastTakesAll(ids, picks, m, n - 1);
      assert Follows(ids, None, picks[n - 1]);
    }
  }
}

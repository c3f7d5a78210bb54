/**
 * Fairness of the least-open and weighted strategies over a fixed set of
 * candidates, whatever order the query returns them in.
 */
module LoadBalance {

  /** One member's load: cases held open, and the weight of their capacity. */
  datatype Load = Load(open: nat, weight: int)

  /** a.open/a.weight <= b.open/b.weight, compared by cross-multiplication. */
  predicate NoHeavier(a: Load, b: Load) { a.open * b.weight <= b.open * a.weight }

  // ---- arithmetic ----------------------------------------------------------------

  lemma MulMono(a: int, b: int, k: int)
    requires a <= b && k >= 0
    ensures a * k <= b * k
  {
  }

  lemma MulCancel(a: int, b: int, k: int)
    requires a * k <= b * k && k > 0
    ensures a <= b
  {
    if b < a { MulMono(b + 1, a, k); }
  }

  lemma CrossTransitive(x: int, y: int, z: int, p: int, q: int, r: int)
    requires p >= 0 && q > 0 && r >= 0
    requires x * q <= y * p && y * r <= z * q
    ensures x * r <= z * p
  {
    MulMono(x * q, y * p, r);
    MulMono(y * r, z * q, p);
    assert x * q * r == (x * r) * q;
    assert y * p * r == y * r * p;
    assert z * q * p == (z * p) * q;
    MulCancel(x * r, z * p, q);
  }

  lemma NoHeavierTransitive(a: Load, b: Load, c: Load)
    requires a.weight >= 1 && b.weight >= 1 && c.weight >= 1
    requires NoHeavier(a, b) && NoHeavier(b, c)
    ensures NoHeavier(a, c)
  {
    CrossTransitive(a.open, b.open, c.open, a.weight, b.weight, c.weight);
  }

  // ---- runs ------------------------------------------------------------------------

  /** Member `k` took a case. */
  function Take(loads: seq<Load>, k: nat): seq<Load>
    requires k < |loads|
  {
    loads[k := loads[k].(open := loads[k].open + 1)]
  }

  ghost predicate HasFewest(loads: seq<Load>, k: nat) {
    k < |loads| && forall j :: 0 <= j < |loads| ==> loads[k].open <= loads[j].open
  }

  ghost predicate HasLightest(loads: seq<Load>, k: nat) {
    k < |loads| && forall j :: 0 <= j < |loads| ==> NoHeavier(loads[k], loads[j])
  }

  datatype Rule = Fewest | Lightest

  ghost predicate Best(rule: Rule, loads: seq<Load>, k: nat) {
    match rule case Fewest => HasFewest(loads, k) case Lightest => HasLightest(loads, k)
  }

  /** The loads after members picks[0], ..., picks[n - 1] took one case each, in turn. */
  function After(loads: seq<Load>, picks: seq<nat>, n: nat): (r: seq<Load>)
    requires n <= |picks|
    requires forall t :: 0 <= t < |picks| ==> picks[t] < |loads|
    ensures |r| == |loads|
    ensures forall j :: 0 <= j < |loads| ==> r[j].weight == loads[j].weight
  {
    if n == 0 then loads else Take(After(loads, picks, n - 1), picks[n - 1])
  }

  /** Each pick is a best one at its moment; ties may be broken in any way. */
  ghost predicate Greedy(loads: seq<Load>, picks: seq<nat>, rule: Rule) {
    && (forall t :: 0 <= t < |picks| ==> picks[t] < |loads|)
    && (forall t :: 0 <= t < |picks| ==> BestAt(loads, picks, rule, t))
  }

  ghost predicate BestAt(loads: seq<Load>, picks: seq<nat>, rule: Rule, n: nat)
    requires n < |picks|
    requires forall t :: 0 <= t < |picks| ==> picks[t] < |loads|
  {
    Best(rule, After(loads, picks, n), picks[n])
  }

  // ---- least open --------------------------------------------------------------------

  /** No two members are more than `d` cases apart. */
  ghost predicate SpreadWithin(loads: seq<Load>, d: nat) {
    forall i, j :: 0 <= i < |loads| && 0 <= j < |loads| ==> loads[i].open <= loads[j].open + d
  }

  /** Least-open never widens a spread beyond what it started with, or one. */
  lemma {:induction false} LeastOpenSpread(loads: seq<Load>, picks: seq<nat>, n: nat, d: nat)
    requires Greedy(loads, picks, Fewest) && n <= |picks| && SpreadWithin(loads, d)
    ensures SpreadWithin(After(loads, picks, n), if d > 1 then d else 1)
  {
    if n == 0 {
    } else {
      LeastOpenSpread(loads, picks, n - 1, d);
      assert BestAt(loads, picks, Fewest, n - 1);
    }
  }

  // ---- weighted ------------------------------------------------------------------------

  /** (a.open - 1)/a.weight <= b.open/b.weight. */
  predicate AheadByOne(a: Load, b: Load) { (a.open - 1) * b.weight <= b.open * a.weight }

  /** Nobody is more than one case ahead of anybody, in proportion to capacity. */
  ghost predicate Proportionate(loads: seq<Load>) {
    forall i, j :: 0 <= i < |loads| && 0 <= j < |loads| ==> AheadByOne(loads[i], loads[j])
  }

  ghost predicate Weighed(loads: seq<Load>) {
    forall i :: 0 <= i < |loads| ==> loads[i].weight >= 1
  }

  lemma TakerStaysClose(a: Load, b: Load)
    requires NoHeavier(a, b)
    ensures AheadByOne(a.(open := a.open + 1), b)
  {
  }

  lemma OthersStayClose(a: Load, b: Load)
    requires AheadByOne(a, b) && a.weight >= 1
    ensures AheadByOne(a, b.(open := b.open + 1))
  {
    MulMono(b.open, b.open + 1, a.weight);
  }

  lemma ProportionateStep(loads: seq<Load>, k: nat)
    requires Proportionate(loads) && Weighed(loads) && HasLightest(loads, k)
    ensures Proportionate(Take(loads, k))
  {
    var after := Take(loads, k);
    forall i, j | 0 <= i < |after| && 0 <= j < |after| ensures AheadByOne(after[i], after[j]) {
      assert AheadByOne(loads[i], loads[j]);
      if i == k {
        TakerStaysClose(loads[k], loads[j]);
        if j == k { MulMono(loads[k].open, loads[k].open + 1, loads[k].weight); }
      } else if j == k {
        OthersStayClose(loads[i], loads[k]);
      }
    }
  }

  lemma {:induction false} WeightedStaysProportionate(loads: seq<Load>, picks: seq<nat>, n: nat)
    requires Greedy(loads, picks, Lightest) && n <= |picks| && Weighed(loads) && Proportionate(loads)
    ensures Proportionate(After(loads, picks, n))
  {
    if n == 0 {
    } else {
      WeightedStaysProportionate(loads, picks, n - 1);
      assert BestAt(loads, picks, Lightest, n - 1);
      ProportionateStep(After(loads, picks, n - 1), picks[n - 1]);
    }
  }

  function TotalOpen(loads: seq<Load>): int {
    if loads == [] then 0 else TotalOpen(loads[..|loads| - 1]) + loads[|loads| - 1].open
  }

  function TotalWeight(loads: seq<Load>): int {
    if loads == [] then 0 else TotalWeight(loads[..|loads| - 1]) + loads[|loads| - 1].weight
  }

  lemma SumInequalities(x: int, w: int, t: int, o: int, lw: int, lo: int)
    requires x * t <= o * w && x * lw <= lo * w
    ensures x * (t + lw) <= (o + lo) * w
  {
    assert x * (t + lw) == x * t + x * lw;
    assert (o + lo) * w == o * w + lo * w;
  }

  /** a's share of the open cases, less one case, is within its share of the capacity. */
  predicate WithinShare(a: Load, loads: seq<Load>) {
    (a.open - 1) * TotalWeight(loads) <= TotalOpen(loads) * a.weight
  }

  lemma {:induction false} ShareOf(a: Load, loads: seq<Load>)
    requires forall j :: 0 <= j < |loads| ==> AheadByOne(a, loads[j])
    ensures WithinShare(a, loads)
  {
    if loads == [] {
    } else {
      var front, last := loads[..|loads| - 1], loads[|loads| - 1];
      ShareOf(a, front);
      SumInequalities(a.open - 1, a.weight, TotalWeight(front), TotalOpen(front), last.weight, last.open);
    }
  }

  /** From a proportionate start, every member stays within its share. */
  lemma WeightedFair(loads: seq<Load>, picks: seq<nat>, n: nat, i: nat)
    requires Greedy(loads, picks, Lightest) && Weighed(loads) && Proportionate(loads)
    requires n <= |picks| && i < |loads|
    ensures WithinShare(After(loads, picks, n)[i], After(loads, picks, n))
  {
    var after := After(loads, picks, n);
    WeightedStaysProportionate(loads, picks, n);
    assert forall j :: 0 <= j < |after| ==> AheadByOne(after[i], after[j]);
    ShareOf(after[i], after);
  }
}

/** Blanking known secrets, and large fragments of them, out of a log. */
module Scrub {

  const STARS := "***"
  const SCRUB_FRAGMENT := 8
  const SHORTEST_VALUE := 6

  // ---- str.replace -------------------------------------------------------------------------

  /** Leftmost, non-overlapping occurrences, one scan. */
  function ReplaceAll(text: string, needle: string): string
    requires needle != ""
    decreases |text|
  {
    if text == "" then ""
    else if needle <= text then STARS + ReplaceAll(text[|needle|..], needle)
    else [text[0]] + ReplaceAll(text[1..], needle)
  }

  ghost predicate OccursAt(w: string, text: string, p: nat) { p <= |text| && w <= text[p..] }

  ghost predicate Occurs(w: string, text: string) { exists p: nat :: OccursAt(w, text, p) }

  /** No end of it, and no three characters in a row, can come out of a replacement's stars. */
  predicate Tame(w: string) { EndsPlain(w) && (w != "" ==> w[0] != '*') }

  predicate EndsPlain(w: string) { (w != "" ==> w[|w| - 1] != '*') && NoRun(w) }

  predicate NoRun(w: string) { forall i :: 0 <= i && i + 3 <= |w| ==> !RunAt(w, i) }

  predicate RunAt(w: string, i: nat)
    requires i + 3 <= |w|
  {
    w[i] == '*' && w[i + 1] == '*' && w[i + 2] == '*'
  }

  predicate StarFree(w: string) { '*' !in w }

  lemma StarFreeIsTame(w: string)
    requires StarFree(w)
    ensures Tame(w)
  {
  }

  // ---- what one replacement does -----------------------------------------------------------------

  lemma StarsAreNotFree(w: string, rest: string, p: nat)
    requires w != "" && p < 3 && OccursAt(w, STARS + rest, p)
    ensures !Tame(w)
  {
    assert w[0] == (STARS + rest)[p..][0] == (STARS + rest)[p] == '*';
  }

  lemma StarsDoNotStart(w: string, rest: string)
    requires w != "" && w <= STARS + rest
    ensures !EndsPlain(w)
  {
    if |w| >= 3 {
      assert forall i :: 0 <= i < 3 ==> w[i] == (STARS + rest)[i];
      assert RunAt(w, 0);
    } else {
      assert w[|w| - 1] == (STARS + rest)[|w| - 1];
    }
  }

  lemma EndsPlainLater(w: string)
    requires EndsPlain(w) && w != ""
    ensures EndsPlain(w[1..])
  {
    forall i | 0 <= i && i + 3 <= |w[1..]| ensures !RunAt(w[1..], i) { assert !RunAt(w, i + 1); }
  }

  /** What starts the result, if no star run is its end or inside it, started the text. */
  lemma {:induction false} TameStart(text: string, needle: string, w: string)
    requires needle != "" && EndsPlain(w) && w <= ReplaceAll(text, needle)
    ensures w <= text
    decreases |text|
  {
    if w != "" && text != "" {
      if needle <= text {
        StarsDoNotStart(w, ReplaceAll(text[|needle|..], needle));
      } else {
        assert w[0] == text[0];
        assert ReplaceAll(text, needle)[1..] == ReplaceAll(text[1..], needle);
        EndsPlainLater(w);
        TameStart(text[1..], needle, w[1..]);
        assert w == [w[0]] + w[1..] && text == [text[0]] + text[1..];
      }
    }
  }

  lemma OccursLater(w: string, text: string, k: nat)
    requires k <= |text| && Occurs(w, text[k..])
    ensures Occurs(w, text)
  {
    var p: nat :| OccursAt(w, text[k..], p);
    assert text[k..][p..] == text[k + p..];
    assert OccursAt(w, text, k + p);
  }

  /** A replacement makes no new tame text. */
  lemma {:induction false} NothingNew(text: string, needle: string, w: string, p: nat)
    requires needle != "" && w != "" && Tame(w) && OccursAt(w, ReplaceAll(text, needle), p)
    ensures Occurs(w, text)
    decreases |text|
  {
    var result := ReplaceAll(text, needle);
    if p == 0 {
      assert result[0..] == result;
      TameStart(text, needle, w);
      assert OccursAt(w, text, 0);
    } else if text != "" {
      if needle <= text {
        var rest := ReplaceAll(text[|needle|..], needle);
        if p < 3 {
          StarsAreNotFree(w, rest, p);
        } else {
          assert result[p..] == rest[p - 3..];
          NothingNew(text[|needle|..], needle, w, p - 3);
          OccursLater(w, text, |needle|);
        }
      } else {
        assert result[p..] == ReplaceAll(text[1..], needle)[p - 1..];
        NothingNew(text[1..], needle, w, p - 1);
        OccursLater(w, text, 1);
      }
    }
  }

  /** The needle itself is gone. */
  lemma {:induction false} Gone(text: string, needle: string, p: nat)
    requires needle != "" && Tame(needle)
    ensures !OccursAt(needle, ReplaceAll(text, needle), p)
    decreases |text|
  {
    var result := ReplaceAll(text, needle);
    if OccursAt(needle, result, p) && text != "" {
      if needle <= text {
        var rest := ReplaceAll(text[|needle|..], needle);
        if p < 3 {
          StarsAreNotFree(needle, rest, p);
        } else {
          assert result[p..] == rest[p - 3..];
          Gone(text[|needle|..], needle, p - 3);
        }
      } else if p == 0 {
        assert result[0..] == result;
        TameStart(text, needle, needle);
      } else {
        assert result[p..] == ReplaceAll(text[1..], needle)[p - 1..];
        Gone(text[1..], needle, p - 1);
      }
    }
  }

  lemma {:induction false} NothingToReplace(text: string, needle: string)
    requires needle != "" && !Occurs(needle, text)
    ensures ReplaceAll(text, needle) == text
    decreases |text|
  {
    if text == "" {
    } else {
      assert !OccursAt(needle, text, 0);
      assert text[0..] == text;
      if Occurs(needle, text[1..]) { OccursLater(needle, text, 1); }
      NothingToReplace(text[1..], needle);
    }
  }

  // ---- which needles -----------------------------------------------------------------------------------

  function Least(value: string): nat { if |value| / 2 > SCRUB_FRAGMENT then |value| / 2 else SCRUB_FRAGMENT }

  function FragmentsOf(value: string): set<string> {
    set i: nat, j: nat | i < |value| && j <= |value| && i + Least(value) <= j :: value[i..j]
  }

  function NeedlesOf(values: set<string>): set<string> {
    set v, n | v in values && |v| >= SHORTEST_VALUE && n in FragmentsOf(v) + {v} :: n
  }

  ghost predicate IsLargePart(n: string, v: string) {
    |n| >= 8 && 2 * |n| + 1 >= |v| && exists i, j :: 0 <= i <= j <= |v| && n == v[i..j]
  }

  lemma FragmentsExactly(v: string, n: string)
    ensures n in FragmentsOf(v) <==> IsLargePart(n, v)
  {
    if n in FragmentsOf(v) {
      var i: nat, j: nat :| i < |v| && j <= |v| && i + Least(v) <= j && n == v[i..j];
      assert |n| >= Least(v);
    }
    if IsLargePart(n, v) {
      var i, j :| 0 <= i <= j <= |v| && n == v[i..j];
      assert i + Least(v) <= j;
    }
  }

  /**
   * What is blanked of a value of six characters or more: all of it, and every
   * stretch at least eight characters long and at least half of it, rounded down.
   */
  lemma NeedlesExactly(values: set<string>, n: string)
    ensures n in NeedlesOf(values)
            <==> exists v :: v in values && |v| >= 6 && (n == v || IsLargePart(n, v))
  {
    if n in NeedlesOf(values) {
      var v :| v in values && |v| >= SHORTEST_VALUE && n in FragmentsOf(v) + {v};
      FragmentsExactly(v, n);
    }
    if v :| v in values && |v| >= 6 && (n == v || IsLargePart(n, v)) {
      FragmentsExactly(v, n);
      assert n in FragmentsOf(v) + {v};
    }
  }

  /** The tail a parse error shows of a secret is one of them, if it is large enough. */
  lemma TailIsANeedle(values: set<string>, v: string, k: nat)
    requires v in values && k <= |v| && |v| - k >= 8 && 2 * (|v| - k) >= |v|
    ensures v[k..] in NeedlesOf(values)
  {
    assert v[k..] == v[k..|v|];
    assert IsLargePart(v[k..], v);
    NeedlesExactly(values, v[k..]);
  }

  function ReplaceEach(text: string, order: seq<string>): string
    requires "" !in order
  {
    if order == [] then text else ReplaceAll(ReplaceEach(text, order[..|order| - 1]), order[|order| - 1])
  }

  /** The needles, each once, no shorter one before a longer; equal lengths in any order. */
  ghost predicate LongestFirst(order: seq<string>, needles: set<string>) {
    && (forall n :: n in order <==> n in needles)
    && |order| == |needles|
    && (forall i, j :: 0 <= i < j < |order| ==> |order[i]| >= |order[j]|)
  }

  // ---- the code's loops --------------------------------------------------------------------------------------

  method AddFragments(value: string, before: set<string>) returns (needles: set<string>)
    ensures needles == before + FragmentsOf(value)
  {
    needles := before;
    var least := Least(value);
    for start := 0 to |value|
      invariant needles == before + (set i: nat, j: nat | i < start && j <= |value| && i + least <= j :: value[i..j])
    {
      ghost var outer := needles;
      var end := start + least;
      while end <= |value|
        invariant start + least <= end
        invariant needles == outer + (set j: nat | start + least <= j < end && j <= |value| :: value[start..j])
        decreases |value| + 1 - end
      {
        needles := needles + {value[start..end]};
        end := end + 1;
      }
    }
  }

  method Needles(values: set<string>) returns (needles: set<string>)
    ensures needles == NeedlesOf(values)
  {
    needles := {};
    var todo := values;
    while todo != {}
      invariant todo <= values && needles == NeedlesOf(values - todo)
      decreases todo
    {
      var value :| value in todo;
      ghost var done := values - todo;
      todo := todo - {value};
      assert values - todo == done + {value};
      NeedlesOfOneMore(done, value);
      if |value| >= SHORTEST_VALUE {
        needles := AddFragments(value, needles + {value});
      }
    }
    assert values - todo == values;
  }

  lemma NeedlesOfOneMore(values: set<string>, value: string)
    ensures NeedlesOf(values + {value})
            == NeedlesOf(values) + if |value| >= SHORTEST_VALUE then FragmentsOf(value) + {value} else {}
  {
  }

  lemma NeedlesAreLong(values: set<string>, n: string)
    requires n in NeedlesOf(values)
    ensures |n| >= SHORTEST_VALUE
  {
  }

  lemma LongestExists(needles: set<string>)
    requires needles != {}
    ensures exists n :: n in needles && forall m :: m in needles ==> |m| <= |n|
    decreases needles
  {
    var n :| n in needles;
    var rest := needles - {n};
    if rest == {} {
      assert needles == {n};
    } else {
      LongestExists(rest);
      var k :| k in rest && forall m :: m in rest ==> |m| <= |k|;
      var best := if |k| >= |n| then k else n;
      assert forall m :: m in needles ==> m == n || m in rest;
      assert best in needles && forall m :: m in needles ==> |m| <= |best|;
    }
  }

  method Longest(needles: set<string>) returns (n: string)
    requires needles != {}
    ensures n in needles && forall m :: m in needles ==> |m| <= |n|
  {
    LongestExists(needles);
    n :| n in needles && forall m :: m in needles ==> |m| <= |n|;
  }

  ghost predicate NoLonger(todo: set<string>, order: seq<string>) {
    forall m, i :: m in todo && 0 <= i < |order| ==> |m| <= |order[i]|
  }

  /** The loop's state: the needles are split into those replaced, in order, and those left. */
  ghost predicate Underway(order: seq<string>, done: set<string>, todo: set<string>, needles: set<string>) {
    LongestFirst(order, done) && NoLonger(todo, order) && done + todo == needles && done !! todo
  }

  lemma OrderGrows(order: seq<string>, done: set<string>, needle: string)
    requires LongestFirst(order, done) && needle !in done
    requires forall i :: 0 <= i < |order| ==> |needle| <= |order[i]|
    ensures LongestFirst(order + [needle], done + {needle})
  {
  }

  lemma NoLongerGrows(todo: set<string>, order: seq<string>, needle: string)
    requires NoLonger(todo, order) && forall m :: m in todo ==> |m| <= |needle|
    ensures NoLonger(todo - {needle}, order + [needle])
  {
  }

  lemma OneMoreInOrder(order: seq<string>, done: set<string>, todo: set<string>, needles: set<string>, needle: string)
    requires Underway(order, done, todo, needles) && needle in todo
    requires forall m :: m in todo ==> |m| <= |needle|
    ensures Underway(order + [needle], done + {needle}, todo - {needle}, needles)
  {
    OrderGrows(order, done, needle);
    NoLongerGrows(todo, order, needle);
  }

  lemma NoneLeft(order: seq<string>, done: set<string>, needles: set<string>)
    requires Underway(order, done, {}, needles)
    ensures LongestFirst(order, needles)
  {
    assert done == needles;
  }

  /** The needles replaced longest first, in one of the orders the sort may give equal lengths. */
  ghost predicate ScrubsTo(text: string, values: set<string>, result: string) {
    exists order :: LongestFirst(order, NeedlesOf(values)) && "" !in order && result == ReplaceEach(text, order)
  }

  method ScrubText(text: string, values: set<string>) returns (result: string)
    ensures ScrubsTo(text, values, result)
    ensures TameNeedles(values) ==> forall n :: n in NeedlesOf(values) ==> !Occurs(n, result)
  {
    var needles := Needles(values);
    forall n | n in needles ensures n != "" { NeedlesAreLong(values, n); }
    ghost var order;
    result, order := ReplaceLongestFirst(text, needles);
    if TameNeedles(values) {
      forall n | n in needles ensures !Occurs(n, result) { ScrubbedIsClean(text, values, result, n); }
    }
  }

  method ReplaceLongestFirst(text: string, needles: set<string>) returns (result: string, ghost order: seq<string>)
    requires "" !in needles
    ensures LongestFirst(order, needles) && "" !in order
    ensures result == ReplaceEach(text, order)
  {
    var todo := needles;
    ghost var done := {};
    result, order := text, [];
    while todo != {}
      invariant Underway(order, done, todo, needles)
      invariant "" !in order && result == ReplaceEach(text, order)
      decreases todo
    {
      var needle := Longest(todo);
      OneMoreInOrder(order, done, todo, needles, needle);
      ReplaceOneMore(text, order, needle);
      result := ReplaceAll(result, needle);
      order, done, todo := order + [needle], done + {needle}, todo - {needle};
    }
    NoneLeft(order, done, needles);
  }

  lemma ReplaceOneMore(text: string, order: seq<string>, needle: string)
    requires "" !in order && needle != ""
    ensures ReplaceEach(text, order + [needle]) == ReplaceAll(ReplaceEach(text, order), needle)
  {
    assert (order + [needle])[..|order|] == order;
  }

  // ---- what scrubbing promises ------------------------------------------------------------------------------------

  ghost predicate NoStars(values: set<string>) { forall v :: v in values ==> StarFree(v) }

  ghost predicate TameNeedles(values: set<string>) { forall n :: n in NeedlesOf(values) ==> Tame(n) }

  /** In particular when no value holds a star. */
  lemma NoStarsIsTame(values: set<string>)
    requires NoStars(values)
    ensures TameNeedles(values)
  {
    forall n | n in NeedlesOf(values) ensures Tame(n) {
      NeedlesAreStarFree(values, n);
      StarFreeIsTame(n);
    }
  }

  lemma NeedlesAreStarFree(values: set<string>, n: string)
    requires NoStars(values) && n in NeedlesOf(values)
    ensures StarFree(n)
  {
    var v :| v in values && |v| >= SHORTEST_VALUE && n in FragmentsOf(v) + {v};
    if n != v {
      var i: nat, j: nat :| i < |v| && j <= |v| && i + Least(v) <= j && n == v[i..j];
      assert forall k :: 0 <= k < |n| ==> n[k] == v[i + k];
    }
  }

  ghost predicate AllTame(order: seq<string>) { "" !in order && forall i :: 0 <= i < |order| ==> Tame(order[i]) }

  /** In whatever order: once replaced, a needle never comes back. */
  lemma {:induction false} EachIsGone(text: string, order: seq<string>, i: nat, p: nat)
    requires AllTame(order) && i < |order|
    ensures !OccursAt(order[i], ReplaceEach(text, order), p)
  {
    var front, last := order[..|order| - 1], order[|order| - 1];
    var before := ReplaceEach(text, front);
    if i == |order| - 1 {
      Gone(before, last, p);
    } else if OccursAt(order[i], ReplaceEach(text, order), p) {
      NothingNew(before, last, order[i], p);
      var q: nat :| OccursAt(order[i], before, q);
      EachIsGone(text, front, i, q);
    }
  }

  /**
   * If every needle is tame, none is left anywhere: no whole value of six
   * characters or more and no fragment of eight or more and half its value.
   */
  lemma NoNeedleLeft(text: string, values: set<string>, order: seq<string>, n: string)
    requires TameNeedles(values) && LongestFirst(order, NeedlesOf(values)) && n in NeedlesOf(values)
    requires "" !in order
    ensures !Occurs(n, ReplaceEach(text, order))
  {
    forall i | 0 <= i < |order| ensures Tame(order[i]) { assert order[i] in order; }
    var i :| 0 <= i < |order| && order[i] == n;
    forall p: nat ensures !OccursAt(n, ReplaceEach(text, order), p) {
      EachIsGone(text, order, i, p);
    }
  }

  lemma ScrubbedIsClean(text: string, values: set<string>, result: string, n: string)
    requires TameNeedles(values) && ScrubsTo(text, values, result) && n in NeedlesOf(values)
    ensures !Occurs(n, result)
  {
    var order :| LongestFirst(order, NeedlesOf(values)) && "" !in order && result == ReplaceEach(text, order);
    NoNeedleLeft(text, values, order, n);
  }

  lemma {:induction false} CleanTextStays(text: string, order: seq<string>)
    requires "" !in order && forall i :: 0 <= i < |order| ==> !Occurs(order[i], text)
    ensures ReplaceEach(text, order) == text
  {
    if order == [] {
    } else {
      CleanTextStays(text, order[..|order| - 1]);
      NothingToReplace(text, order[|order| - 1]);
    }
  }

  /** Scrubbing again, whatever order equal lengths are taken in, changes nothing. */
  lemma ScrubTwice(text: string, values: set<string>, order: seq<string>, again: seq<string>)
    requires TameNeedles(values)
    requires LongestFirst(order, NeedlesOf(values)) && LongestFirst(again, NeedlesOf(values))
    requires "" !in order
    requires "" !in again
    ensures ReplaceEach(ReplaceEach(text, order), again) == ReplaceEach(text, order)
  {
    forall i | 0 <= i < |again| ensures !Occurs(again[i], ReplaceEach(text, order)) {
      assert again[i] in again;
      NoNeedleLeft(text, values, order, again[i]);
    }
    CleanTextStays(ReplaceEach(text, order), again);
  }

  /** Nothing but stars is added: whatever tame text the result holds, the log held. */
  lemma {:induction false} OnlyStarsAdded(text: string, order: seq<string>, w: string)
    requires "" !in order
    requires w != "" && Tame(w) && Occurs(w, ReplaceEach(text, order))
    ensures Occurs(w, text)
  {
    if order == [] {
    } else {
      var p: nat :| OccursAt(w, ReplaceEach(text, order), p);
      NothingNew(ReplaceEach(text, order[..|order| - 1]), order[|order| - 1], w, p);
      OnlyStarsAdded(text, order[..|order| - 1], w);
    }
  }

  // ---- why longest first -----------------------------------------------------------------------------------------------

  lemma LongerDoesNotOccur(n: string, text: string)
    requires |n| >= |text| && n != text
    ensures !Occurs(n, text)
  {
    assert text[0..] == text;
    forall p: nat ensures !OccursAt(n, text, p) {
    }
  }

  lemma {:induction false} FirstAt(order: seq<string>, value: string) returns (k: nat)
    requires value in order
    ensures k < |order| && order[k] == value && value !in order[..k]
  {
    if value in order[..|order| - 1] {
      k := FirstAt(order[..|order| - 1], value);
      assert order[..|order| - 1][..k] == order[..k];
    } else {
      k := |order| - 1;
    }
  }

  lemma {:induction false} UntouchedUpTo(value: string, order: seq<string>, k: nat)
    requires k <= |order| && "" !in order
    requires value !in order[..k] && forall i :: 0 <= i < k ==> |order[i]| >= |value|
    ensures ReplaceEach(value, order[..k]) == value
  {
    if k == 0 {
    } else {
      UntouchedUpTo(value, order, k - 1);
      assert order[..k][..k - 1] == order[..k - 1] && order[..k][k - 1] == order[k - 1];
      LongerDoesNotOccur(order[k - 1], value);
      NothingToReplace(value, order[k - 1]);
    }
  }

  lemma NotInStars(n: string)
    requires Tame(n) && n != ""
    ensures !Occurs(n, STARS)
  {
    assert STARS + "" == STARS;
    forall p: nat ensures !OccursAt(n, STARS, p) {
      if OccursAt(n, STARS, p) { StarsAreNotFree(n, "", p); }
    }
  }

  lemma {:induction false} StarsStay(value: string, order: seq<string>, k: nat, n: nat)
    requires k <= n <= |order| && AllTame(order)
    requires ReplaceEach(value, order[..k]) == STARS
    ensures ReplaceEach(value, order[..n]) == STARS
  {
    if k == n {
    } else {
      StarsStay(value, order, k, n - 1);
      assert order[..n][..n - 1] == order[..n - 1];
      NotInStars(order[n - 1]);
      NothingToReplace(STARS, order[n - 1]);
    }
  }

  /**
   * What the order buys: a value on its own is blanked whole, even when other
   * values or fragments lie inside it, so no remainder too short to count is left.
   */
  lemma WholeValueIsBlanked(value: string, values: set<string>, order: seq<string>)
    requires TameNeedles(values) && LongestFirst(order, NeedlesOf(values))
    requires "" !in order
    requires value in values && |value| >= SHORTEST_VALUE
    ensures ReplaceEach(value, order) == STARS
  {
    forall i | 0 <= i < |order| ensures Tame(order[i]) { assert order[i] in order; }
    assert value in FragmentsOf(value) + {value};
    assert value in NeedlesOf(values) && value in order;
    var k := FirstAt(order, value);
    UntouchedUpTo(value, order, k);
    assert order[..k + 1][..k] == order[..k];
    assert value[|value|..] == "" && ReplaceAll(value, value) == STARS + "";
    assert ReplaceEach(value, order[..k + 1]) == STARS;
    StarsStay(value, order, k + 1, |order|);
    assert order[..|order|] == order;
  }

  /** The other order would leave the tail of a value that starts with another value readable. */
  lemma ShortestFirstLeaks(a: string, b: string)
    requires |a| >= SHORTEST_VALUE && b != "" && !Occurs(a, b)
    ensures ReplaceEach(a + b, [a, a + b]) == STARS + b
  {
    assert (a + b)[|a|..] == b;
    NothingToReplace(b, a);
    LongerDoesNotOccur(a + b, STARS + b);
    NothingToReplace(STARS + b, a + b);
    assert [a, a + b][..1] == [a] && [a][..0] == [];
    assert ReplaceEach(a + b, [a]) == STARS + b;
  }

  // ---- where the promise stops ------------------------------------------------------------------------------------------

  /** The scan up to the first occurrence, and what is left after it. */
  lemma {:induction false} FirstOccurrence(before: string, needle: string, after: string)
    requires needle != "" && forall q: nat :: q < |before| ==> !OccursAt(needle, before + needle + after, q)
    ensures ReplaceAll(before + needle + after, needle) == before + STARS + ReplaceAll(after, needle)
    decreases |before|
  {
    var text := before + needle + after;
    if before == "" {
      assert text == needle + after && text[|needle|..] == after;
      assert before + STARS + ReplaceAll(after, needle) == STARS + ReplaceAll(after, needle);
    } else {
      var rest := before[1..] + needle + after;
      assert text[1..] == rest;
      assert !OccursAt(needle, text, 0) && text[0..] == text;
      forall q: nat | q < |before| - 1 ensures !OccursAt(needle, rest, q) {
        assert !OccursAt(needle, text, q + 1) && text[q + 1..] == rest[q..];
      }
      FirstOccurrence(before[1..], needle, after);
      assert before + STARS + ReplaceAll(after, needle) == [before[0]] + (before[1..] + STARS + ReplaceAll(after, needle));
    }
  }

  lemma ShorterHasNone(needle: string, text: string)
    requires |text| < |needle|
    ensures ReplaceAll(text, needle) == text
  {
    LongerDoesNotOccur(needle, text);
    NothingToReplace(text, needle);
  }

  /** A leading star: the stars supply it. */
  lemma LeadingStarSurvives(needle: string)
    requires needle != "" && needle[0] == '*'
    ensures Occurs(needle, ReplaceAll(needle + needle[1..], needle))
  {
    var tail := needle[1..];
    assert (needle + tail)[|needle|..] == tail;
    ShorterHasNone(needle, tail);
    assert (STARS + tail)[2..] == needle;
    assert OccursAt(needle, STARS + tail, 2);
  }

  lemma OccursMeans(w: string, text: string, q: nat, i: nat)
    requires OccursAt(w, text, q) && i < |w|
    ensures q + i < |text| && w[i] == text[q + i]
  {
    assert text[q..][i] == text[q + i];
  }

  lemma MiddleAt(a: string, b: string, c: string, k: nat)
    requires k < |b|
    ensures (a + b + c)[|a| + k] == b[k]
  {
  }

  lemma NoEarlierTrailing(needle: string, x: string, q: nat)
    requires needle != "" && needle[0] != '*' && needle == x + "*" && q < |x|
    ensures !OccursAt(needle, x + needle + "", q)
  {
    var text := x + needle + "";
    if OccursAt(needle, text, q) {
      OccursMeans(needle, text, q, 0);
      OccursMeans(needle, text, q, |x|);
      MiddleAt(x, needle, "", q);
    }
  }

  /** A trailing star, without a leading one. */
  lemma TrailingStarSurvives(x: string)
    requires x != "" && x[0] != '*'
    ensures Occurs(x + "*", ReplaceAll(x + (x + "*"), x + "*"))
  {
    var needle := x + "*";
    var text := x + needle + "";
    forall q: nat | q < |x| ensures !OccursAt(needle, text, q) { NoEarlierTrailing(needle, x, q); }
    FirstOccurrence(x, needle, "");
    assert x + needle == text;
    var result := x + STARS + "";
    assert result[0..] == result && needle <= result;
    assert OccursAt(needle, result, 0);
  }

  lemma NoEarlierRun(needle: string, i: nat, before: string, after: string, q: nat)
    requires i + 3 <= |needle| && RunAt(needle, i) && q < i == |before|
    requires forall k: nat :: k < i ==> !RunAt(needle, k)
    ensures !OccursAt(needle, before + needle + after, q)
  {
    var text := before + needle + after;
    if OccursAt(needle, text, q) {
      OccursMeans(needle, text, q, i);
      OccursMeans(needle, text, q, i + 1);
      OccursMeans(needle, text, q, i + 2);
      MiddleAt(before, needle, after, q);
      MiddleAt(before, needle, after, q + 1);
      MiddleAt(before, needle, after, q + 2);
      RunIsRun(needle, q);
    }
  }

  lemma RunIsRun(w: string, q: nat)
    requires q + 3 <= |w| && w[q] == '*' && w[q + 1] == '*' && w[q + 2] == '*'
    ensures RunAt(w, q)
  {
  }

  /** Three stars inside: the replacement is those three. */
  lemma InnerRunSurvives(needle: string, before: string, after: string)
    requires needle == before + STARS + after && forall k: nat :: k < |before| ==> !RunAt(needle, k)
    ensures Occurs(needle, ReplaceAll(before + needle + after, needle))
  {
    var text := before + needle + after;
    assert RunAt(needle, |before|);
    forall q: nat | q < |before| ensures !OccursAt(needle, text, q) {
      NoEarlierRun(needle, |before|, before, after, q);
    }
    FirstOccurrence(before, needle, after);
    ShorterHasNone(needle, after);
    assert needle[0..] == needle && OccursAt(needle, needle, 0);
  }

  lemma {:induction false} FirstRun(w: string, i: nat) returns (j: nat)
    requires i + 3 <= |w| && RunAt(w, i)
    ensures j <= i && RunAt(w, j) && forall k: nat :: k < j ==> !RunAt(w, k)
  {
    j := i;
    if k: nat :| k < i && RunAt(w, k) { j := FirstRun(w, k); }
  }

  /** Replacing the needle leaves none of it, whatever the text. */
  ghost predicate AlwaysGone(needle: string)
    requires needle != ""
  {
    forall text :: !Occurs(needle, ReplaceAll(text, needle))
  }

  lemma NotAlwaysGone(needle: string, text: string)
    requires needle != "" && Occurs(needle, ReplaceAll(text, needle))
    ensures !AlwaysGone(needle)
  {
  }

  /** Replacing a needle leaves none of it in any text, if and only if the needle is tame. */
  lemma ReplacedExactly(needle: string)
    requires needle != ""
    ensures AlwaysGone(needle) <==> Tame(needle)
  {
    if Tame(needle) {
      forall text, p: nat ensures !OccursAt(needle, ReplaceAll(text, needle), p) { Gone(text, needle, p); }
    } else if needle[0] == '*' {
      LeadingStarSurvives(needle);
      NotAlwaysGone(needle, needle + needle[1..]);
    } else if needle[|needle| - 1] == '*' {
      var x := needle[..|needle| - 1];
      assert needle == x + "*";
      TrailingStarSurvives(x);
      NotAlwaysGone(needle, x + needle);
    } else {
      var i :| 0 <= i && i + 3 <= |needle| && RunAt(needle, i);
      var j := FirstRun(needle, i);
      var before, after := needle[..j], needle[j + 3..];
      assert needle == before + STARS + after;
      InnerRunSurvives(needle, before, after);
      NotAlwaysGone(needle, before + needle + after);
    }
  }

  lemma ShortValueIsItsOnlyNeedle(value: string)
    requires SHORTEST_VALUE <= |value| <= SCRUB_FRAGMENT
    ensures NeedlesOf({value}) == {value}
  {
    forall n | n in FragmentsOf(value) ensures n == value {
      var i: nat, j: nat :| i < |value| && j <= |value| && i + Least(value) <= j && n == value[i..j];
    }
    assert value in FragmentsOf(value) + {value};
  }

  lemma ReplaceOne(text: string, needle: string)
    requires needle != ""
    ensures ReplaceEach(text, [needle]) == ReplaceAll(text, needle)
  {
    ReplaceOneMore(text, [], needle);
    assert [] + [needle] == [needle];
  }

  ghost predicate AlwaysScrubbed(value: string) {
    forall text, result :: ScrubsTo(text, {value}, result) ==> !Occurs(value, result)
  }

  lemma TameIsScrubbed(value: string)
    requires NeedlesOf({value}) == {value} && Tame(value)
    ensures AlwaysScrubbed(value)
  {
    var values := {value};
    assert TameNeedles(values) && value in NeedlesOf(values);
    forall text, result | ScrubsTo(text, values, result) ensures !Occurs(value, result) {
      ScrubbedIsClean(text, values, result, value);
    }
  }

  lemma WildIsNotScrubbed(value: string, text: string)
    requires NeedlesOf({value}) == {value} && value != "" && Occurs(value, ReplaceAll(text, value))
    ensures !AlwaysScrubbed(value)
  {
    var order := [value];
    ReplaceOne(text, value);
    assert LongestFirst(order, NeedlesOf({value})) && "" !in order;
    assert ScrubsTo(text, {value}, ReplaceEach(text, order));
  }

  /** So scrubbing a single value of six to eight characters is safe in every text exactly when it is tame. */
  lemma ShortValueExactly(value: string)
    requires SHORTEST_VALUE <= |value| <= SCRUB_FRAGMENT
    ensures AlwaysScrubbed(value) <==> Tame(value)
  {
    ShortValueIsItsOnlyNeedle(value);
    ReplacedExactly(value);
    if Tame(value) {
      TameIsScrubbed(value);
    } else {
      var text :| Occurs(value, ReplaceAll(text, value));
      WildIsNotScrubbed(value, text);
    }
  }
}

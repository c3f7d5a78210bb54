/**
 * Paging an export by key: the batch loop over a table that may change between
 * batches, against "sort everything once".
 */
module Keyset {
  import opened Wrappers

  /** The ordering pair. `at` is in microseconds, as timestamptz stores it. */
  datatype Key = Key(at: int, id: int)

  datatype Row<T> = Row(key: Key, data: T)

  predicate Less(a: Key, b: Key) { a.at < b.at || (a.at == b.at && a.id < b.id) }

  ghost predicate Descending<T(!new)>(rows: seq<Row<T>>) {
    forall i, j :: 0 <= i < j < |rows| ==> Less(rows[j].key, rows[i].key)
  }

  /** A table's rows in whatever order they are stored; `id` is its primary key. */
  ghost predicate UniqueKeys<T(!new)>(table: seq<Row<T>>) {
    table == [] || ((forall r :: r in table[1..] ==> r.key != table[0].key) && UniqueKeys(table[1..]))
  }

  // ---- the query ---------------------------------------------------------------------

  predicate Continues(cursor: Option<Key>, k: Key) { cursor.None? || Less(k, cursor.value) }

  function Matching<T(!new)>(table: seq<Row<T>>, cursor: Option<Key>): (rows: seq<Row<T>>)
    ensures forall r :: r in rows <==> r in table && Continues(cursor, r.key)
    ensures UniqueKeys(table) ==> UniqueKeys(rows)
  {
    if table == [] then []
    else
      var rest := Matching(table[1..], cursor);
      assert [table[0]] + rest == [table[0]] + rest && ([table[0]] + rest)[1..] == rest;
      if Continues(cursor, table[0].key) then [table[0]] + rest else rest
  }

  function InsertDescending<T(!new)>(r: Row<T>, sorted: seq<Row<T>>): (s: seq<Row<T>>)
    ensures forall x :: x in s <==> x == r || x in sorted
    ensures Descending(sorted) && (forall x :: x in sorted ==> x.key != r.key) ==> Descending(s)
  {
    if sorted == [] || Less(sorted[0].key, r.key) then [r] + sorted
    else
      assert Descending(sorted) ==> Descending(sorted[1..]);
      assert Descending(sorted) ==> forall x :: x in sorted[1..] ==> Less(x.key, sorted[0].key);
      var rest := InsertDescending(r, sorted[1..]);
      [sorted[0]] + rest
  }

  function OrderDescending<T(!new)>(rows: seq<Row<T>>): (s: seq<Row<T>>)
    ensures forall x :: x in s <==> x in rows
    ensures UniqueKeys(rows) ==> Descending(s)
  {
    if rows == [] then [] else InsertDescending(rows[0], OrderDescending(rows[1..]))
  }

  /** WHERE the key continues past the cursor ORDER BY the pair DESC LIMIT size. */
  function Page<T(!new)>(table: seq<Row<T>>, cursor: Option<Key>, size: nat): seq<Row<T>> {
    var all := OrderDescending(Matching(table, cursor));
    if |all| <= size then all else all[..size]
  }

  /** The same query by what it means: the greatest `size` of the continuing rows, in order. */
  ghost predicate PageOf<T(!new)>(table: seq<Row<T>>, cursor: Option<Key>, size: nat, page: seq<Row<T>>) {
    && Descending(page)
    && |page| <= size
    && (forall r :: r in page ==> r in table && Continues(cursor, r.key))
    && (forall r :: r in table && Continues(cursor, r.key) ==> r in page || PastTheEnd(size, page, r.key))
  }

  ghost predicate PastTheEnd<T(!new)>(size: nat, page: seq<Row<T>>, k: Key) {
    |page| == size && (page != [] ==> Less(k, page[|page| - 1].key))
  }

  lemma PageIsExact<T(!new)>(table: seq<Row<T>>, cursor: Option<Key>, size: nat)
    requires UniqueKeys(table)
    ensures PageOf(table, cursor, size, Page(table, cursor, size))
  {
    var all, page := OrderDescending(Matching(table, cursor)), Page(table, cursor, size);
    forall r | r in all ensures r in page || PastTheEnd(size, page, r.key) {
      var i :| 0 <= i < |all| && all[i] == r;
      if i < |page| { assert page[i] == r; }
    }
  }

  // ---- the loop ----------------------------------------------------------------------

  const MAX_BATCH := 5_000

  /** Toward zero. */
  function Trunc(x: real): int { if x >= 0.0 then x.Floor else -((-x).Floor) }

  function Min(a: int, b: int): int { if a < b then a else b }
  function Max(a: int, b: int): int { if a < b then b else a }

  /** The bounded, whole batch size; None stands for NaN. */
  function BatchSize(requested: Option<real>): (size: nat)
    ensures 1 <= size <= 5_000
    ensures requested.None? || requested.value < 1.0 ==> size == 1
    ensures requested.Some? && requested.value >= 5000.0 ==> size == 5_000
    ensures requested.Some? && 1.0 <= requested.value <= 5000.0 ==>
              (size as real) <= requested.value < (size as real) + 1.0
  {
    var whole := if requested.None? || Trunc(requested.value) == 0 then 1 else Trunc(requested.value);
    Min(MAX_BATCH, Max(1, whole))
  }

  function NextCursor<T(!new)>(batch: seq<Row<T>>): (cursor: Option<Key>)
    ensures batch != [] ==> cursor.Some?
  {
    if batch == [] then None else Some(batch[|batch| - 1].key)
  }

  function CursorAt<T(!new)>(batches: seq<seq<Row<T>>>, i: nat): Option<Key>
    requires i <= |batches|
  {
    if i == 0 then None else NextCursor(batches[i - 1])
  }

  ghost predicate IsPage<T(!new)>(tables: nat -> seq<Row<T>>, size: nat, batches: seq<seq<Row<T>>>, i: nat)
    requires i < |batches|
  {
    && PageOf(tables(i), CursorAt(batches, i), size, batches[i])
    && batches[i] != []
    && (i < |batches| - 1 ==> |batches[i]| == size)
  }

  ghost predicate IsFullPage<T(!new)>(tables: nat -> seq<Row<T>>, size: nat, batches: seq<seq<Row<T>>>, i: nat)
    requires i < |batches|
  {
    IsPage(tables, size, batches, i) && |batches[i]| == size
  }

  /** `batches` is what an export yields when its i-th query sees `tables(i)`. */
  ghost predicate Exported<T(!new)>(tables: nat -> seq<Row<T>>, size: nat, batches: seq<seq<Row<T>>>) {
    && (forall i :: 0 <= i < |batches| ==> IsPage(tables, size, batches, i))
    && (EndedShort(size, batches) || PageOf(tables(|batches|), CursorAt(batches, |batches|), size, []))
  }

  /** The last batch was short, so no further query is made. */
  predicate EndedShort<T(!new)>(size: nat, batches: seq<seq<Row<T>>>) {
    batches != [] && |batches[|batches| - 1]| < size
  }

  function Queries<T(!new)>(size: nat, batches: seq<seq<Row<T>>>): nat {
    if EndedShort(size, batches) then |batches| else |batches| + 1
  }

  /** All the rows that ever exist while an export runs are among finitely many. */
  ghost predicate Within<T(!new)>(tables: nat -> seq<Row<T>>, keys: set<Key>) {
    forall i :: UniqueKeys(tables(i)) && KeysIn(tables(i), keys)
  }

  ghost predicate KeysIn<T(!new)>(table: seq<Row<T>>, keys: set<Key>) { forall r :: r in table ==> r.key in keys }

  /** The keys a cursor has still to pass. */
  ghost function Ahead(keys: set<Key>, cursor: Option<Key>): set<Key> {
    set k | k in keys && Continues(cursor, k)
  }

  lemma FullPageLeavesOneBehind<T(!new)>(table: seq<Row<T>>, keys: set<Key>, cursor: Option<Key>,
                                         size: nat, page: seq<Row<T>>)
    requires KeysIn(table, keys) && PageOf(table, cursor, size, page) && page != []
    ensures Ahead(keys, NextCursor(page)) < Ahead(keys, cursor)
  {
    var last := page[|page| - 1];
    assert last in page;
    assert last.key in Ahead(keys, cursor) && last.key !in Ahead(keys, NextCursor(page));
  }

  lemma EarlierPagesStay<T(!new)>(tables: nat -> seq<Row<T>>, size: nat, batches: seq<seq<Row<T>>>,
                                  page: seq<Row<T>>, i: nat)
    requires i < |batches| && IsFullPage(tables, size, batches, i)
    ensures IsFullPage(tables, size, batches + [page], i)
  {
    var more := batches + [page];
    assert more[i] == batches[i] && CursorAt(more, i) == CursorAt(batches, i);
  }

  ghost predicate FullSoFar<T(!new)>(tables: nat -> seq<Row<T>>, size: nat, batches: seq<seq<Row<T>>>) {
    forall i :: 0 <= i < |batches| ==> IsFullPage(tables, size, batches, i)
  }

  /** A further page, full or short, leaves the earlier ones full pages of the longer list. */
  lemma OneMorePage<T(!new)>(tables: nat -> seq<Row<T>>, size: nat, batches: seq<seq<Row<T>>>, page: seq<Row<T>>)
    requires FullSoFar(tables, size, batches)
    requires page != [] && PageOf(tables(|batches|), CursorAt(batches, |batches|), size, page)
    ensures |page| == size ==> FullSoFar(tables, size, batches + [page])
    ensures |page| < size ==> Exported(tables, size, batches + [page])
  {
    var n, more := |batches|, batches + [page];
    assert more[n] == page && CursorAt(more, n) == CursorAt(batches, n);
    assert IsPage(tables, size, more, n);
    forall i | 0 <= i < n ensures IsFullPage(tables, size, more, i) {
      EarlierPagesStay(tables, size, batches, page, i);
    }
    forall i | 0 <= i < |more| ensures IsPage(tables, size, more, i) {
      if i < n { assert IsFullPage(tables, size, more, i); }
    }
  }

  lemma NothingFurther<T(!new)>(tables: nat -> seq<Row<T>>, size: nat, batches: seq<seq<Row<T>>>)
    requires FullSoFar(tables, size, batches)
    requires PageOf(tables(|batches|), CursorAt(batches, |batches|), size, [])
    ensures Exported(tables, size, batches)
  {
    forall i | 0 <= i < |batches| ensures IsPage(tables, size, batches, i) {
      assert IsFullPage(tables, size, batches, i);
    }
  }

  /** Each query is its own transaction: the i-th one sees `tables(i)`. */
  method StreamExportRows<T(!new)>(tables: nat -> seq<Row<T>>, requested: Option<real>, ghost keys: set<Key>)
    returns (batches: seq<seq<Row<T>>>)
    requires Within(tables, keys)
    ensures Exported(tables, BatchSize(requested), batches)
  {
    var size := BatchSize(requested);
    var cursor: Option<Key> := None;
    batches := [];
    while true
      invariant FullSoFar(tables, size, batches)
      invariant cursor == CursorAt(batches, |batches|)
      decreases Ahead(keys, cursor)
    {
      var batch := Page(tables(|batches|), cursor, size);
      PageIsExact(tables(|batches|), cursor, size);
      if batch == [] {
        NothingFurther(tables, size, batches);
        return;
      }
      FullPageLeavesOneBehind(tables(|batches|), keys, cursor, size, batch);
      OneMorePage(tables, size, batches, batch);
      batches := batches + [batch];
      if |batch| < size { return; }
      cursor := NextCursor(batch);
    }
  }

  // ---- what an export promises ------------------------------------------------------------

  /** The first `n` batches end to end. */
  function Flat<T>(batches: seq<seq<T>>, n: nat): seq<T>
    requires n <= |batches|
  {
    if n == 0 then [] else Flat(batches, n - 1) + batches[n - 1]
  }

  /** Newest first, and of one instant the greatest id first. */
  ghost predicate NewestFirst<T(!new)>(rows: seq<Row<T>>) {
    forall i, j :: 0 <= i < j < |rows| ==>
                     || rows[j].key.at < rows[i].key.at
                     || (rows[j].key.at == rows[i].key.at && rows[j].key.id < rows[i].key.id)
  }

  /** No row is sent twice, whatever is inserted or deleted between batches. */
  lemma {:induction false} StrictlyDescending<T(!new)>(tables: nat -> seq<Row<T>>, size: nat,
                                                 batches: seq<seq<Row<T>>>, n: nat)
    requires Exported(tables, size, batches) && n <= |batches|
    ensures Descending(Flat(batches, n)) && NewestFirst(Flat(batches, n))
    ensures n > 0 ==> Flat(batches, n) != [] && CursorAt(batches, n) == NextCursor(Flat(batches, n))
  {
    if n == 0 {
    } else {
      StrictlyDescending(tables, size, batches, n - 1);
      var front: seq<Row<T>>, page: seq<Row<T>> := Flat(batches, n - 1), batches[n - 1];
      assert IsPage(tables, size, batches, n - 1);
      forall i, j | 0 <= i < j < |front| + |page|
        ensures Less((front + page)[j].key, (front + page)[i].key)
      {
        if i < |front| <= j {
          var last := front[|front| - 1];
          assert page[j - |front|] in page;
          assert Less(page[j - |front|].key, last.key);
          if i < |front| - 1 { assert Less(last.key, front[i].key); }
        }
      }
    }
  }

  /** Every row sent was in the table when its batch was read. */
  lemma {:induction false} OnlyRealRows<T(!new)>(tables: nat -> seq<Row<T>>, size: nat,
                                           batches: seq<seq<Row<T>>>, n: nat, r: Row<T>)
    requires Exported(tables, size, batches) && n <= |batches| && r in Flat(batches, n)
    ensures exists i :: 0 <= i < n && r in tables(i)
  {
    if n == 0 {
    } else {
      assert IsPage(tables, size, batches, n - 1);
      if r in batches[n - 1] {
        assert r in tables(n - 1);
      } else {
        OnlyRealRows(tables, size, batches, n - 1, r);
      }
    }
  }

  ghost predicate Holds<T(!new)>(table: seq<Row<T>>, k: Key) { exists r :: r in table && r.key == k }

  /** A key in every table read so far has been sent, or is still ahead of the cursor. */
  lemma {:induction false} SentOrAhead<T(!new)>(tables: nat -> seq<Row<T>>, size: nat,
                                          batches: seq<seq<Row<T>>>, n: nat, k: Key)
    requires size > 0 && Exported(tables, size, batches) && n <= |batches|
    requires forall i :: 0 <= i < n ==> Holds(tables(i), k)
    ensures Holds(Flat(batches, n), k)
            || (Continues(CursorAt(batches, n), k) && (n > 0 ==> |batches[n - 1]| == size))
  {
    if n == 0 {
    } else {
      SentOrAhead(tables, size, batches, n - 1, k);
      assert IsPage(tables, size, batches, n - 1);
      if Holds(Flat(batches, n - 1), k) {
        var r :| r in Flat(batches, n - 1) && r.key == k;
        assert r in Flat(batches, n);
      } else {
        assert Holds(tables(n - 1), k);
        var r :| r in tables(n - 1) && r.key == k;
        if r in batches[n - 1] { assert r in Flat(batches, n); }
      }
    }
  }

  ghost predicate ExactlyOnce<T(!new)>(rows: seq<Row<T>>, k: Key) {
    exists i :: 0 <= i < |rows| && rows[i].key == k && forall j :: 0 <= j < |rows| && rows[j].key == k ==> j == i
  }

  lemma DescendingHoldsOnce<T(!new)>(rows: seq<Row<T>>, k: Key)
    requires Descending(rows) && Holds(rows, k)
    ensures ExactlyOnce(rows, k)
  {
    var r :| r in rows && r.key == k;
    var i :| 0 <= i < |rows| && rows[i] == r;
    assert forall j :: 0 <= j < |rows| && rows[j].key == k ==> j == i;
  }

  lemma EmptyPageMeansNoneAhead<T(!new)>(table: seq<Row<T>>, cursor: Option<Key>, size: nat, k: Key)
    requires size > 0 && PageOf(table, cursor, size, []) && Holds(table, k)
    ensures !Continues(cursor, k)
  {
  }

  lemma SentInTheEnd<T(!new)>(tables: nat -> seq<Row<T>>, size: nat, batches: seq<seq<Row<T>>>, k: Key)
    requires size > 0 && Exported(tables, size, batches)
    requires forall i :: 0 <= i < Queries(size, batches) ==> Holds(tables(i), k)
    ensures Holds(Flat(batches, |batches|), k)
  {
    if EndedShort(size, batches) {
      SentOrAhead(tables, size, batches, |batches|, k);
    } else {
      assert Holds(tables(|batches|), k);
      EmptyPageMeansNoneAhead(tables(|batches|), CursorAt(batches, |batches|), size, k);
      SentOrAhead(tables, size, batches, |batches|, k);
    }
  }

  /** A row present in every table the export reads is sent, exactly once. */
  lemma NothingMissed<T(!new)>(tables: nat -> seq<Row<T>>, size: nat, batches: seq<seq<Row<T>>>, k: Key)
    requires size > 0 && Exported(tables, size, batches)
    requires forall i :: 0 <= i < Queries(size, batches) ==> Holds(tables(i), k)
    ensures ExactlyOnce(Flat(batches, |batches|), k)
  {
    SentInTheEnd(tables, size, batches, k);
    StrictlyDescending(tables, size, batches, |batches|);
    DescendingHoldsOnce(Flat(batches, |batches|), k);
  }

  lemma EmptyOrInhabited<T(!new)>(s: seq<T>)
    ensures s == [] || exists x :: x in s
  {
    if s != [] { assert s[0] in s; }
  }

  /** A strictly descending listing is determined by the rows it lists. */
  lemma {:induction false} SameListing<T(!new)>(a: seq<Row<T>>, b: seq<Row<T>>)
    requires Descending(a) && Descending(b)
    requires forall r :: r in a <==> r in b
    ensures a == b
  {
    if a == [] {
      EmptyOrInhabited(b);
    } else {
      assert a[0] in b;
      assert b[0] in a;
      var i :| 0 <= i < |b| && b[i] == a[0];
      var j :| 0 <= j < |a| && a[j] == b[0];
      assert a[0] == b[0];
      forall r ensures r in a[1..] <==> r in b[1..] {
        if r in a[1..] {
          assert r in a;
          assert r in b && r != b[0];
        }
        if r in b[1..] {
          assert r in b;
          assert r in a && r != a[0];
        }
      }
      SameListing(a[1..], b[1..]);
    }
  }

  lemma StaticSendsAll<T(!new)>(table: seq<Row<T>>, size: nat, batches: seq<seq<Row<T>>>, r: Row<T>)
    requires UniqueKeys(table) && size > 0 && r in table
    requires Exported(_ => table, size, batches)
    ensures r in Flat(batches, |batches|)
  {
    var sent := Flat(batches, |batches|);
    assert Holds(table, r.key);
    NothingMissed(_ => table, size, batches, r.key);
    var i :| 0 <= i < |sent| && sent[i].key == r.key;
    OnlyRealRows(_ => table, size, batches, |batches|, sent[i]);
    OneRowPerKey(table, sent[i], r);
  }

  /** On a table nobody changes, the batches end to end are the sorted table. */
  lemma StaticExportIsTheSort<T(!new)>(table: seq<Row<T>>, size: nat, batches: seq<seq<Row<T>>>)
    requires UniqueKeys(table) && size > 0
    requires Exported(_ => table, size, batches)
    ensures Flat(batches, |batches|) == OrderDescending(table)
    ensures NewestFirst(Flat(batches, |batches|)) && forall r :: r in Flat(batches, |batches|) <==> r in table
  {
    var sent, sorted := Flat(batches, |batches|), OrderDescending(table);
    StrictlyDescending(_ => table, size, batches, |batches|);
    forall r | r in sent ensures r in sorted {
      OnlyRealRows(_ => table, size, batches, |batches|, r);
    }
    forall r | r in sorted ensures r in sent {
      StaticSendsAll(table, size, batches, r);
    }
    SameListing(sent, sorted);
  }

  lemma {:induction false} OneRowPerKey<T(!new)>(table: seq<Row<T>>, a: Row<T>, b: Row<T>)
    requires UniqueKeys(table) && a in table && b in table && a.key == b.key
    ensures a == b
  {
    if a != table[0] && b != table[0] { OneRowPerKey(table[1..], a, b); }
  }

  // ---- why the cursor stays text ---------------------------------------------------------

  function ToMillis(k: Key): Key { k.(at := k.at - k.at % 1000) }

  /**
   * A cursor rounded down to the millisecond drops exactly the rows that sort
   * after the true cursor but not after the rounded one.
   */
  lemma RoundedCursorDrops<T(!new)>(table: seq<Row<T>>, c: Key, size: nat, page: seq<Row<T>>,
                                     rounded: seq<Row<T>>, r: Row<T>)
    requires r in table && PageOf(table, Some(c), size, page) && |page| < size
    requires PageOf(table, Some(ToMillis(c)), size, rounded) && |rounded| < size
    ensures r in page && r !in rounded <==> Less(r.key, c) && !Less(r.key, ToMillis(c))
  {
  }
}

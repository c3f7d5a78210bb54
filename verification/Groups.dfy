/** Editing a group's members in place, row by row, under a unique key. */
module Groups {
  import opened Wrappers
  import opened Text

  datatype MemberId = MemberId(uuid: int)
  type GroupId = int

  datatype Email = Email(text: string)

  /** What case_group_members_group_email_ux compares, within a group. */
  function Key(e: Email): Email { Email(Lower(e.text)) }

  datatype Input = Input(name: string, email: Email)

  /** `low` is what the unique index holds for the row: its address in lower case. */
  datatype Member = Member(group: GroupId, name: string, email: Email, low: Email)

  // ---- cleaning the input ------------------------------------------------------------------

  predicate IsClear(c: char) { c != '@' && !IsSpace(c) }

  /** something@something.xx, without spaces or further at-signs. */
  predicate IsAddress(s: string) {
    exists i, j :: && 0 < i && i + 1 < j && j + 2 < |s| && s[i] == '@' && s[j] == '.'
                   && forall k :: 0 <= k < |s| && k != i ==> IsClear(s[k])
  }

  /** The local part, the domain and its last label, with an at-sign and a dot between them. */
  ghost predicate AddressParts(s: string, a: string, b: string, c: string) {
    && s == a + "@" + b + "." + c && a != "" && b != "" && |c| >= 2
    && (forall i :: 0 <= i < |a| ==> IsClear(a[i])) && (forall i :: 0 <= i < |b| ==> IsClear(b[i]))
    && (forall i :: 0 <= i < |c| ==> IsClear(c[i]))
  }

  lemma PartsAreFound(s: string, i: nat, j: nat)
    requires 0 < i && i + 1 < j && j + 2 < |s| && s[i] == '@' && s[j] == '.'
    requires forall k :: 0 <= k < |s| && k != i ==> IsClear(s[k])
    ensures AddressParts(s, s[..i], s[i + 1..j], s[j + 1..])
  {
    assert s == s[..i] + [s[i]] + s[i + 1..j] + [s[j]] + s[j + 1..];
  }

  lemma PartsMakeOne(s: string, a: string, b: string, c: string)
    requires AddressParts(s, a, b, c)
    ensures IsAddress(s)
  {
    var i, j := |a|, |a| + 1 + |b|;
    assert s[i] == '@' && s[j] == '.';
    forall k | 0 <= k < |s| && k != i ensures IsClear(s[k]) {
      if k < i {
        assert s[k] == a[k];
      } else if k < j {
        assert s[k] == b[k - i - 1];
      } else if k > j {
        assert s[k] == c[k - j - 1];
      }
    }
  }

  /** Which texts pass as addresses. */
  lemma AddressExactly(s: string)
    ensures IsAddress(s) <==> exists a, b, c :: AddressParts(s, a, b, c)
  {
    if IsAddress(s) {
      var i, j :| && 0 < i && i + 1 < j && j + 2 < |s| && s[i] == '@' && s[j] == '.'
                  && forall k :: 0 <= k < |s| && k != i ==> IsClear(s[k]);
      PartsAreFound(s, i, j);
    }
    if a, b, c :| AddressParts(s, a, b, c) { PartsMakeOne(s, a, b, c); }
  }

  /** One row of the input, tidied: what its address and name become, and whether the address will do. */
  datatype Entry = Entry(name: string, email: Email, blank: bool, valid: bool)

  function Tidy(m: Input): Entry {
    var email, name := Lower(Trim(m.email.text)), Trim(m.name);
    Entry(if name == "" then email else name, Email(email), email == "", IsAddress(email))
  }

  /** `tidy` is how a row is tidied: `Tidy` above, for the service itself. */
  type Tidier = Input -> Entry

  /** None is a refusal: some non-blank address is not one. */
  function Clean(ms: seq<Input>, n: nat, tidy: Tidier): Option<seq<Input>>
    requires n <= |ms|
  {
    if n == 0 then Some([])
    else
      var front, e := Clean(ms, n - 1, tidy), tidy(ms[n - 1]);
      if front.None? || e.blank then front
      else if !e.valid then None
      else if e.email in Emails(front.value) then front
      else Some(front.value + [Input(e.name, e.email)])
  }

  function Emails(ms: seq<Input>): (r: set<Email>)
    ensures forall e :: e in r <==> exists i :: 0 <= i < |ms| && ms[i].email == e
  {
    if ms == [] then {} else Emails(ms[..|ms| - 1]) + {ms[|ms| - 1].email}
  }

  /** One turn of the loop. */
  lemma CleanOneMore(ms: seq<Input>, i: nat, tidy: Tidier, out: seq<Input>)
    requires i < |ms| && Clean(ms, i, tidy) == Some(out)
    ensures var e := tidy(ms[i]);
            Clean(ms, i + 1, tidy) == if !e.blank && !e.valid then None
                                      else if e.blank || e.email in Emails(out) then Some(out)
                                      else Some(out + [Input(e.name, e.email)])
  {
  }

  method CleanMembers(ms: seq<Input>, tidy: Tidier) returns (r: Option<seq<Input>>)
    ensures r == Clean(ms, |ms|, tidy)
  {
    var seen: set<Email> := {};
    var out: seq<Input> := [];
    for i := 0 to |ms|
      invariant Clean(ms, i, tidy) == Some(out) && seen == Emails(out)
    {
      var e := tidy(ms[i]);
      CleanOneMore(ms, i, tidy, out);
      if e.blank { continue; }
      if !e.valid {
        RefusalStands(ms, i + 1, |ms|, tidy);
        return None;
      }
      if e.email in seen { continue; }
      seen := seen + {e.email};
      EmailsOfOneMore(out, Input(e.name, e.email));
      out := out + [Input(e.name, e.email)];
    }
    r := Some(out);
  }

  lemma EmailsOfOneMore(ms: seq<Input>, m: Input)
    ensures Emails(ms + [m]) == Emails(ms) + {m.email}
  {
    assert (ms + [m])[..|ms|] == ms;
  }

  lemma {:induction false} RefusalStands(ms: seq<Input>, i: nat, n: nat, tidy: Tidier)
    requires i <= n <= |ms| && Clean(ms, i, tidy).None?
    ensures Clean(ms, n, tidy).None?
  {
    if i == n {
    } else {
      RefusalStands(ms, i, n - 1, tidy);
    }
  }

  ghost predicate DistinctEmails(ms: seq<Input>) {
    forall i, j :: 0 <= i < j < |ms| ==> ms[i].email != ms[j].email
  }

  /** Row `i` is the first with its address. */
  ghost predicate IsFirst(ms: seq<Input>, i: nat, tidy: Tidier)
    requires i < |ms|
  {
    && !tidy(ms[i]).blank
    && forall k :: 0 <= k < i && !tidy(ms[k]).blank ==> tidy(ms[k]).email != tidy(ms[i]).email
  }

  /** A member of the clean list is the first row with its address, and not a refused one. */
  ghost predicate ComesFrom(m: Input, ms: seq<Input>, n: nat, tidy: Tidier)
    requires n <= |ms|
  {
    exists i :: 0 <= i < n && IsFirst(ms, i, tidy) && tidy(ms[i]).valid && m == Input(tidy(ms[i]).name, tidy(ms[i]).email)
  }

  lemma AppendedIsClean(ms: seq<Input>, n: nat, tidy: Tidier, front: seq<Input>, m: Input)
    requires 0 < n <= |ms| && DistinctEmails(front) && m.email !in Emails(front)
    requires IsFirst(ms, n - 1, tidy) && tidy(ms[n - 1]).valid && m == Input(tidy(ms[n - 1]).name, tidy(ms[n - 1]).email)
    requires forall x :: x in front ==> ComesFrom(x, ms, n - 1, tidy)
    ensures DistinctEmails(front + [m]) && Emails(front + [m]) == Emails(front) + {m.email}
    ensures forall x :: x in front + [m] ==> ComesFrom(x, ms, n, tidy)
  {
    EmailsOfOneMore(front, m);
    forall x | x in front + [m] ensures ComesFrom(x, ms, n, tidy) {
      assert x in front ==> ComesFrom(x, ms, n - 1, tidy);
    }
  }

  /** The clean list has each non-blank address of the input exactly once, as first given, and nothing else. */
  lemma {:induction false} CleanIsClean(ms: seq<Input>, n: nat, tidy: Tidier)
    requires n <= |ms| && Clean(ms, n, tidy).Some?
    ensures DistinctEmails(Clean(ms, n, tidy).value)
    ensures forall m :: m in Clean(ms, n, tidy).value ==> ComesFrom(m, ms, n, tidy)
    ensures forall i :: 0 <= i < n && !tidy(ms[i]).blank ==> tidy(ms[i]).email in Emails(Clean(ms, n, tidy).value)
  {
    if n == 0 {
    } else {
      var front, out, e := Clean(ms, n - 1, tidy).value, Clean(ms, n, tidy).value, tidy(ms[n - 1]);
      CleanIsClean(ms, n - 1, tidy);
      CleanOneMore(ms, n - 1, tidy, front);
      if e.blank || e.email in Emails(front) {
        forall m | m in front ensures ComesFrom(m, ms, n, tidy) { assert ComesFrom(m, ms, n - 1, tidy); }
      } else {
        AppendedIsClean(ms, n, tidy, front, Input(e.name, e.email));
      }
    }
  }

  /** And it is refused exactly when some non-blank address is not one. */
  lemma {:induction false} RefusedExactly(ms: seq<Input>, n: nat, tidy: Tidier)
    requires n <= |ms|
    ensures Clean(ms, n, tidy).None? <==> exists i :: 0 <= i < n && !tidy(ms[i]).blank && !tidy(ms[i]).valid
  {
    if n == 0 {
    } else {
      RefusedExactly(ms, n - 1, tidy);
    }
  }

  lemma {:induction false} CleanIsNoLonger(ms: seq<Input>, n: nat, tidy: Tidier)
    requires n <= |ms| && Clean(ms, n, tidy).Some?
    ensures |Clean(ms, n, tidy).value| <= n
  {
    if n == 0 {
    } else {
      CleanIsNoLonger(ms, n - 1, tidy);
    }
  }

  /** A row that is kept has a name, and its address is in the form the index compares. */
  predicate Settled(e: Entry) { !e.blank ==> e.name != "" && Key(e.email) == e.email }

  lemma TidyIsTidy(m: Input)
    ensures Settled(Tidy(m))
  {
    LowerTwice(Trim(m.email.text));
  }

  lemma {:induction false} LowerTwice(s: string)
    ensures Lower(Lower(s)) == Lower(s)
  {
    if s == "" {
    } else {
      LowerTwice(s[1..]);
      assert Lower(s)[1..] == Lower(s[1..]);
    }
  }

  // ---- the table ------------------------------------------------------------------------------

  type Rows = map<MemberId, Member>

  /** case_group_members_group_email_ux. */
  ghost predicate UniqueKey(rows: Rows) {
    forall a, b :: a in rows && b in rows && a != b && rows[a].group == rows[b].group ==>
                     rows[a].low != rows[b].low
  }

  ghost predicate Holds(rows: Rows, g: GroupId, e: Email) {
    exists id :: id in rows && rows[id].group == g && rows[id].low == e
  }

  /** The row of a group with this lower-cased email, in a table with the unique key. */
  ghost predicate IsRowOf(rows: Rows, g: GroupId, e: Email, id: MemberId) {
    id in rows && rows[id].group == g && rows[id].low == e
  }

  class MemberTable {
    var rows: Rows

    constructor ()
      ensures rows == map[]
    {
      rows := map[];
    }

    /** Each statement needs the key to hold after it, or the database would refuse it. */
    method Insert(id: MemberId, m: Member)
      requires UniqueKey(rows) && id !in rows && !Holds(rows, m.group, m.low)
      modifies this
      ensures rows == old(rows)[id := m] && UniqueKey(rows)
    {
      rows := rows[id := m];
    }

    method Rename(id: MemberId, name: string)
      requires UniqueKey(rows) && id in rows
      modifies this
      ensures rows == old(rows)[id := old(rows)[id].(name := name)] && UniqueKey(rows)
    {
      rows := rows[id := rows[id].(name := name)];
    }

    method Delete(id: MemberId)
      requires UniqueKey(rows)
      modifies this
      ensures rows == old(rows) - {id} && UniqueKey(rows)
    {
      rows := rows - {id};
    }

    /** The group's rows by lower-cased email. */
    method ExistingByEmail(g: GroupId) returns (byEmail: map<Email, MemberId>)
      requires UniqueKey(rows)
      ensures forall e :: e in byEmail <==> Holds(rows, g, e)
      ensures forall e :: e in byEmail ==> IsRowOf(rows, g, e, byEmail[e])
    {
      byEmail := map[];
      var todo: set<MemberId> := rows.Keys;
      while todo != {}
        invariant todo <= rows.Keys
        invariant forall e :: e in byEmail ==> IsRowOf(rows, g, e, byEmail[e])
        invariant forall id :: id in rows && id !in todo && rows[id].group == g ==> rows[id].low in byEmail
        decreases todo
      {
        var id: MemberId :| id in todo;
        todo := todo - {id};
        if rows[id].group == g { byEmail := byEmail[rows[id].low := id]; }
      }
    }

    /** One turn of the first loop: rename the member's row, or insert one. */
    method Place(g: GroupId, m: Input, byEmail: map<Email, MemberId>, newId: MemberId)
      requires UniqueKey(rows) && newId !in rows
      requires m.email in byEmail ==> byEmail[m.email] in rows
      requires m.email !in byEmail ==> !Holds(rows, g, m.email)
      modifies this
      ensures rows == if m.email in byEmail
                      then old(rows)[byEmail[m.email] := old(rows)[byEmail[m.email]].(name := m.name)]
                      else old(rows)[newId := Member(g, m.name, m.email, m.email)]
      ensures UniqueKey(rows)
    {
      if m.email in byEmail {
        var id := byEmail[m.email];
        if rows[id].name != m.name {
          Rename(id, m.name);
        } else {
          assert rows[id].(name := m.name) == rows[id];
          assert rows == rows[id := rows[id]];
        }
      } else {
        Insert(newId, Member(g, m.name, m.email, m.email));
      }
    }

    /** The first loop: every member of the list gets its row. */
    method PlaceMembers(g: GroupId, members: seq<Input>, ids: seq<MemberId>)
      requires UniqueKey(rows) && DistinctEmails(members) && NewIds(rows, members, ids)
      modifies this
      ensures UniqueKey(rows) && Merged(old(rows), rows, g, members, |members|, ids)
    {
      ghost var before := rows;
      var byEmail := ExistingByEmail(g);
      for i := 0 to |members|
        invariant UniqueKey(rows) && Merged(before, rows, g, members, i, ids)
      {
        ReadyToPlace(before, rows, g, members, i, ids);
        ghost var now := rows;
        Place(g, members[i], byEmail, ids[i]);
        PlacedOne(before, now, rows, g, members, i, ids, byEmail);
      }
    }

    /** The second loop: rows of the group that are not on the list go. */
    method DeleteUnlisted(existing: set<MemberId>, emails: set<Email>)
      requires UniqueKey(rows) && existing <= rows.Keys
      modifies this
      ensures UniqueKey(rows)
      ensures forall id :: id in rows <==> id in old(rows) && (id !in existing || old(rows)[id].low in emails)
      ensures forall id :: id in rows ==> rows[id] == old(rows)[id]
    {
      ghost var merged := rows;
      var todo := existing;
      while todo != {}
        invariant todo <= existing && UniqueKey(rows)
        invariant forall id :: id in rows <==>
                    id in merged && (id !in existing || id in todo || merged[id].low in emails)
        invariant forall id :: id in rows ==> rows[id] == merged[id]
        decreases todo
      {
        var id :| id in todo;
        todo := todo - {id};
        if rows[id].low !in emails { Delete(id); }
      }
    }

    /** `ids` are the primary keys the database would generate. */
    method UpdateMembers(g: GroupId, members: seq<Input>, ids: seq<MemberId>)
      requires UniqueKey(rows) && DistinctEmails(members) && NewIds(rows, members, ids)
      modifies this
      ensures UniqueKey(rows) && Updated(old(rows), rows, g, members)
    {
      ghost var before := rows;
      var existing := set id | id in rows && rows[id].group == g;
      PlaceMembers(g, members, ids);
      ghost var merged := rows;
      DeleteUnlisted(existing, Emails(members));
      MergedThenTrimmed(before, merged, rows, g, members, ids);
    }

    /**
     * From the input as it came to the table: refused exactly when an address
     * is not one or nobody is left. `ids` are the keys the database has in store.
     */
    method Update(g: GroupId, input: seq<Input>, ids: seq<MemberId>, tidy: Tidier) returns (ok: bool)
      requires UniqueKey(rows) && Indexed(rows) && Unused(rows, ids) && |ids| >= |input|
      requires forall m: Input :: Settled(tidy(m))
      modifies this
      ensures ok <==> Acceptable(input, tidy)
      ensures !ok ==> rows == old(rows)
      ensures UniqueKey(rows) && Indexed(rows)
      ensures ok ==> Edited(old(rows), rows, g, input, tidy)
    {
      var members := CleanMembers(input, tidy);
      RefusedExactly(input, |input|, tidy);
      if members.None? { return false; }
      CleanIsClean(input, |input|, tidy);
      GivenIsCleaned(input, members.value, tidy);
      if members.value == [] { return false; }
      CleanIsNoLonger(input, |input|, tidy);
      ghost var before := rows;
      UpdateMembers(g, members.value, ids[..|members.value|]);
      CleanedUpdate(before, rows, g, input, members.value, tidy);
      return true;
    }

    /** As the service does it. */
    method UpdateGroup(g: GroupId, input: seq<Input>, ids: seq<MemberId>) returns (ok: bool)
      requires UniqueKey(rows) && Indexed(rows) && Unused(rows, ids) && |ids| >= |input|
      modifies this
      ensures ok <==> Acceptable(input, Tidy)
      ensures !ok ==> rows == old(rows)
      ensures UniqueKey(rows) && Indexed(rows)
      ensures ok ==> Edited(old(rows), rows, g, input, Tidy)
      // An address is stored under the name given with it, trimmed, or under itself for want of one.
      ensures ok ==> forall id :: id in rows && rows[id].group == g ==> NamedAsGiven(rows[id], input)
    {
      forall m: Input ensures Settled(Tidy(m)) { TidyIsTidy(m); }
      ok := Update(g, input, ids, Tidy);
      if ok {
        forall id | id in rows && rows[id].group == g ensures NamedAsGiven(rows[id], input) {
          NameIsGiven(rows[id], input);
        }
      }
    }
  }

  ghost predicate NamedAsGiven(m: Member, input: seq<Input>) {
    exists i :: 0 <= i < |input| && IsGivenBy(m, input[i])
  }

  predicate IsGivenBy(m: Member, x: Input) {
    && m.low.text == Lower(Trim(x.email.text))
    && m.name == if Trim(x.name) == "" then Lower(Trim(x.email.text)) else Trim(x.name)
  }

  lemma NameIsGiven(m: Member, input: seq<Input>)
    requires TakesNameOf(m, input, Tidy)
    ensures NamedAsGiven(m, input)
  {
    var i :| 0 <= i < |input| && IsFirst(input, i, Tidy) && Tidy(input[i]).email == m.low && m.name == Tidy(input[i]).name;
    assert IsGivenBy(m, input[i]);
  }

  /** Who the service takes: blank rows are passed over, and every other address must be one. */
  lemma AcceptableExactly(input: seq<Input>)
    ensures Acceptable(input, Tidy)
            <==> && (forall i :: 0 <= i < |input| ==> IsBlankOrAddress(input[i]))
                 && exists i :: 0 <= i < |input| && !IsBlankRow(input[i])
  {
    assert forall i :: 0 <= i < |input| ==> (Tidy(input[i]).blank <==> IsBlankRow(input[i]));
    assert forall i :: 0 <= i < |input| ==>
                         (IsBlankOrAddress(input[i]) <==> Tidy(input[i]).blank || Tidy(input[i]).valid);
  }

  predicate IsBlankRow(m: Input) { Lower(Trim(m.email.text)) == "" }

  predicate IsBlankOrAddress(m: Input) { IsBlankRow(m) || IsAddress(Lower(Trim(m.email.text))) }

  /** Every address is one or blank, and some row is not blank. */
  ghost predicate Acceptable(input: seq<Input>, tidy: Tidier) {
    && (forall i :: 0 <= i < |input| && !tidy(input[i]).blank ==> tidy(input[i]).valid)
    && exists i :: 0 <= i < |input| && !tidy(input[i]).blank
  }

  /** Some row of the input gives this address. */
  ghost predicate Given(input: seq<Input>, e: Email, tidy: Tidier) {
    exists i :: 0 <= i < |input| && !tidy(input[i]).blank && tidy(input[i]).email == e
  }

  /** A row's name is the one first given with its address. */
  ghost predicate TakesNameOf(m: Member, input: seq<Input>, tidy: Tidier) {
    exists i :: 0 <= i < |input| && IsFirst(input, i, tidy) && tidy(input[i]).email == m.low && m.name == tidy(input[i]).name
  }

  /**
   * The group's addresses are exactly the tidied, non-blank ones given, each
   * under the name first given with it; whoever stays keeps the row, with its
   * id and spelling; and no other group is touched.
   */
  ghost predicate Edited(before: Rows, after: Rows, g: GroupId, input: seq<Input>, tidy: Tidier) {
    && OthersKept(before, after, g)
    && (forall e :: Holds(after, g, e) <==> Given(input, e, tidy))
    && (forall id :: id in after && after[id].group == g ==> TakesNameOf(after[id], input, tidy))
    && (forall id :: id in before && before[id].group == g ==>
          && (id in after <==> Given(input, before[id].low, tidy))
          && (id in after ==> SameButName(before[id], after[id])))
  }

  ghost predicate Unused(rows: Rows, ids: seq<MemberId>) {
    && (forall i :: 0 <= i < |ids| ==> ids[i] !in rows)
    && (forall i, j :: 0 <= i < j < |ids| ==> ids[i] != ids[j])
  }

  ghost predicate NewIds(rows: Rows, members: seq<Input>, ids: seq<MemberId>) {
    |ids| == |members| && Unused(rows, ids)
  }

  // ---- the update, as a whole --------------------------------------------------------------------

  /** Rows of other groups are the same rows. */
  ghost predicate OthersKept(before: Rows, after: Rows, g: GroupId) {
    && (forall id :: id in before && before[id].group != g ==> id in after && after[id] == before[id])
    && (forall id :: id in after && after[id].group != g ==> id in before && after[id] == before[id])
  }

  /** Member `m` has a row: the one that had its address before, with its id and spelling, or a new one. */
  ghost predicate Placed(before: Rows, after: Rows, g: GroupId, m: Input) {
    exists id :: IsRowOf(after, g, m.email, id) && after[id].name == m.name && KeepsIdentity(before, after, g, m, id)
  }

  ghost predicate KeepsIdentity(before: Rows, after: Rows, g: GroupId, m: Input, id: MemberId)
    requires id in after
  {
    if Holds(before, g, m.email) then IsRowOf(before, g, m.email, id) && after[id].email == before[id].email
    else id !in before && after[id] == Member(g, m.name, m.email, m.email)
  }

  /**
   * Exactly the members of the list are in the group, under their new names;
   * an address that was there keeps its row, and no other group is touched.
   */
  ghost predicate Updated(before: Rows, after: Rows, g: GroupId, members: seq<Input>) {
    && OthersKept(before, after, g)
    && (forall m :: m in members ==> Placed(before, after, g, m))
    && (forall id :: id in after && after[id].group == g ==> IsListed(before, after[id], Emails(members), id))
  }

  /** A row of the updated group: on the list, and either an old one under the same address or a new one. */
  ghost predicate IsListed(before: Rows, m: Member, emails: set<Email>, id: MemberId) {
    m.low in emails && if id in before then SameButName(before[id], m) else m.low == m.email
  }

  ghost predicate Indexed(rows: Rows) { forall id :: id in rows ==> rows[id].low == Key(rows[id].email) }

  /** The index still holds every row's lower-cased address. */
  lemma UpdateKeepsIndex(before: Rows, after: Rows, g: GroupId, members: seq<Input>)
    requires Indexed(before) && Updated(before, after, g, members)
    requires forall m :: m in members ==> Key(m.email) == m.email
    ensures Indexed(after)
  {
    forall id | id in after ensures after[id].low == Key(after[id].email) {
      if after[id].group == g {
        assert IsListed(before, after[id], Emails(members), id);
        if id !in before {
          var i :| 0 <= i < |members| && members[i].email == after[id].low;
          assert members[i] in members;
        }
      }
    }
  }

  predicate SameButName(a: Member, b: Member) { b.group == a.group && b.email == a.email && b.low == a.low }

  /** Nothing deleted, and nothing new but rows for addresses on the list so far. */
  ghost predicate OnlyGrown(before: Rows, now: Rows, g: GroupId, emails: set<Email>, ids: seq<MemberId>) {
    && OthersKept(before, now, g)
    && (forall id :: id in before ==> id in now && SameButName(before[id], now[id]))
    && (forall id :: id in now && id !in before ==> IsNew(before, now[id], g, emails) && id in ids)
  }

  ghost predicate IsNew(before: Rows, m: Member, g: GroupId, emails: set<Email>) {
    m.group == g && m.email in emails && m.low == m.email && !Holds(before, g, m.email)
  }

  /** After the first `i` members. */
  ghost predicate Merged(before: Rows, now: Rows, g: GroupId, members: seq<Input>, i: nat, ids: seq<MemberId>)
    requires i <= |members| == |ids|
  {
    && OnlyGrown(before, now, g, Emails(members[..i]), ids[..i])
    && (forall k :: 0 <= k < i ==> Placed(before, now, g, members[k]))
  }

  lemma EmailsPrefix(members: seq<Input>, i: nat)
    requires i < |members| && DistinctEmails(members)
    ensures members[i].email !in Emails(members[..i])
    ensures Emails(members[..i + 1]) == Emails(members[..i]) + {members[i].email}
  {
    assert members[..i + 1] == members[..i] + [members[i]];
    EmailsOfOneMore(members[..i], members[i]);
    assert forall k :: 0 <= k < i ==> members[..i][k] == members[k];
  }

  lemma IdIsUnused(before: Rows, now: Rows, g: GroupId, emails: set<Email>, ids: seq<MemberId>, i: nat)
    requires i < |ids| && OnlyGrown(before, now, g, emails, ids[..i])
    requires ids[i] !in before && (forall k :: 0 <= k < i ==> ids[k] != ids[i])
    ensures ids[i] !in now
  {
    assert ids[i] !in ids[..i];
  }

  lemma StillAbsent(before: Rows, now: Rows, g: GroupId, emails: set<Email>, ids: seq<MemberId>, e: Email)
    requires OnlyGrown(before, now, g, emails, ids) && e !in emails && !Holds(before, g, e)
    ensures !Holds(now, g, e)
  {
    forall id ensures !IsRowOf(now, g, e, id) {
      assert !IsRowOf(before, g, e, id);
    }
  }

  lemma ReadyToPlace(before: Rows, now: Rows, g: GroupId, members: seq<Input>, i: nat, ids: seq<MemberId>)
    requires i < |members| == |ids| && Merged(before, now, g, members, i, ids) && DistinctEmails(members)
    requires ids[i] !in before && (forall k, j :: 0 <= k < j < |ids| ==> ids[k] != ids[j])
    ensures ids[i] !in now
    ensures !Holds(before, g, members[i].email) ==> !Holds(now, g, members[i].email)
  {
    EmailsPrefix(members, i);
    IdIsUnused(before, now, g, Emails(members[..i]), ids, i);
    if !Holds(before, g, members[i].email) {
      StillAbsent(before, now, g, Emails(members[..i]), ids[..i], members[i].email);
    }
  }

  lemma PlacedStays(before: Rows, now: Rows, after: Rows, g: GroupId, m: Input, changed: MemberId)
    requires Placed(before, now, g, m)
    requires forall id :: id in now && id != changed ==> id in after && after[id] == now[id]
    requires changed in now ==> now[changed].low != m.email
    ensures Placed(before, after, g, m)
  {
    var id :| IsRowOf(now, g, m.email, id) && now[id].name == m.name && KeepsIdentity(before, now, g, m, id);
    assert IsRowOf(after, g, m.email, id) && KeepsIdentity(before, after, g, m, id);
  }

  lemma RenameGrowsOnly(before: Rows, now: Rows, g: GroupId, emails: set<Email>, more: set<Email>,
                        ids: seq<MemberId>, others: seq<MemberId>, id: MemberId, name: string)
    requires OnlyGrown(before, now, g, emails, ids) && id in before && before[id].group == g
    requires emails <= more && ids <= others
    ensures OnlyGrown(before, now[id := now[id].(name := name)], g, more, others)
  {
  }

  lemma InsertGrowsOnly(before: Rows, now: Rows, g: GroupId, emails: set<Email>, ids: seq<MemberId>, id: MemberId, m: Member)
    requires OnlyGrown(before, now, g, emails, ids) && id !in now && id !in before
    requires m.group == g && m.low == m.email && !Holds(before, g, m.email)
    ensures OnlyGrown(before, now[id := m], g, emails + {m.email}, ids + [id])
  {
    forall k | k in now && k !in before ensures IsNew(before, now[k], g, emails + {m.email}) {
      assert IsNew(before, now[k], g, emails);
    }
    assert IsNew(before, m, g, emails + {m.email});
  }

  lemma RenamedOne(before: Rows, now: Rows, g: GroupId, members: seq<Input>, i: nat, ids: seq<MemberId>, id: MemberId)
    requires i < |members| == |ids| && Merged(before, now, g, members, i, ids) && DistinctEmails(members)
    requires IsRowOf(before, g, members[i].email, id)
    ensures Merged(before, now[id := now[id].(name := members[i].name)], g, members, i + 1, ids)
  {
    var m, after := members[i], now[id := now[id].(name := members[i].name)];
    EmailsPrefix(members, i);
    RenameGrowsOnly(before, now, g, Emails(members[..i]), Emails(members[..i + 1]), ids[..i], ids[..i + 1], id, m.name);
    assert Placed(before, after, g, m) by {
      assert Holds(before, g, m.email);
      assert IsRowOf(after, g, m.email, id) && KeepsIdentity(before, after, g, m, id);
    }
    OthersStayPlaced(before, now, after, g, members, i, id);
    MergedOneMore(before, after, g, members, i, ids, Emails(members[..i + 1]), ids[..i + 1]);
  }

  lemma OthersStayPlaced(before: Rows, now: Rows, after: Rows, g: GroupId, members: seq<Input>, i: nat, changed: MemberId)
    requires i < |members| && DistinctEmails(members)
    requires forall k :: 0 <= k < i ==> Placed(before, now, g, members[k])
    requires forall id :: id in now && id != changed ==> id in after && after[id] == now[id]
    requires changed in now ==> now[changed].low == members[i].email
    ensures forall k :: 0 <= k < i ==> Placed(before, after, g, members[k])
  {
    forall k | 0 <= k < i ensures Placed(before, after, g, members[k]) {
      PlacedStays(before, now, after, g, members[k], changed);
    }
  }

  lemma MergedOneMore(before: Rows, after: Rows, g: GroupId, members: seq<Input>, i: nat, ids: seq<MemberId>,
                      emails: set<Email>, used: seq<MemberId>)
    requires i < |members| == |ids| && emails == Emails(members[..i + 1]) && used == ids[..i + 1]
    requires OnlyGrown(before, after, g, emails, used) && Placed(before, after, g, members[i])
    requires forall k :: 0 <= k < i ==> Placed(before, after, g, members[k])
    ensures Merged(before, after, g, members, i + 1, ids)
  {
  }

  lemma InsertedIsPlaced(before: Rows, now: Rows, g: GroupId, m: Input, id: MemberId)
    requires id !in now && id !in before && !Holds(before, g, m.email)
    ensures Placed(before, now[id := Member(g, m.name, m.email, m.email)], g, m)
  {
    var after := now[id := Member(g, m.name, m.email, m.email)];
    assert IsRowOf(after, g, m.email, id) && KeepsIdentity(before, after, g, m, id);
  }

  lemma InsertedGrows(before: Rows, now: Rows, g: GroupId, members: seq<Input>, i: nat, ids: seq<MemberId>)
    requires i < |members| == |ids| && OnlyGrown(before, now, g, Emails(members[..i]), ids[..i]) && DistinctEmails(members)
    requires ids[i] !in now && ids[i] !in before && !Holds(before, g, members[i].email)
    ensures OnlyGrown(before, now[ids[i] := Member(g, members[i].name, members[i].email, members[i].email)], g,
                      Emails(members[..i + 1]), ids[..i + 1])
  {
    EmailsPrefix(members, i);
    assert ids[..i + 1] == ids[..i] + [ids[i]];
    InsertGrowsOnly(before, now, g, Emails(members[..i]), ids[..i], ids[i],
                    Member(g, members[i].name, members[i].email, members[i].email));
  }

  lemma InsertedOne(before: Rows, now: Rows, g: GroupId, members: seq<Input>, i: nat, ids: seq<MemberId>)
    requires i < |members| == |ids| && Merged(before, now, g, members, i, ids) && DistinctEmails(members)
    requires ids[i] !in now && ids[i] !in before && !Holds(before, g, members[i].email)
    ensures Merged(before, now[ids[i] := Member(g, members[i].name, members[i].email, members[i].email)], g, members, i + 1, ids)
  {
    var after := now[ids[i] := Member(g, members[i].name, members[i].email, members[i].email)];
    InsertedGrows(before, now, g, members, i, ids);
    InsertedIsPlaced(before, now, g, members[i], ids[i]);
    OthersStayPlaced(before, now, after, g, members, i, ids[i]);
    MergedOneMore(before, after, g, members, i, ids, Emails(members[..i + 1]), ids[..i + 1]);
  }

  lemma PlacedOne(before: Rows, now: Rows, after: Rows, g: GroupId, members: seq<Input>, i: nat,
                  ids: seq<MemberId>, byEmail: map<Email, MemberId>)
    requires i < |members| == |ids| && Merged(before, now, g, members, i, ids) && DistinctEmails(members)
    requires ids[i] !in now && ids[i] !in before
    requires forall e :: e in byEmail <==> Holds(before, g, e)
    requires forall e :: e in byEmail ==> IsRowOf(before, g, e, byEmail[e])
    requires members[i].email in byEmail ==> byEmail[members[i].email] in now
    requires after == if members[i].email in byEmail
                      then now[byEmail[members[i].email] := now[byEmail[members[i].email]].(name := members[i].name)]
                      else now[ids[i] := Member(g, members[i].name, members[i].email, members[i].email)]
    ensures Merged(before, after, g, members, i + 1, ids)
  {
    if members[i].email in byEmail {
      RenamedOne(before, now, g, members, i, ids, byEmail[members[i].email]);
    } else {
      InsertedOne(before, now, g, members, i, ids);
    }
  }

  /** Rows of `merged` outside the group, or on the list. */
  ghost predicate Trimmed(before: Rows, merged: Rows, after: Rows, g: GroupId, emails: set<Email>) {
    && (forall id :: id in after <==>
          id in merged && (id !in before || before[id].group != g || merged[id].low in emails))
    && (forall id :: id in after ==> after[id] == merged[id])
  }

  lemma TrimmedOthers(before: Rows, merged: Rows, after: Rows, g: GroupId, emails: set<Email>, ids: seq<MemberId>)
    requires OnlyGrown(before, merged, g, emails, ids) && Trimmed(before, merged, after, g, emails)
    ensures OthersKept(before, after, g)
    ensures forall id :: id in after && after[id].group == g ==> IsListed(before, after[id], emails, id)
  {
    forall id | id in after && after[id].group == g ensures IsListed(before, after[id], emails, id) {
      if id !in before { assert IsNew(before, merged[id], g, emails); }
    }
  }

  lemma TrimmedPlaced(before: Rows, merged: Rows, after: Rows, g: GroupId, emails: set<Email>, m: Input)
    requires Placed(before, merged, g, m) && Trimmed(before, merged, after, g, emails) && m.email in emails
    ensures Placed(before, after, g, m)
  {
    var id :| IsRowOf(merged, g, m.email, id) && merged[id].name == m.name && KeepsIdentity(before, merged, g, m, id);
    assert IsRowOf(after, g, m.email, id) && KeepsIdentity(before, after, g, m, id);
  }

  lemma MergedThenTrimmed(before: Rows, merged: Rows, after: Rows, g: GroupId, members: seq<Input>, ids: seq<MemberId>)
    requires |members| == |ids| && Merged(before, merged, g, members, |members|, ids)
    requires Trimmed(before, merged, after, g, Emails(members))
    ensures Updated(before, after, g, members)
  {
    assert members[..|members|] == members;
    TrimmedOthers(before, merged, after, g, Emails(members), ids[..|ids|]);
    forall m | m in members ensures Placed(before, after, g, m) {
      var k :| 0 <= k < |members| && members[k] == m;
      TrimmedPlaced(before, merged, after, g, Emails(members), members[k]);
    }
  }

  // ---- what that means ------------------------------------------------------------------------------

  /** The group's addresses are exactly the list's. */
  lemma AddressesAreTheList(before: Rows, after: Rows, g: GroupId, members: seq<Input>, e: Email)
    requires Updated(before, after, g, members)
    ensures Holds(after, g, e) <==> e in Emails(members)
  {
    if e in Emails(members) {
      var i :| 0 <= i < |members| && members[i].email == e;
      assert Placed(before, after, g, members[i]);
    }
    if Holds(after, g, e) {
      var id :| IsRowOf(after, g, e, id);
      assert IsListed(before, after[id], Emails(members), id);
    }
  }

  /**
   * A row of the group stays, with its id and spelling, exactly when its
   * address is on the list, so a delegation's accepting member is never
   * deleted by an edit about somebody else; and it takes the list's name.
   */
  lemma RowStaysExactly(before: Rows, after: Rows, g: GroupId, members: seq<Input>, id: MemberId)
    requires UniqueKey(before) && UniqueKey(after) && Updated(before, after, g, members)
    requires id in before && before[id].group == g
    ensures id in after <==> before[id].low in Emails(members)
    ensures id in after ==> SameButName(before[id], after[id])
    ensures forall m :: m in members && m.email == before[id].low ==> id in after && after[id].name == m.name
  {
    if id in after {
      assert after[id].group == g;
      assert IsListed(before, after[id], Emails(members), id);
    }
    forall m | m in members && m.email == before[id].low ensures id in after && after[id].name == m.name {
      assert IsRowOf(before, g, m.email, id) && Holds(before, g, m.email);
      assert Placed(before, after, g, m);
      var k :| IsRowOf(after, g, m.email, k) && after[k].name == m.name && KeepsIdentity(before, after, g, m, k);
      assert k == id;
    }
    if before[id].low in Emails(members) {
      var i :| 0 <= i < |members| && members[i].email == before[id].low;
      assert members[i] in members;
    }
  }

  // ---- from the input as it came ----------------------------------------------------------------------

  lemma GivenIsCleaned(input: seq<Input>, members: seq<Input>, tidy: Tidier)
    requires Clean(input, |input|, tidy) == Some(members)
    ensures forall e :: Given(input, e, tidy) <==> e in Emails(members)
    ensures members == [] <==> forall i :: 0 <= i < |input| ==> tidy(input[i]).blank
  {
    CleanIsClean(input, |input|, tidy);
    forall e | e in Emails(members) ensures Given(input, e, tidy) {
      var k :| 0 <= k < |members| && members[k].email == e;
      assert ComesFrom(members[k], input, |input|, tidy);
    }
    if members != [] {
      assert members[0].email in Emails(members);
      assert Given(input, members[0].email, tidy);
    }
  }

  lemma NameOfTheRow(before: Rows, after: Rows, g: GroupId, members: seq<Input>, k: nat, id: MemberId)
    requires Updated(before, after, g, members) && UniqueKey(after) && k < |members|
    requires IsRowOf(after, g, members[k].email, id)
    ensures after[id].name == members[k].name
  {
    var m := members[k];
    assert m in members && Placed(before, after, g, m);
    var j :| IsRowOf(after, g, m.email, j) && after[j].name == m.name && KeepsIdentity(before, after, g, m, j);
    assert j == id;
  }

  lemma NamesAreTaken(before: Rows, after: Rows, g: GroupId, input: seq<Input>, members: seq<Input>, tidy: Tidier)
    requires Clean(input, |input|, tidy) == Some(members) && Updated(before, after, g, members) && UniqueKey(after)
    ensures forall id :: id in after && after[id].group == g ==> TakesNameOf(after[id], input, tidy)
  {
    CleanIsClean(input, |input|, tidy);
    forall id | id in after && after[id].group == g ensures TakesNameOf(after[id], input, tidy) {
      assert IsListed(before, after[id], Emails(members), id);
      var k :| 0 <= k < |members| && members[k].email == after[id].low;
      NameOfTheRow(before, after, g, members, k, id);
      assert ComesFrom(members[k], input, |input|, tidy);
    }
  }

  lemma CleanedUpdate(before: Rows, after: Rows, g: GroupId, input: seq<Input>, members: seq<Input>, tidy: Tidier)
    requires Clean(input, |input|, tidy) == Some(members) && Updated(before, after, g, members)
    requires UniqueKey(before) && UniqueKey(after) && Indexed(before) && forall m: Input :: Settled(tidy(m))
    ensures Indexed(after) && Edited(before, after, g, input, tidy)
  {
    CleanIsClean(input, |input|, tidy);
    GivenIsCleaned(input, members, tidy);
    forall m | m in members ensures Key(m.email) == m.email { assert ComesFrom(m, input, |input|, tidy); }
    UpdateKeepsIndex(before, after, g, members);
    forall e ensures Holds(after, g, e) <==> Given(input, e, tidy) {
      AddressesAreTheList(before, after, g, members, e);
    }
    forall id | id in before && before[id].group == g
      ensures id in after <==> Given(input, before[id].low, tidy)
      ensures id in after ==> SameButName(before[id], after[id])
    {
      RowStaysExactly(before, after, g, members, id);
    }
    NamesAreTaken(before, after, g, input, members, tidy);
  }
}

/**
 * The delegation protocol under every interleaving of the requests in flight:
 * a request reads, keeps what it read, and acts on it later.
 */
module DelegationRuns {
  import opened Wrappers
  import opened Delegation

  /** What a request read when it resolved its token. */
  datatype Snapshot = Snapshot(id: DelegationId, group: GroupId, stage: Stage, acceptedBy: Option<string>)

  datatype Request =
    | Sending(caseId: CaseId, group: GroupId)
    | Accepting(d: Snapshot)
    | Choosing(d: Snapshot, member: MemberId, name: string)
    | Uploading(d: Snapshot, filename: string)
    | Viewing(d: Snapshot)

  /** What requests have achieved so far, oldest first. */
  datatype Done =
    | DidSend(id: DelegationId)
    | DidAccept(id: DelegationId, name: string)
    | DidClose(id: DelegationId)
    | DidStore(id: DelegationId, filename: string)
    | DidShow(d: Snapshot, files: seq<string>)

  datatype World = World(tables: Tables, requests: map<RequestId, Request>, log: seq<Done>)

  const START := World(Tables(map[], map[], []), map[], [])

  datatype Event =
    // a send: the SELECT for an open delegation, then the INSERT
    | StartSend(r: RequestId, caseId: CaseId, group: GroupId)
    | InsertNow(r: RequestId, id: DelegationId, token: string)
    | CloseNow(id: DelegationId, caseId: CaseId)
    // a request through the link: the token is loaded and the stage checked
    | LoadToken(r: RequestId, id: DelegationId, token: string, action: Action, filename: string)
    | ChooseMember(r: RequestId, member: MemberId)
    | AcceptNow(r: RequestId)
    | StoreNow(r: RequestId)
    | ShowNow(r: RequestId)
    // the group is edited; a request is lost
    | DropMember(member: MemberId)
    | EditMember(member: MemberId, name: string, group: GroupId)
    | Lose(r: RequestId)

  function Begin(w: World, r: RequestId, q: Request): World { w.(requests := w.requests[r := q]) }

  function Finish(w: World, r: RequestId): World { w.(requests := w.requests - {r}) }

  predicate HasToken(t: Tables, id: DelegationId, token: string) { id in t.rows && t.rows[id].token == token }

  function Snap(t: Tables, id: DelegationId): Snapshot
    requires id in t.rows
  {
    Snapshot(id, t.rows[id].group, t.rows[id].stage, t.rows[id].name)
  }

  function Load(w: World, r: RequestId, id: DelegationId, action: Action, filename: string): World
    requires id in w.tables.rows
  {
    var d := Snap(w.tables, id);
    if !Permits(d.stage, action) then w
    else match action
      case View => Begin(w, r, Viewing(d))
      case Accept => Begin(w, r, Accepting(d))
      case Upload => Begin(w, r, Uploading(d, filename))
  }

  /** One statement of one request; a request that is refused ends and changes nothing else. */
  function Step(w: World, e: Event): World {
    match e
    case StartSend(r, c, g) => if r in w.requests || HasOpen(w.tables, c) then w else Begin(w, r, Sending(c, g))
    case InsertNow(r, id, token) =>
      if r !in w.requests || !w.requests[r].Sending? then w
      else
        var q := w.requests[r];
        var t := Insert(w.tables, id, q.caseId, q.group, token);
        if t == w.tables then Finish(w, r)
        else Finish(w.(tables := t, log := w.log + [DidSend(id)]), r)
    case CloseNow(id, c) =>
      if !IsOpenOn(w.tables, id, c) then w
      else w.(tables := Close(w.tables, id, c), log := w.log + [DidClose(id)])
    case LoadToken(r, id, token, action, filename) =>
      if r in w.requests || !HasToken(w.tables, id, token) then w else Load(w, r, id, action, filename)
    case ChooseMember(r, m) =>
      if r !in w.requests || !w.requests[r].Accepting? then w
      else if m !in w.tables.members || w.tables.members[m].group != w.requests[r].d.group then Finish(w, r)
      else Begin(w, r, Choosing(w.requests[r].d, m, w.tables.members[m].name))
    case AcceptNow(r) =>
      if r !in w.requests || !w.requests[r].Choosing? then w
      else
        var q := w.requests[r];
        if !CanAccept(w.tables, q.d.id, q.member) then Finish(w, r)
        else Finish(w.(tables := AcceptBy(w.tables, q.d.id, q.member, q.name),
                       log := w.log + [DidAccept(q.d.id, q.name)]), r)
    case StoreNow(r) =>
      if r !in w.requests || !w.requests[r].Uploading? then w
      else
        var q := w.requests[r];
        Finish(w.(tables := Store(w.tables, q.d.id, q.filename), log := w.log + [DidStore(q.d.id, q.filename)]), r)
    case ShowNow(r) =>
      if r !in w.requests || !w.requests[r].Viewing? then w
      else
        var d := w.requests[r].d;
        var names := if d.stage == Closed then [] else NamesOf(w.tables.files, d.id);
        Finish(w.(log := w.log + [DidShow(d, names)]), r)
    case DropMember(m) => w.(tables := RemoveMember(w.tables, m))
    case EditMember(m, name, g) => w.(tables := PutMember(w.tables, m, Member(g, name)))
    case Lose(r) => Finish(w, r)
  }

  function Run(w: World, es: seq<Event>): World {
    if es == [] then w else Step(Run(w, es[..|es| - 1]), es[|es| - 1])
  }

  lemma OneMore(w: World, es: seq<Event>, e: Event)
    ensures Run(w, es + [e]) == Step(Run(w, es), e)
  {
    assert (es + [e])[..|es|] == es;
  }

  // ---- what every reachable state satisfies ----------------------------------------------------

  /** No case is with two groups at once. */
  ghost predicate OneOpen(t: Tables) {
    forall a, b :: a in t.rows && b in t.rows && a != b && t.rows[a].caseId == t.rows[b].caseId ==>
                     t.rows[a].stage == Closed || t.rows[b].stage == Closed
  }

  ghost predicate OneTokenEach(t: Tables) {
    forall a, b :: a in t.rows && b in t.rows && t.rows[a].token == t.rows[b].token ==> a == b
  }

  predicate Signed(row: Row) {
    && (row.stage == Sent ==> row.name.None?)
    && (row.stage == Accepted ==> row.name.Some?)
    && (row.member.Some? ==> row.name.Some?)
  }

  /** Every stored file belongs to a delegation somebody had accepted. */
  ghost predicate FilesAccepted(t: Tables) {
    forall f :: f in t.files && f.delegation.Some? ==>
                  f.delegation.value in t.rows && t.rows[f.delegation.value].name.Some?
  }

  /** A snapshot lags behind its row, and only forward. */
  predicate Lags(t: Tables, d: Snapshot) {
    && d.id in t.rows
    && t.rows[d.id].group == d.group
    && Rank(d.stage) <= Rank(t.rows[d.id].stage)
    && (d.acceptedBy.Some? ==> t.rows[d.id].name == d.acceptedBy)
    && (d.stage == Accepted ==> d.acceptedBy.Some?)
  }

  predicate Sound(t: Tables, q: Request) {
    match q
    case Sending(_, _) => true
    case Accepting(d) => Lags(t, d) && d.stage == Sent
    case Choosing(d, _, _) => Lags(t, d) && d.stage == Sent
    case Uploading(d, _) => Lags(t, d) && d.stage == Accepted
    case Viewing(d) => Lags(t, d)
  }

  function Accepts(log: seq<Done>, id: DelegationId): nat {
    if log == [] then 0
    else Accepts(log[..|log| - 1], id)
         + if log[|log| - 1].DidAccept? && log[|log| - 1].id == id then 1 else 0
  }

  ghost predicate Logged(t: Tables, log: seq<Done>) {
    && (forall id :: Accepts(log, id) == if id in t.rows && t.rows[id].name.Some? then 1 else 0)
    && (forall id :: DidClose(id) in log <==> id in t.rows && t.rows[id].stage == Closed)
  }

  ghost predicate Inv(w: World) {
    && OneOpen(w.tables) && OneTokenEach(w.tables) && FilesAccepted(w.tables)
    && (forall id :: id in w.tables.rows ==> Signed(w.tables.rows[id]))
    && (forall r :: r in w.requests ==> Sound(w.tables, w.requests[r]))
    && Logged(w.tables, w.log)
  }

  // ---- what no step undoes ------------------------------------------------------------------------

  /** The accepting member is set once, with the name, and can afterwards only be cleared. */
  predicate RowEvolves(a: Row, b: Row) {
    && b.caseId == a.caseId && b.group == a.group && b.token == a.token
    && Rank(a.stage) <= Rank(b.stage)
    && (a.name.Some? ==> b.name == a.name && (b.member == a.member || b.member.None?))
    && (a.name.None? && b.name.Some? ==> a.stage == Sent)
  }

  ghost predicate Evolves(t: Tables, u: Tables) {
    && (forall id :: id in t.rows ==> id in u.rows && RowEvolves(t.rows[id], u.rows[id]))
    && t.files <= u.files
  }

  lemma StepEvolves(w: World, e: Event)
    requires forall id :: id in w.tables.rows ==> Signed(w.tables.rows[id])
    ensures Evolves(w.tables, Step(w, e).tables)
  {
  }

  lemma {:induction false} StaysSound(t: Tables, u: Tables, q: Request)
    requires Sound(t, q) && Evolves(t, u)
    ensures Sound(u, q)
  {
  }

  // ---- each part is kept by every step ----------------------------------------------------------------

  lemma KeepsOneOpen(w: World, e: Event)
    requires OneOpen(w.tables)
    ensures OneOpen(Step(w, e).tables)
  {
    var t, u := w.tables, Step(w, e).tables;
    forall a, b | a in u.rows && b in u.rows && a != b && u.rows[a].caseId == u.rows[b].caseId
      ensures u.rows[a].stage == Closed || u.rows[b].stage == Closed
    {
      if e.InsertNow? && u != t && (a == e.id || b == e.id) {
        assert !HasOpen(t, w.requests[e.r].caseId);
        assert !IsOpenOn(t, if a == e.id then b else a, w.requests[e.r].caseId);
      } else {
        assert a in t.rows && b in t.rows;
      }
    }
  }

  lemma KeepsTokens(w: World, e: Event)
    requires OneTokenEach(w.tables)
    ensures OneTokenEach(Step(w, e).tables)
  {
    var t, u := w.tables, Step(w, e).tables;
    forall a, b | a in u.rows && b in u.rows && u.rows[a].token == u.rows[b].token ensures a == b {
      if e.InsertNow? && u != t && (a == e.id || b == e.id) {
        assert !TokenTaken(t, e.token);
      } else {
        assert a in t.rows && b in t.rows;
      }
    }
  }

  lemma KeepsSigned(w: World, e: Event)
    requires forall id :: id in w.tables.rows ==> Signed(w.tables.rows[id])
    ensures forall id :: id in Step(w, e).tables.rows ==> Signed(Step(w, e).tables.rows[id])
  {
  }

  lemma KeepsFiles(w: World, e: Event)
    requires Inv(w)
    ensures FilesAccepted(Step(w, e).tables)
  {
    var t, u := w.tables, Step(w, e).tables;
    StepEvolves(w, e);
    forall f | f in u.files && f.delegation.Some?
      ensures f.delegation.value in u.rows && u.rows[f.delegation.value].name.Some?
    {
      if f !in t.files {
        assert Sound(t, w.requests[e.r]);
      }
      var id := f.delegation.value;
      assert id in t.rows && t.rows[id].name.Some?;
      assert RowEvolves(t.rows[id], u.rows[id]);
    }
  }

  lemma NewRequestIsSound(w: World, e: Event, r: RequestId)
    requires Inv(w) && r in Step(w, e).requests
    requires r !in w.requests || Step(w, e).requests[r] != w.requests[r]
    ensures Sound(Step(w, e).tables, Step(w, e).requests[r])
  {
  }

  lemma KeepsRequests(w: World, e: Event)
    requires Inv(w)
    ensures forall r :: r in Step(w, e).requests ==> Sound(Step(w, e).tables, Step(w, e).requests[r])
  {
    var v := Step(w, e);
    StepEvolves(w, e);
    forall r | r in v.requests ensures Sound(v.tables, v.requests[r]) {
      if r in w.requests && v.requests[r] == w.requests[r] {
        StaysSound(w.tables, v.tables, w.requests[r]);
      } else {
        NewRequestIsSound(w, e, r);
      }
    }
  }

  lemma AcceptsOfOneMore(log: seq<Done>, d: Done, id: DelegationId)
    ensures Accepts(log + [d], id) == Accepts(log, id) + if d.DidAccept? && d.id == id then 1 else 0
  {
    assert (log + [d])[..|log|] == log;
  }

  /** Same rows as far as the log can tell. */
  ghost predicate SameProgress(t: Tables, u: Tables) {
    && t.rows.Keys == u.rows.Keys
    && forall id :: id in t.rows ==> u.rows[id].stage == t.rows[id].stage && u.rows[id].name == t.rows[id].name
  }

  lemma LogUnchanged(t: Tables, log: seq<Done>, u: Tables)
    requires Logged(t, log) && SameProgress(t, u)
    ensures Logged(u, log)
  {
  }

  lemma LogQuiet(t: Tables, log: seq<Done>, u: Tables, d: Done)
    requires Logged(t, log) && SameProgress(t, u) && !d.DidAccept? && !d.DidClose?
    ensures Logged(u, log + [d])
  {
    forall id ensures Accepts(log + [d], id) == Accepts(log, id) { AcceptsOfOneMore(log, d, id); }
  }

  lemma LogInsert(t: Tables, log: seq<Done>, id: DelegationId, c: CaseId, g: GroupId, token: string)
    requires Logged(t, log) && id !in t.rows
    ensures Logged(Insert(t, id, c, g, token), log + [DidSend(id)])
  {
    forall k ensures Accepts(log + [DidSend(id)], k) == Accepts(log, k) { AcceptsOfOneMore(log, DidSend(id), k); }
  }

  lemma LogClose(t: Tables, log: seq<Done>, id: DelegationId, c: CaseId)
    requires Logged(t, log) && IsOpenOn(t, id, c)
    ensures Logged(Close(t, id, c), log + [DidClose(id)])
  {
    forall k ensures Accepts(log + [DidClose(id)], k) == Accepts(log, k) { AcceptsOfOneMore(log, DidClose(id), k); }
  }

  lemma LogAccept(t: Tables, log: seq<Done>, id: DelegationId, m: MemberId, name: string)
    requires Logged(t, log) && CanAccept(t, id, m) && Signed(t.rows[id])
    ensures Logged(AcceptBy(t, id, m, name), log + [DidAccept(id, name)])
  {
    forall k ensures Accepts(log + [DidAccept(id, name)], k) == Accepts(log, k) + if k == id then 1 else 0 {
      AcceptsOfOneMore(log, DidAccept(id, name), k);
    }
  }

  lemma KeepsLog(w: World, e: Event)
    requires Inv(w)
    ensures Logged(Step(w, e).tables, Step(w, e).log)
  {
    var t, v := w.tables, Step(w, e);
    match e
    case InsertNow(_, id, token) =>
      if v.log != w.log { LogInsert(t, w.log, id, w.requests[e.r].caseId, w.requests[e.r].group, token); }
    case CloseNow(id, c) =>
      if IsOpenOn(t, id, c) { LogClose(t, w.log, id, c); }
    case AcceptNow(r) =>
      if v.log != w.log {
        var q := w.requests[r];
        assert Signed(t.rows[q.d.id]);
        LogAccept(t, w.log, q.d.id, q.member, q.name);
      }
    case StoreNow(r) =>
      if v.log != w.log { LogQuiet(t, w.log, v.tables, DidStore(w.requests[r].d.id, w.requests[r].filename)); }
    case ShowNow(r) =>
      if v.log != w.log {
        var d := w.requests[r].d;
        LogQuiet(t, w.log, v.tables, DidShow(d, if d.stage == Closed then [] else NamesOf(t.files, d.id)));
      }
    case _ =>
      LogUnchanged(t, w.log, v.tables);
  }

  lemma StepKeepsInv(w: World, e: Event)
    requires Inv(w)
    ensures Inv(Step(w, e))
  {
    KeepsOneOpen(w, e);
    KeepsTokens(w, e);
    KeepsSigned(w, e);
    KeepsFiles(w, e);
    KeepsRequests(w, e);
    KeepsLog(w, e);
  }

  lemma {:induction false} RunKeepsInv(w: World, es: seq<Event>)
    requires Inv(w)
    ensures Inv(Run(w, es))
  {
    if es == [] {
    } else {
      RunKeepsInv(w, es[..|es| - 1]);
      StepKeepsInv(Run(w, es[..|es| - 1]), es[|es| - 1]);
    }
  }

  // ---- main results ------------------------------------------------------------------------------------

  /**
   * Whatever the interleaving: a case is with one group at a time, a link is one
   * delegation, nobody accepts twice, and a stored file came through an accepted link.
   */
  lemma ProtocolIsSafe(es: seq<Event>)
    ensures var w := Run(START, es);
            && OneOpen(w.tables) && OneTokenEach(w.tables) && FilesAccepted(w.tables)
            && forall id :: Accepts(w.log, id) == if id in w.tables.rows && w.tables.rows[id].name.Some? then 1 else 0
  {
    RunKeepsInv(START, es);
  }

  lemma {:induction false} RunEvolves(w: World, es: seq<Event>)
    requires Inv(w)
    ensures Evolves(w.tables, Run(w, es).tables)
  {
    if es == [] {
    } else {
      var front := es[..|es| - 1];
      RunEvolves(w, front);
      RunKeepsInv(w, front);
      StepEvolves(Run(w, front), es[|es| - 1]);
    }
  }

  /** Stages only move forward and who accepted never changes, over any stretch of any run. */
  lemma NothingIsUndone(before: seq<Event>, after: seq<Event>, id: DelegationId)
    requires id in Run(START, before).tables.rows
    ensures var t, u := Run(START, before).tables, Run(Run(START, before), after).tables;
            id in u.rows && RowEvolves(t.rows[id], u.rows[id])
  {
    RunKeepsInv(START, before);
    RunEvolves(Run(START, before), after);
  }

  // ---- who may act ------------------------------------------------------------------------------------

  predicate IsMember(t: Tables, m: MemberId, g: GroupId, name: string) {
    m in t.members && t.members[m].group == g && t.members[m].name == name
  }

  /** At some point of the run `m` was in the group under this name. */
  ghost predicate WasMember(es: seq<Event>, m: MemberId, g: GroupId, name: string) {
    exists k :: 0 <= k <= |es| && IsMember(Run(START, es[..k]).tables, m, g, name)
  }

  lemma WasMemberStays(es: seq<Event>, e: Event, m: MemberId, g: GroupId, name: string)
    requires WasMember(es, m, g, name)
    ensures WasMember(es + [e], m, g, name)
  {
    var k :| 0 <= k <= |es| && IsMember(Run(START, es[..k]).tables, m, g, name);
    assert (es + [e])[..k] == es[..k];
  }

  /** Whoever signed the row was in its group under that name, and is still the member it refers to, if any. */
  ghost predicate SignedFromGroup(es: seq<Event>, row: Row) {
    row.name.Some? ==>
      exists m :: WasMember(es, m, row.group, row.name.value) && (row.member.Some? ==> row.member == Some(m))
  }

  ghost predicate ChosenFromGroup(es: seq<Event>, q: Request) {
    q.Choosing? ==> WasMember(es, q.member, q.d.group, q.name)
  }

  ghost predicate OnlyTheGroupSigns(es: seq<Event>) {
    var w := Run(START, es);
    && (forall id :: id in w.tables.rows ==> SignedFromGroup(es, w.tables.rows[id]))
    && (forall r :: r in w.requests ==> ChosenFromGroup(es, w.requests[r]))
  }

  lemma SignedFromGroupStays(es: seq<Event>, e: Event, a: Row, b: Row)
    requires SignedFromGroup(es, a) && b.group == a.group && b.name == a.name
    requires b.member == a.member || b.member.None?
    ensures SignedFromGroup(es + [e], b)
  {
    if a.name.Some? {
      var m :| WasMember(es, m, a.group, a.name.value) && (a.member.Some? ==> a.member == Some(m));
      WasMemberStays(es, e, m, a.group, a.name.value);
    }
  }

  lemma ChoosersComeFromGroup(es: seq<Event>, e: Event, r: RequestId)
    requires OnlyTheGroupSigns(es) && r in Run(START, es + [e]).requests
    ensures ChosenFromGroup(es + [e], Run(START, es + [e]).requests[r])
  {
    var w, v := Run(START, es), Run(START, es + [e]);
    OneMore(START, es, e);
    var q := v.requests[r];
    if r in w.requests && w.requests[r] == q {
      if q.Choosing? { WasMemberStays(es, e, q.member, q.d.group, q.name); }
    } else if q.Choosing? {
      assert IsMember(w.tables, q.member, q.d.group, q.name);
      assert (es + [e])[..|es|] == es;
    }
  }

  lemma SignersComeFromGroup(es: seq<Event>, e: Event, id: DelegationId)
    requires OnlyTheGroupSigns(es) && Inv(Run(START, es)) && id in Run(START, es + [e]).tables.rows
    ensures SignedFromGroup(es + [e], Run(START, es + [e]).tables.rows[id])
  {
    var w, v := Run(START, es), Run(START, es + [e]);
    OneMore(START, es, e);
    if id in w.tables.rows {
      var a, b := w.tables.rows[id], v.tables.rows[id];
      StepEvolves(w, e);
      assert RowEvolves(a, b);
      if a.name == b.name {
        SignedFromGroupStays(es, e, a, b);
      } else {
        var q := w.requests[e.r];
        assert Sound(w.tables, q) && ChosenFromGroup(es, q);
        WasMemberStays(es, e, q.member, q.d.group, q.name);
      }
    }
  }

  /**
   * Only the group signs: in every run, who accepted a delegation was at some
   * point a member of just its group under just that name, and the member it
   * still refers to, if any, is that one.
   */
  lemma {:induction false} AcceptersAreMembers(es: seq<Event>)
    ensures OnlyTheGroupSigns(es)
  {
    if es == [] {
    } else {
      var front, last := es[..|es| - 1], es[|es| - 1];
      assert es == front + [last];
      AcceptersAreMembers(front);
      RunKeepsInv(START, front);
      forall id | id in Run(START, es).tables.rows ensures SignedFromGroup(es, Run(START, es).tables.rows[id]) {
        SignersComeFromGroup(front, last, id);
      }
      forall r | r in Run(START, es).requests ensures ChosenFromGroup(es, Run(START, es).requests[r]) {
        ChoosersComeFromGroup(front, last, r);
      }
    }
  }

  /** A request through the link starts exactly with the row's token and an action its stage allows. */
  lemma LinkOpensExactly(w: World, r: RequestId, id: DelegationId, token: string, action: Action, filename: string)
    requires r !in w.requests
    ensures var v := Step(w, LoadToken(r, id, token, action, filename));
            && v.tables == w.tables && v.log == w.log
            && (r in v.requests <==>
                  && id in w.tables.rows && w.tables.rows[id].token == token
                  && (action == View
                      || (action == Accept && w.tables.rows[id].stage == Sent)
                      || (action == Upload && w.tables.rows[id].stage == Accepted)))
            && (r in v.requests ==> IsThrough(v.requests[r], id, action))
            && (forall k :: k in w.requests ==> k in v.requests && v.requests[k] == w.requests[k])
  {
  }

  /** The request acts on this delegation, and only in this way. */
  predicate IsThrough(q: Request, id: DelegationId, action: Action) {
    match q
    case Sending(_, _) => false
    case Accepting(d) => d.id == id && action == Accept
    case Choosing(d, _, _) => d.id == id && action == Accept
    case Uploading(d, _) => d.id == id && action == Upload
    case Viewing(d) => d.id == id && action == View
  }

  /** The i-th event loaded the token of delegation `id` for this action, in request `r`. */
  predicate Loaded(es: seq<Event>, i: nat, r: RequestId, id: DelegationId, token: string, action: Action) {
    i < |es| && es[i].LoadToken? && es[i].r == r && es[i].id == id && es[i].token == token && es[i].action == action
  }

  /** The request holds the link: it began by loading the token of the delegation it acts on. */
  ghost predicate HoldsLink(es: seq<Event>, r: RequestId, q: Request, t: Tables) {
    || q.Sending?
    || (&& q.d.id in t.rows
        && exists i: nat, action ::
             Loaded(es, i, r, q.d.id, t.rows[q.d.id].token, action) && IsThrough(q, q.d.id, action))
  }

  lemma HoldsLinkStays(es: seq<Event>, e: Event, r: RequestId, q: Request, p: Request, t: Tables, u: Tables)
    requires HoldsLink(es, r, q, t) && Evolves(t, u)
    requires p == q || (q.Accepting? && p.Choosing? && p.d == q.d)
    ensures HoldsLink(es + [e], r, p, u)
  {
    if !q.Sending? {
      var i: nat, action :| Loaded(es, i, r, q.d.id, t.rows[q.d.id].token, action) && IsThrough(q, q.d.id, action);
      assert RowEvolves(t.rows[q.d.id], u.rows[q.d.id]);
      assert Loaded(es + [e], i, r, p.d.id, u.rows[p.d.id].token, action) && IsThrough(p, p.d.id, action);
    }
  }

  lemma LinkIsHeld(es: seq<Event>, e: Event, r: RequestId)
    requires Inv(Run(START, es)) && r in Run(START, es + [e]).requests
    requires forall k :: k in Run(START, es).requests ==> HoldsLink(es, k, Run(START, es).requests[k], Run(START, es).tables)
    ensures HoldsLink(es + [e], r, Run(START, es + [e]).requests[r], Run(START, es + [e]).tables)
  {
    var w, v := Run(START, es), Run(START, es + [e]);
    OneMore(START, es, e);
    StepEvolves(w, e);
    if r in w.requests {
      HoldsLinkStays(es, e, r, w.requests[r], v.requests[r], w.tables, v.tables);
    } else if !v.requests[r].Sending? {
      assert Loaded(es + [e], |es|, r, e.id, e.token, e.action);
      LinkOpensExactly(w, r, e.id, e.token, e.action, e.filename);
    }
  }

  /** In every run, nobody acts on a delegation but through its own link, and only as the link was loaded for. */
  lemma {:induction false} OnlyTheLinkActs(es: seq<Event>)
    ensures forall r :: r in Run(START, es).requests ==>
              HoldsLink(es, r, Run(START, es).requests[r], Run(START, es).tables)
  {
    if es == [] {
    } else {
      var front, last := es[..|es| - 1], es[|es| - 1];
      assert es == front + [last];
      OnlyTheLinkActs(front);
      RunKeepsInv(START, front);
      forall r | r in Run(START, es).requests
        ensures HoldsLink(es, r, Run(START, es).requests[r], Run(START, es).tables)
      {
        LinkIsHeld(front, last, r);
      }
    }
  }

  /** A send is started exactly if the case is with nobody. */
  lemma SendOpensExactly(w: World, r: RequestId, c: CaseId, g: GroupId)
    requires r !in w.requests
    ensures var v := Step(w, StartSend(r, c, g));
            && v.tables == w.tables
            && (r in v.requests <==>
                  forall k :: k in w.tables.rows ==> w.tables.rows[k].caseId != c || w.tables.rows[k].stage == Closed)
            && (r in v.requests ==> v.requests[r] == Sending(c, g))
  {
    if !HasOpen(w.tables, c) {
      assert forall k :: k in w.tables.rows ==> !IsOpenOn(w.tables, k, c);
    }
  }

  /** And it gets its row exactly if the case is still with nobody and the link is new. */
  lemma SendExactly(w: World, r: RequestId, id: DelegationId, token: string)
    requires r in w.requests && w.requests[r].Sending? && id !in w.tables.rows
    ensures var q, v, rows := w.requests[r], Step(w, InsertNow(r, id, token)), w.tables.rows;
            && (id in v.tables.rows <==>
                  && (forall k :: k in rows ==> rows[k].token != token)
                  && (forall k :: k in rows ==> rows[k].caseId != q.caseId || rows[k].stage == Closed))
            && (id in v.tables.rows ==> v.tables.rows[id] == Row(q.caseId, q.group, token, Sent, None, None))
            && (forall k :: k in rows ==> k in v.tables.rows && v.tables.rows[k] == rows[k])
  {
    var t, c := w.tables, w.requests[r].caseId;
    if !HasOpen(t, c) { assert forall k :: k in t.rows ==> !IsOpenOn(t, k, c); }
    assert Insert(t, id, c, w.requests[r].group, token) == t <==> TokenTaken(t, token) || HasOpen(t, c);
  }

  /** A choice of member is taken up exactly for a member of the delegation's group, under the name it has then. */
  lemma ChooseExactly(w: World, r: RequestId, m: MemberId)
    requires r in w.requests && w.requests[r].Accepting?
    ensures var d, v := w.requests[r].d, Step(w, ChooseMember(r, m));
            && v.tables == w.tables && v.log == w.log
            && (r in v.requests <==> m in w.tables.members && w.tables.members[m].group == d.group)
            && (r in v.requests ==> v.requests[r] == Choosing(d, m, w.tables.members[m].name))
  {
  }

  /** It then accepts exactly if nobody has yet and the member is still there. */
  lemma AcceptExactly(w: World, r: RequestId)
    requires r in w.requests && w.requests[r].Choosing? && w.requests[r].d.id in w.tables.rows
    ensures var q, v := w.requests[r], Step(w, AcceptNow(r));
            var row := w.tables.rows[q.d.id];
            && v.tables.rows == (if row.stage == Sent && q.member in w.tables.members
                                 then w.tables.rows[q.d.id := row.(stage := Accepted, member := Some(q.member),
                                                                   name := Some(q.name))]
                                 else w.tables.rows)
            && v.tables.members == w.tables.members && v.tables.files == w.tables.files && r !in v.requests
  {
  }

  // ---- an upload that lands late ----------------------------------------------------------------------------

  lemma StepLogGrows(w: World, e: Event)
    ensures w.log <= Step(w, e).log
  {
  }

  lemma {:induction false} LogGrows(w: World, es: seq<Event>)
    ensures w.log <= Run(w, es).log
  {
    if es == [] {
    } else {
      LogGrows(w, es[..|es| - 1]);
      StepLogGrows(Run(w, es[..|es| - 1]), es[|es| - 1]);
    }
  }

  /** Request `r` waits to store a file for delegation `id`. */
  predicate WaitsToStore(w: World, r: RequestId, id: DelegationId, filename: string) {
    r in w.requests && w.requests[r].Uploading? && w.requests[r].d.id == id && w.requests[r].filename == filename
  }

  predicate IsAcceptedRow(w: World, id: DelegationId) { id in w.tables.rows && w.tables.rows[id].stage == Accepted }

  lemma JustLoaded(u: World, r: RequestId, id: DelegationId, token: string, filename: string)
    requires Inv(u) && r !in u.requests
    requires WaitsToStore(Step(u, LoadToken(r, id, token, Upload, filename)), r, id, filename)
    ensures IsAcceptedRow(Step(u, LoadToken(r, id, token, Upload, filename)), id)
  {
  }

  predicate IsOpenRow(w: World, id: DelegationId) { id in w.tables.rows && w.tables.rows[id].stage != Closed }

  lemma ClosedMeanwhile(w: World, during: seq<Event>, id: DelegationId)
    requires Inv(w) && IsOpenRow(w, id)
    ensures var v := Run(w, during);
            && w.log <= v.log && id in v.tables.rows
            && (v.tables.rows[id].stage == Closed <==> DidClose(id) in v.log[|w.log|..])
  {
    var v := Run(w, during);
    RunKeepsInv(w, during);
    RunEvolves(w, during);
    LogGrows(w, during);
    assert DidClose(id) !in w.log;
    assert v.log == w.log + v.log[|w.log|..];
  }

  /**
   * "No upload lands after close" is not so: the stage is checked when the
   * token is loaded and never again. A file is stored on a closed delegation
   * exactly when the delegation was closed while the request was in flight.
   */
  lemma LateUploadIsExact(before: seq<Event>, r: RequestId, id: DelegationId, token: string, filename: string,
                          during: seq<Event>)
    requires r !in Run(START, before).requests
    requires var w := Step(Run(START, before), LoadToken(r, id, token, Upload, filename));
             WaitsToStore(w, r, id, filename) && WaitsToStore(Run(w, during), r, id, filename)
    ensures var w := Step(Run(START, before), LoadToken(r, id, token, Upload, filename));
            var v := Run(w, during);
            && Step(v, StoreNow(r)).tables == Store(v.tables, id, filename)
            && w.log <= v.log && id in v.tables.rows
            && (v.tables.rows[id].stage == Closed <==> DidClose(id) in v.log[|w.log|..])
  {
    var u := Run(START, before);
    RunKeepsInv(START, before);
    StepKeepsInv(u, LoadToken(r, id, token, Upload, filename));
    JustLoaded(u, r, id, token, filename);
    ClosedMeanwhile(Step(u, LoadToken(r, id, token, Upload, filename)), during, id);
  }

  lemma ThreeMore(w: World, es: seq<Event>, a: Event, b: Event, c: Event)
    ensures Run(w, es + [a] + [b] + [c]) == Step(Step(Step(Run(w, es), a), b), c)
  {
    OneMore(w, es, a);
    OneMore(w, es + [a], b);
    OneMore(w, es + [a] + [b], c);
  }

  const ANA := map[7 := Member(5, "Ana")]
  const WITH_GROUP := World(Tables(map[1 := Row(3, 5, "token", Sent, None, None)], ANA, []), map[], [DidSend(1)])
  const WITH_ANA :=
    World(Tables(map[1 := Row(3, 5, "token", Accepted, Some(7), Some("Ana"))], ANA, []), map[],
          [DidSend(1), DidAccept(1, "Ana")])

  lemma IsSent()
    ensures Step(Step(Step(START, EditMember(7, "Ana", 5)), StartSend(0, 3, 5)), InsertNow(0, 1, "token")) == WITH_GROUP
  {
    var w := Step(Step(START, EditMember(7, "Ana", 5)), StartSend(0, 3, 5));
    assert w.tables == Tables(map[], ANA, []) && w.requests == map[0 := Sending(3, 5)];
    assert !HasOpen(w.tables, 3) && !TokenTaken(w.tables, "token");
  }

  lemma IsAccepted()
    ensures Step(Step(Step(WITH_GROUP, LoadToken(0, 1, "token", Accept, "")), ChooseMember(0, 7)), AcceptNow(0)) == WITH_ANA
  {
    var w := Step(Step(WITH_GROUP, LoadToken(0, 1, "token", Accept, "")), ChooseMember(0, 7));
    assert w.requests == map[0 := Choosing(Snapshot(1, 5, Sent, None), 7, "Ana")];
  }

  lemma IsLate()
    ensures var w := Step(Step(Step(WITH_ANA, LoadToken(0, 1, "token", Upload, "late.pdf")), CloseNow(1, 3)), StoreNow(0));
            1 in w.tables.rows && w.tables.rows[1].stage == Closed && w.tables.files == [File(Some(1), "late.pdf")]
  {
  }

  /** Sent and accepted. */
  lemma AcceptedRun() returns (es: seq<Event>)
    ensures Run(START, es) == WITH_ANA
  {
    ThreeMore(START, [], EditMember(7, "Ana", 5), StartSend(0, 3, 5), InsertNow(0, 1, "token"));
    IsSent();
    var sending := [] + [EditMember(7, "Ana", 5)] + [StartSend(0, 3, 5)] + [InsertNow(0, 1, "token")];
    assert Run(START, sending) == WITH_GROUP;
    ThreeMore(START, sending, LoadToken(0, 1, "token", Accept, ""), ChooseMember(0, 7), AcceptNow(0));
    IsAccepted();
    es := sending + [LoadToken(0, 1, "token", Accept, "")] + [ChooseMember(0, 7)] + [AcceptNow(0)];
  }

  /** A run in which it happens: sent, accepted, loaded for upload, closed, stored. */
  lemma LateUploadHappens() returns (es: seq<Event>)
    ensures var w := Run(START, es);
            1 in w.tables.rows && w.tables.rows[1].stage == Closed && w.tables.files == [File(Some(1), "late.pdf")]
  {
    var accepting := AcceptedRun();
    ThreeMore(START, accepting, LoadToken(0, 1, "token", Upload, "late.pdf"), CloseNow(1, 3), StoreNow(0));
    IsLate();
    es := accepting + [LoadToken(0, 1, "token", Upload, "late.pdf")] + [CloseNow(1, 3)] + [StoreNow(0)];
  }

  // ---- what a page shows ----------------------------------------------------------------------------------------

  lemma {:induction false} NamesOfExact(files: seq<File>, id: DelegationId, name: string)
    ensures name in NamesOf(files, id) <==> File(Some(id), name) in files
  {
    if files == [] {
    } else {
      var front, last := files[..|files| - 1], files[|files| - 1];
      NamesOfExact(front, id, name);
      assert files == front + [last];
    }
  }

  /** A page lists only files that came through its own link, and none if it was loaded closed. */
  ghost predicate ShowsOwn(t: Tables, d: Done) {
    d.DidShow? ==> && (d.d.stage == Closed ==> d.files == [])
                   && forall name :: name in d.files ==> File(Some(d.d.id), name) in t.files
  }

  lemma ShownNow(w: World, r: RequestId, d: Done)
    requires d in Step(w, ShowNow(r)).log && d !in w.log && d.DidShow?
    ensures ShowsOwn(w.tables, d)
  {
    forall name | name in d.files ensures File(Some(d.d.id), name) in w.tables.files {
      NamesOfExact(w.tables.files, d.d.id, name);
    }
  }

  lemma {:induction false} PagesShowOnlyTheirOwn(es: seq<Event>)
    ensures forall d :: d in Run(START, es).log ==> ShowsOwn(Run(START, es).tables, d)
  {
    if es == [] {
    } else {
      var w, e := Run(START, es[..|es| - 1]), es[|es| - 1];
      var v := Step(w, e);
      PagesShowOnlyTheirOwn(es[..|es| - 1]);
      RunKeepsInv(START, es[..|es| - 1]);
      StepEvolves(w, e);
      forall d | d in v.log ensures ShowsOwn(v.tables, d) {
        if d in w.log {
          assert ShowsOwn(w.tables, d);
        } else if d.DidShow? {
          ShownNow(w, e.r, d);
        }
      }
    }
  }

  // ---- a page that is read late -----------------------------------------------------------------------------------

  /** A closed delegation is not closed again. */
  lemma {:induction false} ClosedOnce(w: World, during: seq<Event>, id: DelegationId)
    requires Inv(w) && id in w.tables.rows && w.tables.rows[id].stage == Closed
    ensures w.log <= Run(w, during).log && DidClose(id) !in Run(w, during).log[|w.log|..]
  {
    if during == [] {
    } else {
      var front, last := during[..|during| - 1], during[|during| - 1];
      var v := Run(w, front);
      ClosedOnce(w, front, id);
      RunEvolves(w, front);
      assert RowEvolves(w.tables.rows[id], v.tables.rows[id]);
      StepLogGrows(v, last);
      NotClosedAgain(v, last, id);
      assert Step(v, last).log[|w.log|..] == v.log[|w.log|..] + Step(v, last).log[|v.log|..];
    }
  }

  lemma NotClosedAgain(v: World, e: Event, id: DelegationId)
    requires id in v.tables.rows && v.tables.rows[id].stage == Closed
    ensures v.log <= Step(v, e).log && DidClose(id) !in Step(v, e).log[|v.log|..]
  {
  }

  /** Request `r` is a page load of delegation `id`, holding what it read. */
  predicate WaitsToShow(w: World, r: RequestId, d: Snapshot) { r in w.requests && w.requests[r] == Viewing(d) }

  /**
   * "Nothing at all once it is closed" is not quite so: the stage is the one
   * read when the token was loaded. The page lists the link's files, as they
   * are when it is built, unless the delegation was closed already when it was
   * loaded; so a page lists files of a closed delegation exactly when there
   * are any and the delegation was closed between the two reads.
   */
  lemma LatePageIsExact(before: seq<Event>, r: RequestId, id: DelegationId, token: string, during: seq<Event>)
    requires r !in Run(START, before).requests && HasToken(Run(START, before).tables, id, token)
    requires var u := Run(START, before);
             WaitsToShow(Run(Step(u, LoadToken(r, id, token, View, "")), during), r, Snap(u.tables, id))
    ensures var u := Run(START, before);
            var w := Step(u, LoadToken(r, id, token, View, ""));
            var v := Run(w, during);
            var files := if u.tables.rows[id].stage == Closed then [] else NamesOf(v.tables.files, id);
            && Step(v, ShowNow(r)).log == v.log + [DidShow(Snap(u.tables, id), files)]
            && w.log <= v.log && id in v.tables.rows
            && (files != [] && v.tables.rows[id].stage == Closed
                <==> NamesOf(v.tables.files, id) != [] && DidClose(id) in v.log[|w.log|..])
  {
    var u := Run(START, before);
    var w := Step(u, LoadToken(r, id, token, View, ""));
    RunKeepsInv(START, before);
    StepKeepsInv(u, LoadToken(r, id, token, View, ""));
    RunEvolves(w, during);
    if u.tables.rows[id].stage == Closed {
      ClosedOnce(w, during, id);
    } else {
      ClosedMeanwhile(w, during, id);
    }
  }

  lemma IsShownLate()
    ensures var w := Step(Step(Step(Step(Step(WITH_ANA, LoadToken(0, 1, "token", Upload, "a.pdf")), StoreNow(0)),
                                    LoadToken(0, 1, "token", View, "")), CloseNow(1, 3)), ShowNow(0));
            1 in w.tables.rows && w.tables.rows[1].stage == Closed
            && DidShow(Snapshot(1, 5, Accepted, Some("Ana")), ["a.pdf"]) in w.log
  {
    var w := Step(Step(WITH_ANA, LoadToken(0, 1, "token", Upload, "a.pdf")), StoreNow(0));
    assert w.tables.files == [File(Some(1), "a.pdf")] && w.requests == map[];
    assert w.tables.files[..0] == [];
    assert NamesOf(w.tables.files, 1) == ["a.pdf"];
    var v := Step(Step(w, LoadToken(0, 1, "token", View, "")), CloseNow(1, 3));
    assert v.requests == map[0 := Viewing(Snapshot(1, 5, Accepted, Some("Ana")))];
    var page := DidShow(Snapshot(1, 5, Accepted, Some("Ana")), ["a.pdf"]);
    assert Step(v, ShowNow(0)).log == v.log + [page];
  }

  /** A run in which it happens: a file is stored, the page is loaded, the delegation closed, the page shown. */
  lemma LatePageHappens() returns (es: seq<Event>)
    ensures var w := Run(START, es);
            1 in w.tables.rows && w.tables.rows[1].stage == Closed
            && DidShow(Snapshot(1, 5, Accepted, Some("Ana")), ["a.pdf"]) in w.log
  {
    var accepting := AcceptedRun();
    var upload, store, view := LoadToken(0, 1, "token", Upload, "a.pdf"), StoreNow(0), LoadToken(0, 1, "token", View, "");
    ThreeMore(START, accepting, upload, store, view);
    var viewing := accepting + [upload] + [store] + [view];
    OneMore(START, viewing, CloseNow(1, 3));
    OneMore(START, viewing + [CloseNow(1, 3)], ShowNow(0));
    IsShownLate();
    es := viewing + [CloseNow(1, 3)] + [ShowNow(0)];
  }
}

/**
 * Giving a new case an owner: the zone's strategy applied to whoever can take
 * work now, over the tables it reads and writes.
 */
module Assignment {
  import opened Wrappers
  import opened SlaRules
  import opened LoadBalance
  import RoundRobin

  type UserId = RoundRobin.UserId
  type CaseId = int

  datatype Role = Approver | ZoneManager | OtherRole

  datatype User = User(
    id: UserId, zone: string, active: bool, role: Role,
    oooFrom: Option<Time>, oooTo: Option<Time>, capacityWeight: int)

  datatype Pending = OnNobody | OnTeam(zone: string) | OnMember(id: UserId)

  datatype Ticket = Ticket(
    zone: string, status: Status, assignee: Option<UserId>, pending: Pending, updatedAt: Time)

  datatype Strategy = RoundRobinStrategy | LeastOpen | WeightedStrategy | Manual

  datatype Config = Config(strategy: Strategy, rrCursor: Option<UserId>)

  const New := Custom("new")

  // ---- who can take work -------------------------------------------------------------

  predicate Assignable(u: User, zone: string, now: Time) {
    && u.zone == zone && u.active && u.role != OtherRole
    && (u.oooFrom.None? || u.oooTo.None? || !(u.oooFrom.value <= now <= u.oooTo.value))
  }

  function Candidates(users: seq<User>, zone: string, now: Time): (cands: seq<User>)
    ensures forall u :: u in cands <==> u in users && Assignable(u, zone, now)
    ensures |cands| <= |users|
  {
    if users == [] then []
    else (if Assignable(users[0], zone, now) then [users[0]] else []) + Candidates(users[1..], zone, now)
  }

  /** The cases a member holds that are not closed. */
  function OpenCases(tickets: map<CaseId, Ticket>, u: UserId): nat {
    |set id | id in tickets && tickets[id].assignee == Some(u) && tickets[id].status != Closed|
  }

  function LoadOf(u: User, tickets: map<CaseId, Ticket>): Load {
    Load(OpenCases(tickets, u.id), if u.capacityWeight > 1 then u.capacityWeight else 1)
  }

  function Loads(cands: seq<User>, tickets: map<CaseId, Ticket>): (loads: seq<Load>)
    ensures |loads| == |cands|
    ensures forall i :: 0 <= i < |cands| ==> loads[i] == LoadOf(cands[i], tickets)
  {
    if cands == [] then [] else Loads(cands[..|cands| - 1], tickets) + [LoadOf(cands[|cands| - 1], tickets)]
  }

  /** Who can take work: an active approver or manager of the zone who is not out of office. */
  lemma CandidatesExactly(users: seq<User>, zone: string, now: Time, u: User)
    ensures u in Candidates(users, zone, now)
            <==> && u in users && u.zone == zone && u.active && (u.role == Approver || u.role == ZoneManager)
                 && (u.oooFrom.Some? && u.oooTo.Some? ==> now < u.oooFrom.value || u.oooTo.value < now)
  {
  }

  /** A case counts for its owner until it is closed; there is nothing else to count. */
  lemma OpenCasesCount(tickets: map<CaseId, Ticket>, id: CaseId, t: Ticket, u: UserId)
    ensures OpenCases(map[], u) == 0
    ensures OpenCases(tickets[id := t], u)
            == OpenCases(tickets - {id}, u) + if t.assignee == Some(u) && t.status != Closed then 1 else 0
  {
    var rest, more := tickets - {id}, tickets[id := t];
    var was := set k | k in rest && rest[k].assignee == Some(u) && rest[k].status != Closed;
    var now := set k | k in more && more[k].assignee == Some(u) && more[k].status != Closed;
    assert now == if t.assignee == Some(u) && t.status != Closed then was + {id} else was;
    assert id !in was;
  }

  // ---- the choice -----------------------------------------------------------------------

  /** What the two load-based sorts compare: strictly fewer, or strictly lighter. */
  predicate Before(rule: Rule, a: Load, b: Load) {
    match rule case Fewest => a.open < b.open case Lightest => !NoHeavier(b, a)
  }

  /** The head of a stable sort of the first `n`: the earliest that none comes before. */
  function Head(loads: seq<Load>, rule: Rule, n: nat): (k: nat)
    requires 0 < n <= |loads|
    ensures k < n
  {
    if n == 1 then 0
    else
      var k := Head(loads, rule, n - 1);
      if Before(rule, loads[n - 1], loads[k]) then n - 1 else k
  }

  lemma {:induction false} HeadIsBest(loads: seq<Load>, rule: Rule, n: nat)
    requires 0 < n <= |loads| && Weighed(loads)
    ensures Best(rule, loads[..n], Head(loads, rule, n))
  {
    if n == 1 {
    } else {
      HeadIsBest(loads, rule, n - 1);
      var k, head := Head(loads, rule, n - 1), Head(loads, rule, n);
      assert Best(rule, loads[..n - 1], k);
      forall j | 0 <= j < n
        ensures rule == Fewest ==> loads[head].open <= loads[j].open
        ensures rule == Lightest ==> NoHeavier(loads[head], loads[j])
      {
        if j < n - 1 {
          assert loads[..n - 1][j] == loads[j] && loads[..n - 1][k] == loads[k];
          if head == n - 1 && rule == Lightest {
            NoHeavierTotal(loads[k], loads[n - 1]);
            NoHeavierTransitive(loads[n - 1], loads[k], loads[j]);
          }
        }
      }
      assert forall j :: 0 <= j < n ==> loads[..n][j] == loads[j];
    }
  }

  /** And the first of those: every one before it comes strictly after it. */
  lemma {:induction false} HeadIsFirst(loads: seq<Load>, rule: Rule, n: nat)
    requires 0 < n <= |loads| && Weighed(loads)
    ensures forall j :: 0 <= j < Head(loads, rule, n) ==> Before(rule, loads[Head(loads, rule, n)], loads[j])
  {
    if n == 1 {
    } else {
      var k := Head(loads, rule, n - 1);
      HeadIsFirst(loads, rule, n - 1);
      if Before(rule, loads[n - 1], loads[k]) {
        HeadIsBest(loads, rule, n - 1);
        forall j | 0 <= j < n - 1 ensures Before(rule, loads[n - 1], loads[j]) {
          assert loads[..n - 1][j] == loads[j] && loads[..n - 1][k] == loads[k];
          if rule == Lightest && NoHeavier(loads[j], loads[n - 1]) {
            NoHeavierTransitive(loads[k], loads[j], loads[n - 1]);
          }
        }
      }
    }
  }

  lemma NoHeavierTotal(a: Load, b: Load)
    ensures NoHeavier(a, b) || NoHeavier(b, a)
  {
  }

  predicate Ascending(users: seq<User>) {
    forall i, j :: 0 <= i < j < |users| ==> users[i].id <= users[j].id
  }

  function InsertById(u: User, sorted: seq<User>): (r: seq<User>)
    ensures forall x :: x in r <==> x == u || x in sorted
    ensures Ascending(sorted) ==> Ascending(r)
  {
    if sorted == [] || u.id <= sorted[0].id then [u] + sorted
    else
      assert Ascending(sorted) ==> Ascending(sorted[1..]);
      var rest := InsertById(u, sorted[1..]);
      assert Ascending(sorted) ==> forall x :: x in rest ==> sorted[0].id <= x.id;
      [sorted[0]] + rest
  }

  function SortById(users: seq<User>): (r: seq<User>)
    ensures forall x :: x in r <==> x in users
    ensures Ascending(r)
  {
    if users == [] then [] else InsertById(users[0], SortById(users[1..]))
  }

  /** The position of the first id past the cursor, or the length when there is none. */
  function FindPast(sorted: seq<User>, cursor: UserId, from: nat): (k: nat)
    requires from <= |sorted|
    ensures from <= k <= |sorted|
    ensures forall i :: from <= i < k ==> sorted[i].id <= cursor
    ensures k < |sorted| ==> sorted[k].id > cursor
    decreases |sorted| - from
  {
    if from == |sorted| || sorted[from].id > cursor then from else FindPast(sorted, cursor, from + 1)
  }

  function NextInRing(cands: seq<User>, cursor: Option<UserId>): (u: User)
    requires cands != []
    ensures u in cands
  {
    var sorted := SortById(cands);
    assert cands[0] in sorted;
    var k := if cursor.None? then 0 else FindPast(sorted, cursor.value, 0);
    sorted[if k == |sorted| then 0 else k]
  }

  ghost function Ids(cands: seq<User>): set<UserId> { set i | 0 <= i < |cands| :: cands[i].id }

  /** The stored cursor, the sort and the search together pick the next id round the ring. */
  lemma NextInRingFollows(cands: seq<User>, cursor: Option<UserId>)
    requires cands != []
    ensures RoundRobin.Follows(Ids(cands), cursor, NextInRing(cands, cursor).id)
  {
    var sorted := SortById(cands);
    assert cands[0] in sorted;
    var chosen := NextInRing(cands, cursor);
    var c :| 0 <= c < |cands| && cands[c] == chosen;
    forall d | d in Ids(cands) ensures exists i :: 0 <= i < |sorted| && sorted[i].id == d {
      var i :| 0 <= i < |cands| && cands[i].id == d;
      assert cands[i] in sorted;
      var k :| 0 <= k < |sorted| && sorted[k] == cands[i];
    }
    forall d | d in Ids(cands) && cursor.Some? && chosen.id > cursor.value && d > cursor.value
      ensures chosen.id <= d
    {
      var k :| 0 <= k < |sorted| && sorted[k].id == d;
    }
    if cursor.None? || chosen.id <= cursor.value {
      forall d | d in Ids(cands)
        ensures chosen.id <= d
        ensures cursor.Some? ==> d <= cursor.value
      {
        var k :| 0 <= k < |sorted| && sorted[k].id == d;
      }
    }
  }

  function Choose(strategy: Strategy, cands: seq<User>, tickets: map<CaseId, Ticket>,
                  cursor: Option<UserId>): (u: User)
    requires cands != []
    ensures u in cands
  {
    match strategy
    case LeastOpen => cands[Head(Loads(cands, tickets), Fewest, |cands|)]
    case WeightedStrategy => cands[Head(Loads(cands, tickets), Lightest, |cands|)]
    case _ => NextInRing(cands, cursor)
  }

  /** The weight a member's capacity counts with. */
  function AtLeastOne(weight: int): int { if weight < 1 then 1 else weight }

  /** The first of those who hold the fewest open cases. */
  ghost predicate HoldsFewest(cands: seq<User>, tickets: map<CaseId, Ticket>, k: nat)
    requires k < |cands|
  {
    && (forall j :: 0 <= j < |cands| ==> OpenCases(tickets, cands[k].id) <= OpenCases(tickets, cands[j].id))
    && (forall j :: 0 <= j < k ==> OpenCases(tickets, cands[k].id) < OpenCases(tickets, cands[j].id))
  }

  /** The first of those who hold the fewest in proportion to capacity. */
  ghost predicate HoldsLightest(cands: seq<User>, tickets: map<CaseId, Ticket>, k: nat)
    requires k < |cands|
  {
    && (forall j :: 0 <= j < |cands| ==>
          OpenCases(tickets, cands[k].id) * AtLeastOne(cands[j].capacityWeight)
          <= OpenCases(tickets, cands[j].id) * AtLeastOne(cands[k].capacityWeight))
    && (forall j :: 0 <= j < k ==>
          OpenCases(tickets, cands[k].id) * AtLeastOne(cands[j].capacityWeight)
          < OpenCases(tickets, cands[j].id) * AtLeastOne(cands[k].capacityWeight))
  }

  /** The member whom the strategy should give the case to, told from users and cases. */
  ghost predicate RightChoice(strategy: Strategy, cands: seq<User>, tickets: map<CaseId, Ticket>,
                              cursor: Option<UserId>, u: User)
  {
    match strategy
    case LeastOpen => exists k :: 0 <= k < |cands| && u == cands[k] && HoldsFewest(cands, tickets, k)
    case WeightedStrategy => exists k :: 0 <= k < |cands| && u == cands[k] && HoldsLightest(cands, tickets, k)
    case RoundRobinStrategy => u in cands && RoundRobin.Follows(Ids(cands), cursor, u.id)
    case Manual => false
  }

  lemma ChoiceIsRight(strategy: Strategy, cands: seq<User>, tickets: map<CaseId, Ticket>, cursor: Option<UserId>)
    requires cands != [] && strategy != Manual
    ensures RightChoice(strategy, cands, tickets, cursor, Choose(strategy, cands, tickets, cursor))
  {
    match strategy
    case LeastOpen =>
      HeadIsRight(cands, tickets, Fewest);
      assert HoldsFewest(cands, tickets, Head(Loads(cands, tickets), Fewest, |cands|));
    case WeightedStrategy =>
      HeadIsRight(cands, tickets, Lightest);
      assert HoldsLightest(cands, tickets, Head(Loads(cands, tickets), Lightest, |cands|));
    case RoundRobinStrategy =>
      NextInRingFollows(cands, cursor);
  }

  lemma HeadIsRight(cands: seq<User>, tickets: map<CaseId, Ticket>, rule: Rule)
    requires cands != []
    ensures var k := Head(Loads(cands, tickets), rule, |cands|);
            match rule case Fewest => HoldsFewest(cands, tickets, k) case Lightest => HoldsLightest(cands, tickets, k)
  {
    var loads := Loads(cands, tickets);
    var k := Head(loads, rule, |cands|);
    HeadIsBest(loads, rule, |cands|);
    HeadIsFirst(loads, rule, |cands|);
    assert loads[..|cands|] == loads;
    forall j | 0 <= j < |cands| ensures rule == Lightest ==> NoHeavier(loads[k], loads[j]) {}
    assert rule == Lightest ==> forall j :: 0 <= j < k ==> !NoHeavier(loads[j], loads[k]);
  }

  // ---- the transaction ---------------------------------------------------------------------

  /** The tables an assignment reads and writes. */
  datatype Desk = Desk(users: seq<User>, tickets: map<CaseId, Ticket>, config: map<string, Config>)

  /** A zone without a row gets the default strategy, and no cursor. */
  function ConfigOf(s: Desk, zone: string): Config {
    if zone in s.config then s.config[zone] else Config(RoundRobinStrategy, None)
  }

  /** Who gets the case: nobody if it is gone or owned, or if there is nobody the strategy may give it to. */
  function Chosen(s: Desk, id: CaseId, now: Time): Option<User> {
    if id !in s.tickets || s.tickets[id].assignee.Some? then None
    else
      var cfg, cands := ConfigOf(s, s.tickets[id].zone), Candidates(s.users, s.tickets[id].zone, now);
      if cfg.strategy == Manual || cands == [] then None
      else Some(Choose(cfg.strategy, cands, s.tickets, cfg.rrCursor))
  }

  function Given(t: Ticket, u: UserId, now: Time): Ticket {
    t.(assignee := Some(u), status := Open, pending := OnMember(u), updatedAt := now)
  }

  /** A case nobody can be given leaves `new` for the zone's queue; any other status stays. */
  function Queued(t: Ticket, now: Time): Ticket {
    if t.status == New then t.(status := Open, pending := OnTeam(t.zone), updatedAt := now) else t
  }

  function Assigned(s: Desk, id: CaseId, now: Time): Desk {
    if id !in s.tickets || s.tickets[id].assignee.Some? then s
    else
      var t, u := s.tickets[id], Chosen(s, id, now);
      if u.None? then s.(tickets := s.tickets[id := Queued(t, now)])
      else
        var cfg := ConfigOf(s, t.zone);
        s.(tickets := s.tickets[id := Given(t, u.value.id, now)],
           config := if cfg.strategy == RoundRobinStrategy && t.zone in s.config
                     then s.config[t.zone := cfg.(rrCursor := Some(u.value.id))]
                     else s.config)
  }

  class AssignmentService {
    var users: seq<User>
    var tickets: map<CaseId, Ticket>
    var config: map<string, Config>

    function Contents(): Desk reads this { Desk(users, tickets, config) }

    constructor (users: seq<User>, tickets: map<CaseId, Ticket>, config: map<string, Config>)
      ensures this.users == users && this.tickets == tickets && this.config == config
    {
      this.users, this.tickets, this.config := users, tickets, config;
    }

    method OpenUnassigned(id: CaseId, now: Time)
      requires id in tickets
      modifies this`tickets
      ensures tickets == old(tickets)[id := Queued(old(tickets)[id], now)]
      ensures old(tickets)[id].status != New ==> tickets == old(tickets)
      ensures old(tickets)[id].status == New ==>
                tickets[id] == old(tickets)[id].(status := Open, pending := OnTeam(old(tickets)[id].zone), updatedAt := now)
    {
      var t := tickets[id];
      if t.status != New { return; }
      tickets := tickets[id := t.(status := Open, pending := OnTeam(t.zone), updatedAt := now)];
    }

    /** The strategy's choice; round-robin also moves the zone's cursor onto it. */
    method TakeTurn(zone: string, cfg: Config, cands: seq<User>) returns (chosen: User)
      requires cands != [] && cfg.strategy != Manual
      modifies this`config
      ensures chosen == Choose(cfg.strategy, cands, tickets, cfg.rrCursor)
      ensures RightChoice(cfg.strategy, cands, tickets, cfg.rrCursor, chosen)
      ensures config == if cfg.strategy == RoundRobinStrategy && zone in old(config)
                        then old(config)[zone := cfg.(rrCursor := Some(chosen.id))]
                        else old(config)
    {
      ChoiceIsRight(cfg.strategy, cands, tickets, cfg.rrCursor);
      if cfg.strategy == LeastOpen {
        chosen := cands[Head(Loads(cands, tickets), Fewest, |cands|)];
      } else if cfg.strategy == WeightedStrategy {
        chosen := cands[Head(Loads(cands, tickets), Lightest, |cands|)];
      } else {
        chosen := NextInRing(cands, cfg.rrCursor);
        // An UPDATE: it matches no row when the zone has no configuration.
        if zone in config {
          config := config[zone := cfg.(rrCursor := Some(chosen.id))];
        }
      }
    }

    method AutoAssign(id: CaseId, now: Time) returns (assignee: Option<UserId>)
      modifies this`tickets, this`config
      ensures Contents() == Assigned(old(Contents()), id, now)
      ensures assignee == match Chosen(old(Contents()), id, now) case Some(u) => Some(u.id) case None => None
      // Somebody gets it exactly if it is there, unowned, and the zone leaves it to a strategy and has a candidate.
      ensures assignee.Some? <==>
                && id in old(tickets) && old(tickets)[id].assignee.None?
                && (old(tickets)[id].zone in old(config) ==> old(config)[old(tickets)[id].zone].strategy != Manual)
                && Candidates(users, old(tickets)[id].zone, now) != []
      // And it is the right one of the candidates.
      ensures assignee.Some? ==>
                var t, cands := old(tickets)[id], Candidates(users, old(tickets)[id].zone, now);
                var cfg := if t.zone in old(config) then old(config)[t.zone] else Config(RoundRobinStrategy, None);
                && (exists u :: u in cands && assignee == Some(u.id)
                                && RightChoice(cfg.strategy, cands, old(tickets), cfg.rrCursor, u))
                && tickets == old(tickets)[id := t.(assignee := assignee, status := Open,
                                                    pending := OnMember(assignee.value), updatedAt := now)]
                && config == if cfg.strategy == RoundRobinStrategy && t.zone in old(config)
                             then old(config)[t.zone := cfg.(rrCursor := assignee)] else old(config)
    {
      if id !in tickets || tickets[id].assignee.Some? { return None; }
      var t := tickets[id];
      var cfg := if t.zone in config then config[t.zone] else Config(RoundRobinStrategy, None);
      if cfg.strategy == Manual {
        OpenUnassigned(id, now);
        return None;
      }
      var cands := Candidates(users, t.zone, now);
      if cands == [] {
        OpenUnassigned(id, now);
        return None;
      }
      ChoiceIsRight(cfg.strategy, cands, tickets, cfg.rrCursor);
      var chosen := TakeTurn(t.zone, cfg, cands);
      tickets := tickets[id := t.(assignee := Some(chosen.id), status := Open,
                                  pending := OnMember(chosen.id), updatedAt := now)];
      return Some(chosen.id);
    }
  }

  // ---- what an assignment does to the loads ---------------------------------------------------

  /** Giving an unowned case to `u` adds one to `u`'s open cases and nobody else's. */
  lemma OneMoreForTheChosen(tickets: map<CaseId, Ticket>, id: CaseId, given: Ticket, u: UserId, v: UserId)
    requires id in tickets && tickets[id].assignee.None?
    requires given.assignee == Some(u) && given.status != Closed
    ensures OpenCases(tickets[id := given], v) == OpenCases(tickets, v) + if u == v then 1 else 0
  {
    var was := set k | k in tickets && tickets[k].assignee == Some(v) && tickets[k].status != Closed;
    var after := tickets[id := given];
    var now := set k | k in after && after[k].assignee == Some(v) && after[k].status != Closed;
    assert now == if u == v then was + {id} else was;
    assert id !in was;
  }

  ghost predicate UniqueIds(cands: seq<User>) {
    forall i, j :: 0 <= i < j < |cands| ==> cands[i].id != cands[j].id
  }

  function StrategyOf(rule: Rule): Strategy {
    match rule case Fewest => LeastOpen case Lightest => WeightedStrategy
  }

  /**
   * One load-based assignment is one greedy step of the fairness model: the
   * chosen member is a best one and alone takes a case.
   */
  lemma AssignmentIsAGreedyStep(cands: seq<User>, tickets: map<CaseId, Ticket>, id: CaseId, given: Ticket,
                                rule: Rule, cursor: Option<UserId>, k: nat)
    requires cands != [] && UniqueIds(cands) && k == Head(Loads(cands, tickets), rule, |cands|)
    requires id in tickets && tickets[id].assignee.None? && given.status != Closed
    requires given.assignee == Some(Choose(StrategyOf(rule), cands, tickets, cursor).id)
    ensures Best(rule, Loads(cands, tickets), k)
    ensures Loads(cands, tickets[id := given]) == Take(Loads(cands, tickets), k)
  {
    var loads := Loads(cands, tickets);
    HeadIsBest(loads, rule, |cands|);
    assert loads[..|cands|] == loads;
    var after := Loads(cands, tickets[id := given]);
    forall i | 0 <= i < |cands| ensures after[i] == Take(loads, k)[i] {
      OneMoreForTheChosen(tickets, id, given, cands[k].id, cands[i].id);
    }
    assert after == Take(loads, k);
  }
}

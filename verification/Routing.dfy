/**
 * All sessions and the controller's route cache together, one PDU, call or cache
 * action at a time. The caches may drop anything at any moment, and the Stop that a
 * dropped session is owed may come at any later step.
 */
module Routing {
  import opened Base
  import opened Correlation

  const ROUTE_TTL: int := 1_800_000_000_000  // thirty minutes, in nanoseconds

  datatype Member = Member(sess: Sess, bound: bool, receiver: bool, stopped: bool, cached: bool) {
    /** What deliver_sm asks of a session. */
    predicate CanReceive() {
      cached && bound && receiver
    }
  }

  datatype World = World(
    members: map<SessionID, Member>,
    routes: Routes,
    owner: Owners,  // which session each message ID was generated for
    now: int)

  const START := World(map[], map[], map[], 0)

  datatype Step =
    | Open(sid: SessionID)
    | Bind(sid: SessionID, receiver: bool, accepted: bool)
    | SubmitSm(sid: SessionID, sub: Submission, wants: Option<(uint8, uint8)>)  // segments, octet; if one is due
    | Response(sid: SessionID, n: uint32)
    | Push(sid: SessionID, n: uint32)
    | DeliveryReport(sid: SessionID, id: uint64, success: bool, n: uint32, attempt: Attempt)
    | TtlSweep(sid: SessionID, seen: set<PendingKey>)
    | StopSession(sid: SessionID)
    | Evict(sid: SessionID)
    | DropRoute(id: uint64)
    | Lookup(id: uint64)
    | Tick(span: nat)

  /**
   * A submit needs a fresh message ID. A session that has stopped reads no more PDUs,
   * except the one that was in flight when it was stopped from outside, which only
   * happens once the cache has let go of it.
   */
  predicate Enabled(w: World, step: Step) {
    match step
    case Open(sid) => sid !in w.members
    case Bind(sid, _, _) => sid in w.members && !w.members[sid].bound
    case SubmitSm(sid, sub, _) =>
      sid in w.members && sub.id !in w.owner && (!w.members[sid].stopped || !w.members[sid].cached)
    case Response(sid, _) => sid in w.members
    case Push(sid, _) => sid in w.members
    case DeliveryReport(sid, _, _, _, _) =>
      sid in w.members && w.members[sid].CanReceive()
    case TtlSweep(sid, _) => sid in w.members && w.members[sid].bound
    case StopSession(sid) => sid in w.members
    case Evict(sid) => sid in w.members
    case DropRoute(_) => true
    case Lookup(_) => true
    case Tick(_) => true
  }

  function Entry(w: World, wants: Option<(uint8, uint8)>): Option<PendingRequest> {
    match wants case None => None case Some(w2) => Some(PendingRequest(w2.0, w2.1, w.now))
  }

  function WithSess(w: World, sid: SessionID, sess: Sess): World
    requires sid in w.members
  {
    w.(members := w.members[sid := w.members[sid].(sess := sess)])
  }

  function Do(w: World, step: Step, ttl: int): World
    requires Enabled(w, step)
  {
    match step
    case Open(sid) => w.(members := w.members[sid := Member(FRESH, false, false, false, true)])
    case Bind(sid, receiver, accepted) =>
      w.(members := w.members[sid := w.members[sid].(bound := accepted, receiver := receiver)])
    case SubmitSm(sid, sub, wants) =>
      var s := w.members[sid].sess;
      WithSess(w, sid, Submit(s, sub, Entry(w, wants)))
      .(routes := SubmitRoutes(w.routes, s, sub, Entry(w, wants), sid, w.now), owner := w.owner[sub.id := sid])
    case Response(sid, n) => WithSess(w, sid, Respond(w.members[sid].sess, n))
    case Push(sid, n) => WithSess(w, sid, Await(w.members[sid].sess, n, w.now))
    case DeliveryReport(sid, id, success, n, attempt) =>
      var s := w.members[sid].sess;
      WithSess(w, sid, Report(s, id, success, n, attempt, w.now))
      .(routes := ReportRoutes(w.routes, s, id, success, attempt))
    case TtlSweep(sid, seen) => WithSess(w, sid, Sweep(w.members[sid].sess, seen, w.now, ttl))
    case StopSession(sid) =>
      var m := w.members[sid];
      if m.stopped then w
      else w.(members := w.members[sid := m.(sess := Stop(m.sess), bound := false, stopped := true)],
              routes := StopRoutes(w.routes, m.sess))
    case Evict(sid) => w.(members := w.members[sid := w.members[sid].(cached := false)])
    case DropRoute(id) => w.(routes := w.routes - {id})
    case Lookup(id) =>
      if Live(w, id) && !Reachable(w, w.routes[id].sid) then w.(routes := w.routes - {id}) else w
    case Tick(span) => w.(now := w.now + span)
  }

  // ---------------------------------------------------------------- what a lookup sees

  predicate Live(w: World, id: uint64) {
    id in w.routes && LiveRoute(w.routes[id], w.now)
  }

  predicate Reachable(w: World, sid: SessionID) {
    sid in w.members && w.members[sid].cached
  }

  /** GetSessionByMessageID. */
  function Resolve(w: World, id: uint64): Option<SessionID> {
    if Live(w, id) && Reachable(w, w.routes[id].sid) then Some(w.routes[id].sid) else None
  }

  predicate Holds(w: World, sid: SessionID, id: uint64) {
    sid in w.members && Msg(id) in w.members[sid].sess.pending
  }

  /** Every live route names a session that still holds an entry for the message. */
  predicate RoutesBacked(w: World) {
    forall id :: id in w.routes && Live(w, id) ==> Holds(w, w.routes[id].sid, id)
  }

  // ---------------------------------------------------------------- invariants

  type Owners = map<uint64, SessionID>

  predicate Owned(owner: Owners, sid: SessionID, id: uint64) {
    id in owner && owner[id] == sid
  }

  /** Everything a session remembers about a message, it remembers about one of its own. */
  predicate OwnsAll(owner: Owners, sid: SessionID, s: Sess) {
    && (forall id :: id in s.lives && s.lives[id] != [] ==> Owned(owner, sid, id))
    && (forall key :: key in s.last ==> Owned(owner, sid, s.last[key]))
  }

  predicate Emptied(s: Sess) {
    forall k :: k in s.pending ==> k.Seq?
  }

  ghost predicate SessOk(owner: Owners, sid: SessionID, s: Sess) {
    AllLives(s) && TableRight(s) && OwnsAll(owner, sid, s)
  }

  ghost predicate MemberOk(owner: Owners, sid: SessionID, m: Member) {
    SessOk(owner, sid, m.sess) && (m.stopped && m.cached ==> Emptied(m.sess))
  }

  ghost predicate Consistent(w: World) {
    forall sid :: sid in w.members ==> MemberOk(w.owner, sid, w.members[sid])
  }

  predicate LiveRoute(route: Route, now: int) {
    now - route.writtenAt < ROUTE_TTL
  }

  /** The entry that was made when the route was written. */
  predicate Twin(s: Sess, id: uint64, route: Route) {
    Msg(id) in s.pending && s.pending[Msg(id)].createdAt == route.writtenAt
  }

  /** A route has expired, or the session it names holds its twin. */
  predicate RouteOk(members: map<SessionID, Member>, id: uint64, route: Route, now: int) {
    && route.writtenAt <= now
    && (LiveRoute(route, now) ==> route.sid in members && Twin(members[route.sid].sess, id, route))
  }

  predicate Routed(w: World) {
    forall id :: id in w.routes ==> RouteOk(w.members, id, w.routes[id], w.now)
  }

  // ---------------------------------------------------------------- one step, one session

  lemma {:induction false} OwnsEntries(owner: Owners, sid: SessionID, s: Sess, id: uint64)
    requires AllLives(s) && OwnsAll(owner, sid, s) && Msg(id) in s.pending
    ensures Owned(owner, sid, id)
  {
    assert Lifecycle(s, id);
    assert Life(s, id) != [];
  }

  lemma {:induction false} SubmitOwners(owner: Owners, sid: SessionID, s: Sess, sub: Submission,
      entry: Option<PendingRequest>)
    requires OwnsAll(owner, sid, s) && sub.id !in owner
    ensures OwnsAll(owner[sub.id := sid], sid, Submit(s, sub, entry))
  {
    var superseded := Supersede(s, sub.key, sub.replacing);
    assert OwnsAll(owner, sid, superseded);
  }

  lemma {:induction false} SubmitSess(owner: Owners, sid: SessionID, s: Sess, sub: Submission,
      entry: Option<PendingRequest>)
    requires SessOk(owner, sid, s) && sub.id !in owner
    ensures SessOk(owner[sub.id := sid], sid, Submit(s, sub, entry))
  {
    hide Submit, AllLives, TableRight;
    assert NeverStored(s, sub.id) by {
      assert sub.id in s.lives && s.lives[sub.id] != [] ==> Owned(owner, sid, sub.id);
    }
    SubmitOwners(owner, sid, s, sub, entry);
    hide OwnsAll;
    SubmitKeepsLives(s, sub, entry);
    SubmitKeepsTable(s, sub, entry);
  }

  lemma {:induction false} SequenceSess(owner: Owners, sid: SessionID, s: Sess, n: uint32, now: int)
    requires SessOk(owner, sid, s)
    ensures SessOk(owner, sid, Respond(s, n)) && SessOk(owner, sid, Await(s, n, now))
  {
    hide AllLives;
    SequenceStepsKeepLives(s, n, now);
  }

  lemma {:induction false} ReportSess(owner: Owners, sid: SessionID, s: Sess, id: uint64, success: bool, n: uint32,
      attempt: Attempt, now: int)
    requires SessOk(owner, sid, s)
    ensures SessOk(owner, sid, Report(s, id, success, n, attempt, now))
  {
    ReportKeepsLives(s, id, success, n, attempt, now);
    if Msg(id) in s.pending { OwnsEntries(owner, sid, s, id); }
    hide AllLives, Lifecycle;
  }

  lemma {:induction false} SweepSess(owner: Owners, sid: SessionID, s: Sess, seen: set<PendingKey>, now: int, ttl: int)
    requires SessOk(owner, sid, s)
    ensures SessOk(owner, sid, Sweep(s, seen, now, ttl)) && SessOk(owner, sid, Stop(s))
  {
    SweepKeepsLives(s, seen, now, ttl);
    forall id | Msg(id) in s.pending ensures Owned(owner, sid, id) { OwnsEntries(owner, sid, s, id); }
    hide AllLives, Lifecycle;
  }

  lemma {:induction false} FreshOk(owner: Owners, sid: SessionID)
    ensures SessOk(owner, sid, FRESH)
  {
    forall id: uint64 ensures Lifecycle(FRESH, id) {}
  }

  lemma {:induction false} OwnersGrow(owner: Owners, owner': Owners, sid: SessionID, m: Member)
    requires MemberOk(owner, sid, m)
    requires forall id :: id in owner ==> id in owner' && owner'[id] == owner[id]
    ensures MemberOk(owner', sid, m)
  {
    hide AllLives, TableRight;
  }

  /** Only the acting session changes, and ownership only grows. */
  lemma {:induction false} OthersKeep(w: World, w': World, sid: SessionID)
    requires Consistent(w) && sid in w'.members && MemberOk(w'.owner, sid, w'.members[sid])
    requires w'.members.Keys == w.members.Keys + {sid}
    requires forall other :: other in w.members && other != sid ==> w'.members[other] == w.members[other]
    requires forall id :: id in w.owner ==> id in w'.owner && w'.owner[id] == w.owner[id]
    ensures Consistent(w')
  {
    hide MemberOk;
    forall other | other in w'.members ensures MemberOk(w'.owner, other, w'.members[other]) {
      if other != sid { OwnersGrow(w.owner, w'.owner, other, w.members[other]); }
    }
  }

  /** What every step does to the session it acts on. */
  lemma {:induction false} ActorOk(w: World, step: Step, ttl: int)
    requires Consistent(w) && Enabled(w, step)
    requires !step.DropRoute? && !step.Lookup? && !step.Tick?
    ensures var w' := Do(w, step, ttl); MemberOk(w'.owner, step.sid, w'.members[step.sid])
  {
    var sid := step.sid;
    FreshOk(w.owner, sid);
    hide SessOk, Submit, SubmitRoutes, Report, ReportRoutes, StopRoutes;
    if !step.Open? {
      var m := w.members[sid];
      assert MemberOk(w.owner, sid, m);
      match step {
        case SubmitSm(_, sub, wants) => SubmitSess(w.owner, sid, m.sess, sub, Entry(w, wants));
        case Response(_, n) => SequenceSess(w.owner, sid, m.sess, n, w.now);
        case Push(_, n) => SequenceSess(w.owner, sid, m.sess, n, w.now);
        case DeliveryReport(_, id, success, n, attempt) => ReportStays(w, step, ttl);
        case TtlSweep(_, seen) => SweepSess(w.owner, sid, m.sess, seen, w.now, ttl);
        case StopSession(_) => SweepSess(w.owner, sid, m.sess, {}, w.now, ttl);
        case Bind(_, _, _) =>
        case Evict(_) =>
      }
    }
  }

  lemma {:induction false} ReportStays(w: World, step: Step, ttl: int)
    requires Consistent(w) && Enabled(w, step) && step.DeliveryReport?
    ensures var w' := Do(w, step, ttl); MemberOk(w'.owner, step.sid, w'.members[step.sid])
  {
    hide SessOk;
    assert MemberOk(w.owner, step.sid, w.members[step.sid]);
    ReportSess(w.owner, step.sid, w.members[step.sid].sess, step.id, step.success, step.n, step.attempt, w.now);
  }

  /** Every step keeps every session consistent, whatever the settings. */
  lemma {:induction false} StepConsistent(w: World, step: Step, ttl: int)
    requires Consistent(w) && Enabled(w, step)
    ensures Consistent(Do(w, step, ttl))
  {
    hide MemberOk, Submit, SubmitRoutes, Report, ReportRoutes, StopRoutes, Sweep, Stop;
    var w' := Do(w, step, ttl);
    if step.DropRoute? || step.Lookup? || step.Tick? {
      assert w'.members == w.members && w'.owner == w.owner;
    } else {
      ActorOk(w, step, ttl);
      OthersKeep(w, w', step.sid);
    }
  }

  // ---------------------------------------------------------------- one step, all routes

  /**
   * Of each route after a step: it is as before and still has the twin it had, or it was
   * written just now with its twin.
   */
  predicate Carried(routes: Routes, s: Sess, routes': Routes, s': Sess, sid: SessionID, now: int) {
    forall id :: id in routes' ==>
      || (id in routes && routes'[id] == routes[id] &&
          (LiveRoute(routes[id], now) && Twin(s, id, routes[id]) ==> Twin(s', id, routes[id])))
      || (routes'[id] == Route(sid, now) && Twin(s', id, routes'[id]))
  }

  lemma {:induction false} SupersedeCarries(routes: Routes, s: Sess, key: bytes, replacing: bool, sid: SessionID,
      now: int)
    ensures Carried(routes, s, SupersedeRoute(routes, s, key, replacing), Supersede(s, key, replacing), sid, now)
  {
  }

  lemma {:induction false} SubmitCarries(routes: Routes, s: Sess, sub: Submission, entry: Option<PendingRequest>,
      sid: SessionID, now: int)
    requires entry.Some? ==> entry.value.createdAt == now
    ensures Carried(routes, s, SubmitRoutes(routes, s, sub, entry, sid, now), Submit(s, sub, entry), sid, now)
  {
    SupersedeCarries(routes, s, sub.key, sub.replacing, sid, now);
    hide Supersede, SupersedeRoute;
  }

  lemma {:induction false} PlainCarries(routes: Routes, s: Sess, n: uint32, seen: set<PendingKey>,
                                        sid: SessionID, now: int, ttl: int)
    ensures Carried(routes, s, routes, Respond(s, n), sid, now)
    ensures Carried(routes, s, routes, Await(s, n, now), sid, now)
    ensures Carried(routes, s, StopRoutes(routes, s), Stop(s), sid, now)
    ensures ttl >= ROUTE_TTL ==> Carried(routes, s, routes, Sweep(s, seen, now, ttl), sid, now)
  {
  }

  lemma {:induction false} ReportCarries(routes: Routes, s: Sess, id: uint64, success: bool, n: uint32,
      attempt: Attempt, sid: SessionID, now: int)
    ensures Carried(routes, s, ReportRoutes(routes, s, id, success, attempt),
                    Report(s, id, success, n, attempt, now), sid, now)
  {
  }

  lemma {:induction false} CarriedRouted(w: World, w': World, sid: SessionID)
    requires Routed(w) && sid in w.members && w'.members.Keys == w.members.Keys && w'.now == w.now
    requires forall other :: other in w.members && other != sid ==> w'.members[other] == w.members[other]
    requires Carried(w.routes, w.members[sid].sess, w'.routes, w'.members[sid].sess, sid, w.now)
    ensures Routed(w')
  {
    hide Twin;
    forall id | id in w'.routes ensures RouteOk(w'.members, id, w'.routes[id], w'.now) {
      if id in w.routes && w'.routes[id] == w.routes[id] {
        assert RouteOk(w.members, id, w.routes[id], w.now);
      }
    }
  }

  lemma {:induction false} TickRouted(w: World, w': World)
    requires Routed(w) && w' == w.(now := w'.now) && w'.now >= w.now
    ensures Routed(w')
  {
    hide Twin;
    forall id | id in w'.routes ensures RouteOk(w'.members, id, w'.routes[id], w'.now) {
      assert RouteOk(w.members, id, w.routes[id], w.now);
    }
  }

  /** With a pending TTL of at least the route TTL, every step keeps every live route backed. */
  lemma {:induction false} StepRouted(w: World, step: Step, ttl: int)
    requires Routed(w) && Enabled(w, step) && ttl >= ROUTE_TTL
    ensures Routed(Do(w, step, ttl))
  {
    hide Twin, Carried, RouteOk, Submit, SubmitRoutes, Report, ReportRoutes, StopRoutes, Sweep, Stop;
    var w' := Do(w, step, ttl);
    match step {
      case SubmitSm(sid, sub, wants) =>
        SubmitCarries(w.routes, w.members[sid].sess, sub, Entry(w, wants), sid, w.now);
        CarriedRouted(w, w', sid);
      case Response(sid, n) =>
        PlainCarries(w.routes, w.members[sid].sess, n, {}, sid, w.now, ttl);
        CarriedRouted(w, w', sid);
      case Push(sid, n) =>
        PlainCarries(w.routes, w.members[sid].sess, n, {}, sid, w.now, ttl);
        CarriedRouted(w, w', sid);
      case DeliveryReport(sid, id, success, n, attempt) =>
        ReportCarries(w.routes, w.members[sid].sess, id, success, n, attempt, sid, w.now);
        CarriedRouted(w, w', sid);
      case TtlSweep(sid, seen) =>
        PlainCarries(w.routes, w.members[sid].sess, 0, seen, sid, w.now, ttl);
        CarriedRouted(w, w', sid);
      case StopSession(sid) =>
        if !w.members[sid].stopped {
          PlainCarries(w.routes, w.members[sid].sess, 0, {}, sid, w.now, ttl);
          CarriedRouted(w, w', sid);
        }
      case Tick(_) => TickRouted(w, w');
      case Open(sid) => SameSessRouted(w, w', sid);
      case Bind(sid, _, _) => SameSessRouted(w, w', sid);
      case Evict(sid) => SameSessRouted(w, w', sid);
      case DropRoute(_) =>
      case Lookup(_) =>
    }
  }

  lemma {:induction false} SameSessRouted(w: World, w': World, sid: SessionID)
    requires Routed(w) && sid in w'.members && w'.now == w.now && w'.routes == w.routes
    requires sid in w.members ==> w'.members[sid].sess == w.members[sid].sess
    requires w.members.Keys <= w'.members.Keys
    requires forall other :: other in w.members && other != sid ==> w'.members[other] == w.members[other]
    ensures Routed(w')
  {
    hide Twin;
    forall id | id in w'.routes ensures RouteOk(w'.members, id, w'.routes[id], w'.now) {
      assert RouteOk(w.members, id, w.routes[id], w.now);
    }
  }

  // ---------------------------------------------------------------- runs

  predicate Legal(w: World, steps: seq<Step>, ttl: int)
    decreases steps
  {
    steps == [] || (Enabled(w, steps[0]) && Legal(Do(w, steps[0], ttl), steps[1..], ttl))
  }

  function Run(w: World, steps: seq<Step>, ttl: int): World
    requires Legal(w, steps, ttl)
    decreases steps
  {
    if steps == [] then w else Run(Do(w, steps[0], ttl), steps[1..], ttl)
  }

  lemma {:induction false} RunInvariants(w: World, steps: seq<Step>, ttl: int)
    requires Consistent(w) && Legal(w, steps, ttl)
    ensures Consistent(Run(w, steps, ttl))
    ensures ttl >= ROUTE_TTL && Routed(w) ==> Routed(Run(w, steps, ttl))
    decreases steps
  {
    hide Consistent, Routed, Do, Enabled;
    if steps != [] {
      StepConsistent(w, steps[0], ttl);
      if ttl >= ROUTE_TTL && Routed(w) { StepRouted(w, steps[0], ttl); }
      RunInvariants(Do(w, steps[0], ttl), steps[1..], ttl);
    }
  }

  // ---------------------------------------------------------------- what every run promises

  /**
   * Whatever the settings: every receipt entry has had a proper life, in one session at most,
   * and every table is right.
   */
  lemma {:induction false} RunLives(steps: seq<Step>, ttl: int, sid: SessionID, id: uint64)
    requires Legal(START, steps, ttl) && sid in Run(START, steps, ttl).members
    ensures var w := Run(START, steps, ttl);
            && Lifecycle(w.members[sid].sess, id)
            && TableRight(w.members[sid].sess)
            && (forall other :: other in w.members ==>
                  Life(w.members[sid].sess, id) == [] || Life(w.members[other].sess, id) == [] || other == sid)
  {
    hide Run, Legal, Lifecycle, TableRight;
    RunInvariants(START, steps, ttl);
    var w := Run(START, steps, ttl);
    assert forall other :: other in w.members ==> MemberOk(w.owner, other, w.members[other]);
  }

  /** Every ID a lookup resolves names a session that has not been stopped and still waits for it. */
  predicate NoneDead(w: World) {
    forall id :: id in w.routes && Resolve(w, id).Some? ==>
      Holds(w, Resolve(w, id).value, id) && !w.members[Resolve(w, id).value].stopped
  }

  lemma {:induction false} RoutedIsSafe(w: World)
    requires Consistent(w) && Routed(w)
    ensures RoutesBacked(w) && NoneDead(w)
  {
    forall id | id in w.routes && Live(w, id)
      ensures Holds(w, w.routes[id].sid, id)
      ensures Reachable(w, w.routes[id].sid) ==> !w.members[w.routes[id].sid].stopped
    {
      assert RouteOk(w.members, id, w.routes[id], w.now);
      assert MemberOk(w.owner, w.routes[id].sid, w.members[w.routes[id].sid]);
      assert Msg(id) in w.members[w.routes[id].sid].sess.pending;
    }
  }

  lemma {:induction false} RunThen(w: World, steps: seq<Step>, step: Step, ttl: int)
    requires Legal(w, steps, ttl) && Enabled(Run(w, steps, ttl), step)
    ensures Legal(w, steps + [step], ttl) && Run(w, steps + [step], ttl) == Do(Run(w, steps, ttl), step, ttl)
    decreases steps
  {
    hide Do, Enabled;
    if steps == [] {
      assert [] + [step] == [step] && [step][1..] == [];
    } else {
      assert (steps + [step])[1..] == steps[1..] + [step];
      RunThen(Do(w, steps[0], ttl), steps[1..], step, ttl);
    }
  }

  const FIRST := Submission([], 1, false, true)

  /** A bound session has just been sent message 1, which asks for receipts. */
  const WAITING := World(
    map[[] := Member(Sess(map[Msg(1) := PendingRequest(1, 1, 0)], map[[] := 1], [FIRST], map[1 := [Stored(1)]]),
                     true, true, false, true)],
    map[1 := Route([], 0)], map[1 := []], 0)

  const BOUND := World(map[[] := Member(FRESH, true, true, false, true)], map[], map[], 0)

  lemma {:induction false} BoundSubmits(ttl: int)
    ensures Do(BOUND, SubmitSm([], FIRST, Some((1, 1))), ttl) == WAITING
  {
    var entry := Some(PendingRequest(1, 1, 0));
    var after := Submit(FRESH, FIRST, entry);
    assert after.pending == map[Msg(1) := PendingRequest(1, 1, 0)];
    assert after.last == map[[] := 1];
    assert after.submissions == [FIRST];
    assert [] + [Stored(1)] == [Stored(1)] && after.lives[1] == [Stored(1)];
    assert after.lives == map[1 := [Stored(1)]];
    assert SubmitRoutes(map[], FRESH, FIRST, entry, [], 0) == map[1 := Route([], 0)];
  }

  lemma {:induction false} ReachWaiting(ttl: int) returns (steps: seq<Step>)
    ensures Legal(START, steps, ttl) && Run(START, steps, ttl) == WAITING
  {
    steps := [];
    RunThen(START, steps, Open([]), ttl);
    steps := steps + [Open([])];
    RunThen(START, steps, Bind([], true, true), ttl);
    steps := steps + [Bind([], true, true)];
    hide Run, Legal;
    assert Run(START, steps, ttl) == BOUND;
    RunThen(START, steps, SubmitSm([], FIRST, Some((1, 1))), ttl);
    steps := steps + [SubmitSm([], FIRST, Some((1, 1)))];
    BoundSubmits(ttl);
  }

  /**
   * The sweep takes the entry of message 1 and leaves its route; the session can then stop
   * without unregistering it.
   */
  lemma {:induction false} SweptWaiting(ttl: int, now: nat)
    requires ttl <= now < ROUTE_TTL
    ensures var swept := Do(WAITING.(now := now), TtlSweep([], {Msg(1)}), ttl);
            !RoutesBacked(swept) && !NoneDead(Do(swept, StopSession([]), ttl))
  {
    var swept := Do(WAITING.(now := now), TtlSweep([], {Msg(1)}), ttl);
    var m := swept.members[[]];
    assert m.sess.pending == map[];
    assert Live(swept, 1) && !Holds(swept, [], 1);
    var dead := Do(swept, StopSession([]), ttl);
    assert StopRoutes(swept.routes, m.sess) == swept.routes;
    hide Sweep, Stop;
    assert 1 in dead.routes && Resolve(dead, 1) == Some([]) && dead.members[[]].stopped;
  }

  lemma {:induction false} EarlySweepBreaks(ttl: int) returns (steps: seq<Step>, more: seq<Step>)
    requires ttl < ROUTE_TTL
    ensures Legal(START, steps, ttl) && !RoutesBacked(Run(START, steps, ttl))
    ensures Legal(START, more, ttl) && !NoneDead(Run(START, more, ttl))
  {
    hide Run, Legal, RoutesBacked, NoneDead, Sweep, Stop, StopRoutes;
    var now: nat := if ttl < 0 then 0 else ttl;
    SweptWaiting(ttl, now);
    steps := ReachWaiting(ttl);
    RunThen(START, steps, Tick(now), ttl);
    steps := steps + [Tick(now)];
    RunThen(START, steps, TtlSweep([], {Msg(1)}), ttl);
    steps := steps + [TtlSweep([], {Msg(1)})];
    RunThen(START, steps, StopSession([]), ttl);
    more := steps + [StopSession([])];
  }

  lemma {:induction false} StartOk()
    ensures Consistent(START) && Routed(START)
  {
  }

  /** Routing is safe over all runs exactly when pending entries live at least as long as routes. */
  lemma {:induction false} RoutingSafe(ttl: int)
    ensures (forall steps :: Legal(START, steps, ttl) ==> RoutesBacked(Run(START, steps, ttl))) <==> ttl >= ROUTE_TTL
    ensures (forall steps :: Legal(START, steps, ttl) ==> NoneDead(Run(START, steps, ttl))) <==> ttl >= ROUTE_TTL
  {
    hide *;
    if ttl >= ROUTE_TTL {
      StartOk();
      forall steps | Legal(START, steps, ttl)
        ensures RoutesBacked(Run(START, steps, ttl)) && NoneDead(Run(START, steps, ttl))
      {
        RunInvariants(START, steps, ttl);
        RoutedIsSafe(Run(START, steps, ttl));
      }
    } else {
      var steps, more := EarlySweepBreaks(ttl);
    }
  }

  /**
   * After any run, a replacing submit leaves no session with an entry for the message it
   * supersedes and, if pending entries outlive routes, no lookup that finds one; if it was
   * accepted it is now the one to be superseded.
   */
  lemma {:induction false} SupersededIsUnroutable(steps: seq<Step>, ttl: int, step: Step, other: SessionID)
      returns (earlier: uint64)
    requires Legal(START, steps, ttl) && step.SubmitSm? && Enabled(Run(START, steps, ttl), step)
    requires step.sub.replacing && step.sub.key in Run(START, steps, ttl).members[step.sid].sess.last
    ensures earlier == Run(START, steps, ttl).members[step.sid].sess.last[step.sub.key]
    ensures var after := Do(Run(START, steps, ttl), step, ttl);
            && !Holds(after, other, earlier)
            && (ttl >= ROUTE_TTL ==> Resolve(after, earlier) == None)
            && var last := after.members[step.sid].sess.last;
               if step.sub.accepted && step.sub.id != 0 then step.sub.key in last && last[step.sub.key] == step.sub.id
               else step.sub.key !in last
  {
    hide Run, Legal, Lifecycle, TableRight, Submit, SubmitRoutes;
    var w := Run(START, steps, ttl);
    var s := w.members[step.sid].sess;
    earlier := s.last[step.sub.key];
    RunInvariants(START, steps, ttl);
    assert MemberOk(w.owner, step.sid, w.members[step.sid]);
    assert Owned(w.owner, step.sid, earlier) && earlier != step.sub.id;
    SupersededIsGone(s, step.sub, Entry(w, step.wants));
    StepConsistent(w, step, ttl);
    var after := Do(w, step, ttl);
    assert !Holds(after, step.sid, earlier);
    forall sid | Holds(after, sid, earlier) ensures false {
      assert MemberOk(after.owner, sid, after.members[sid]);
      OwnsEntries(after.owner, sid, after.members[sid].sess, earlier);
    }
    if ttl >= ROUTE_TTL {
      StepRouted(w, step, ttl);
      RoutedIsSafe(after);
    }
  }

  /** What can end an entry: nothing else does, least of all a response with a numerically equal sequence number. */
  predicate Ends(w: World, step: Step, ttl: int, sid: SessionID, id: uint64)
    requires Holds(w, sid, id) && Enabled(w, step)
  {
    var s := w.members[sid].sess;
    var entry := s.pending[Msg(id)];
    match step
    case SubmitSm(actor, sub, _) => actor == sid && sub.replacing && sub.key in s.last && s.last[sub.key] == id
    case DeliveryReport(actor, reported, success, _, attempt) =>
      actor == sid && reported == id && (!ShouldSend(entry.octet, success) || attempt == Enqueued)
    case TtlSweep(actor, seen) => actor == sid && Msg(id) in seen && Expired(entry, w.now, ttl)
    case StopSession(actor) => actor == sid && !w.members[sid].stopped
    case _ => false
  }

  /** An entry leaves its session exactly then; otherwise it stays as it is. */
  lemma {:induction false} EntryLeaves(w: World, step: Step, ttl: int, sid: SessionID, id: uint64)
    requires Consistent(w) && Enabled(w, step) && Holds(w, sid, id)
    ensures !Holds(Do(w, step, ttl), sid, id) <==> Ends(w, step, ttl, sid, id)
    ensures Holds(Do(w, step, ttl), sid, id) ==>
              Do(w, step, ttl).members[sid].sess.pending[Msg(id)] == w.members[sid].sess.pending[Msg(id)]
  {
    hide AllLives, TableRight, Submit, SubmitRoutes, Report, ReportRoutes, StopRoutes, Sweep, OwnsAll;
    var s := w.members[sid].sess;
    assert MemberOk(w.owner, sid, w.members[sid]);
    OwnsEntries(w.owner, sid, s, id);
    match step {
      case SubmitSm(actor, sub, wants) =>
        assert sub.id != id;
        SubmitEnds(s, sub, Entry(w, wants), id);
      case DeliveryReport(_, reported, success, n, attempt) => ReportEnds(s, reported, success, n, attempt, w.now, id);
      case TtlSweep(_, seen) => SweepEnds(s, seen, w.now, ttl, id);
      case _ =>
    }
  }

  lemma {:induction false} ReportEnds(s: Sess, reported: uint64, success: bool, n: uint32, attempt: Attempt, now: int,
      id: uint64)
    requires Msg(id) in s.pending
    ensures var after := Report(s, reported, success, n, attempt, now);
            && (Msg(id) !in after.pending <==>
                reported == id && (!ShouldSend(s.pending[Msg(id)].octet, success) || attempt == Enqueued))
            && (Msg(id) in after.pending ==> after.pending[Msg(id)] == s.pending[Msg(id)])
  {
  }

  lemma {:induction false} SweepEnds(s: Sess, seen: set<PendingKey>, now: int, ttl: int, id: uint64)
    requires Msg(id) in s.pending
    ensures Msg(id) !in Sweep(s, seen, now, ttl).pending <==> Msg(id) in seen && Expired(s.pending[Msg(id)], now, ttl)
    ensures Msg(id) in Sweep(s, seen, now, ttl).pending ==>
              Sweep(s, seen, now, ttl).pending[Msg(id)] == s.pending[Msg(id)]
  {
  }

  lemma {:induction false} SubmitEnds(s: Sess, sub: Submission, entry: Option<PendingRequest>, id: uint64)
    requires Msg(id) in s.pending && sub.id != id
    ensures Msg(id) !in Submit(s, sub, entry).pending <==> sub.replacing && sub.key in s.last && s.last[sub.key] == id
    ensures Msg(id) in Submit(s, sub, entry).pending ==> Submit(s, sub, entry).pending[Msg(id)] == s.pending[Msg(id)]
  {
  }

  function QueuedIn(h: seq<Event>): nat {
    if h == [] then 0 else (if h[0].Queued? then 1 else 0) + QueuedIn(h[1..])
  }

  lemma {:induction false} LifecycleQueuesOnce(s: Sess, id: uint64)
    requires Lifecycle(s, id)
    ensures QueuedIn(Life(s, id)) <= 1
    ensures QueuedIn(Life(s, id)) == 1 ==>
              && Msg(id) !in s.pending && |Life(s, id)| == 3
              && Life(s, id)[0].Stored? && Life(s, id)[1].Queued?
              && ShouldSend(Life(s, id)[0].octet, Life(s, id)[1].success)
  {
    var h := Life(s, id);
    if |h| == 1 {
      assert h[1..] == [];
    } else if |h| == 2 {
      assert h[1..] == [h[1]] && QueuedIn([h[1]]) == QueuedIn([h[1]][1..]) && [h[1]][1..] == [];
    } else if |h| == 3 {
      assert h[1..] == [h[1], h[2]] && [h[1], h[2]][1..] == [h[2]] && [h[2]][1..] == [];
      assert QueuedIn([h[2]]) == 0;
    }
  }

  /**
   * Over any run at most one receipt is queued for a message, only for an outcome its policy
   * asks for, and then the entry is gone.
   */
  lemma {:induction false} AtMostOneReceipt(steps: seq<Step>, ttl: int, sid: SessionID, id: uint64)
    requires Legal(START, steps, ttl) && sid in Run(START, steps, ttl).members
    ensures var s := Run(START, steps, ttl).members[sid].sess;
            var h := Life(s, id);
            && QueuedIn(h) <= 1
            && (QueuedIn(h) == 1 ==>
                  && Msg(id) !in s.pending && |h| == 3
                  && h[0].Stored? && h[1].Queued? && ShouldSend(h[0].octet, h[1].success))
  {
    hide *;
    RunLives(steps, ttl, sid, id);
    LifecycleQueuesOnce(Run(START, steps, ttl).members[sid].sess, id);
  }
}

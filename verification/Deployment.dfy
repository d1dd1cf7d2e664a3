/**
 * The objects together: one controller and all its sessions are a routing world, every
 * method call on them is one of its steps, and so its safety is theirs.
 */
module Deployments {
  import opened Base
  import opened Correlation
  import opened Sessions
  import opened SegmentStore
  import Routing
  import O = Outgoing
  import Q = Sequence
  import B = Billing

  /** What holds of a world at every moment of a legal run. */
  ghost predicate Sound(w: Routing.World, ttl: int) {
    Routing.Consistent(w) && (ttl >= Routing.ROUTE_TTL ==> Routing.Routed(w))
  }

  /** The second world is the first after one enabled step. */
  predicate IsStep(w: Routing.World, step: Routing.Step, ttl: int, after: Routing.World) {
    Routing.Enabled(w, step) && after == Routing.Do(w, step, ttl)
  }

  lemma {:induction false} StepSound(w: Routing.World, step: Routing.Step, ttl: int, after: Routing.World)
    requires Sound(w, ttl) && IsStep(w, step, ttl, after)
    ensures Sound(after, ttl)
  {
    hide Routing.Consistent, Routing.Routed, Routing.Enabled, Routing.Do;
    Routing.StepConsistent(w, step, ttl);
    if ttl >= Routing.ROUTE_TTL {
      Routing.StepRouted(w, step, ttl);
    }
  }

  /** The second world is the first after a legal run. */
  predicate IsRun(w: Routing.World, steps: seq<Routing.Step>, ttl: int, after: Routing.World) {
    Routing.Legal(w, steps, ttl) && after == Routing.Run(w, steps, ttl)
  }

  /** A world in which one member, the routes and the owners have changed. */
  function With(w: Routing.World, sid: SessionID, m: Routing.Member, routes: Routes, owner: Routing.Owners)
    : Routing.World
  {
    Routing.World(w.members[sid := m], routes, owner, w.now)
  }

  class Deployment {
    const controller: SessController
    const ttl: int  // PendingRequestTtl

    ghost var all: map<SessionID, Session>  // every session there has been, also those the cache has let go
    ghost var owner: Routing.Owners
    var now: int

    constructor (controller: SessController, ttl: int)
      requires controller.messageIDCache == map[] && controller.sessions == map[]
      ensures this.controller == controller && this.ttl == ttl
      ensures Wired() && World() == Routing.START && Sound(World(), ttl)
    {
      this.controller, this.ttl := controller, ttl;
      all, owner, now := map[], map[], 0;
      new;
      Routing.StartOk();
    }

    /** Sessions know their controller and go by their own ID; the cache holds some of them. */
    ghost predicate Wired()
      reads this, controller, all.Values
    {
      && (forall sid :: sid in all ==>
            all[sid].id == sid && all[sid].controller == controller && O.Conserved(all[sid].Link()))
      && (forall sid :: sid in controller.sessions ==> sid in all && controller.sessions[sid] == all[sid])
    }

    ghost predicate Has(s: Session)
      reads this
    {
      s.id in all && all[s.id] == s
    }

    ghost function Member(s: Session): Routing.Member
      reads s, controller`sessions
    {
      Routing.Member(s.Corr(), s.bound, IsReceiver(s.bindingType), s.stopped, s.id in controller.sessions)
    }

    ghost function World(): Routing.World
      reads this, controller, all.Values
    {
      Routing.World(Members(), controller.messageIDCache, owner, now)
    }

    lemma {:induction false} WorldAt(s: Session)
      requires Wired() && Has(s)
      ensures s.id in World().members && World().members[s.id] == Member(s)
      ensures World().members[s.id].cached <==> s.id in controller.sessions
      ensures World().routes == controller.messageIDCache && World().owner == owner && World().now == now
      ensures s.controller == controller && O.Conserved(s.Link())
      ensures s.id in controller.sessions ==> controller.sessions[s.id] == s
      ensures forall sid :: sid in all && sid != s.id ==> all[sid] != s
    {
    }

    ghost function Members(): map<SessionID, Routing.Member>
      reads this, controller, all.Values
    {
      map sid | sid in all :: Member(all[sid])
    }

    twostate lemma OtherMembers(s: Session)
      requires all == old(all) && old(Has(s))
      requires forall sid :: sid in all && sid != s.id ==> unchanged(all[sid]) && all[sid].id == sid
      requires controller.sessions == old(controller.sessions) ||
               controller.sessions == old(controller.sessions) - {s.id}
      ensures Members() == old(Members())[s.id := Member(s)]
    {
      forall sid | sid in all && sid != s.id ensures Member(all[sid]) == old(Member(all[sid])) {
      }
      hide Member;
    }

    /** When a call has touched one session and the controller, only that member of the world differs. */
    twostate lemma OnlyActor(s: Session)
      requires old(Wired()) && old(Has(s)) && all == old(all) && now == old(now)
      requires forall sid :: sid in all && sid != s.id ==> unchanged(all[sid])
      requires O.Conserved(s.Link())
      requires controller.sessions == old(controller.sessions) ||
               controller.sessions == old(controller.sessions) - {s.id}
      ensures Wired() && Has(s)
      ensures World() == With(old(World()), s.id, Member(s), controller.messageIDCache, owner)
    {
      hide O.Conserved, Member, Members;
      OtherMembers(s);
    }

    twostate lemma JoinedMembers(s: Session)
      requires s.id !in old(all) && all == old(all)[s.id := s]
      requires forall sid :: sid in old(all) ==> unchanged(all[sid]) && all[sid].id == sid
      requires controller.sessions == old(controller.sessions)[s.id := s]
      ensures Members() == old(Members())[s.id := Member(s)]
    {
      forall sid | sid in old(all) ensures Member(all[sid]) == old(Member(all[sid])) {
      }
      hide Member;
    }

    twostate lemma Joined(s: Session)
      requires old(Wired()) && s.id !in old(all) && all == old(all)[s.id := s] && now == old(now) && owner == old(owner)
      requires forall sid :: sid in old(all) ==> unchanged(all[sid])
      requires controller.sessions == old(controller.sessions)[s.id := s]
      requires controller.messageIDCache == old(controller.messageIDCache)
      requires s.controller == controller && O.Conserved(s.Link())
      ensures Wired() && Has(s)
      ensures World() == With(old(World()), s.id, Member(s), old(World()).routes, owner)
      ensures s.id !in old(World()).members && old(World()).owner == owner
    {
      hide O.Conserved, Member;
      JoinedMembers(s);
    }

    // -------------------------------------------------------------- each call is a step

    /** What a submit would be decided as now. */
    ghost function Decided(s: Session, p: SubmitParams, gen: Option<uint64>, decode: Decoder,
        verdict: Option<uint32>): Decision
      requires s.Valid()
      reads s, s.segmentsMgr, s.segmentsMgr.shards, s.segmentsMgr.repr
    {
      Decide(s.segmentsMgr.flat, s.segmentsMgr.maxSegments, gen, p, decode, verdict)
    }

    /** The submit itself: only one member of the world can differ, and by the effect of the decision. */
    method CallSubmitSM(s: Session, p: SubmitParams, gen: Option<uint64>, decode: Decoder, verdict: Option<uint32>)
      returns (messageID: uint64, status: uint32, failed: bool)
      requires Wired() && Has(s) && s.Valid()
      modifies this`owner, s, controller`messageIDCache, s.segmentsMgr, s.segmentsMgr.shards, s.segmentsMgr.repr
      ensures fresh(s.segmentsMgr.repr - old(s.segmentsMgr.repr))
      ensures Wired() && s.Valid() && Answers(old(Decided(s, p, gen, decode, verdict)), messageID, status, failed)
      ensures World() == With(old(World()), s.id, Member(s), controller.messageIDCache, owner)
      ensures Member(s) == old(Member(s)).(sess := s.Corr())
      ensures owner == OwnerAfter(old(Decided(s, p, gen, decode, verdict)), s.id, old(owner))
      ensures Effect(old(Decided(s, p, gen, decode, verdict)), p, s.id, now,
                     old(s.Corr()), old(controller.messageIDCache), s.Corr(), controller.messageIDCache)
    {
      hide World, Wired, Decide, Effect, Answers, OwnerAfter, O.Conserved, SegmentsManager.Valid;
      WorldAt(s);
      ghost var d := Decided(s, p, gen, decode, verdict);
      messageID, status, failed := s.HandleSubmitSM(p, gen, decode, verdict, now);
      owner := OwnerAfter(d, s.id, owner);
      OnlyActor(s);
    }

    /** A submit that is handled is a SubmitSm step; one that is refused or held is no step. */
    method HandleSubmitSM(s: Session, p: SubmitParams, gen: Option<uint64>, decode: Decoder, verdict: Option<uint32>)
      returns (messageID: uint64, status: uint32, failed: bool)
      requires Wired() && Has(s) && s.Valid() && Sound(World(), ttl)
      requires !s.stopped || s.id !in controller.sessions
      requires Decided(s, p, gen, decode, verdict).Handled? ==> Decided(s, p, gen, decode, verdict).sub.id !in owner
      modifies this`owner, s, controller`messageIDCache, s.segmentsMgr, s.segmentsMgr.shards, s.segmentsMgr.repr
      ensures Wired() && s.Valid() && Sound(World(), ttl)
      ensures fresh(s.segmentsMgr.repr - old(s.segmentsMgr.repr))
      ensures Answers(old(Decided(s, p, gen, decode, verdict)), messageID, status, failed)
      ensures SubmitOutcome(old(World()), s.id, old(Decided(s, p, gen, decode, verdict)), p, ttl, World())
    {
      hide Sound, World, Wired, Decided, SubmitOutcome, Effect, Answers, Session.Valid, Session.Corr;
      WorldAt(s);
      ghost var w, d := World(), Decided(s, p, gen, decode, verdict);
      messageID, status, failed := CallSubmitSM(s, p, gen, decode, verdict);
      OutcomeOf(w, s.id, Member(s), controller.messageIDCache, d, p, ttl, World());
    }

    /** A new session enters the cache. */
    method Open(s: Session)
      requires Wired() && Sound(World(), ttl) && s.id !in all
      requires s.controller == controller && s.Corr() == FRESH && !s.bound && !s.stopped && O.Conserved(s.Link())
      requires !IsReceiver(s.bindingType)
      modifies this`all, controller`sessions
      ensures Wired() && Has(s) && Sound(World(), ttl)
      ensures IsStep(old(World()), Routing.Open(s.id), ttl, World())
    {
      hide Sound, IsStep, World, Wired, With, Session.Corr, O.Conserved;
      ghost var w := World();
      controller.InitializeSession(s);
      all := all[s.id := s];
      Joined(s);
      OpenIs(w, s.id, ttl);
    }

    /** A bind of a bound session, or one the handler objects to, is no step. */
    method HandleBindRequest(s: Session, bindType: BindingType, command: uint32, n: uint32, error: bool, status: uint32)
      returns (answer: uint32)
      requires Wired() && Has(s) && Sound(World(), ttl)
      modifies s`bound, s`bindingType, s`pduQueue, s`accepted
      ensures Wired() && Sound(World(), ttl)
      ensures if old(s.bound) || error then World() == old(World())
              else IsStep(old(World()), Routing.Bind(s.id, IsReceiver(bindType), status == STATUS_OK), ttl, World())
    {
      hide Sound, IsStep, World, Wired, With, O.Conserved, O.Do;
      WorldAt(s);
      ghost var w := World();
      answer := s.HandleBindRequest(bindType, command, n, error, status);
      OnlyActor(s);
      BindIs(w, s.id, Member(s), IsReceiver(bindType), error, status == STATUS_OK, ttl);
    }

    /** A deliver_sm that gets as far as its sequence number is a Push step; any other is no step. */
    method SendDeliverSM(server: Server, s: Session, message: bytes, isReceipt: bool, cancelled: bool)
      returns (result: DeliverResult)
      requires Wired() && Has(s) && Sound(World(), ttl) && server.controller == controller
      modifies s`sequenceNumber, s`pendingRequests, s`pduQueue, s`accepted
      ensures Wired() && Sound(World(), ttl)
      ensures if old(Member(s)).CanReceive() && !cancelled
              then IsStep(old(World()), Routing.Push(s.id, Q.NextSequence(old(s.sequenceNumber))), ttl, World())
              else World() == old(World())
    {
      hide Sound, IsStep, World, Wired, With, O.Conserved, O.Do, Await;
      WorldAt(s);
      ghost var w := World();
      assert server.CanDeliver(s.id) <==> Member(s).CanReceive();
      result := server.SendDeliverSM(s.id, message, isReceipt, cancelled, now);
      OnlyActor(s);
      PushIs(w, s.id, Member(s), Q.NextSequence(old(s.sequenceNumber)), ttl);
    }

    /** Time passes. */
    method Wait(span: nat)
      requires Wired() && Sound(World(), ttl)
      modifies this`now
      ensures Wired() && Sound(World(), ttl) && now == old(now) + span
      ensures IsStep(old(World()), Routing.Tick(span), ttl, World())
    {
      hide O.Conserved, Sound, Session.Corr;
      ghost var w := World();
      now := now + span;
      assert Members() == w.members;
      StepSound(w, Routing.Tick(span), ttl, World());
    }

    method CallStop(s: Session)
      requires Wired() && Has(s) && s.Valid()
      modifies s, controller`messageIDCache, s.segmentsMgr, s.segmentsMgr.shards
      ensures Wired() && s.Valid()
      ensures World() == With(old(World()), s.id, Member(s), controller.messageIDCache, owner)
      ensures StopEffect(old(Member(s)), old(controller.messageIDCache), Member(s), controller.messageIDCache)
    {
      hide World, Wired, With, O.Conserved, SegmentsManager.Valid, Correlation.Stop, StopRoutes;
      WorldAt(s);
      s.Stop();
      OnlyActor(s);
    }

    method Stop(s: Session)
      requires Wired() && Has(s) && s.Valid() && Sound(World(), ttl)
      modifies s, controller`messageIDCache, s.segmentsMgr, s.segmentsMgr.shards
      ensures Wired() && s.Valid() && Sound(World(), ttl)
      ensures IsStep(old(World()), Routing.StopSession(s.id), ttl, World())
    {
      hide Sound, IsStep, World, Wired, With, StopEffect, Member, Session.Valid;
      WorldAt(s);
      ghost var w := World();
      CallStop(s);
      StopIs(w, s.id, Member(s), controller.messageIDCache, ttl);
    }

    /** The sweep of a session that is not bound is no step. */
    method SweepPendingRequests(s: Session, boundFor: nat) returns (ghost seen: set<PendingKey>)
      requires Wired() && Has(s) && Sound(World(), ttl)
      modifies s`pendingRequests, s`lives
      ensures Wired() && Sound(World(), ttl)
      ensures if old(s.bound) then IsStep(old(World()), Routing.TtlSweep(s.id, seen), ttl, World())
              else World() == old(World())
      ensures s.bound && boundFor >= |old(s.pendingRequests).Keys| ==> seen == old(s.pendingRequests).Keys
    {
      hide Sound, IsStep, World, Wired, O.Conserved, Sweep;
      WorldAt(s);
      ghost var w := World();
      seen := s.SweepPendingRequests(now, ttl, boundFor);
      OnlyActor(s);
      SweepIs(w, s.id, Member(s), seen, ttl);
    }

    method ProcessResponse(s: Session, kind: ResponseKind, n: uint32)
      requires Wired() && Has(s) && Sound(World(), ttl)
      modifies s`pendingRequests, s`enquireRetryCount, s`unanswered
      ensures Wired() && Sound(World(), ttl)
      ensures IsStep(old(World()), Routing.Response(s.id, n), ttl, World())
    {
      hide Sound, IsStep, World, Wired, O.Conserved, Respond;
      WorldAt(s);
      ghost var w := World();
      s.ProcessResponse(kind, n);
      OnlyActor(s);
      ResponseIs(w, s.id, Member(s), n, ttl);
    }

    /** The step that a report to a session is. */
    ghost function ReportStep(s: Session, server: Server, id: uint64, success: bool, cancelled: bool): Routing.Step
      reads s
    {
      Routing.DeliveryReport(s.id, id, success, Q.NextSequence(s.sequenceNumber), server.AttemptIn(s, cancelled))
    }

    method CallReport(server: Server, s: Session, id: uint64, body: bytes, success: bool, cancelled: bool)
      returns (result: ReportResult)
      requires Wired() && Has(s) && server.controller == controller
      modifies controller`messageIDCache, s
      ensures Wired() && (!old(Member(s)).CanReceive() ==> result == SkippedClosed)
      ensures World() == With(old(World()), s.id, Member(s), controller.messageIDCache, owner)
      ensures ReportEffect(old(Member(s)), old(controller.messageIDCache), Member(s), controller.messageIDCache,
                           old(ReportStep(s, server, id, success, cancelled)), now)
    {
      hide World, Wired, With, O.Conserved, O.Do, Report, ReportRoutes;
      WorldAt(s);
      assert server.CanDeliver(s.id) <==> Member(s).CanReceive();
      result := server.SendDeliveryReport(s.id, id, body, success, cancelled, now);
      OnlyActor(s);
    }

    /** A report that finds its session able to receive is a DeliveryReport step; any other is no step. */
    method SendDeliveryReport(server: Server, s: Session, id: uint64, body: bytes, success: bool, cancelled: bool)
      returns (result: ReportResult)
      requires Wired() && Has(s) && Sound(World(), ttl) && server.controller == controller
      modifies controller`messageIDCache, s
      ensures Wired() && Sound(World(), ttl)
      ensures if old(Member(s)).CanReceive()
              then IsStep(old(World()), old(ReportStep(s, server, id, success, cancelled)), ttl, World())
              else World() == old(World()) && result == SkippedClosed
    {
      hide Sound, IsStep, World, Wired, With, ReportEffect, Member;
      WorldAt(s);
      ghost var w, step := World(), ReportStep(s, server, id, success, cancelled);
      result := CallReport(server, s, id, body, success, cancelled);
      ReportIs(w, s.id, Member(s), controller.messageIDCache, step, ttl);
    }

    /** An enquire_link that gets as far as its sequence number is a Push step; at the retry limit there is none. */
    method SendEnquireLinkReq(s: Session) returns (sent: bool)
      requires Wired() && Has(s) && Sound(World(), ttl)
      modifies s`sequenceNumber, s`pendingRequests, s`pduQueue, s`accepted, s`enquireRetryCount, s`unanswered
      ensures Wired() && Sound(World(), ttl)
      ensures if old(s.enquireRetryCount) < controller.maxEnquireLinkRetry
              then IsStep(old(World()), Routing.Push(s.id, Q.NextSequence(old(s.sequenceNumber))), ttl, World())
              else World() == old(World())
    {
      hide Sound, IsStep, World, Wired, With, O.Conserved, O.Do, Await;
      WorldAt(s);
      ghost var w := World();
      sent := s.SendEnquireLinkReq(now);
      OnlyActor(s);
      PushIs(w, s.id, Member(s), Q.NextSequence(old(s.sequenceNumber)), ttl);
    }

    /** The steps of a check: nothing for an active session, else an enquire_link, an eviction, or both. */
    ghost function CheckSteps(s: Session, lastActivity: int): seq<Routing.Step>
      reads this, s
    {
      if now - lastActivity < controller.inactivityTimeout then []
      else if s.enquireRetryCount >= controller.maxEnquireLinkRetry then [Routing.Evict(s.id)]
      else [Routing.Push(s.id, Q.NextSequence(s.sequenceNumber))] + if s.CanQueue() then [] else [Routing.Evict(s.id)]
    }

    method CallCheck(s: Session, lastActivity: int)
      requires Wired() && Has(s) && s.Valid() && s.id in controller.sessions
      modifies controller`sessions, s`sequenceNumber, s`pendingRequests, s`pduQueue, s`accepted,
               s`enquireRetryCount, s`unanswered
      ensures Wired() && s.Valid()
      ensures World() == With(old(World()), s.id, Member(s), controller.messageIDCache, owner)
      ensures controller.messageIDCache == old(controller.messageIDCache) && owner == old(owner)
      ensures CheckEffect(old(Member(s)), Member(s), s.id, old(CheckSteps(s, lastActivity)), now)
    {
      hide World, Wired, With, O.Conserved, O.Do, Await, SegmentsManager.Valid;
      WorldAt(s);
      controller.CheckSessionInactivity(s, lastActivity, now);
      OnlyActor(s);
    }

    /** A check of a cached session is a short legal run: none, one or two steps. */
    method CheckSessionInactivity(s: Session, lastActivity: int)
      requires Wired() && Has(s) && s.Valid() && s.id in controller.sessions && Sound(World(), ttl)
      modifies controller`sessions, s`sequenceNumber, s`pendingRequests, s`pduQueue, s`accepted,
               s`enquireRetryCount, s`unanswered
      ensures Wired() && s.Valid() && Sound(World(), ttl)
      ensures IsRun(old(World()), old(CheckSteps(s, lastActivity)), ttl, World())
    {
      hide Sound, IsRun, World, Wired, With, CheckEffect, Member, Session.Valid;
      WorldAt(s);
      ghost var w, steps := World(), CheckSteps(s, lastActivity);
      CallCheck(s, lastActivity);
      CheckIs(w, s.id, Member(s), steps, ttl);
    }

    /** The session stays, out of the cache, until its Stop. */
    method DeleteSession(s: Session)
      requires Wired() && Has(s) && Sound(World(), ttl)
      modifies controller`sessions
      ensures Wired() && Sound(World(), ttl)
      ensures IsStep(old(World()), Routing.Evict(s.id), ttl, World())
    {
      hide Sound, IsStep, World, Wired, O.Conserved;
      WorldAt(s);
      ghost var w := World();
      controller.DeleteSession(s.id);
      OnlyActor(s);
      EvictIs(w, s.id, Member(s), ttl);
    }

    method CallLookup(id: uint64) returns (session: Session?)
      requires Wired()
      modifies controller`messageIDCache
      ensures Wired() && World() == old(World()).(routes := controller.messageIDCache)
      ensures session != null ==> Has(session) && World().members[session.id] == Member(session)
      ensures LookupEffect(old(World()), id, controller.messageIDCache,
                           if session == null then None else Some(session.id))
    {
      hide O.Conserved, Session.Corr;
      session := controller.GetSessionByMessageID(id, now);
      assert Members() == old(Members());
    }

    /**
     * A lookup is a Lookup step, and with a sufficient TTL the session it returns has not
     * been stopped and waits for the message.
     */
    method GetSessionByMessageID(id: uint64) returns (session: Session?)
      requires Wired() && Sound(World(), ttl)
      modifies controller`messageIDCache
      ensures Wired() && Sound(World(), ttl)
      ensures IsStep(old(World()), Routing.Lookup(id), ttl, World())
      ensures session != null ==> Has(session) && Routing.Resolve(old(World()), id) == Some(session.id)
      ensures session != null && ttl >= Routing.ROUTE_TTL ==> !session.stopped && Msg(id) in session.pendingRequests
    {
      hide Sound, IsStep, World, Wired, LookupEffect, Routing.Resolve;
      ghost var w := World();
      session := CallLookup(id);
      LookupIs(w, id, controller.messageIDCache, if session == null then None else Some(session.id), ttl);
    }
  }

  function OwnerAfter(d: Decision, sid: SessionID, owner: Routing.Owners): Routing.Owners {
    if d.Handled? then owner[d.sub.id := sid] else owner
  }

  /** A handled submit is one step, any other none. */
  ghost predicate SubmitOutcome(w: Routing.World, sid: SessionID, d: Decision, p: SubmitParams, ttl: int,
                                after: Routing.World)
  {
    match d
    case Refused(_, _) => after == w
    case Held(_) => after == w
    case Handled(sub, text, receipt, _) => IsStep(w, Routing.SubmitSm(sid, sub, Wants(p, text, receipt)), ttl, after)
  }

  /** The step's way of saying which entry a submit leaves. */
  function Wants(p: SubmitParams, text: seq<rune>, receipt: bool): Option<(uint8, uint8)> {
    match EntryFor(p, text, receipt, 0)
    case None => None
    case Some(entry) => Some((entry.segments, entry.octet))
  }

  lemma {:induction false} OutcomeOf(w: Routing.World, sid: SessionID, m: Routing.Member, routes: Routes, d: Decision,
                                     p: SubmitParams, ttl: int, after: Routing.World)
    requires Sound(w, ttl) && sid in w.members && (!w.members[sid].stopped || !w.members[sid].cached)
    requires d.Handled? ==> d.sub.id !in w.owner
    requires m == w.members[sid].(sess := m.sess)
    requires Effect(d, p, sid, w.now, w.members[sid].sess, w.routes, m.sess, routes)
    requires after == With(w, sid, m, routes, OwnerAfter(d, sid, w.owner))
    ensures SubmitOutcome(w, sid, d, p, ttl, after) && Sound(after, ttl)
  {
    hide Submit, SubmitRoutes, Sound, B.Bill;
    if d.Handled? {
      var step := Routing.SubmitSm(sid, d.sub, Wants(p, d.text, d.receipt));
      assert Routing.Entry(w, step.wants) == EntryFor(p, d.text, d.receipt, w.now);
      StepSound(w, step, ttl, after);
    } else {
      assert w.members[sid := w.members[sid]] == w.members;
    }
  }

  predicate StopEffect(m: Routing.Member, routes: Routes, after: Routing.Member, routesAfter: Routes) {
    if m.stopped then after == m && routesAfter == routes
    else
      && after == m.(sess := Correlation.Stop(m.sess), bound := false, stopped := true)
      && routesAfter == StopRoutes(routes, m.sess)
  }

  lemma {:induction false} StopIs(w: Routing.World, sid: SessionID, m: Routing.Member, routes: Routes, ttl: int)
    requires Sound(w, ttl) && sid in w.members
    requires StopEffect(w.members[sid], w.routes, m, routes)
    ensures IsStep(w, Routing.StopSession(sid), ttl, With(w, sid, m, routes, w.owner))
    ensures Sound(With(w, sid, m, routes, w.owner), ttl)
  {
    hide Sound, Correlation.Stop, StopRoutes;
    assert w.members[sid := w.members[sid]] == w.members;
    StepSound(w, Routing.StopSession(sid), ttl, With(w, sid, m, routes, w.owner));
  }

  lemma {:induction false} SweepIs(w: Routing.World, sid: SessionID, m: Routing.Member, seen: set<PendingKey>,
                                   ttl: int)
    requires Sound(w, ttl) && sid in w.members
    requires var s := w.members[sid].sess;
             m == w.members[sid].(sess := if w.members[sid].bound then Sweep(s, seen, w.now, ttl) else s)
    ensures var after := With(w, sid, m, w.routes, w.owner);
            && Sound(after, ttl)
            && if w.members[sid].bound then IsStep(w, Routing.TtlSweep(sid, seen), ttl, after) else after == w
  {
    hide Sound, Sweep;
    assert w.members[sid := w.members[sid]] == w.members;
    if w.members[sid].bound {
      StepSound(w, Routing.TtlSweep(sid, seen), ttl, With(w, sid, m, w.routes, w.owner));
    }
  }

  lemma {:induction false} ResponseIs(w: Routing.World, sid: SessionID, m: Routing.Member, n: uint32, ttl: int)
    requires Sound(w, ttl) && sid in w.members && m == w.members[sid].(sess := Respond(w.members[sid].sess, n))
    ensures var after := With(w, sid, m, w.routes, w.owner);
            IsStep(w, Routing.Response(sid, n), ttl, after) && Sound(after, ttl)
  {
    hide Sound, Respond;
    StepSound(w, Routing.Response(sid, n), ttl, With(w, sid, m, w.routes, w.owner));
  }

  lemma {:induction false} BindIs(w: Routing.World, sid: SessionID, m: Routing.Member, receiver: bool, error: bool,
                                  ok: bool, ttl: int)
    requires Sound(w, ttl) && sid in w.members
    requires m == if w.members[sid].bound || error then w.members[sid]
                  else w.members[sid].(bound := ok, receiver := receiver)
    ensures var after := With(w, sid, m, w.routes, w.owner);
            && Sound(after, ttl)
            && if w.members[sid].bound || error then after == w
               else IsStep(w, Routing.Bind(sid, receiver, ok), ttl, after)
  {
    hide Sound;
    assert w.members[sid := w.members[sid]] == w.members;
    if !w.members[sid].bound && !error {
      StepSound(w, Routing.Bind(sid, receiver, ok), ttl, With(w, sid, m, w.routes, w.owner));
    }
  }

  predicate CheckEffect(m: Routing.Member, after: Routing.Member, sid: SessionID, steps: seq<Routing.Step>, now: int) {
    if steps == [] then after == m
    else if steps[0] == Routing.Evict(sid) then |steps| == 1 && after == m.(cached := false)
    else
      && steps[0].Push? && steps[0].sid == sid && |steps| <= 2 && (|steps| == 2 ==> steps[1] == Routing.Evict(sid))
      && after == m.(sess := Await(m.sess, steps[0].n, now), cached := |steps| == 1)
  }

  lemma {:induction false} OneStepRun(w: Routing.World, step: Routing.Step, ttl: int, after: Routing.World)
    requires IsStep(w, step, ttl, after)
    ensures IsRun(w, [step], ttl, after)
  {
    assert [step][1..] == [];
  }

  lemma {:induction false} TwoStepRun(w: Routing.World, a: Routing.Step, b: Routing.Step, ttl: int,
                                      mid: Routing.World, after: Routing.World)
    requires IsStep(w, a, ttl, mid) && IsStep(mid, b, ttl, after)
    ensures IsRun(w, [a, b], ttl, after)
  {
    hide Routing.Enabled, Routing.Do;
    OneStepRun(mid, b, ttl, after);
    assert [a, b][1..] == [b];
  }

  lemma {:induction false} CheckIs(w: Routing.World, sid: SessionID, m: Routing.Member, steps: seq<Routing.Step>,
                                   ttl: int)
    requires Sound(w, ttl) && sid in w.members && w.members[sid].cached
    requires CheckEffect(w.members[sid], m, sid, steps, w.now)
    ensures var after := With(w, sid, m, w.routes, w.owner); IsRun(w, steps, ttl, after) && Sound(after, ttl)
  {
    hide Sound, Await, IsStep, Routing.Enabled, Routing.Do;
    var after := With(w, sid, m, w.routes, w.owner);
    if steps == [] {
      assert w.members[sid := w.members[sid]] == w.members;
    } else if steps[0] == Routing.Evict(sid) {
      EvictIs(w, sid, m, ttl);
      OneStepRun(w, steps[0], ttl, after);
      assert steps == [steps[0]];
    } else {
      var pushed := w.members[sid].(sess := m.sess);
      var mid := With(w, sid, pushed, w.routes, w.owner);
      PushIs(w, sid, pushed, steps[0].n, ttl);
      if |steps| == 1 {
        OneStepRun(w, steps[0], ttl, after);
        assert steps == [steps[0]];
      } else {
        EvictIs(mid, sid, m, ttl);
        assert mid.members[sid := m] == w.members[sid := m];
        TwoStepRun(w, steps[0], steps[1], ttl, mid, after);
        assert steps == [steps[0], steps[1]];
      }
    }
  }

  lemma {:induction false} PushIs(w: Routing.World, sid: SessionID, m: Routing.Member, n: uint32, ttl: int)
    requires Sound(w, ttl) && sid in w.members
    ensures m == w.members[sid] ==> With(w, sid, m, w.routes, w.owner) == w
    ensures m == w.members[sid].(sess := Await(w.members[sid].sess, n, w.now)) ==>
              var after := With(w, sid, m, w.routes, w.owner);
              IsStep(w, Routing.Push(sid, n), ttl, after) && Sound(after, ttl)
  {
    hide Sound, Await;
    assert w.members[sid := w.members[sid]] == w.members;
    if m == w.members[sid].(sess := Await(w.members[sid].sess, n, w.now)) {
      StepSound(w, Routing.Push(sid, n), ttl, With(w, sid, m, w.routes, w.owner));
    }
  }

  lemma {:induction false} OpenIs(w: Routing.World, sid: SessionID, ttl: int)
    requires Sound(w, ttl) && sid !in w.members
    ensures var after := With(w, sid, Routing.Member(FRESH, false, false, false, true), w.routes, w.owner);
            IsStep(w, Routing.Open(sid), ttl, after) && Sound(after, ttl)
  {
    hide Sound, FRESH;
    StepSound(w, Routing.Open(sid), ttl,
              With(w, sid, Routing.Member(FRESH, false, false, false, true), w.routes, w.owner));
  }

  lemma {:induction false} EvictIs(w: Routing.World, sid: SessionID, m: Routing.Member, ttl: int)
    requires Sound(w, ttl) && sid in w.members && m == w.members[sid].(cached := false)
    ensures var after := With(w, sid, m, w.routes, w.owner);
            IsStep(w, Routing.Evict(sid), ttl, after) && Sound(after, ttl)
  {
    hide Sound;
    StepSound(w, Routing.Evict(sid), ttl, With(w, sid, m, w.routes, w.owner));
  }

  /** A report does nothing to a session that cannot receive. */
  predicate ReportEffect(m: Routing.Member, routes: Routes, after: Routing.Member, routesAfter: Routes,
                         step: Routing.Step, now: int)
    requires step.DeliveryReport?
  {
    if !m.CanReceive() then after == m && routesAfter == routes
    else
      && after == m.(sess := Report(m.sess, step.id, step.success, step.n, step.attempt, now))
      && routesAfter == ReportRoutes(routes, m.sess, step.id, step.success, step.attempt)
  }

  lemma {:induction false} ReportIs(w: Routing.World, sid: SessionID, m: Routing.Member, routes: Routes,
                                    step: Routing.Step, ttl: int)
    requires Sound(w, ttl) && sid in w.members && step.DeliveryReport? && step.sid == sid
    requires ReportEffect(w.members[sid], w.routes, m, routes, step, w.now)
    ensures var after := With(w, sid, m, routes, w.owner);
            Sound(after, ttl) && if w.members[sid].CanReceive() then IsStep(w, step, ttl, after) else after == w
  {
    hide Sound, Report, ReportRoutes;
    assert w.members[sid := w.members[sid]] == w.members;
    if Routing.Enabled(w, step) { StepSound(w, step, ttl, With(w, sid, m, routes, w.owner)); }
  }

  /** What a lookup finds and leaves. */
  predicate LookupEffect(w: Routing.World, id: uint64, routes: Routes, found: Option<SessionID>) {
    && found == Routing.Resolve(w, id)
    && routes == if Routing.Live(w, id) && found.None? then w.routes - {id} else w.routes
  }

  lemma {:induction false} LookupIs(w: Routing.World, id: uint64, routes: Routes, found: Option<SessionID>, ttl: int)
    requires Sound(w, ttl) && LookupEffect(w, id, routes, found)
    ensures var after := w.(routes := routes);
            IsStep(w, Routing.Lookup(id), ttl, after) && Sound(after, ttl)
    ensures found == Routing.Resolve(w, id)
    ensures found.Some? && ttl >= Routing.ROUTE_TTL ==>
              Routing.Holds(w, found.value, id) && !w.members[found.value].stopped
  {
    if ttl >= Routing.ROUTE_TTL { Routing.RoutedIsSafe(w); }
    hide Sound, Routing.Consistent, Routing.Routed, Routing.RoutesBacked;
    StepSound(w, Routing.Lookup(id), ttl, w.(routes := routes));
  }
}

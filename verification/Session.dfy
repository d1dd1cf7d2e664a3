/**
 * The objects that carry the correlation state: the controller with its caches, a session
 * with its pending map, replace table, queue and counters, and the server calls that push
 * deliver_sm PDUs into a session. Every method is proved against the value machines of
 * Correlation, Reassembly, Outgoing and Enquire; the ghost fields are their histories.
 */
module Sessions {
  import opened Base
  import opened Correlation
  import opened SegmentStore
  import R = Reassembly
  import K = Keys
  import O = Outgoing
  import E = Enquire
  import Q = Sequence
  import B = Billing
  import Routing

  datatype BindingType = Unbound | Transceiver | Transmitter | Receiver

  predicate IsReceiver(t: BindingType) {
    t == Receiver || t == Transceiver
  }

  datatype Pdu =
    | EnquireLink(seqNum: uint32)
    | DeliverSm(seqNum: uint32, message: bytes, isReceipt: bool)
    | Response(command: uint32, seqNum: uint32, status: uint32)

  datatype Queueing = Accepted | SessionClosed | QueueTimeout

  /** The response commands that processPDU tells apart. */
  datatype ResponseKind = EnquireLinkResp | DeliverSmResp | OtherResp

  datatype SubmitParams = SubmitParams(
    serviceType: bytes, source: bytes, dest: bytes, registeredDelivery: uint8,
    replaceIfPresent: uint8, dataCoding: uint8, defaultMsgID: uint8,
    message: bytes, text: seq<rune>, segment: Option<R.Segment>)

  /** DecodeMessage, including the codecs that are not part of this model. */
  type Decoder = (bytes, uint8) -> Option<seq<rune>>

  // ---------------------------------------------------------------- what a submit comes to

  datatype Decision =
    | Refused(id: uint64, status: uint32)
    | Held(id: uint64)  // a segment waiting for the others
    | Handled(sub: Submission, text: seq<rune>, receipt: bool, status: uint32)

  function KeyOf(p: SubmitParams): bytes {
    K.ReplaceKey(p.serviceType, p.source, p.dest, p.defaultMsgID)
  }

  predicate IsSegment(p: SubmitParams) {
    p.segment.Some? && p.segment.value.total > 1
  }

  function Requested(p: SubmitParams): R.Segment
    requires p.segment.Some?
  {
    p.segment.value.(receipt := RequiresReceipt(p.registeredDelivery))
  }

  /** A handler that returns no response counts as a system error. */
  function StatusOf(verdict: Option<uint32>): uint32 {
    match verdict case None => STATUS_SYS_ERR case Some(status) => status
  }

  function HandledAs(p: SubmitParams, id: uint64, text: seq<rune>, receipt: bool, verdict: Option<uint32>): Decision {
    Handled(Submission(KeyOf(p), id, p.replaceIfPresent != 0, StatusOf(verdict) == STATUS_OK), text, receipt,
        StatusOf(verdict))
  }

  function Decide(store: R.Store, maxSegments: nat, gen: Option<uint64>, p: SubmitParams,
                  decode: Decoder, verdict: Option<uint32>): Decision
    requires R.StoreOk(store, maxSegments)
  {
    if IsSegment(p) then
      var reply := R.Add(store, maxSegments, gen, Requested(p)).1;
      if reply.err then Refused(reply.id, reply.status)
      else if !reply.complete then Held(reply.id)
      else match decode(reply.body, reply.coding)
        case None => Refused(reply.id, reply.status)
        case Some(text) => HandledAs(p, reply.id, text, reply.receipt, verdict)
    else match gen
      case None => Refused(0, STATUS_SYS_ERR)
      case Some(id) =>
        match if p.text == [] then decode(p.message, p.dataCoding) else Some(p.text)
        case None => Refused(id, STATUS_INV_DATA_CODING)
        case Some(text) => HandledAs(p, id, text, RequiresReceipt(p.registeredDelivery), verdict)
  }

  /** The entry a handled submit leaves behind: the octet is that of the PDU that completed the message. */
  function EntryFor(p: SubmitParams, text: seq<rune>, receipt: bool, now: int): Option<PendingRequest> {
    if receipt then Some(PendingRequest(B.Bill(p.dataCoding, text), p.registeredDelivery, now)) else None
  }

  /** What the caller is told of a decision. */
  predicate Answers(d: Decision, messageID: uint64, status: uint32, failed: bool) {
    match d
    case Refused(id, s) => messageID == id && status == s && failed
    case Held(id) => messageID == id && status == STATUS_OK && !failed
    case Handled(sub, _, _, s) => messageID == sub.id && status == s && failed == (s != STATUS_OK)
  }

  /** What a decision does to the session and the routes: nothing, or one submit. */
  predicate Effect(d: Decision, p: SubmitParams, sid: SessionID, now: int,
                   s: Sess, routes: Routes, after: Sess, routesAfter: Routes)
  {
    match d
    case Refused(_, _) => after == s && routesAfter == routes
    case Held(_) => after == s && routesAfter == routes
    case Handled(sub, text, receipt, _) =>
      && after == Submit(s, sub, EntryFor(p, text, receipt, now))
      && routesAfter == SubmitRoutes(routes, s, sub, EntryFor(p, text, receipt, now), sid, now)
  }

  // ---------------------------------------------------------------- the same, field by field

  /** The text of a submit that came whole: as parsed, or else decoded now. */
  function WholeText(p: SubmitParams, decode: Decoder): Option<seq<rune>> {
    if |p.text| > 0 then Some(p.text) else decode(p.message, p.dataCoding)
  }

  /** The key under which a submit looks for the one it replaces. */
  function OwnKey(p: SubmitParams): bytes {
    K.ReplaceKey(p.serviceType, p.source, p.dest, p.defaultMsgID)
  }

  predicate Asks(p: SubmitParams, s: Sess) {
    p.replaceIfPresent != 0 && OwnKey(p) in s.last
  }

  /**
   * The entries after a submit with this ID and text: one of now exactly if a receipt is
   * due, with the PDU's octet and the bill of the text; the replaced one gone; all others
   * as before.
   */
  predicate EntriesLeft(p: SubmitParams, id: uint64, text: seq<rune>, due: bool, now: int, s: Sess, after: Sess) {
    && (Msg(id) !in s.pending ==> (Msg(id) in after.pending <==> due))
    && (due ==> Msg(id) in after.pending &&
                after.pending[Msg(id)] == PendingRequest(B.Bill(p.dataCoding, text), p.registeredDelivery, now))
    && (forall k :: k in after.pending && k != Msg(id) ==> k in s.pending && after.pending[k] == s.pending[k])
    && (forall k :: k in s.pending && k != Msg(id) ==>
          (k in after.pending <==> !(Asks(p, s) && k == Msg(s.last[OwnKey(p)]))))
  }

  /** The routes: one of now to this session exactly if a receipt is due, that of a replaced entry gone. */
  predicate RoutesLeft(p: SubmitParams, id: uint64, due: bool, sid: SessionID, now: int,
                       s: Sess, routes: Routes, after: Routes)
  {
    && (due ==> id in after && after[id] == Route(sid, now))
    && (forall m :: m in after && m != id ==> m in routes && after[m] == routes[m])
    && (forall m :: m in routes && m != id ==>
          (m in after <==> !(Asks(p, s) && m == s.last[OwnKey(p)] && Msg(m) in s.pending)))
  }

  /** The table: naming this ID under the submit's own key if it was accepted, nothing there if it only replaced. */
  ghost predicate TableLeft(p: SubmitParams, id: uint64, status: uint32, s: Sess, after: Sess) {
    var key, named := OwnKey(p), status == 0 && id != 0;
    && (key in after.last <==> named || (key in s.last && p.replaceIfPresent == 0))
    && (key in after.last ==> after.last[key] == if named then id else s.last[key])
    && (forall other :: other != key ==> (other in after.last <==> other in s.last))
    && (forall other :: other != key && other in s.last ==> after.last[other] == s.last[other])
  }

  ghost predicate Leaves(p: SubmitParams, id: uint64, text: seq<rune>, due: bool, status: uint32, sid: SessionID,
                         now: int, s: Sess, routes: Routes, after: Sess, routesAfter: Routes)
  {
    && EntriesLeft(p, id, text, due, now, s, after)
    && RoutesLeft(p, id, due, sid, now, s, routes, routesAfter)
    && TableLeft(p, id, status, s, after)
  }

  lemma {:induction false} SubmitEntries(p: SubmitParams, id: uint64, text: seq<rune>, due: bool, accepted: bool,
                                         now: int, s: Sess)
    ensures var sub := Submission(KeyOf(p), id, p.replaceIfPresent != 0, accepted);
            EntriesLeft(p, id, text, due, now, s, Submit(s, sub, EntryFor(p, text, due, now)))
  {
  }

  lemma {:induction false} SubmitTable(p: SubmitParams, id: uint64, status: uint32, entry: Option<PendingRequest>,
                                       s: Sess)
    ensures var sub := Submission(KeyOf(p), id, p.replaceIfPresent != 0, status == 0);
            TableLeft(p, id, status, s, Submit(s, sub, entry))
  {
  }

  lemma {:induction false} SubmitRoutesLeft(p: SubmitParams, id: uint64, text: seq<rune>, due: bool, accepted: bool,
                                            sid: SessionID, now: int, s: Sess, routes: Routes)
    ensures var sub := Submission(KeyOf(p), id, p.replaceIfPresent != 0, accepted);
            RoutesLeft(p, id, due, sid, now, s, routes,
                       SubmitRoutes(routes, s, sub, EntryFor(p, text, due, now), sid, now))
  {
  }

  lemma {:induction false} HandledLeaves(p: SubmitParams, id: uint64, text: seq<rune>, due: bool,
                                         verdict: Option<uint32>, sid: SessionID, now: int,
                                         s: Sess, routes: Routes, after: Sess, routesAfter: Routes)
    requires Effect(HandledAs(p, id, text, due, verdict), p, sid, now, s, routes, after, routesAfter)
    ensures var status := if verdict.None? then 8 else verdict.value;
            Leaves(p, id, text, due, status, sid, now, s, routes, after, routesAfter)
  {
    hide Submit, SubmitRoutes, EntryFor, KeyOf, EntriesLeft, RoutesLeft, TableLeft;
    var status := if verdict.None? then 8 else verdict.value;
    SubmitEntries(p, id, text, due, status == 0, now, s);
    SubmitTable(p, id, status, EntryFor(p, text, due, now), s);
    SubmitRoutesLeft(p, id, text, due, status == 0, sid, now, s, routes);
  }

  /**
   * A submit that came whole. Without an ID, or with a message that does not decode, it is
   * refused with status 8 or 16; else it is handled under the generated ID, and a receipt
   * is due exactly if the two low bits of its registered_delivery are not zero.
   */
  lemma {:induction false} WholeSubmit(
    store: R.Store, maxSegments: nat, gen: Option<uint64>, p: SubmitParams, decode: Decoder, verdict: Option<uint32>,
    sid: SessionID, now: int, s: Sess, routes: Routes, after: Sess, routesAfter: Routes,
    messageID: uint64, status: uint32, failed: bool)
    requires R.StoreOk(store, maxSegments) && (p.segment.None? || p.segment.value.total <= 1)
    requires Answers(Decide(store, maxSegments, gen, p, decode, verdict), messageID, status, failed)
    requires Effect(Decide(store, maxSegments, gen, p, decode, verdict), p, sid, now, s, routes, after, routesAfter)
    ensures gen.None? ==> messageID == 0 && status == 8 && failed && after == s && routesAfter == routes
    ensures gen.Some? ==> messageID == gen.value
    ensures gen.Some? && WholeText(p, decode).None? ==> status == 16 && failed && after == s && routesAfter == routes
    ensures gen.Some? && WholeText(p, decode).Some? ==>
              && status == (if verdict.None? then 8 else verdict.value) && failed == (status != 0)
              && Leaves(p, messageID, WholeText(p, decode).value, p.registeredDelivery % 4 != 0, status, sid, now,
                      s, routes, after, routesAfter)
  {
    hide Leaves, R.Add, Effect;
    if gen.Some? && WholeText(p, decode).Some? {
      PolicyTable(p.registeredDelivery, true);
      HandledLeaves(p, gen.value, WholeText(p, decode).value, p.registeredDelivery % 4 != 0, verdict, sid, now,
                    s, routes, after, routesAfter);
    } else {
      RefusedLeaves(Decide(store, maxSegments, gen, p, decode, verdict), p, sid, now, s, routes, after, routesAfter);
    }
  }

  /**
   * A segment. Without an ID, or when it does not fit, it is refused with status 8 or 1 and
   * nothing is touched; nor is anything while it waits for others, with status 0.
   */
  lemma {:induction false} SegmentSubmit(
    store: R.Store, maxSegments: nat, gen: Option<uint64>, p: SubmitParams, decode: Decoder, verdict: Option<uint32>,
    sid: SessionID, now: int, s: Sess, routes: Routes, after: Sess, routesAfter: Routes,
    messageID: uint64, status: uint32, failed: bool)
    requires R.StoreOk(store, maxSegments) && p.segment.Some? && p.segment.value.total > 1
    requires Answers(Decide(store, maxSegments, gen, p, decode, verdict), messageID, status, failed)
    requires Effect(Decide(store, maxSegments, gen, p, decode, verdict), p, sid, now, s, routes, after, routesAfter)
    ensures var g := p.segment.value;
            var misfit := g.total > maxSegments || g.seqNum < 1 || g.seqNum > g.total ||
                          (g.groupID in store && |store[g.groupID].slots| != g.total);
            var complete := R.Add(store, maxSegments, gen, g).1.complete;
            && (gen.None? ==> messageID == 0 && status == 8 && failed)
            && (gen.Some? && misfit ==> messageID == gen.value && status == 1 && failed)
            && (gen.Some? && !misfit && !complete ==> status == 0 && !failed)
            && (gen.None? || misfit || !complete ==> after == s && routesAfter == routes)
  {
    R.RefusedExactly(store, maxSegments, gen, Requested(p));
    FlagAlone(store, maxSegments, gen, p);
    hide R.Add, Effect;
    var d := Decide(store, maxSegments, gen, p, decode, verdict);
    if !d.Handled? {
      RefusedLeaves(d, p, sid, now, s, routes, after, routesAfter);
    }
  }

  /** Whether a segment completes its group does not depend on its receipt flag. */
  lemma {:induction false} FlagAlone(store: R.Store, maxSegments: nat, gen: Option<uint64>, p: SubmitParams)
    requires R.StoreOk(store, maxSegments) && p.segment.Some?
    ensures R.Add(store, maxSegments, gen, Requested(p)).1.complete ==
            R.Add(store, maxSegments, gen, p.segment.value).1.complete
  {
    hide R.Texts, R.Coding, R.GroupIdFor;
    var flagged, plain := Requested(p), p.segment.value;
    assert R.Refuses(store, maxSegments, flagged) == R.Refuses(store, maxSegments, plain);
    if gen.Some? && !R.Refuses(store, maxSegments, plain) {
      var g := R.GroupFor(store, plain);
      var id := R.GroupIdFor(g, gen.value);
      var a, b := R.File(g, flagged, id), R.File(g, plain, id);
      assert forall i :: 0 <= i < |g.slots| ==> (a.slots[i].Some? <==> b.slots[i].Some?);
    }
  }

  lemma {:induction false} RefusedLeaves(d: Decision, p: SubmitParams, sid: SessionID, now: int,
                                         s: Sess, routes: Routes, after: Sess, routesAfter: Routes)
    requires Effect(d, p, sid, now, s, routes, after, routesAfter) && !d.Handled?
    ensures after == s && routesAfter == routes
  {
  }

  /** Of two submits, the second replaces the first exactly if it asks to and the four fields agree, NULs apart. */
  lemma {:induction false} SecondReplacesFirst(
    p: SubmitParams, q: SubmitParams, id: uint64, id2: uint64, text: seq<rune>, text2: seq<rune>, due2: bool,
    status2: uint32, sid: SessionID, now: int, s: Sess, one: Sess, two: Sess, r: Routes, r1: Routes, r2: Routes)
    requires id != 0 && id2 != id && forall key :: key in s.last ==> s.last[key] != id
    requires Leaves(p, id, text, true, 0, sid, now, s, r, one, r1)
    requires Leaves(q, id2, text2, due2, status2, sid, now, one, r1, two, r2)
    requires forall f: bytes :: f in [p.serviceType, p.source, p.dest, q.serviceType, q.source, q.dest] ==> K.NUL !in f
    ensures Msg(id) !in two.pending <==>
            && q.replaceIfPresent != 0 && q.serviceType == p.serviceType && q.source == p.source && q.dest == p.dest
            && q.defaultMsgID == p.defaultMsgID
    ensures Msg(id) !in two.pending <==> id !in r2
  {
    var k, l := K.ReplaceKey(p.serviceType, p.source, p.dest, p.defaultMsgID),
      K.ReplaceKey(q.serviceType, q.source, q.dest, q.defaultMsgID);
    hide K.ReplaceKey;
    var fields := [p.serviceType, p.source, p.dest, q.serviceType, q.source, q.dest];
    assert forall i :: 0 <= i < 6 ==> fields[i] in fields;
    if k == l {
      K.ReplaceKeyInjective(p.serviceType, p.source, p.dest, p.defaultMsgID,
                            q.serviceType, q.source, q.dest, q.defaultMsgID);
    }
  }

  // ---------------------------------------------------------------- the controller

  class SessController {
    const maxEnquireLinkRetry: int
    const inactivityTimeout: int
    var messageIDCache: Routes
    var sessions: map<SessionID, Session>

    constructor (maxEnquireLinkRetry: int, inactivityTimeout: int)
      ensures messageIDCache == map[] && sessions == map[]
      ensures this.maxEnquireLinkRetry == maxEnquireLinkRetry && this.inactivityTimeout == inactivityTimeout
    {
      this.maxEnquireLinkRetry, this.inactivityTimeout := maxEnquireLinkRetry, inactivityTimeout;
      messageIDCache, sessions := map[], map[];
    }

    method InitializeSession(session: Session)
      modifies this`sessions
      ensures sessions == old(sessions)[session.id := session]
    {
      sessions := sessions[session.id := session];
    }

    method RegisterMessageID(id: uint64, sid: SessionID, now: int)
      modifies this`messageIDCache
      ensures messageIDCache == old(messageIDCache)[id := Route(sid, now)]
    {
      messageIDCache := messageIDCache[id := Route(sid, now)];
    }

    method UnregisterMessageID(id: uint64)
      modifies this`messageIDCache
      ensures messageIDCache == old(messageIDCache) - {id}
    {
      messageIDCache := messageIDCache - {id};
    }

    /** A live route to a session the cache still has; a live route to any other session is dropped. */
    method GetSessionByMessageID(id: uint64, now: int) returns (session: Session?)
      modifies this`messageIDCache
      ensures session != null <==>
                && id in old(messageIDCache) && now - old(messageIDCache)[id].writtenAt < 1_800_000_000_000
                && old(messageIDCache)[id].sid in sessions
      ensures session != null ==> session == sessions[old(messageIDCache)[id].sid]
      ensures messageIDCache ==
                if id in old(messageIDCache) && now - old(messageIDCache)[id].writtenAt < 1_800_000_000_000 &&
                   session == null
                then old(messageIDCache) - {id} else old(messageIDCache)
    {
      if id !in messageIDCache || !Routing.LiveRoute(messageIDCache[id], now) {
        return null;
      }
      var sid := messageIDCache[id].sid;
      if sid !in sessions {
        UnregisterMessageID(id);
        return null;
      }
      session := sessions[sid];
    }

    /** The session's Stop follows later, when the cache reports the deletion. */
    method DeleteSession(sid: SessionID)
      modifies this`sessions
      ensures sessions == old(sessions) - {sid}
    {
      sessions := sessions - {sid};
    }

    /** One check is one step of the keep-alive automaton. */
    method CheckSessionInactivity(session: Session, lastActivity: int, now: int)
      requires session.controller == this && session.Valid()
      requires session.id in sessions && sessions[session.id] == session
      modifies this`sessions, session`sequenceNumber, session`pendingRequests, session`pduQueue, session`accepted,
               session`enquireRetryCount, session`unanswered
      ensures session.Valid()
      ensures session.Keeper() == E.Do(old(session.Keeper()),
                E.Check(now - lastActivity >= inactivityTimeout, old(session.CanQueue())), maxEnquireLinkRetry)
      ensures sessions == old(sessions) || sessions == old(sessions) - {session.id}
      ensures var inactive := now - lastActivity >= inactivityTimeout;
              var asks := inactive && old(session.enquireRetryCount) < maxEnquireLinkRetry;
              && session.Corr() ==
                 (if asks then Await(old(session.Corr()), session.sequenceNumber, now) else old(session.Corr()))
              && session.sequenceNumber ==
                 (if asks then Q.NextSequence(old(session.sequenceNumber)) else old(session.sequenceNumber))
              && session.Link() == if asks && old(session.CanQueue())
                 then O.Do(old(session.Link()), O.Enqueue(Some(EnquireLink(session.sequenceNumber))))
                 else old(session.Link())
    {
      hide O.Conserved, O.Do, Await;
      if now - lastActivity < inactivityTimeout {
        return;
      }
      if session.enquireRetryCount >= maxEnquireLinkRetry {
        DeleteSession(session.id);
        return;
      }
      var sent := session.SendEnquireLinkReq(now);
      if !sent {
        DeleteSession(session.id);
      }
    }
  }

  // ---------------------------------------------------------------- one session

  class Session {
    const id: SessionID
    const controller: SessController
    const segmentsMgr: SegmentsManager
    const capacity: nat  // of the outgoing queue

    var bound: bool
    var bindingType: BindingType
    var closed: bool   // the context is cancelled
    var stopped: bool  // stopOnce has fired
    var sequenceNumber: uint32
    var enquireRetryCount: int
    var pendingRequests: map<PendingKey, PendingRequest>
    var replaceSubmitLast: map<bytes, uint64>
    var pduQueue: seq<O.Slot<Pdu>>
    var messagesSent: nat

    ghost var submissions: seq<Submission>
    ghost var lives: map<uint64, seq<Event>>
    ghost var accepted: seq<O.Slot<Pdu>>
    ghost var batches: seq<O.Batch<Pdu>>
    ghost var unanswered: nat

    ghost predicate Valid()
      reads this, segmentsMgr, segmentsMgr.shards, segmentsMgr.repr
    {
      segmentsMgr.Valid() && O.Conserved(Link())
    }

    ghost function Corr(): Sess
      reads this
    {
      Sess(pendingRequests, replaceSubmitLast, submissions, lives)
    }

    ghost function Link(): O.Link<Pdu>
      reads this
    {
      O.Link(capacity, accepted, pduQueue, [], batches, messagesSent, closed)
    }

    ghost function Keeper(): E.Keeper
      reads this, controller`sessions
    {
      E.Keeper(enquireRetryCount, unanswered, id !in controller.sessions)
    }

    predicate CanQueue()
      reads this
    {
      !closed && |pduQueue| < capacity
    }

    constructor (id: SessionID, controller: SessController, segmentsMgr: SegmentsManager, capacity: nat)
      requires segmentsMgr.Valid()
      ensures Valid()
      ensures this.id == id && this.controller == controller && this.segmentsMgr == segmentsMgr
      ensures Corr() == FRESH && Link() == O.NewLink(capacity)
      ensures !bound && !stopped && sequenceNumber == 0 && enquireRetryCount == 0 && unanswered == 0
    {
      this.id, this.controller, this.segmentsMgr, this.capacity := id, controller, segmentsMgr, capacity;
      bound, bindingType, closed, stopped := false, Unbound, false, false;
      sequenceNumber, enquireRetryCount, messagesSent := 0, 0, 0;
      pendingRequests, replaceSubmitLast, pduQueue := map[], map[], [];
      submissions, lives, accepted, batches, unanswered := [], map[], [], [], 0;
    }

    // -------------------------------------------------------------- sequence numbers and the queue

    method GetNextSequence() returns (n: uint32)
      modifies this`sequenceNumber
      ensures n == sequenceNumber == Q.NextSequence(old(sequenceNumber))
    {
      if sequenceNumber >= Q.MAX_SEQUENCE {
        sequenceNumber := 1;
        return sequenceNumber;
      }
      sequenceNumber := sequenceNumber + 1;
      return sequenceNumber;
    }

    /** A closed session refuses; a queue that stays full for the whole timeout refuses too. */
    method EnqueuePDU(body: Pdu) returns (result: Queueing)
      requires O.Conserved(Link())
      modifies this`pduQueue, this`accepted
      ensures result == if closed then SessionClosed else if |old(pduQueue)| >= capacity then QueueTimeout else Accepted
      ensures pduQueue == old(pduQueue) + if result == Accepted then [Some(body)] else []
      ensures O.Conserved(Link())
      ensures Link() == if result == Accepted then O.Do(old(Link()), O.Enqueue(Some(body))) else old(Link())
    {
      if closed {
        return SessionClosed;
      }
      if |pduQueue| >= capacity {
        return QueueTimeout;
      }
      O.StepConserves(Link(), O.Enqueue(Some(body)));
      pduQueue := pduQueue + [Some(body)];
      accepted := accepted + [Some(body)];
      return Accepted;
    }

    method DrainOutgoingPDUBatch(first: Pdu) returns (batch: seq<Pdu>)
      modifies this`pduQueue
      ensures var n := O.DrainLength(O.BATCH_MAX - 1, old(pduQueue));
              batch == [first] + O.Bodies(old(pduQueue)[..n]) && pduQueue == old(pduQueue)[n..]
      ensures |batch| <= 32 && (|batch| < 32 ==> pduQueue == [])
    {
      hide O.Bodies, O.DrainLength;
      batch := [first];
      ghost var n := O.DrainLength(O.BATCH_MAX - 1, pduQueue);
      ghost var whole := [first] + O.Bodies(pduQueue[..n]);
      while |batch| < O.BATCH_MAX && pduQueue != []
        invariant 1 <= |batch| <= O.BATCH_MAX && n <= |old(pduQueue)|
        invariant var m := O.DrainLength(O.BATCH_MAX - |batch|, pduQueue);
                  whole == batch + O.Bodies(pduQueue[..m]) && pduQueue[m..] == old(pduQueue)[n..]
        decreases |pduQueue|
      {
        O.DrainFirst(O.BATCH_MAX - |batch|, pduQueue);
        var body := pduQueue[0];
        pduQueue := pduQueue[1..];
        if body.None? {
          continue;
        }
        batch := batch + [body.value];
      }
      O.DrainDone(O.BATCH_MAX - |batch|, pduQueue);
    }

    /** One iteration of outgoingHandler; `ok` is how the write went. */
    method OutgoingRound(ok: bool)
      requires O.Conserved(Link()) && pduQueue != [] && (ok ==> !closed)
      modifies this`pduQueue, this`batches, this`messagesSent
      ensures Link() == O.Round(old(Link()), ok)
      ensures O.Conserved(Link())
    {
      ghost var steps := O.RoundIsRun(Link(), ok);
      O.RunConserves(Link(), steps);
      var body := pduQueue[0];
      pduQueue := pduQueue[1..];
      if body.None? {
        return;
      }
      var batch := DrainOutgoingPDUBatch(body.value);
      batches := batches + [O.Batch(batch, ok)];
      if ok {
        messagesSent := messagesSent + |batch|;
      }
    }

    /**
     * handleBindRequest on well-formed fields, `error` and `status` being what the handler
     * says. A bound session stays as it is; a handler that objects changes nothing; one that
     * only withholds its OK still sets the type of the binding.
     */
    method HandleBindRequest(bindType: BindingType, command: uint32, n: uint32, error: bool, status: uint32)
      returns (answer: uint32)
      requires O.Conserved(Link())
      modifies this`bound, this`bindingType, this`pduQueue, this`accepted
      ensures O.Conserved(Link())
      ensures answer == if old(bound) then 5 else if error && status == 0 then 13 else status
      ensures bound == (old(bound) || (!error && status == STATUS_OK))
      ensures bindingType == if old(bound) || error then old(bindingType) else bindType
      ensures pduQueue == old(pduQueue) + if old(CanQueue()) then [Some(Response(command, n, answer))] else []
      ensures Link() == if old(CanQueue()) then O.Do(old(Link()), O.Enqueue(Some(Response(command, n, answer))))
              else old(Link())
    {
      hide O.Conserved, O.Do;
      answer := status;
      if bound {
        answer := STATUS_ALY_BND;
      } else if error {
        if status == STATUS_OK {
          answer := STATUS_BIND_FAIL;
        }
      } else {
        bindingType := bindType;
        if status == STATUS_OK {
          bound := true;
        }
      }
      var queued := EnqueuePDU(Response(command, n, answer));
    }

    // -------------------------------------------------------------- keep-alive and responses

    method AwaitResponse(n: uint32, now: int)
      modifies this`pendingRequests
      ensures pendingRequests == old(pendingRequests)[Seq(n) := PendingRequest(0, 0, now)]
      ensures Corr() == Await(old(Corr()), n, now)
    {
      pendingRequests := pendingRequests[Seq(n) := PendingRequest(0, 0, now)];
    }

    method SendEnquireLinkReq(now: int) returns (sent: bool)
      requires O.Conserved(Link())
      modifies this`sequenceNumber, this`pendingRequests, this`pduQueue, this`accepted, this`enquireRetryCount,
               this`unanswered
      ensures O.Conserved(Link())
      ensures sent <==> old(enquireRetryCount) < controller.maxEnquireLinkRetry && old(CanQueue())
      ensures old(enquireRetryCount) >= controller.maxEnquireLinkRetry ==>
                Corr() == old(Corr()) && sequenceNumber == old(sequenceNumber) && Link() == old(Link())
      ensures old(enquireRetryCount) < controller.maxEnquireLinkRetry ==>
                && sequenceNumber == Q.NextSequence(old(sequenceNumber))
                && Corr() == Await(old(Corr()), sequenceNumber, now)
                && Link() == if sent then O.Do(old(Link()), O.Enqueue(Some(EnquireLink(sequenceNumber))))
                     else old(Link())
      ensures enquireRetryCount == if sent then E.Increment(old(enquireRetryCount)) else old(enquireRetryCount)
      ensures unanswered == if sent then old(unanswered) + 1 else old(unanswered)
    {
      hide O.Conserved, Await, O.Do;
      if enquireRetryCount >= controller.maxEnquireLinkRetry {
        return false;
      }
      var n := GetNextSequence();
      AwaitResponse(n, now);
      var result := EnqueuePDU(EnquireLink(n));
      if result != Accepted {
        return false;
      }
      enquireRetryCount, unanswered := E.Increment(enquireRetryCount), unanswered + 1;
      return true;
    }

    /** The response branch of processPDU: only the entry of that sequence number can go. */
    method ProcessResponse(kind: ResponseKind, n: uint32)
      modifies this`pendingRequests, this`enquireRetryCount, this`unanswered
      ensures pendingRequests == old(pendingRequests) - {Seq(n)}
      ensures Corr() == Respond(old(Corr()), n)
      ensures kind == EnquireLinkResp ==> Keeper() == E.Do(old(Keeper()), E.Answer, controller.maxEnquireLinkRetry)
      ensures kind != EnquireLinkResp ==> Keeper() == old(Keeper())
    {
      pendingRequests := pendingRequests - {Seq(n)};
      if kind == EnquireLinkResp {
        enquireRetryCount, unanswered := 0, 0;
      }
    }

    // -------------------------------------------------------------- receipts and replacement

    method RemovePendingRequestByMessageID(messageID: uint64, ghost why: seq<Event>)
      modifies this`pendingRequests, this`lives, controller`messageIDCache
      ensures pendingRequests == old(pendingRequests) - {Msg(messageID)}
      ensures controller.messageIDCache ==
              if Msg(messageID) in old(pendingRequests) then old(controller.messageIDCache) - {messageID}
              else old(controller.messageIDCache)
      ensures Corr() == Forget(old(Corr()), messageID, why)
      ensures controller.messageIDCache == ForgetRoute(old(controller.messageIDCache), old(Corr()), messageID)
    {
      if Msg(messageID) in pendingRequests {
        lives := Note(Corr(), messageID, why);
        pendingRequests := pendingRequests - {Msg(messageID)};
        controller.UnregisterMessageID(messageID);
      }
    }

    method TryReplacePreviousSubmit(p: SubmitParams)
      modifies this`pendingRequests, this`lives, this`replaceSubmitLast, controller`messageIDCache
      ensures Corr() == Supersede(old(Corr()), KeyOf(p), p.replaceIfPresent != 0)
      ensures controller.messageIDCache ==
              SupersedeRoute(old(controller.messageIDCache), old(Corr()), KeyOf(p), p.replaceIfPresent != 0)
    {
      if p.replaceIfPresent == 0 {
        return;
      }
      var key := KeyOf(p);
      if key !in replaceSubmitLast {
        return;
      }
      RemovePendingRequestByMessageID(replaceSubmitLast[key], [Left(Replaced)]);
      replaceSubmitLast := replaceSubmitLast - {key};
    }

    method RecordReplaceableSubmit(p: SubmitParams, messageID: uint64)
      modifies this`replaceSubmitLast
      ensures Corr() == Record(old(Corr()), KeyOf(p), messageID)
    {
      if messageID == 0 {
        return;
      }
      replaceSubmitLast := replaceSubmitLast[KeyOf(p) := messageID];
    }

    /** The common end of both paths: supersede, handle, track the receipt, record. */
    method HandleWhole(p: SubmitParams, messageID: uint64, text: seq<rune>, receipt: bool, verdict: Option<uint32>,
        now: int)
      returns (status: uint32)
      modifies this`pendingRequests, this`lives, this`replaceSubmitLast, this`submissions, controller`messageIDCache
      ensures var d := HandledAs(p, messageID, text, receipt, verdict);
              && status == d.status
              && Corr() == Submit(old(Corr()), d.sub, EntryFor(p, text, receipt, now))
              && controller.messageIDCache ==
                 SubmitRoutes(old(controller.messageIDCache), old(Corr()), d.sub,
                              EntryFor(p, text, receipt, now), id, now)
    {
      TryReplacePreviousSubmit(p);
      status := StatusOf(verdict);
      if receipt {
        var segmentsCount := B.CalcSegments(p.dataCoding, text);
        var entry := PendingRequest(segmentsCount, p.registeredDelivery, now);
        lives := Track(Corr(), messageID, entry).lives;
        pendingRequests := pendingRequests[Msg(messageID) := entry];
        controller.RegisterMessageID(messageID, id, now);
      }
      if status == STATUS_OK {
        RecordReplaceableSubmit(p, messageID);
      }
      submissions := submissions + [HandledAs(p, messageID, text, receipt, verdict).sub];
    }

    /**
     * handleSubmitSM. Field by field: what a submit that came whole does, and what a segment
     * is answered; and as one step: a handled submit, whether it came whole or as its last
     * missing segment, is one Submit, any other leaves entries, table and routes alone.
     */
    method HandleSubmitSM(p: SubmitParams, gen: Option<uint64>, decode: Decoder, verdict: Option<uint32>, now: int)
      returns (messageID: uint64, status: uint32, failed: bool)
      requires Valid()
      modifies this`pendingRequests, this`lives, this`replaceSubmitLast, this`submissions, controller`messageIDCache,
               segmentsMgr`flat, segmentsMgr`groups, segmentsMgr`repr, segmentsMgr.shards, segmentsMgr.repr
      ensures Valid() && fresh(segmentsMgr.repr - old(segmentsMgr.repr))
      ensures IsSegment(p) ==>
                segmentsMgr.flat == R.Add(old(segmentsMgr.flat), segmentsMgr.maxSegments, gen, Requested(p)).0
      ensures !IsSegment(p) ==> segmentsMgr.flat == old(segmentsMgr.flat)
      ensures var d := Decide(old(segmentsMgr.flat), segmentsMgr.maxSegments, gen, p, decode, verdict);
              && Answers(d, messageID, status, failed)
              && Effect(d, p, id, now, old(Corr()), old(controller.messageIDCache), Corr(), controller.messageIDCache)
      ensures gen.None? ==>
                messageID == 0 && status == 8 && failed && Corr() == old(Corr()) &&
                controller.messageIDCache == old(controller.messageIDCache)
      ensures (p.segment.None? || p.segment.value.total <= 1) && gen.Some? ==>
                if WholeText(p, decode).None? then
                  messageID == gen.value && status == 16 && failed && Corr() == old(Corr()) &&
                  controller.messageIDCache == old(controller.messageIDCache)
                else
                  && messageID == gen.value && failed == (status != 0)
                  && status == (if verdict.None? then 8 else verdict.value)
                  && Leaves(p, messageID, WholeText(p, decode).value, p.registeredDelivery % 4 != 0, status, id, now,
                            old(Corr()), old(controller.messageIDCache), Corr(), controller.messageIDCache)
    {
      hide *;
      assert R.StoreOk(segmentsMgr.flat, segmentsMgr.maxSegments) by { ValidStore(); }
      ghost var store, s, routes := segmentsMgr.flat, Corr(), controller.messageIDCache;
      messageID, status, failed := HandleAsDecided(p, gen, decode, verdict, now);
      if p.segment.None? || p.segment.value.total <= 1 {
        WholeSubmit(store, segmentsMgr.maxSegments, gen, p, decode, verdict, id, now, s, routes,
                    Corr(), controller.messageIDCache, messageID, status, failed);
      } else {
        SegmentSubmit(store, segmentsMgr.maxSegments, gen, p, decode, verdict, id, now, s, routes,
                      Corr(), controller.messageIDCache, messageID, status, failed);
      }
    }

    lemma {:induction false} ValidStore()
      requires Valid()
      ensures R.StoreOk(segmentsMgr.flat, segmentsMgr.maxSegments)
    {
    }

    method HandleAsDecided(p: SubmitParams, gen: Option<uint64>, decode: Decoder, verdict: Option<uint32>, now: int)
      returns (messageID: uint64, status: uint32, failed: bool)
      requires Valid()
      modifies this`pendingRequests, this`lives, this`replaceSubmitLast, this`submissions, controller`messageIDCache,
               segmentsMgr`flat, segmentsMgr`groups, segmentsMgr`repr, segmentsMgr.shards, segmentsMgr.repr
      ensures Valid() && fresh(segmentsMgr.repr - old(segmentsMgr.repr))
      ensures IsSegment(p) ==>
                segmentsMgr.flat == R.Add(old(segmentsMgr.flat), segmentsMgr.maxSegments, gen, Requested(p)).0
      ensures !IsSegment(p) ==> segmentsMgr.flat == old(segmentsMgr.flat)
      ensures var d := Decide(old(segmentsMgr.flat), segmentsMgr.maxSegments, gen, p, decode, verdict);
              && Answers(d, messageID, status, failed)
              && Effect(d, p, id, now, old(Corr()), old(controller.messageIDCache), Corr(), controller.messageIDCache)
    {
      hide R.Add, Submit, SubmitRoutes, O.Conserved, EntryFor, SegmentsManager.Laid;
      if p.segment.Some? && p.segment.value.total > 1 {
        var reply, decoded := segmentsMgr.AddSegment(gen, Requested(p), decode);
        if reply.err {
          return reply.id, reply.status, true;
        }
        if !reply.complete {
          return reply.id, STATUS_OK, false;
        }
        if decoded.value.None? {
          return reply.id, reply.status, true;
        }
        status := HandleWhole(p, reply.id, decoded.value.value, reply.receipt, verdict, now);
        return reply.id, status, status != STATUS_OK;
      }
      if gen.None? {
        return 0, STATUS_SYS_ERR, true;
      }
      messageID := gen.value;
      var text := p.text;
      if text == [] {
        var decoded := decode(p.message, p.dataCoding);
        if decoded.None? {
          return messageID, STATUS_INV_DATA_CODING, true;
        }
        text := decoded.value;
      }
      status := HandleWhole(p, messageID, text, RequiresReceipt(p.registeredDelivery), verdict, now);
      failed := status != STATUS_OK;
    }

    // -------------------------------------------------------------- the end of entries and of sessions

    /**
     * One tick of cleanupPendingRequests. `boundFor` is how many entries it gets to look at
     * before a Stop that runs beside it has unbound the session.
     */
    method SweepPendingRequests(now: int, ttl: int, boundFor: nat) returns (ghost seen: set<PendingKey>)
      modifies this`pendingRequests, this`lives
      ensures Corr() == if bound then Sweep(old(Corr()), seen, now, ttl) else old(Corr())
      ensures forall k :: k in pendingRequests <==>
                && k in old(pendingRequests)
                && !(bound && k in seen && old(pendingRequests)[k].octet != 0 &&
                     now - old(pendingRequests)[k].createdAt >= ttl)
      ensures seen <= old(pendingRequests).Keys
      ensures if bound && boundFor < |old(pendingRequests).Keys| then |seen| == boundFor
              else bound ==> seen == old(pendingRequests).Keys
    {
      hide Unexpired;
      seen := {};
      if !bound {
        return;
      }
      UnexpiredNone(pendingRequests, now, ttl);
      var todo, left := pendingRequests.Keys, boundFor;
      while todo != {} && left > 0
        invariant todo + seen == old(pendingRequests).Keys && todo !! seen && 0 <= left == boundFor - |seen|
        invariant lives == old(lives)
        invariant pendingRequests == Unexpired(old(pendingRequests), seen, now, ttl)
        decreases todo
      {
        var k :| k in todo;
        UnexpiredMore(old(pendingRequests), seen, k, now, ttl);
        var entry := pendingRequests[k];
        if entry.octet > 0 {
          if now - entry.createdAt >= ttl {
            pendingRequests := pendingRequests - {k};
          }
        }
        todo, left, seen := todo - {k}, left - 1, seen + {k};
      }
      lives := Sweep(old(Corr()), seen, now, ttl).lives;
      UnexpiredKeys(old(pendingRequests), seen, now, ttl);
    }

    /** Stop, once: close, drop all segments, unregister every message ID and forget every entry. */
    method Stop()
      requires Valid()
      modifies this`closed, this`stopped, this`bound, this`pendingRequests, this`lives, controller`messageIDCache,
               segmentsMgr`flat, segmentsMgr`groups, segmentsMgr.shards
      ensures Valid() && stopped
      ensures old(stopped) ==>
                && Corr() == old(Corr()) && controller.messageIDCache == old(controller.messageIDCache)
                && segmentsMgr.flat == old(segmentsMgr.flat) && closed == old(closed) && bound == old(bound)
      ensures !old(stopped) ==>
                && pendingRequests == map[]
                && (forall m :: m in controller.messageIDCache <==>
                      m in old(controller.messageIDCache) && Msg(m) !in old(pendingRequests))
                && Corr() == Correlation.Stop(old(Corr()))
                && controller.messageIDCache == StopRoutes(old(controller.messageIDCache), old(Corr()))
                && segmentsMgr.flat == map[] && closed && !bound
    {
      hide O.Conserved, Correlation.Stop, StopRoutes, SegmentsManager.Valid;
      O.CloseConserves(Link());
      if stopped {
        return;
      }
      stopped := true;
      closed := true;
      segmentsMgr.Stop();
      bound := false;
      ForgetEverything();
    }

    method ForgetEverything()
      modifies this`pendingRequests, this`lives, controller`messageIDCache
      ensures pendingRequests == map[]
      ensures forall m :: m in controller.messageIDCache <==>
                m in old(controller.messageIDCache) && Msg(m) !in old(pendingRequests)
      ensures Corr() == Correlation.Stop(old(Corr()))
      ensures controller.messageIDCache == StopRoutes(old(controller.messageIDCache), old(Corr()))
    {
      ghost var emptied := Correlation.Stop(Corr());
      lives := emptied.lives;
      while pendingRequests != map[]
        invariant lives == emptied.lives && forall k :: k in pendingRequests ==> k in old(pendingRequests)
        invariant controller.messageIDCache ==
                  map id | id in old(controller.messageIDCache) &&
                           (Msg(id) in pendingRequests || Msg(id) !in old(pendingRequests))
                    :: old(controller.messageIDCache)[id]
        decreases pendingRequests.Keys
      {
        assert pendingRequests.Keys != {};
        var key :| key in pendingRequests;
        if key.Msg? {
          controller.UnregisterMessageID(key.id);
        }
        pendingRequests := pendingRequests - {key};
      }
    }
  }

  // ---------------------------------------------------------------- pushing PDUs into a session

  datatype DeliverResult = Delivered(seqNum: uint32) | NoSession | NotBound | NotReceiver | Cancelled | Closed | Full

  datatype ReportResult =
    | ReportSent | SkippedClosed | SkippedNoReceipt | SkippedSuccessOnly | SkippedFailureOnly
    | SkippedQueueFull | GaveUp

  /** How a report is refused under a policy that rules its outcome out. */
  function SkippedFor(octet: uint8): ReportResult {
    match ReceiptType(octet)
    case 2 => SkippedFailureOnly
    case 3 => SkippedSuccessOnly
    case _ => SkippedNoReceipt
  }

  /** What a report does to the entry it is about and, if it queues a receipt, to the queue. */
  lemma {:induction false} ReportedFields(s: Sess, l: O.Link<Pdu>, id: uint64, success: bool, n: uint32,
                                          attempt: Attempt, now: int, body: bytes)
    ensures Msg(id) in s.pending ==>
              var o := s.pending[Msg(id)].octet;
              var wanted := o % 4 == 1 || (o % 4 == 2 && !success) || (o % 4 == 3 && success);
              && (ShouldSend(o, success) <==> wanted)
              && (Msg(id) in Report(s, id, success, n, attempt, now).pending <==> wanted && attempt != Enqueued)
              && SkippedFor(o) == if o % 4 == 3 then SkippedSuccessOnly
                                  else if o % 4 == 2 then SkippedFailureOnly else SkippedNoReceipt
    ensures |l.queue| < l.capacity ==>
              O.Do(l, O.Enqueue(Some(DeliverSm(n, body, true)))).queue == l.queue + [Some(DeliverSm(n, body, true))]
  {
    if Msg(id) in s.pending { PolicyTable(s.pending[Msg(id)].octet, success); }
  }

  class Server {
    const controller: SessController

    constructor (controller: SessController)
      ensures this.controller == controller
    {
      this.controller := controller;
    }

    /** The session a call to this ID can change. */
    ghost function Target(sid: SessionID): set<Session>
      reads this, controller
    {
      if sid in controller.sessions then {controller.sessions[sid]} else {}
    }

    predicate CanDeliver(sid: SessionID)
      reads this, controller, if sid in controller.sessions then {controller.sessions[sid]} else {}
    {
      sid in controller.sessions && controller.sessions[sid].bound && IsReceiver(controller.sessions[sid].bindingType)
    }

    /** A request that reached the sequence counter waits for its response even when the queue refused it. */
    method SendDeliverSM(sid: SessionID, message: bytes, isReceipt: bool, cancelled: bool, now: int)
      returns (result: DeliverResult)
      requires sid in controller.sessions ==>
                 controller.sessions[sid].controller == controller && O.Conserved(controller.sessions[sid].Link())
      modifies Target(sid)`sequenceNumber, Target(sid)`pendingRequests, Target(sid)`pduQueue, Target(sid)`accepted
      ensures result == NoSession <==> sid !in controller.sessions
      ensures result == NotBound <==> sid in controller.sessions && !old(controller.sessions[sid].bound)
      ensures result == NotReceiver <==>
                && sid in controller.sessions && old(controller.sessions[sid].bound)
                && (old(controller.sessions[sid].bindingType) == Unbound ||
                    old(controller.sessions[sid].bindingType) == Transmitter)
      ensures result.Delivered? <==>
                && sid in controller.sessions && old(controller.sessions[sid].bound) && !cancelled
                && (old(controller.sessions[sid].bindingType) == Receiver ||
                    old(controller.sessions[sid].bindingType) == Transceiver)
                && !old(controller.sessions[sid].closed)
                && |old(controller.sessions[sid].pduQueue)| < controller.sessions[sid].capacity
      ensures result.Delivered? ==>
                controller.sessions[sid].pduQueue ==
                old(controller.sessions[sid].pduQueue) + [Some(DeliverSm(result.seqNum, message, isReceipt))]
      ensures result == Cancelled <==> old(CanDeliver(sid)) && cancelled
      ensures sid in controller.sessions && (!old(CanDeliver(sid)) || cancelled) ==> unchanged(controller.sessions[sid])
      ensures old(CanDeliver(sid)) && !cancelled ==>
                var s := controller.sessions[sid];
                && O.Conserved(s.Link())
                && s.sequenceNumber == Q.NextSequence(old(s.sequenceNumber))
                && s.Corr() == Await(old(s.Corr()), s.sequenceNumber, now)
                && s.Link() == (if old(s.CanQueue())
                    then O.Do(old(s.Link()), O.Enqueue(Some(DeliverSm(s.sequenceNumber, message, isReceipt))))
                    else old(s.Link()))
                && result == if old(s.closed) then Closed
                   else if !old(s.CanQueue()) then Full else Delivered(s.sequenceNumber)
    {
      hide O.Conserved, O.Do, Await;
      if sid !in controller.sessions {
        return NoSession;
      }
      var session := controller.sessions[sid];
      if !session.bound {
        return NotBound;
      }
      if !IsReceiver(session.bindingType) {
        return NotReceiver;
      }
      if cancelled {
        return Cancelled;
      }
      var n := session.GetNextSequence();
      session.AwaitResponse(n, now);
      var queued := session.EnqueuePDU(DeliverSm(n, message, isReceipt));
      match queued {
        case SessionClosed => return Closed;
        case QueueTimeout => return Full;
        case Accepted => return Delivered(n);
      }
    }

    /** How far a deliver_sm would get in this session now. */
    ghost function AttemptIn(s: Session, cancelled: bool): Attempt
      reads s
    {
      if cancelled then NotTried else if s.CanQueue() then Enqueued else QueueRefused
    }

    /**
     * SendDeliveryReport. Outcome by outcome, for a cached session bound to receive and a
     * message with an entry: policy 1 wants every receipt, 2 those of failures, 3 those of
     * successes; a wanted one is queued if the call is not cancelled and the queue is open
     * and has room, and then, or if it is not wanted, the entry goes. And as one step: it
     * is one Report.
     */
    method SendDeliveryReport(sid: SessionID, id: uint64, body: bytes, success: bool, cancelled: bool, now: int)
      returns (result: ReportResult)
      requires sid in controller.sessions ==>
                 controller.sessions[sid].controller == controller && O.Conserved(controller.sessions[sid].Link())
      modifies controller`messageIDCache, Target(sid)`sequenceNumber, Target(sid)`pendingRequests, Target(sid)`lives,
               Target(sid)`pduQueue, Target(sid)`accepted
      ensures !old(CanDeliver(sid)) ==>
                && result == SkippedClosed && controller.messageIDCache == old(controller.messageIDCache)
                && (sid in controller.sessions ==> unchanged(controller.sessions[sid]))
      ensures old(CanDeliver(sid)) ==>
                var s := controller.sessions[sid];
                var attempt := old(AttemptIn(s, cancelled));
                var entries := old(s.pendingRequests);
                var asked := Msg(id) in entries && ShouldSend(entries[Msg(id)].octet, success);
                var n := Q.NextSequence(old(s.sequenceNumber));
                && O.Conserved(s.Link())
                && s.sequenceNumber == (if asked && attempt != NotTried then n else old(s.sequenceNumber))
                && s.Corr() == Report(old(s.Corr()), id, success, n, attempt, now)
                && controller.messageIDCache ==
                   ReportRoutes(old(controller.messageIDCache), old(s.Corr()), id, success, attempt)
                && s.Link() == (if asked && attempt == Enqueued
                    then O.Do(old(s.Link()), O.Enqueue(Some(DeliverSm(n, body, true)))) else old(s.Link()))
                && result == (if Msg(id) !in old(s.pendingRequests) then SkippedNoReceipt
                    else if !asked then SkippedFor(old(s.pendingRequests)[Msg(id)].octet)
                    else match attempt
                      case NotTried => GaveUp
                      case QueueRefused => (if old(s.closed) then SkippedClosed else SkippedQueueFull)
                      case Enqueued => ReportSent)
      ensures !old(CanDeliver(sid)) <==>
                || sid !in controller.sessions || !old(controller.sessions[sid].bound)
                || old(controller.sessions[sid].bindingType) == Unbound
                || old(controller.sessions[sid].bindingType) == Transmitter
      ensures old(CanDeliver(sid)) && Msg(id) !in old(controller.sessions[sid].pendingRequests) ==>
                && result == SkippedNoReceipt
                && controller.sessions[sid].pduQueue == old(controller.sessions[sid].pduQueue)
      ensures old(CanDeliver(sid)) && Msg(id) in old(controller.sessions[sid].pendingRequests) ==>
                var s := controller.sessions[sid];
                var policy := old(s.pendingRequests)[Msg(id)].octet % 4;
                var wanted := policy == 1 || (policy == 2 && !success) || (policy == 3 && success);
                var room := !cancelled && !old(s.closed) && |old(s.pduQueue)| < s.capacity;
                var n := if old(s.sequenceNumber) >= 0x7FFF_FFFF then 1 else old(s.sequenceNumber) + 1;
                && s.pduQueue == old(s.pduQueue) + (if wanted && room then [Some(DeliverSm(n, body, true))] else [])
                && (Msg(id) in s.pendingRequests <==> wanted && !room)
                && result == (if !wanted then
                                if policy == 3 then SkippedSuccessOnly
                                else if policy == 2 then SkippedFailureOnly else SkippedNoReceipt
                              else if cancelled then GaveUp
                              else if old(s.closed) then SkippedClosed
                              else if room then ReportSent else SkippedQueueFull)
    {
      hide O.Conserved, O.Do, Report, ReportRoutes, ShouldSend;
      if sid !in controller.sessions {
        return SkippedClosed;
      }
      var session := controller.sessions[sid];
      if !session.bound || !IsReceiver(session.bindingType) {
        return SkippedClosed;
      }
      result := ReportAsDecided(sid, id, body, success, cancelled, now);
      ghost var n, attempt := Q.NextSequence(old(session.sequenceNumber)), old(AttemptIn(session, cancelled));
      ReportedFields(old(session.Corr()), old(session.Link()), id, success, n, attempt, now, body);
    }

    /** A report to a session that can receive is one Report step. */
    method ReportAsDecided(sid: SessionID, id: uint64, body: bytes, success: bool, cancelled: bool, now: int)
      returns (result: ReportResult)
      requires CanDeliver(sid)
      requires controller.sessions[sid].controller == controller && O.Conserved(controller.sessions[sid].Link())
      modifies controller`messageIDCache, Target(sid)`sequenceNumber, Target(sid)`pendingRequests, Target(sid)`lives,
               Target(sid)`pduQueue, Target(sid)`accepted
      ensures var s := controller.sessions[sid];
              var attempt := old(AttemptIn(s, cancelled));
              var entries := old(s.pendingRequests);
              var asked := Msg(id) in entries && ShouldSend(entries[Msg(id)].octet, success);
              var n := Q.NextSequence(old(s.sequenceNumber));
              && O.Conserved(s.Link())
              && s.sequenceNumber == (if asked && attempt != NotTried then n else old(s.sequenceNumber))
              && s.Corr() == Report(old(s.Corr()), id, success, n, attempt, now)
              && controller.messageIDCache ==
                 ReportRoutes(old(controller.messageIDCache), old(s.Corr()), id, success, attempt)
              && s.Link() == (if asked && attempt == Enqueued
                  then O.Do(old(s.Link()), O.Enqueue(Some(DeliverSm(n, body, true)))) else old(s.Link()))
              && result == (if Msg(id) !in old(s.pendingRequests) then SkippedNoReceipt
                  else if !asked then SkippedFor(old(s.pendingRequests)[Msg(id)].octet)
                  else match attempt
                    case NotTried => GaveUp
                    case QueueRefused => (if old(s.closed) then SkippedClosed else SkippedQueueFull)
                    case Enqueued => ReportSent)
    {
      hide O.Conserved, O.Do, Note, Life;
      var session := controller.sessions[sid];
      if Msg(id) !in session.pendingRequests {
        return SkippedNoReceipt;
      }
      var octet := session.pendingRequests[Msg(id)].octet;
      if !RequiresReceipt(octet) {
        session.RemovePendingRequestByMessageID(id, [Left(PolicySkip(success))]);
        return SkippedNoReceipt;
      }
      if !ShouldSend(octet, success) {
        session.RemovePendingRequestByMessageID(id, [Left(PolicySkip(success))]);
        if ReceiptType(octet) == SUCCESS_ONLY {
          return SkippedSuccessOnly;
        }
        return if ReceiptType(octet) == FAILURE_ONLY then SkippedFailureOnly else SkippedNoReceipt;
      }
      var sent := SendDeliverSM(sid, body, true, cancelled, now);
      match sent {
        case Delivered(_) =>
          session.RemovePendingRequestByMessageID(id, [Queued(success), Left(Sent)]);
          return ReportSent;
        case Closed => return SkippedClosed;
        case Full => return SkippedQueueFull;
        case _ => return GaveUp;
      }
    }

    // -------------------------------------------------------------- what a bind opens

    /** A session that binds as receiver or transceiver is sent deliver_sm, one that binds as transmitter is not. */
    method BindThenDeliver(s: Session, bindType: BindingType, command: uint32, n: uint32, message: bytes, now: int)
      returns (result: DeliverResult)
      requires s.id in controller.sessions && controller.sessions[s.id] == s && s.controller == controller
      requires O.Conserved(s.Link()) && !s.bound && !s.closed && |s.pduQueue| + 2 <= s.capacity
      modifies s
      ensures bindType == Receiver || bindType == Transceiver ==> result.Delivered?
      ensures bindType == Transmitter || bindType == Unbound ==> result == NotReceiver
    {
      hide O.Conserved, O.Do, Await;
      var answer := s.HandleBindRequest(bindType, command, n, false, STATUS_OK);
      assert s.pduQueue == old(s.pduQueue) + [Some(Response(command, n, answer))];
      result := SendDeliverSM(s.id, message, false, false, now);
    }

    /** And likewise for receipts. */
    method BindThenReport(s: Session, bindType: BindingType, command: uint32, n: uint32, id: uint64, body: bytes,
                          success: bool, now: int)
      returns (result: ReportResult)
      requires s.id in controller.sessions && controller.sessions[s.id] == s && s.controller == controller
      requires O.Conserved(s.Link()) && !s.bound && !s.closed && |s.pduQueue| + 2 <= s.capacity
      modifies s, controller`messageIDCache
      ensures bindType == Receiver || bindType == Transceiver ==> result != SkippedClosed
      ensures bindType == Transmitter || bindType == Unbound ==> result == SkippedClosed
    {
      hide O.Conserved, O.Do, Await, Report, ReportRoutes, SkippedFor, ShouldSend;
      var answer := s.HandleBindRequest(bindType, command, n, false, STATUS_OK);
      result := SendDeliveryReport(s.id, id, body, success, false, now);
    }
  }
}

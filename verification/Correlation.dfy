/** Composite keys: fields joined by a separator. */
module Keys {
  import opened Base
  import opened MessageIds

  const NUL: uint8 := 0
  const BAR: uint8 := 124

  /** The key under which replace_if_present looks for an earlier submit. */
  function ReplaceKey(serviceType: bytes, source: bytes, dest: bytes, defaultMsgID: uint8): bytes {
    serviceType + [NUL] + source + [NUL] + dest + [NUL] + Digits(defaultMsgID)
  }

  /** What the group ID of a segment is the digest of; the reference number has been cut to eight bits. */
  function GroupPrefix(source: bytes, dest: bytes, reference: uint16, total: uint8): bytes {
    source + [BAR] + dest + (if total > 1 then [BAR] + Digits(reference % 256) else [])
  }

  lemma {:induction false} SeparatorSplits(a: bytes, r: bytes, b: bytes, s: bytes, sep: uint8)
    requires sep !in a && sep !in b && a + [sep] + r == b + [sep] + s
    ensures a == b && r == s
  {
    var x, y := a + [sep] + r, b + [sep] + s;
    assert x[|a|] == sep && y[|b|] == sep;
    assert forall i :: 0 <= i < |a| ==> x[i] == a[i] && a[i] in a;
    assert forall i :: 0 <= i < |b| ==> y[i] == b[i] && b[i] in b;
    assert |a| == |b|;
    assert x[..|a|] == a && y[..|b|] == b;
    assert x[|a| + 1..] == r && y[|b| + 1..] == s;
  }

  /** The replace key tells NUL-free fields apart. */
  lemma {:induction false} ReplaceKeyInjective(
    t1: bytes, s1: bytes, d1: bytes, m1: uint8, t2: bytes, s2: bytes, d2: bytes, m2: uint8)
    requires NUL !in t1 && NUL !in s1 && NUL !in d1 && NUL !in t2 && NUL !in s2 && NUL !in d2
    requires ReplaceKey(t1, s1, d1, m1) == ReplaceKey(t2, s2, d2, m2)
    ensures t1 == t2 && s1 == s2 && d1 == d2 && m1 == m2
  {
    var r1, r2 := s1 + [NUL] + d1 + [NUL] + Digits(m1), s2 + [NUL] + d2 + [NUL] + Digits(m2);
    assert ReplaceKey(t1, s1, d1, m1) == t1 + [NUL] + r1 && ReplaceKey(t2, s2, d2, m2) == t2 + [NUL] + r2;
    SeparatorSplits(t1, r1, t2, r2, NUL);
    var q1, q2 := d1 + [NUL] + Digits(m1), d2 + [NUL] + Digits(m2);
    assert r1 == s1 + [NUL] + q1 && r2 == s2 + [NUL] + q2;
    SeparatorSplits(s1, q1, s2, q2, NUL);
    SeparatorSplits(d1, Digits(m1), d2, Digits(m2), NUL);
    DigitsInjective(m1, m2);
  }

  /** And not fields that contain NUL. */
  lemma {:induction false} ReplaceKeyCollides(dest: bytes, m: uint8)
    ensures ReplaceKey([NUL], [], dest, m) == ReplaceKey([], [NUL], dest, m)
  {
  }

  /** The last separator splits as well as the first. */
  lemma {:induction false} LastSeparatorSplits(a: bytes, r: bytes, b: bytes, s: bytes, sep: uint8)
    requires sep !in r && sep !in s && a + [sep] + r == b + [sep] + s
    ensures a == b && r == s
  {
    var x, y := a + [sep] + r, b + [sep] + s;
    assert x[|a|] == sep && y[|b|] == sep;
    assert forall i :: |a| < i < |x| ==> x[i] == r[i - |a| - 1] && r[i - |a| - 1] in r;
    assert forall i :: |b| < i < |y| ==> y[i] == s[i - |b| - 1] && s[i - |b| - 1] in s;
    assert |a| == |b|;
    assert x[..|a|] == a && y[..|b|] == b;
    assert x[|a| + 1..] == r && y[|b| + 1..] == s;
  }

  lemma {:induction false} DigitsOnly(n: nat, sep: uint8)
    requires !IsDigit(sep)
    ensures sep !in Digits(n)
  {
    DigitsValue(n);
  }

  /** In general the key tells the fields apart exactly up to how their NULs fall. */
  lemma {:induction false} ReplaceKeyShared(
    t1: bytes, s1: bytes, d1: bytes, m1: uint8, t2: bytes, s2: bytes, d2: bytes, m2: uint8)
    ensures ReplaceKey(t1, s1, d1, m1) == ReplaceKey(t2, s2, d2, m2) <==>
            t1 + [NUL] + s1 + [NUL] + d1 == t2 + [NUL] + s2 + [NUL] + d2 && m1 == m2
  {
    if ReplaceKey(t1, s1, d1, m1) == ReplaceKey(t2, s2, d2, m2) {
      DigitsOnly(m1, NUL);
      DigitsOnly(m2, NUL);
      LastSeparatorSplits(t1 + [NUL] + s1 + [NUL] + d1, Digits(m1), t2 + [NUL] + s2 + [NUL] + d2, Digits(m2), NUL);
      DigitsInjective(m1, m2);
    }
  }

  /** Two segmented messages share a group exactly when joined addresses and references mod 256 agree. */
  lemma {:induction false} GroupPrefixShared(s1: bytes, d1: bytes, n1: uint16, s2: bytes, d2: bytes, n2: uint16,
                                             t1: uint8, t2: uint8)
    requires t1 > 1 && t2 > 1
    ensures GroupPrefix(s1, d1, n1, t1) == GroupPrefix(s2, d2, n2, t2) <==>
            s1 + [BAR] + d1 == s2 + [BAR] + d2 && n1 % 256 == n2 % 256
  {
    var a1, a2 := s1 + [BAR] + d1, s2 + [BAR] + d2;
    assert GroupPrefix(s1, d1, n1, t1) == a1 + [BAR] + Digits(n1 % 256);
    assert GroupPrefix(s2, d2, n2, t2) == a2 + [BAR] + Digits(n2 % 256);
    if GroupPrefix(s1, d1, n1, t1) == GroupPrefix(s2, d2, n2, t2) {
      DigitsOnly(n1 % 256, BAR);
      DigitsOnly(n2 % 256, BAR);
      LastSeparatorSplits(a1, Digits(n1 % 256), a2, Digits(n2 % 256), BAR);
      DigitsInjective(n1 % 256, n2 % 256);
    }
  }

  /** A message of one part goes by its joined addresses alone. */
  lemma {:induction false} PlainPrefixShared(s1: bytes, d1: bytes, n1: uint16, s2: bytes, d2: bytes, n2: uint16,
                                             t1: uint8, t2: uint8)
    requires t1 <= 1 && t2 <= 1
    ensures GroupPrefix(s1, d1, n1, t1) == GroupPrefix(s2, d2, n2, t2) <==> s1 + [BAR] + d1 == s2 + [BAR] + d2
  {
    assert GroupPrefix(s1, d1, n1, t1) == s1 + [BAR] + d1 && GroupPrefix(s2, d2, n2, t2) == s2 + [BAR] + d2;
  }

  /** Without bars in them that means the same addresses. */
  lemma {:induction false} BarFreeApart(s1: bytes, d1: bytes, n1: uint16, s2: bytes, d2: bytes, n2: uint16,
                                        t1: uint8, t2: uint8)
    requires BAR !in s1 && BAR !in s2 && t1 > 1 && t2 > 1
    ensures GroupPrefix(s1, d1, n1, t1) == GroupPrefix(s2, d2, n2, t2) <==>
            s1 == s2 && d1 == d2 && n1 % 256 == n2 % 256
  {
    GroupPrefixShared(s1, d1, n1, s2, d2, n2, t1, t2);
    hide GroupPrefix;
    if s1 + [BAR] + d1 == s2 + [BAR] + d2 {
      SeparatorSplits(s1, d1, s2, d2, BAR);
    }
  }

  /** With a bar, different pairs of addresses share a group. */
  lemma {:induction false} BarsCollide(a: bytes, b: bytes, c: bytes, n: uint16, t: uint8)
    requires a != [] && b != [] && c != []
    ensures GroupPrefix(a + [BAR] + b, c, n, t) == GroupPrefix(a, b + [BAR] + c, n, t) && a + [BAR] + b != a
  {
    assert (a + [BAR] + b) + [BAR] + c == a + [BAR] + (b + [BAR] + c);
  }
}

/**
 * What one session remembers about its messages, on values: the pending map, the
 * replace table, and two histories the code does not keep, the submissions it has
 * processed and the life of every receipt entry.
 */
module Correlation {
  import opened Base

  type SessionID = bytes

  /** The pending map is keyed by dynamic type: a sequence number never equals a message ID. */
  datatype PendingKey = Seq(n: uint32) | Msg(id: uint64)

  datatype PendingRequest = PendingRequest(segments: uint8, octet: uint8, createdAt: int)

  /** A messageID -> sessionID route and when it was written. */
  datatype Route = Route(sid: SessionID, writtenAt: int)

  type Routes = map<uint64, Route>

  // ---------------------------------------------------------------- registered_delivery, section 5.2.17 of SMPP v3.4

  const NO_RECEIPT: uint8 := 0
  const SUCCESS_AND_FAILURE: uint8 := 1
  const FAILURE_ONLY: uint8 := 2
  const SUCCESS_ONLY: uint8 := 3

  function ReceiptType(octet: uint8): uint8 {
    octet % 4
  }

  predicate RequiresReceipt(octet: uint8) {
    ReceiptType(octet) != NO_RECEIPT
  }

  predicate ShouldSend(octet: uint8, success: bool) {
    var t := ReceiptType(octet);
    if t == NO_RECEIPT then false
    else if t == SUCCESS_AND_FAILURE then true
    else if t == FAILURE_ONLY then !success
    else if t == SUCCESS_ONLY then success
    else false
  }

  /** The two low bits decide: 1 asks for every receipt, 2 for failures only, 3 for successes only, 0 for none. */
  lemma {:induction false} PolicyTable(octet: uint8, success: bool)
    ensures RequiresReceipt(octet) <==> octet % 4 != 0
    ensures ShouldSend(octet, success) <==>
            octet % 4 == 1 || (octet % 4 == 2 && !success) || (octet % 4 == 3 && success)
  {
  }

  // ---------------------------------------------------------------- session state

  datatype Reason = Sent | PolicySkip(success: bool) | Replaced | TimedOut | Stopped

  datatype Event = Stored(octet: uint8) | Queued(success: bool) | Left(reason: Reason)

  datatype Submission = Submission(key: bytes, id: uint64, replacing: bool, accepted: bool)

  datatype Sess = Sess(
    pending: map<PendingKey, PendingRequest>,
    last: map<bytes, uint64>,
    submissions: seq<Submission>,
    lives: map<uint64, seq<Event>>)

  const FRESH := Sess(map[], map[], [], map[])

  function Life(s: Sess, id: uint64): seq<Event> {
    if id in s.lives then s.lives[id] else []
  }

  function Note(s: Sess, id: uint64, events: seq<Event>): map<uint64, seq<Event>> {
    s.lives[id := Life(s, id) + events]
  }

  /** RemovePendingRequestByMessageID; `events` says why. */
  function Forget(s: Sess, id: uint64, events: seq<Event>): Sess {
    if Msg(id) in s.pending then s.(pending := s.pending - {Msg(id)}, lives := Note(s, id, events)) else s
  }

  /** It unregisters the route only if it removed an entry. */
  function ForgetRoute(routes: Routes, s: Sess, id: uint64): Routes {
    if Msg(id) in s.pending then routes - {id} else routes
  }

  /** tryReplacePreviousSubmit. */
  function Supersede(s: Sess, key: bytes, replacing: bool): Sess {
    if replacing && key in s.last then Forget(s, s.last[key], [Left(Replaced)]).(last := s.last - {key}) else s
  }

  function SupersedeRoute(routes: Routes, s: Sess, key: bytes, replacing: bool): Routes {
    if replacing && key in s.last then ForgetRoute(routes, s, s.last[key]) else routes
  }

  function Track(s: Sess, id: uint64, entry: PendingRequest): Sess {
    s.(pending := s.pending[Msg(id) := entry], lives := Note(s, id, [Stored(entry.octet)]))
  }

  /** recordReplaceableSubmit. */
  function Record(s: Sess, key: bytes, id: uint64): Sess {
    if id == 0 then s else s.(last := s.last[key := id])
  }

  /** A whole submit: supersede, let the handler decide, track the receipt whatever it decided, record if accepted. */
  function Submit(s: Sess, sub: Submission, entry: Option<PendingRequest>): Sess {
    var superseded := Supersede(s, sub.key, sub.replacing);
    var tracked := if entry.Some? then Track(superseded, sub.id, entry.value) else superseded;
    var recorded := if sub.accepted then Record(tracked, sub.key, sub.id) else tracked;
    recorded.(submissions := s.submissions + [sub])
  }

  function SubmitRoutes(routes: Routes, s: Sess, sub: Submission, entry: Option<PendingRequest>,
                        sid: SessionID, now: int): Routes {
    var superseded := SupersedeRoute(routes, s, sub.key, sub.replacing);
    if entry.Some? then superseded[sub.id := Route(sid, now)] else superseded
  }

  /** A response PDU clears the entry of its sequence number. */
  function Respond(s: Sess, n: uint32): Sess {
    s.(pending := s.pending - {Seq(n)})
  }

  /** An outgoing request waits under its sequence number, for a response with that number and no other. */
  function Await(s: Sess, n: uint32, now: int): Sess {
    s.(pending := s.pending[Seq(n) := PendingRequest(0, 0, now)])
  }

  /** A request waits from then on under its number alone; its response, and no other, ends that. */
  lemma {:induction false} RequestAndResponse(s: Sess, n: uint32, now: int, m: uint32)
    ensures Await(s, n, now).pending.Keys == s.pending.Keys + {Seq(n)}
    ensures Await(s, n, now).pending[Seq(n)].createdAt == now && Await(s, n, now).pending[Seq(n)].octet == 0
    ensures forall k :: k in s.pending && k != Seq(n) ==> Await(s, n, now).pending[k] == s.pending[k]
    ensures Respond(s, m).pending == s.pending - {Seq(m)}
    ensures Seq(n) in Respond(Await(s, n, now), m).pending <==> m != n
    ensures Seq(n) !in s.pending ==> Respond(Await(s, n, now), n) == s
  {
    if Seq(n) !in s.pending {
      assert Respond(Await(s, n, now), n).pending == s.pending;
    }
  }

  /** How far a deliver_sm got: refused before it was built, refused by the queue, or queued. */
  datatype Attempt = NotTried | QueueRefused | Enqueued

  /** SendDeliveryReport, once the session has been found bound and able to receive. */
  function Report(s: Sess, id: uint64, success: bool, n: uint32, attempt: Attempt, now: int): Sess {
    if Msg(id) !in s.pending then s
    else if !ShouldSend(s.pending[Msg(id)].octet, success) then Forget(s, id, [Left(PolicySkip(success))])
    else if attempt == NotTried then s
    else if attempt == QueueRefused then Await(s, n, now)
    else Forget(Await(s, n, now), id, [Queued(success), Left(Sent)])
  }

  function ReportRoutes(routes: Routes, s: Sess, id: uint64, success: bool, attempt: Attempt): Routes {
    if Msg(id) in s.pending && (!ShouldSend(s.pending[Msg(id)].octet, success) || attempt == Enqueued)
    then routes - {id} else routes
  }

  predicate Expired(p: PendingRequest, now: int, ttl: int) {
    p.octet > 0 && now - p.createdAt >= ttl
  }

  /** What is left of a pending map when the expired of the entries seen are gone. */
  function Unexpired(pending: map<PendingKey, PendingRequest>, seen: set<PendingKey>, now: int, ttl: int)
    : map<PendingKey, PendingRequest>
  {
    map k | k in pending && !(k in seen && Expired(pending[k], now, ttl)) :: pending[k]
  }

  lemma {:induction false} UnexpiredNone(pending: map<PendingKey, PendingRequest>, now: int, ttl: int)
    ensures Unexpired(pending, {}, now, ttl) == pending
  {
  }

  lemma {:induction false} UnexpiredKeys(pending: map<PendingKey, PendingRequest>, seen: set<PendingKey>,
                                         now: int, ttl: int)
    ensures forall k :: k in Unexpired(pending, seen, now, ttl) <==>
              k in pending && !(k in seen && pending[k].octet != 0 && now - pending[k].createdAt >= ttl)
  {
  }

  lemma {:induction false} UnexpiredMore(pending: map<PendingKey, PendingRequest>, seen: set<PendingKey>,
                                         k: PendingKey, now: int, ttl: int)
    requires k in pending && k !in seen
    ensures k in Unexpired(pending, seen, now, ttl) && Unexpired(pending, seen, now, ttl)[k] == pending[k]
    ensures Unexpired(pending, seen + {k}, now, ttl) ==
            if Expired(pending[k], now, ttl) then Unexpired(pending, seen, now, ttl) - {k}
            else Unexpired(pending, seen, now, ttl)
  {
  }

  /**
   * One sweep of cleanupPendingRequests over the entries it gets to see while the session
   * is bound: expired ones go, their routes stay.
   */
  function Sweep(s: Sess, seen: set<PendingKey>, now: int, ttl: int): Sess {
    s.(pending := Unexpired(s.pending, seen, now, ttl),
       lives := map id | id in s.lives :: s.lives[id] +
                  (if Msg(id) in s.pending && Msg(id) in seen && Expired(s.pending[Msg(id)], now, ttl)
                   then [Left(TimedOut)] else []))
  }

  /** Stop empties the pending map and unregisters every message ID in it. */
  function Stop(s: Sess): Sess {
    s.(pending := map[],
       lives := map id | id in s.lives :: s.lives[id] + (if Msg(id) in s.pending then [Left(Stopped)] else []))
  }

  function StopRoutes(routes: Routes, s: Sess): Routes {
    map id | id in routes && Msg(id) !in s.pending :: routes[id]
  }

  // ---------------------------------------------------------------- the life of a receipt entry

  /**
   * The only lives a receipt entry can have had: it was never stored; it waits; it left
   * because it was replaced, timed out, or the session stopped; its policy ruled the
   * outcome out; or its receipt was queued, once, for an outcome its policy asks for.
   */
  predicate Lifecycle(s: Sess, id: uint64) {
    var h := Life(s, id);
    if Msg(id) in s.pending then h == [Stored(s.pending[Msg(id)].octet)]
    else
      || h == []
      || (|h| == 2 && h[0].Stored? && h[1].Left? &&
          match h[1].reason
          case Replaced => true
          case TimedOut => h[0].octet > 0
          case Stopped => true
          case PolicySkip(success) => !ShouldSend(h[0].octet, success)
          case Sent => false)
      || (|h| == 3 && h[0].Stored? && h[1].Queued? && ShouldSend(h[0].octet, h[1].success) && h[2] == Left(Sent))
  }

  predicate AllLives(s: Sess) {
    forall id {:trigger Lifecycle(s, id)} :: 0 <= id < 0x1_0000_0000_0000_0000 ==> Lifecycle(s, id)
  }

  predicate NeverStored(s: Sess, id: uint64) {
    Life(s, id) == []
  }

  lemma {:induction false} ForgetKeepsLives(s: Sess, id: uint64, events: seq<Event>)
    requires AllLives(s)
    requires Msg(id) in s.pending ==>
               var octet := s.pending[Msg(id)].octet;
               || events == [Left(Replaced)]
               || (events == [Left(PolicySkip(true))] && !ShouldSend(octet, true))
               || (events == [Left(PolicySkip(false))] && !ShouldSend(octet, false))
               || (events == [Queued(true), Left(Sent)] && ShouldSend(octet, true))
               || (events == [Queued(false), Left(Sent)] && ShouldSend(octet, false))
    ensures AllLives(Forget(s, id, events))
  {
    var after := Forget(s, id, events);
    forall i: uint64 ensures Lifecycle(after, i) {
      assert Lifecycle(s, i);
    }
  }

  lemma {:induction false} SubmitKeepsLives(s: Sess, sub: Submission, entry: Option<PendingRequest>)
    requires AllLives(s) && NeverStored(s, sub.id)
    ensures AllLives(Submit(s, sub, entry))
  {
    var superseded := Supersede(s, sub.key, sub.replacing);
    if sub.replacing && sub.key in s.last {
      ForgetKeepsLives(s, s.last[sub.key], [Left(Replaced)]);
      assert Lifecycle(s, s.last[sub.key]) && Lifecycle(s, sub.id);
      var forgot := Forget(s, s.last[sub.key], [Left(Replaced)]);
      forall i: uint64 ensures Lifecycle(superseded, i) { assert Lifecycle(forgot, i); }
    }
    assert Lifecycle(s, sub.id);
    var after := Submit(s, sub, entry);
    forall i: uint64 ensures Lifecycle(after, i) {
      assert Lifecycle(superseded, i);
    }
  }

  lemma {:induction false} SequenceStepsKeepLives(s: Sess, n: uint32, now: int)
    requires AllLives(s)
    ensures AllLives(Respond(s, n)) && AllLives(Await(s, n, now))
  {
    forall i: uint64 ensures Lifecycle(Respond(s, n), i) && Lifecycle(Await(s, n, now), i) {
      assert Lifecycle(s, i);
    }
  }

  lemma {:induction false} ReportKeepsLives(s: Sess, id: uint64, success: bool, n: uint32, attempt: Attempt, now: int)
    requires AllLives(s)
    ensures AllLives(Report(s, id, success, n, attempt, now))
  {
    SequenceStepsKeepLives(s, n, now);
    if Msg(id) in s.pending {
      if !ShouldSend(s.pending[Msg(id)].octet, success) {
        ForgetKeepsLives(s, id, [Left(PolicySkip(success))]);
      } else if attempt == Enqueued {
        ForgetKeepsLives(Await(s, n, now), id, [Queued(success), Left(Sent)]);
      }
    }
  }

  lemma {:induction false} SweepKeepsLives(s: Sess, seen: set<PendingKey>, now: int, ttl: int)
    requires AllLives(s)
    ensures AllLives(Sweep(s, seen, now, ttl)) && AllLives(Stop(s))
  {
    forall i: uint64 ensures Lifecycle(Sweep(s, seen, now, ttl), i) && Lifecycle(Stop(s), i) {
      assert Lifecycle(s, i);
    }
  }

  // ---------------------------------------------------------------- the replace table

  predicate Takes(sub: Submission, key: bytes) {
    sub.key == key && sub.accepted && sub.id != 0
  }

  /** Submission i is the one the table should name for the key: later ones on the key neither took nor dropped it. */
  predicate IsLast(subs: seq<Submission>, key: bytes, i: int) {
    && 0 <= i < |subs|
    && Takes(subs[i], key)
    && forall j :: i < j < |subs| ==> !Takes(subs[j], key) && !(subs[j].key == key && subs[j].replacing)
  }

  /** replaceSubmitLast refines the submit history. */
  ghost predicate TableRight(s: Sess) {
    && (forall key :: key in s.last ==> exists i :: IsLast(s.submissions, key, i) && s.submissions[i].id == s.last[key])
    && (forall key, i :: IsLast(s.submissions, key, i) ==> key in s.last)
  }

  lemma {:induction false} IsLastUnique(subs: seq<Submission>, key: bytes, i: int, j: int)
    requires IsLast(subs, key, i) && IsLast(subs, key, j)
    ensures i == j
  {
  }

  lemma {:induction false} IsLastSnoc(subs: seq<Submission>, sub: Submission, key: bytes, i: int)
    ensures IsLast(subs + [sub], key, i) <==>
            if i == |subs| then Takes(sub, key)
            else IsLast(subs, key, i) && !Takes(sub, key) && !(sub.key == key && sub.replacing)
  {
    var all := subs + [sub];
    assert all[|subs|] == sub;
    if 0 <= i < |subs| {
      assert forall j :: 0 <= j < |subs| ==> all[j] == subs[j];
      if IsLast(all, key, i) {
        forall j | i < j < |subs| ensures !Takes(subs[j], key) && !(subs[j].key == key && subs[j].replacing) {
          assert all[j] == subs[j];
        }
      }
    }
  }

  /** What a submit does to the table's line for a key. */
  lemma {:induction false} SubmitLast(s: Sess, sub: Submission, entry: Option<PendingRequest>, key: bytes)
    ensures var after := Submit(s, sub, entry);
            && after.submissions == s.submissions + [sub]
            && (key in after.last <==> Takes(sub, key) || (key in s.last && !(sub.key == key && sub.replacing)))
            && (key in after.last ==> after.last[key] == if Takes(sub, key) then sub.id else s.last[key])
  {
  }

  lemma {:induction false} NamesLast(s: Sess, sub: Submission, entry: Option<PendingRequest>, key: bytes)
      returns (i: int)
    requires TableRight(s) && key in Submit(s, sub, entry).last
    ensures var after := Submit(s, sub, entry);
            IsLast(after.submissions, key, i) && after.submissions[i].id == after.last[key]
  {
    SubmitLast(s, sub, entry, key);
    hide Submit;
    if Takes(sub, key) {
      i := |s.submissions|;
    } else {
      i :| IsLast(s.submissions, key, i) && s.submissions[i].id == s.last[key];
    }
    hide TableRight;
    IsLastSnoc(s.submissions, sub, key, i);
    hide IsLast;
  }

  lemma {:induction false} SubmitKeepsTable(s: Sess, sub: Submission, entry: Option<PendingRequest>)
    requires TableRight(s)
    ensures TableRight(Submit(s, sub, entry))
  {
    hide Submit, Takes;
    var after := Submit(s, sub, entry);
    forall key | key in after.last
      ensures exists i :: IsLast(after.submissions, key, i) && after.submissions[i].id == after.last[key]
    {
      var i := NamesLast(s, sub, entry, key);
    }
    forall key, i | IsLast(after.submissions, key, i) ensures key in after.last {
      SubmitLast(s, sub, entry, key);
      IsLastSnoc(s.submissions, sub, key, i);
    }
  }

  /** A replacing submit leaves the superseded message without an entry, and the table naming its own ID or nothing. */
  lemma {:induction false} SupersededIsGone(s: Sess, sub: Submission, entry: Option<PendingRequest>)
    requires sub.replacing && sub.key in s.last && s.last[sub.key] != sub.id
    ensures var earlier := s.last[sub.key];
            var after := Submit(s, sub, entry);
            && Msg(earlier) !in after.pending
            && if sub.accepted && sub.id != 0 then sub.key in after.last && after.last[sub.key] == sub.id
               else sub.key !in after.last
  {
  }
}

/** sequence_number: section 5.1.4 of SMPP v3.4 allows 1 to 0x7FFFFFFF. */
module Sequence {
  import opened Base

  const MAX_SEQUENCE: uint32 := 0x7FFF_FFFF

  /** What getNextSequence returns and leaves in the field. */
  function NextSequence(current: uint32): uint32 {
    if current >= MAX_SEQUENCE then 1 else current + 1
  }

  /** The field after k calls on a fresh session; for k > 0 also what the k-th call returned. */
  function Issued(k: nat): uint32 {
    if k == 0 then 0 else NextSequence(Issued(k - 1))
  }

  /** The k-th call returns ((k - 1) mod 0x7FFFFFFF) + 1. */
  lemma {:induction false} IssuedIs(k: nat)
    requires k > 0
    ensures Issued(k) == (k - 1) % 0x7FFF_FFFF + 1
  {
    if k > 1 {
      IssuedIs(k - 1);
      var m := MAX_SEQUENCE;
      var q, r := (k - 2) / m, (k - 2) % m;
      assert k - 2 == q * m + r;
      if r + 1 < m {
        ModIs(k - 1, q, r + 1, m);
      } else {
        assert k - 1 == (q + 1) * m;
        ModIs(k - 1, q + 1, 0, m);
      }
    }
  }

  lemma {:induction false} ModIs(a: int, q: int, r: int, m: int)
    requires m > 0 && a == q * m + r && 0 <= r < m
    ensures a % m == r
  {
    var q', r' := a / m, a % m;
    assert (q - q') * m == r' - r;
    assert q - q' >= 1 ==> (q - q') * m >= m;
    assert q - q' <= -1 ==> (q - q') * m <= -m;
  }

  /** Two calls return the same number exactly when a whole multiple of 0x7FFFFFFF calls lies between them. */
  lemma {:induction false} SameIssued(j: nat, k: nat)
    requires 0 < j <= k
    ensures Issued(j) == Issued(k) <==> (k - j) % 0x7FFF_FFFF == 0
    ensures 1 <= Issued(k) <= 0x7FFF_FFFF
  {
    var m := MAX_SEQUENCE;
    IssuedIs(j);
    IssuedIs(k);
    var qj, rj, qk, rk := (j - 1) / m, (j - 1) % m, (k - 1) / m, (k - 1) % m;
    assert k - j == (qk - qj) * m + (rk - rj);
    if rk >= rj {
      ModIs(k - j, qk - qj, rk - rj, m);
    } else {
      assert k - j == (qk - qj - 1) * m + (m + rk - rj);
      ModIs(k - j, qk - qj - 1, m + rk - rj, m);
    }
  }
}

/**
 * The outgoing queue: senders put PDUs in, one goroutine takes them out in batches and
 * writes each batch whole. Senders, the taking of each single PDU and the closing of the
 * session interleave freely.
 */
module Outgoing {
  import opened Base

  const BATCH_MAX := 32

  /** A nil body may sit in the queue; it is skipped when taken. */
  type Slot<T> = Option<T>

  function Body<T>(slot: Slot<T>): seq<T> {
    if slot.Some? then [slot.value] else []
  }

  function Bodies<T>(slots: seq<Slot<T>>): seq<T> {
    if slots == [] then [] else Body(slots[0]) + Bodies(slots[1..])
  }

  datatype Batch<T> = Batch(bodies: seq<T>, flushed: bool)

  /** `accepted` and `batches` are history; `hand` is the batch being built, empty between rounds. */
  datatype Link<T> = Link(
    capacity: nat, accepted: seq<Slot<T>>, queue: seq<Slot<T>>, hand: seq<T>,
    batches: seq<Batch<T>>, sent: nat, closed: bool)

  function NewLink<T>(capacity: nat): Link<T> {
    Link(capacity, [], [], [], [], 0, false)
  }

  /** A sender that looked at the session before it closed may still enqueue after. */
  datatype Step<T> = Enqueue(body: Slot<T>) | Take | Send(ok: bool) | Close

  predicate Enabled<T>(l: Link<T>, step: Step<T>) {
    match step
    case Enqueue(_) => |l.queue| < l.capacity
    case Take => l.queue != [] && |l.hand| < BATCH_MAX
    case Send(ok) => l.hand != [] && (ok ==> !l.closed)
    case Close => true
  }

  function Do<T>(l: Link<T>, step: Step<T>): Link<T>
    requires Enabled(l, step)
  {
    match step
    case Enqueue(body) => l.(accepted := l.accepted + [body], queue := l.queue + [body])
    case Take => l.(queue := l.queue[1..], hand := l.hand + Body(l.queue[0]))
    case Send(ok) =>
      l.(hand := [], batches := l.batches + [Batch(l.hand, ok)], sent := if ok then l.sent + |l.hand| else l.sent)
    case Close => l.(closed := true)
  }

  /** The bodies of all batches, or of the flushed ones. */
  function Taken<T>(batches: seq<Batch<T>>, flushedOnly: bool): seq<T> {
    if batches == [] then []
    else
      var last := batches[|batches| - 1];
      Taken(batches[..|batches| - 1], flushedOnly) + (if flushedOnly && !last.flushed then [] else last.bodies)
  }

  ghost predicate Conserved<T>(l: Link<T>) {
    && Bodies(l.accepted) == Taken(l.batches, false) + l.hand + Bodies(l.queue)
    && l.sent == |Taken(l.batches, true)|
    && |l.hand| <= BATCH_MAX
    && |l.queue| <= l.capacity
    && forall i :: 0 <= i < |l.batches| ==> 1 <= |l.batches[i].bodies| <= BATCH_MAX
  }

  lemma {:induction false} BodiesAppend<T>(a: seq<Slot<T>>, b: seq<Slot<T>>)
    ensures Bodies(a + b) == Bodies(a) + Bodies(b)
  {
    if a == [] {
      assert [] + b == b;
    } else {
      assert (a + b)[1..] == a[1..] + b && (a + b)[0] == a[0];
      BodiesAppend(a[1..], b);
      hide Body;
      Assoc(Body(a[0]), Bodies(a[1..]), Bodies(b));
    }
  }

  lemma {:induction false} EnqueueConserves<T>(l: Link<T>, body: Slot<T>)
    requires Conserved(l) && |l.queue| < l.capacity
    ensures Conserved(Do(l, Enqueue(body)))
  {
    hide Taken, Bodies, Body;
    BodiesAppend(l.accepted, [body]);
    BodiesAppend(l.queue, [body]);
    Assoc(Taken(l.batches, false) + l.hand, Bodies(l.queue), Bodies([body]));
  }

  lemma {:induction false} TakeConserves<T>(l: Link<T>)
    requires Conserved(l) && l.queue != [] && |l.hand| < BATCH_MAX
    ensures Conserved(Do(l, Take))
  {
    var body, rest := Body(l.queue[0]), Bodies(l.queue[1..]);
    assert Bodies(l.queue) == body + rest;
    hide Taken, Bodies;
    Assoc(Taken(l.batches, false) + l.hand, body, rest);
    Assoc(Taken(l.batches, false), l.hand, body);
  }

  lemma {:induction false} StepConserves<T>(l: Link<T>, step: Step<T>)
    requires Conserved(l) && Enabled(l, step)
    ensures Conserved(Do(l, step))
  {
    match step {
      case Enqueue(body) => EnqueueConserves(l, body);
      case Take => TakeConserves(l);
      case Send(ok) =>
        hide Bodies;
        var batches := l.batches + [Batch(l.hand, ok)];
        assert batches[..|batches| - 1] == l.batches;
      case Close =>
    }
  }

  lemma {:induction false} CloseConserves<T>(l: Link<T>)
    requires Conserved(l)
    ensures Conserved(l.(closed := true))
  {
  }

  predicate Legal<T>(l: Link<T>, steps: seq<Step<T>>)
    decreases steps
  {
    steps == [] || (Enabled(l, steps[0]) && Legal(Do(l, steps[0]), steps[1..]))
  }

  function Run<T>(l: Link<T>, steps: seq<Step<T>>): Link<T>
    requires Legal(l, steps)
    decreases steps
  {
    if steps == [] then l else Run(Do(l, steps[0]), steps[1..])
  }

  lemma {:induction false} RunConserves<T>(l: Link<T>, steps: seq<Step<T>>)
    requires Conserved(l) && Legal(l, steps)
    ensures Conserved(Run(l, steps))
    decreases steps
  {
    if steps != [] {
      StepConserves(l, steps[0]);
      RunConserves(Do(l, steps[0]), steps[1..]);
    }
  }

  lemma {:induction false} AllFlushed<T>(batches: seq<Batch<T>>)
    requires forall i :: 0 <= i < |batches| ==> batches[i].flushed
    ensures Taken(batches, true) == Taken(batches, false)
    decreases |batches|
  {
    if batches != [] {
      AllFlushed(batches[..|batches| - 1]);
    }
  }

  predicate NoSendFailed<T>(steps: seq<Step<T>>) {
    forall i :: 0 <= i < |steps| ==> steps[i] != Send(false)
  }

  lemma {:induction false} RunFlushes<T>(l: Link<T>, steps: seq<Step<T>>)
    requires Legal(l, steps) && NoSendFailed(steps)
    requires forall i :: 0 <= i < |l.batches| ==> l.batches[i].flushed
    ensures forall i :: 0 <= i < |Run(l, steps).batches| ==> Run(l, steps).batches[i].flushed
    decreases steps
  {
    if steps != [] {
      assert steps[0] != Send(false);
      RunFlushes(Do(l, steps[0]), steps[1..]);
    }
  }

  /**
   * FIFO conservation: over any run, what was taken, then the batch in hand, then the
   * queue, are the accepted PDUs in enqueue order; until a send fails, what was taken is
   * what was flushed. Batches hold 1 to 32 PDUs and MessagesSent counts those flushed.
   */
  lemma {:induction false} Fifo<T>(capacity: nat, steps: seq<Step<T>>)
    requires Legal(NewLink<T>(capacity), steps)
    ensures var l := Run(NewLink<T>(capacity), steps);
            && Bodies(l.accepted) == Taken(l.batches, false) + l.hand + Bodies(l.queue)
            && (NoSendFailed(steps) ==> Bodies(l.accepted) == Taken(l.batches, true) + l.hand + Bodies(l.queue))
            && l.sent == |Taken(l.batches, true)|
            && (forall i :: 0 <= i < |l.batches| ==> 1 <= |l.batches[i].bodies| <= 32)
            && |l.hand| <= 32 && |l.queue| <= capacity
  {
    var start := NewLink<T>(capacity);
    RunConserves(start, steps);
    RunCapacity(start, steps);
    if NoSendFailed(steps) {
      RunFlushes(start, steps);
      AllFlushed(Run(start, steps).batches);
    }
  }

  lemma {:induction false} RunCapacity<T>(l: Link<T>, steps: seq<Step<T>>)
    requires Legal(l, steps)
    ensures Run(l, steps).capacity == l.capacity
    decreases steps
  {
    if steps != [] { RunCapacity(Do(l, steps[0]), steps[1..]); }
  }

  // ---------------------------------------------------------------- one undisturbed round of outgoingHandler

  /** How many slots a drain takes when nobody else touches the queue: the least number that fills the batch, or all. */
  function DrainLength<T>(room: nat, queue: seq<Slot<T>>): (n: nat)
    ensures n <= |queue| && |Bodies(queue[..n])| <= room
    ensures n < |queue| ==> |Bodies(queue[..n])| == room
    decreases |queue|
  {
    if room == 0 || queue == [] then assert queue[..0] == []; 0
    else
      var rest := DrainLength(if queue[0].Some? then room - 1 else room, queue[1..]);
      assert queue[..1 + rest][1..] == queue[1..][..rest];
      1 + rest
  }

  /** Take the first slot; if it holds a body, drain behind it and send the batch. */
  function Round<T>(l: Link<T>, ok: bool): Link<T>
    requires l.queue != []
  {
    if l.queue[0].None? then l.(queue := l.queue[1..])
    else
      var n := DrainLength(BATCH_MAX - 1, l.queue[1..]);
      var batch := [l.queue[0].value] + Bodies(l.queue[1..][..n]);
      l.(queue := l.queue[1..][n..], batches := l.batches + [Batch(batch, ok)],
         sent := if ok then l.sent + |batch| else l.sent)
  }

  function Takes<T>(n: nat): seq<Step<T>> {
    seq(n, _ => Take)
  }

  lemma {:induction false} RunJoin<T>(l: Link<T>, a: seq<Step<T>>, b: seq<Step<T>>)
    requires Legal(l, a) && Legal(Run(l, a), b)
    ensures Legal(l, a + b) && Run(l, a + b) == Run(Run(l, a), b)
    decreases a
  {
    hide Do, Enabled;
    if a == [] {
      assert [] + b == b;
    } else {
      assert (a + b)[1..] == a[1..] + b && (a + b)[0] == a[0];
      RunJoin(Do(l, a[0]), a[1..], b);
    }
  }

  lemma {:induction false} DrainFirst<T>(room: nat, queue: seq<Slot<T>>)
    requires room > 0 && queue != []
    ensures var n := DrainLength(room - |Body(queue[0])|, queue[1..]);
            && DrainLength(room, queue) == 1 + n
            && queue[1 + n..] == queue[1..][n..]
            && Bodies(queue[..1 + n]) == Body(queue[0]) + Bodies(queue[1..][..n])
  {
    var n := DrainLength(room - |Body(queue[0])|, queue[1..]);
    assert queue[..1 + n][1..] == queue[1..][..n];
  }

  lemma {:induction false} DrainDone<T>(room: nat, queue: seq<Slot<T>>)
    requires room == 0 || queue == []
    ensures DrainLength(room, queue) == 0 && Bodies(queue[..0]) == [] && queue[0..] == queue
  {
  }

  lemma {:induction false} TakesDrain<T>(l: Link<T>, n: nat)
    requires |l.hand| <= BATCH_MAX && n == DrainLength(BATCH_MAX - |l.hand|, l.queue)
    ensures Legal(l, Takes(n))
    ensures Run(l, Takes(n)) == l.(queue := l.queue[n..], hand := l.hand + Bodies(l.queue[..n]))
    decreases |l.queue|
  {
    var room := BATCH_MAX - |l.hand|;
    if room == 0 || l.queue == [] {
      assert Takes<T>(0) == [] && l.queue[..0] == [];
    } else {
      DrainFirst(room, l.queue);
      var next := Do(l, Take);
      hide DrainLength, Bodies;
      assert |Body(l.queue[0])| <= 1;
      TakesDrain(next, n - 1);
      assert Takes<T>(n) == [Take] + Takes<T>(n - 1);
      OneStep(l, Take);
      RunJoin(l, [Take], Takes(n - 1));
      hide Body, Legal, Run;
      Assoc(l.hand, Body(l.queue[0]), Bodies(next.queue[..n - 1]));
    }
  }

  /** A round is a legal run: one take, then takes up to the batch limit, then one send. */
  lemma {:induction false} RoundIsRun<T>(l: Link<T>, ok: bool) returns (steps: seq<Step<T>>)
    requires l.queue != [] && l.hand == [] && (ok ==> !l.closed)
    ensures Legal(l, steps) && Run(l, steps) == Round(l, ok)
  {
    var first := Do(l, Take);
    OneStep(l, Take);
    steps := [Take];
    if l.queue[0].Some? {
      var n := DrainLength(BATCH_MAX - 1, l.queue[1..]);
      assert first.hand == [l.queue[0].value];
      TakesDrain(first, n);
      RunJoin(l, steps, Takes(n));
      steps := steps + Takes(n);
      var full := Run(l, steps);
      OneStep(full, Send(ok));
      RunJoin(l, steps, [Send(ok)]);
      steps := steps + [Send(ok)];
    }
  }

  lemma {:induction false} OneStep<T>(l: Link<T>, step: Step<T>)
    requires Enabled(l, step)
    ensures Legal(l, [step]) && Run(l, [step]) == Do(l, step)
  {
    assert [step][1..] == [];
  }
}

/** The keep-alive automaton: enquire_link is retried until the limit, then the session is deleted. */
module Enquire {
  const INT32_MAX := 0x7FFF_FFFF

  /** `unanswered` is history: enquire_links enqueued since the last enquire_link_resp. */
  datatype Keeper = Keeper(retry: int, unanswered: nat, deleted: bool)

  const ALIVE := Keeper(0, 0, false)

  /** The counter is a 32-bit atomic. */
  function Increment(retry: int): int {
    if retry == INT32_MAX then -INT32_MAX - 1 else retry + 1
  }

  datatype Event = Check(inactive: bool, enqueued: bool) | Answer

  /**
   * checkSessionInactivity with sendEnquireLinkReq, and the enquire_link_resp branch; a deleted
   * session is never checked.
   */
  function Do(k: Keeper, e: Event, limit: int): Keeper {
    match e
    case Answer => k.(retry := 0, unanswered := 0)
    case Check(inactive, enqueued) =>
      if k.deleted || !inactive then k
      else if k.retry >= limit then k.(deleted := true)
      else if !enqueued then k.(deleted := true)
      else k.(retry := Increment(k.retry), unanswered := k.unanswered + 1)
  }

  function Run(k: Keeper, events: seq<Event>, limit: int): Keeper {
    if events == [] then k else Do(Run(k, events[..|events| - 1], limit), events[|events| - 1], limit)
  }

  predicate Counts(k: Keeper, limit: int) {
    k.retry == k.unanswered && k.retry <= limit
  }

  lemma {:induction false} RunCounts(k: Keeper, events: seq<Event>, limit: int)
    requires 0 <= limit <= INT32_MAX && Counts(k, limit)
    ensures Counts(Run(k, events, limit), limit)
    decreases |events|
  {
    if events != [] {
      RunCounts(k, events[..|events| - 1], limit);
    }
  }

  function Silent(n: nat): seq<Event> {
    seq(n, _ => Check(true, true))
  }

  lemma {:induction false} SilentCounts(n: nat, limit: int)
    requires n <= INT32_MAX < limit
    ensures Run(ALIVE, Silent(n), limit) == Keeper(n, n, false)
  {
    if n > 0 {
      SilentCounts(n - 1, limit);
      assert Silent(n)[..n - 1] == Silent(n - 1);
    }
  }

  /**
   * In every run from a fresh session the counter is the number of enquire_links enqueued
   * since the last answer and never passes the limit, exactly when the limit is a
   * non-negative 32-bit integer.
   */
  lemma {:induction false} RetryBounded(limit: int)
    ensures (forall events :: Counts(Run(ALIVE, events, limit), limit)) <==> 0 <= limit <= 0x7FFF_FFFF
  {
    if 0 <= limit <= INT32_MAX {
      forall events ensures Counts(Run(ALIVE, events, limit), limit) {
        RunCounts(ALIVE, events, limit);
      }
    } else if limit < 0 {
      assert !Counts(Run(ALIVE, [], limit), limit);
    } else {
      var n := INT32_MAX + 1;
      SilentCounts(INT32_MAX, limit);
      assert Silent(n)[..n - 1] == Silent(INT32_MAX);
      assert !Counts(Run(ALIVE, Silent(n), limit), limit);
    }
  }

  /** How many checks have found the session inactive since its last answer. */
  function Silence(events: seq<Event>): nat {
    if events == [] then 0
    else match events[|events| - 1]
      case Answer => 0
      case Check(inactive, _) => Silence(events[..|events| - 1]) + if inactive then 1 else 0
  }

  /** Check i is the end: it finds the session inactive, and silent for too long or not to be asked. */
  predicate Fatal(events: seq<Event>, i: int, limit: int) {
    && 0 <= i < |events|
    && events[i].Check? && events[i].inactive
    && (!events[i].enqueued || Silence(events[..i]) >= limit)
  }

  /**
   * Read off the events alone: a session is deleted exactly if some check was fatal; until then
   * the counter is its silence.
   */
  lemma {:induction false} DeletedExactly(events: seq<Event>, limit: int)
    requires 0 <= limit <= INT32_MAX
    ensures var k := Run(ALIVE, events, limit);
            && (k.deleted <==> exists i :: Fatal(events, i, limit))
            && (!k.deleted ==> k.retry == Silence(events))
    decreases |events|
  {
    if events != [] {
      var n := |events| - 1;
      var front := events[..n];
      DeletedExactly(front, limit);
      RunCounts(ALIVE, front, limit);
      assert forall i :: 0 <= i < n ==> front[..i] == events[..i];
      assert forall i :: Fatal(front, i, limit) ==> Fatal(events, i, limit);
      assert forall i :: Fatal(events, i, limit) && i < n ==> Fatal(front, i, limit);
      var k := Run(ALIVE, front, limit);
      assert !k.deleted ==> (Run(ALIVE, events, limit).deleted <==> Fatal(events, n, limit));
    }
  }

  predicate AllSilent(events: seq<Event>) {
    forall i :: 0 <= i < |events| ==> events[i].Check? && events[i].inactive
  }

  /**
   * A session that is inactive at every check and never answers: from retry count r it is
   * deleted exactly by check limit + 1 - r, or earlier by a check that cannot enqueue.
   */
  lemma {:induction false} SilentIsDeleted(k: Keeper, events: seq<Event>, limit: int)
    requires 0 <= limit <= INT32_MAX && Counts(k, limit) && !k.deleted && AllSilent(events)
    ensures var end := Run(k, events, limit);
            && (end.deleted <==> |events| > limit - k.retry || exists i :: 0 <= i < |events| && !events[i].enqueued)
            && (!end.deleted ==> end.retry == k.retry + |events|)
    decreases |events|
  {
    if events != [] {
      var n := |events| - 1;
      SilentIsDeleted(k, events[..n], limit);
      RunCounts(k, events[..n], limit);
      var before := Run(k, events[..n], limit);
      assert events[n].Check? && events[n].inactive;
      if before.deleted && n <= limit - k.retry {
        var i :| 0 <= i < n && !events[..n][i].enqueued;
        assert !events[i].enqueued;
      }
    }
  }
}

/**
 * AddSegment as it really runs: a locked update that leaves a private copy, an
 * unlocked completion test, and a locked delete, interleaved step by step with
 * other calls, with sweeps and with Stops of single shards.
 */
module Interleaving {
  import opened Base
  import opened Reassembly

  /** A call in flight: its number, and the ticket its first critical section left it with. */
  datatype InFlight = InFlight(call: nat, ticket: Ticket, tested: bool)

  datatype System = System(
    store: Store,
    running: map<nat, InFlight>,  // by adder
    calls: nat,                   // calls begun so far
    results: map<nat, Reply>)     // by call number

  datatype Event =
    | UpdateEvent(adder: nat, gen: Option<uint64>, seg: Segment)
    | TestEvent(adder: nat)
    | DeleteEvent(adder: nat)
    | SweepEvent(part: bytes -> bool, now: int)
    | StopEvent(part: bytes -> bool)

  /** The scheduler may pick any event whose adder is at that point of its call. */
  predicate Enabled(sys: System, e: Event) {
    match e
    case UpdateEvent(a, _, _) => a !in sys.running
    case TestEvent(a) => a in sys.running && !sys.running[a].tested
    case DeleteEvent(a) => a in sys.running && sys.running[a].tested && sys.running[a].ticket.Filed?
    case SweepEvent(_, _) => true
    case StopEvent(_) => true
  }

  function Step(sys: System, cfg: Config, e: Event): System
    requires StoreOk(sys.store, cfg.maxSegments) && Enabled(sys, e)
  {
    match e
    case UpdateEvent(a, gen, seg) =>
      var (store, ticket) := Update(sys.store, cfg.maxSegments, gen, seg);
      System(store, sys.running[a := InFlight(sys.calls, ticket, false)], sys.calls + 1, sys.results)
    case TestEvent(a) =>
      var f := sys.running[a];
      if MustDelete(f.ticket) then sys.(running := sys.running[a := f.(tested := true)])
      else sys.(running := sys.running - {a}, results := sys.results[f.call := ReplyOf(f.ticket)])
    case DeleteEvent(a) =>
      var f := sys.running[a];
      sys.(store := sys.store - {f.ticket.key},
           running := sys.running - {a},
           results := sys.results[f.call := ReplyOf(f.ticket)])
    case SweepEvent(part, now) => sys.(store := SweptPart(sys.store, part, now, cfg.maxAge))
    case StopEvent(part) => sys.(store := StoppedPart(sys.store, part))
  }

  /** Some call has completed group k and has yet to delete it. */
  predicate Doomed(sys: System, k: bytes) {
    exists a :: a in sys.running && MustDelete(sys.running[a].ticket) && sys.running[a].ticket.key == k
  }

  /** The one thing adders must not do: file into a group whose delete is still pending. */
  predicate Guarded(sys: System, cfg: Config, e: Event) {
    e.UpdateEvent? && e.gen.Some? && Acceptable(cfg.maxSegments, e.seg) ==> !Doomed(sys, e.seg.groupID)
  }

  /** What the event amounts to when calls are atomic at their first lock. */
  function AtomicCall(e: Event): seq<Call> {
    match e
    case UpdateEvent(_, gen, seg) => [AddCall(gen, seg)]
    case SweepEvent(part, now) => [SweepCall(part, now)]
    case StopEvent(part) => [StopCall(part)]
    case TestEvent(_) => []
    case DeleteEvent(_) => []
  }

  function AtomicCalls(events: seq<Event>): seq<Call> {
    if events == [] then [] else AtomicCall(events[0]) + AtomicCalls(events[1..])
  }

  // ---------------------------------------------------------------- the simulation

  /** The store as the atomic machine has it: groups awaiting their delete are already gone. */
  function Visible(sys: System): Store {
    map k | k in sys.store && !Doomed(sys, k) :: sys.store[k]
  }

  predicate Answered(sys: System, replies: seq<Reply>) {
    && sys.calls == |replies|
    && (forall a :: a in sys.running ==>
          sys.running[a].call < |replies| && replies[sys.running[a].call] == ReplyOf(sys.running[a].ticket))
    && (forall n :: n in sys.results ==> n < |replies| && sys.results[n] == replies[n])
    && (forall a :: a in sys.running && sys.running[a].tested ==> MustDelete(sys.running[a].ticket))
  }

  /** Every call begun has either returned or is in flight. */
  predicate Accounted(sys: System) {
    forall n :: 0 <= n < sys.calls ==> n in sys.results || exists a :: a in sys.running && sys.running[a].call == n
  }

  predicate Simulates(sys: System, store: Store, replies: seq<Reply>, cfg: Config) {
    && StoreOk(sys.store, cfg.maxSegments)
    && store == Visible(sys)
    && StoreInv(store, cfg.maxSegments)
    && Answered(sys, replies)
  }

  lemma {:induction false} AccountedStep(sys: System, cfg: Config, e: Event)
    requires StoreOk(sys.store, cfg.maxSegments) && Enabled(sys, e) && Accounted(sys)
    ensures Accounted(Step(sys, cfg, e))
  {
    var after := Step(sys, cfg, e);
    forall n | 0 <= n < after.calls
      ensures n in after.results || exists a :: a in after.running && after.running[a].call == n
    {
      if n < sys.calls {
        if n !in sys.results {
          var a :| a in sys.running && sys.running[a].call == n;
          assert a in after.running ==> after.running[a].call == n;
        }
      } else {
        assert after.running[e.adder].call == n;
      }
    }
  }

  lemma {:induction false} DoomedAfterUpdate(sys: System, cfg: Config, e: Event, k: bytes)
    requires StoreOk(sys.store, cfg.maxSegments) && Enabled(sys, e) && e.UpdateEvent?
    ensures var t := Update(sys.store, cfg.maxSegments, e.gen, e.seg).1;
            Doomed(Step(sys, cfg, e), k) <==> Doomed(sys, k) || (MustDelete(t) && t.key == k)
  {
    var after := Step(sys, cfg, e);
    if Doomed(sys, k) {
      var a :| a in sys.running && MustDelete(sys.running[a].ticket) && sys.running[a].ticket.key == k;
      assert after.running[a] == sys.running[a];
    }
    assert after.running[e.adder].ticket == Update(sys.store, cfg.maxSegments, e.gen, e.seg).1;
  }

  /** Unless its group is doomed, a call finds the same group in both stores. */
  lemma {:induction false} SameTicket(sys: System, cfg: Config, e: Event)
    requires StoreOk(sys.store, cfg.maxSegments) && StoreOk(Visible(sys), cfg.maxSegments)
    requires e.UpdateEvent? && Guarded(sys, cfg, e)
    ensures Update(Visible(sys), cfg.maxSegments, e.gen, e.seg).1 == Update(sys.store, cfg.maxSegments, e.gen, e.seg).1
  {
    var k := e.seg.groupID;
    if e.gen.Some? && Acceptable(cfg.maxSegments, e.seg) {
      assert k in Visible(sys) <==> k in sys.store;
      assert GroupFor(Visible(sys), e.seg) == GroupFor(sys.store, e.seg);
    }
  }

  lemma {:induction false} SameStore(sys: System, cfg: Config, e: Event)
    requires StoreOk(sys.store, cfg.maxSegments) && StoreOk(Visible(sys), cfg.maxSegments)
    requires e.UpdateEvent? && Enabled(sys, e) && Guarded(sys, cfg, e)
    ensures Visible(Step(sys, cfg, e)) == Add(Visible(sys), cfg.maxSegments, e.gen, e.seg).0
  {
    hide Complete, Texts, Coding, GroupOk, GroupIdFor;
    var after := Step(sys, cfg, e);
    SameTicket(sys, cfg, e);
    var t := Update(sys.store, cfg.maxSegments, e.gen, e.seg).1;
    var expected := Settle(Update(Visible(sys), cfg.maxSegments, e.gen, e.seg).0, t);
    forall j
      ensures j in Visible(after) <==> j in expected
      ensures j in expected && j in after.store ==> expected[j] == after.store[j]
    {
      DoomedAfterUpdate(sys, cfg, e, j);
    }
  }

  lemma {:induction false} UpdateSimulates(sys: System, store: Store, replies: seq<Reply>, cfg: Config, e: Event)
    requires Simulates(sys, store, replies, cfg) && Enabled(sys, e) && Guarded(sys, cfg, e) && e.UpdateEvent?
    ensures var (store', reply) := Add(store, cfg.maxSegments, e.gen, e.seg);
            Simulates(Step(sys, cfg, e), store', replies + [reply], cfg)
  {
    UpdateOk(sys.store, cfg.maxSegments, e.gen, e.seg);
    AddKeepsInvariant(store, cfg.maxSegments, e.gen, e.seg);
    SameTicket(sys, cfg, e);
    SameStore(sys, cfg, e);
    UpdateAnswers(sys, replies, cfg, e);
  }

  lemma {:induction false} UpdateAnswers(sys: System, replies: seq<Reply>, cfg: Config, e: Event)
    requires StoreOk(sys.store, cfg.maxSegments) && Enabled(sys, e) && e.UpdateEvent? && Answered(sys, replies)
    ensures Answered(Step(sys, cfg, e),
                     replies + [ReplyOf(Update(sys.store, cfg.maxSegments, e.gen, e.seg).1)])
  {
    var t := Update(sys.store, cfg.maxSegments, e.gen, e.seg).1;
    assert (replies + [ReplyOf(t)])[|replies|] == ReplyOf(t);
  }

  lemma {:induction false} DoomedAfterReturn(sys: System, cfg: Config, e: Event, k: bytes)
    requires StoreOk(sys.store, cfg.maxSegments) && Enabled(sys, e) && (e.TestEvent? || e.DeleteEvent?)
    ensures Doomed(Step(sys, cfg, e), k) ==> Doomed(sys, k)
    ensures Doomed(sys, k) ==>
              Doomed(Step(sys, cfg, e), k) || (e.DeleteEvent? && k == sys.running[e.adder].ticket.key)
  {
    var after := Step(sys, cfg, e);
    if Doomed(after, k) {
      var a :| a in after.running && MustDelete(after.running[a].ticket) && after.running[a].ticket.key == k;
      assert sys.running[a].ticket == after.running[a].ticket;
    }
    if Doomed(sys, k) {
      var a :| a in sys.running && MustDelete(sys.running[a].ticket) && sys.running[a].ticket.key == k;
      assert a in after.running ==> after.running[a].ticket == sys.running[a].ticket;
    }
  }

  /** A return is invisible: the group it deletes was hidden already. */
  lemma {:induction false} ReturnVisible(sys: System, cfg: Config, e: Event)
    requires StoreOk(sys.store, cfg.maxSegments) && Enabled(sys, e) && (e.TestEvent? || e.DeleteEvent?)
    requires e.DeleteEvent? ==> MustDelete(sys.running[e.adder].ticket)
    ensures Visible(Step(sys, cfg, e)) == Visible(sys)
  {
    hide MustDelete, StoreOk;
    var after := Step(sys, cfg, e);
    if e.DeleteEvent? {
      assert Doomed(sys, sys.running[e.adder].ticket.key);
    }
    forall j ensures Doomed(after, j) ==> Doomed(sys, j)
             ensures Doomed(sys, j) ==> Doomed(after, j) || (e.DeleteEvent? && j == sys.running[e.adder].ticket.key)
    {
      DoomedAfterReturn(sys, cfg, e, j);
    }
    hide Doomed;
  }

  lemma {:induction false} ReturnAnswers(sys: System, replies: seq<Reply>, cfg: Config, e: Event)
    requires StoreOk(sys.store, cfg.maxSegments) && Enabled(sys, e) && (e.TestEvent? || e.DeleteEvent?)
    requires Answered(sys, replies)
    ensures Answered(Step(sys, cfg, e), replies) && StoreOk(Step(sys, cfg, e).store, cfg.maxSegments)
  {
    hide ReplyOf, MustDelete, GroupOk;
  }

  lemma {:induction false} ReturnSimulates(sys: System, store: Store, replies: seq<Reply>, cfg: Config, e: Event)
    requires Simulates(sys, store, replies, cfg) && Enabled(sys, e) && (e.TestEvent? || e.DeleteEvent?)
    ensures Simulates(Step(sys, cfg, e), store, replies, cfg)
  {
    ReturnAnswers(sys, replies, cfg, e);
    ReturnVisible(sys, cfg, e);
    hide Visible, StoreOk, StoreInv, Step, Doomed;
  }

  lemma {:induction false} ShardVisible(sys: System, cfg: Config, e: Event)
    requires StoreOk(sys.store, cfg.maxSegments)
    ensures e.SweepEvent? ==> Visible(Step(sys, cfg, e)) == SweptPart(Visible(sys), e.part, e.now, cfg.maxAge)
    ensures e.StopEvent? ==> Visible(Step(sys, cfg, e)) == StoppedPart(Visible(sys), e.part)
  {
    hide Keeps, GroupOk;
    if e.SweepEvent? || e.StopEvent? {
      var after := Step(sys, cfg, e);
      forall k ensures Doomed(after, k) <==> Doomed(sys, k) {
        assert after.running == sys.running;
      }
      hide Doomed;
    }
  }

  lemma {:induction false} ShardSimulates(sys: System, store: Store, replies: seq<Reply>, cfg: Config, e: Event)
    requires Simulates(sys, store, replies, cfg) && (e.SweepEvent? || e.StopEvent?)
    ensures e.SweepEvent? ==> Simulates(Step(sys, cfg, e), SweptPart(store, e.part, e.now, cfg.maxAge), replies, cfg)
    ensures e.StopEvent? ==> Simulates(Step(sys, cfg, e), StoppedPart(store, e.part), replies, cfg)
  {
    ShardVisible(sys, cfg, e);
    hide Visible, Doomed, Keeps, GroupOk, Complete;
  }

  lemma {:induction false} StepSimulates(sys: System, store: Store, replies: seq<Reply>, cfg: Config, e: Event)
    requires Simulates(sys, store, replies, cfg) && Enabled(sys, e) && Guarded(sys, cfg, e)
    ensures var (store', told) := StoreRun(store, cfg, AtomicCall(e));
            Simulates(Step(sys, cfg, e), store', replies + told, cfg)
  {
    OneCallRun(store, cfg, e);
    match e {
      case UpdateEvent(_, _, _) => UpdateSimulates(sys, store, replies, cfg, e);
      case SweepEvent(_, _) => ShardSimulates(sys, store, replies, cfg, e);
      case StopEvent(_) => ShardSimulates(sys, store, replies, cfg, e);
      case TestEvent(_) => ReturnSimulates(sys, store, replies, cfg, e);
      case DeleteEvent(_) => ReturnSimulates(sys, store, replies, cfg, e);
    }
    assert replies + [] == replies;
  }

  lemma {:induction false} OneCallRun(store: Store, cfg: Config, e: Event)
    requires StoreInv(store, cfg.maxSegments)
    ensures StoreRun(store, cfg, AtomicCall(e)) ==
            if AtomicCall(e) == [] then (store, []) else StoreStep(store, cfg, AtomicCall(e)[0])
  {
    if AtomicCall(e) != [] {
      var (store', told) := StoreStep(store, cfg, AtomicCall(e)[0]);
      assert AtomicCall(e)[1..] == [];
      assert told + [] == told;
    }
  }

  lemma {:induction false} RunInTwo(store: Store, cfg: Config, first: seq<Call>, second: seq<Call>)
    requires StoreInv(store, cfg.maxSegments)
    ensures var (mid, told) := StoreRun(store, cfg, first);
            StoreRun(store, cfg, first + second) ==
            (StoreRun(mid, cfg, second).0, told + StoreRun(mid, cfg, second).1)
    decreases first
  {
    if first == [] {
      assert first + second == second;
      assert [] + StoreRun(store, cfg, second).1 == StoreRun(store, cfg, second).1;
    } else {
      assert (first + second)[1..] == first[1..] + second;
      var (next, told) := StoreStep(store, cfg, first[0]);
      RunInTwo(next, cfg, first[1..], second);
      var (mid, more) := StoreRun(next, cfg, first[1..]);
      assert StoreRun(store, cfg, first) == (mid, told + more);
      assert told + (more + StoreRun(mid, cfg, second).1) == (told + more) + StoreRun(mid, cfg, second).1;
    }
  }

  // ---------------------------------------------------------------- whole runs

  function Run(sys: System, cfg: Config, events: seq<Event>): Option<System>
    decreases events
  {
    if events == [] then Some(sys)
    else if StoreOk(sys.store, cfg.maxSegments) && Enabled(sys, events[0]) then
      Run(Step(sys, cfg, events[0]), cfg, events[1..])
    else None
  }

  predicate GuardedRun(sys: System, cfg: Config, events: seq<Event>)
    decreases events
  {
    events == [] ||
    (StoreOk(sys.store, cfg.maxSegments) && Enabled(sys, events[0]) && Guarded(sys, cfg, events[0]) &&
     GuardedRun(Step(sys, cfg, events[0]), cfg, events[1..]))
  }

  /** The atomic run of all events is that of the first, then that of the rest. */
  lemma {:induction false} AtomicFirst(store: Store, replies: seq<Reply>, cfg: Config, events: seq<Event>)
    requires StoreInv(store, cfg.maxSegments) && events != []
    ensures var first := StoreRun(store, cfg, AtomicCall(events[0]));
            var rest := StoreRun(first.0, cfg, AtomicCalls(events[1..]));
            var whole := StoreRun(store, cfg, AtomicCalls(events));
            whole.0 == rest.0 && replies + whole.1 == (replies + first.1) + rest.1
  {
    assert AtomicCalls(events) == AtomicCall(events[0]) + AtomicCalls(events[1..]);
    hide *;
    var first := StoreRun(store, cfg, AtomicCall(events[0]));
    RunInTwo(store, cfg, AtomicCall(events[0]), AtomicCalls(events[1..]));
    Assoc(replies, first.1, StoreRun(first.0, cfg, AtomicCalls(events[1..])).1);
  }

  lemma {:induction false} RunSimulates(
    sys: System, store: Store, replies: seq<Reply>, cfg: Config, events: seq<Event>)
    returns (end: System, all: seq<Reply>)
    requires StoreInv(store, cfg.maxSegments)
    requires Simulates(sys, store, replies, cfg) && GuardedRun(sys, cfg, events)
    ensures Run(sys, cfg, events) == Some(end)
    ensures all == replies + StoreRun(store, cfg, AtomicCalls(events)).1
    ensures Simulates(end, StoreRun(store, cfg, AtomicCalls(events)).0, all, cfg)
    decreases events
  {
    hide *;
    if events == [] {
      NoEvents(sys, store, replies, cfg);
      end, all := sys, replies;
    } else {
      Unfold(sys, cfg, events);
      var first := StoreRun(store, cfg, AtomicCall(events[0]));
      StepSimulates(sys, store, replies, cfg, events[0]);
      AtomicFirst(store, replies, cfg, events);
      end, all := RunSimulates(Step(sys, cfg, events[0]), first.0, replies + first.1, cfg, events[1..]);
    }
  }

  lemma {:induction false} NoEvents(sys: System, store: Store, replies: seq<Reply>, cfg: Config)
    requires StoreInv(store, cfg.maxSegments)
    ensures Run(sys, cfg, []) == Some(sys)
    ensures StoreRun(store, cfg, AtomicCalls([])) == (store, []) && replies + [] == replies
  {
  }

  lemma {:induction false} Unfold(sys: System, cfg: Config, events: seq<Event>)
    requires events != [] && GuardedRun(sys, cfg, events)
    ensures StoreOk(sys.store, cfg.maxSegments) && Enabled(sys, events[0]) && Guarded(sys, cfg, events[0])
    ensures GuardedRun(Step(sys, cfg, events[0]), cfg, events[1..])
    ensures Run(sys, cfg, events) == Run(Step(sys, cfg, events[0]), cfg, events[1..])
  {
  }

  lemma {:induction false} RunAccounts(sys: System, cfg: Config, events: seq<Event>)
    requires Accounted(sys) && Run(sys, cfg, events).Some?
    ensures Accounted(Run(sys, cfg, events).value)
    decreases events
  {
    if events != [] {
      AccountedStep(sys, cfg, events[0]);
      RunAccounts(Step(sys, cfg, events[0]), cfg, events[1..]);
    }
  }

  const EMPTY := System(map[], map[], 0, map[])

  /**
   * Linearizability: as long as no adder files into a group whose delete is
   * pending, every call returns what it would have returned had it run atomically
   * at its first lock, and once nothing is in flight the stores are equal.
   */
  lemma {:induction false} Linearizable(cfg: Config, events: seq<Event>)
    requires GuardedRun(EMPTY, cfg, events)
    ensures var end := Run(EMPTY, cfg, events);
            var (store, replies) := StoreRun(map[], cfg, AtomicCalls(events));
            && end.Some?
            && (forall n :: n in end.value.results ==> n < |replies| && end.value.results[n] == replies[n])
            && (end.value.running == map[] ==>
                  end.value.store == store && forall n :: 0 <= n < |replies| ==> n in end.value.results)
  {
    EmptySimulates(cfg);
    hide StoreRun, AtomicCalls, Simulates, Accounted, Run, GuardedRun;
    var end, replies := RunSimulates(EMPTY, map[], [], cfg, events);
    RunAccounts(EMPTY, cfg, events);
    var atomic := StoreRun(map[], cfg, AtomicCalls(events));
    assert [] + atomic.1 == atomic.1;
    Quiescent(end, atomic.0, replies, cfg);
  }

  lemma {:induction false} EmptySimulates(cfg: Config)
    ensures Simulates(EMPTY, map[], [], cfg) && Accounted(EMPTY)
  {
    assert Visible(EMPTY) == map[];
  }

  /**
   * A simulated system has answered rightly; with nothing in flight it has answered everything
   * and its store is the atomic one.
   */
  lemma {:induction false} Quiescent(sys: System, store: Store, replies: seq<Reply>, cfg: Config)
    requires Simulates(sys, store, replies, cfg) && Accounted(sys)
    ensures forall n :: n in sys.results ==> n < |replies| && sys.results[n] == replies[n]
    ensures sys.running == map[] ==> sys.store == store && forall n :: 0 <= n < |replies| ==> n in sys.results
  {
    if sys.running == map[] {
      assert forall k :: !Doomed(sys, k);
      assert Visible(sys) == sys.store;
    }
  }

  // ---------------------------------------------------------------- one adder

  /** A session has one reader, so its calls never overlap. */
  predicate OneAdder(sys: System, cfg: Config, events: seq<Event>)
    decreases events
  {
    events == [] ||
    (StoreOk(sys.store, cfg.maxSegments) && Enabled(sys, events[0]) &&
     (events[0].UpdateEvent? ==> sys.running == map[]) &&
     OneAdder(Step(sys, cfg, events[0]), cfg, events[1..]))
  }

  lemma {:induction false} OneAdderIsGuarded(sys: System, cfg: Config, events: seq<Event>)
    requires OneAdder(sys, cfg, events)
    ensures GuardedRun(sys, cfg, events)
    decreases events
  {
    if events != [] {
      OneAdderIsGuarded(Step(sys, cfg, events[0]), cfg, events[1..]);
    }
  }

  // ---------------------------------------------------------------- why one adder matters

  /**
   * What filing into a doomed group is told: the atomic answer exactly if the segment is
   * refused anyway, or the group has left the store by other means. The generated ID is
   * one that the stored group does not answer with.
   */
  lemma {:induction false} OverlapShows(sys: System, cfg: Config, gen: Option<uint64>, seg: Segment)
    requires StoreOk(sys.store, cfg.maxSegments) && StoreOk(Visible(sys), cfg.maxSegments) && Doomed(sys, seg.groupID)
    requires gen.Some? && seg.groupID in sys.store ==> GroupIdFor(sys.store[seg.groupID], gen.value) != gen.value
    ensures ReplyOf(Update(sys.store, cfg.maxSegments, gen, seg).1) == Add(Visible(sys), cfg.maxSegments, gen, seg).1
            <==> gen.None? || !Acceptable(cfg.maxSegments, seg) || seg.groupID !in sys.store
  {
    hide Texts, Coding, GroupOk;
    assert seg.groupID !in Visible(sys);
    if gen.Some? && Acceptable(cfg.maxSegments, seg) {
      assert GroupFor(Visible(sys), seg) == NewGroup(seg.total);
      if seg.groupID !in sys.store {
        assert GroupFor(sys.store, seg) == NewGroup(seg.total);
      }
    }
  }

  /** In particular a resend that slips in before the delete completes the same message a second time. */
  lemma {:induction false} ResendCompletesTwice(store: Store, maxSegments: nat, newID: uint64, seg: Segment)
    requires StoreOk(store, maxSegments) && Acceptable(maxSegments, seg)
    requires seg.groupID in store && Complete(store[seg.groupID]) && seg.total == store[seg.groupID].expected
    ensures var reply := ReplyOf(Update(store, maxSegments, Some(newID), seg).1);
            reply.complete && reply.id == store[seg.groupID].slots[0].value.messageID
  {
    SharedGroupId(store[seg.groupID], maxSegments, 0, newID);
  }

  /** And if the group is already gone, the pending delete takes the newcomer with it. */
  lemma {:induction false} OverlapLoses(sys: System, cfg: Config, adder: nat, e: Event)
    requires StoreOk(sys.store, cfg.maxSegments) && Enabled(sys, e) && e.UpdateEvent? && e.gen.Some?
    requires Acceptable(cfg.maxSegments, e.seg) && e.seg.groupID !in sys.store
    requires adder in sys.running && sys.running[adder].tested && sys.running[adder].ticket.Filed?
    requires sys.running[adder].ticket.key == e.seg.groupID
    ensures var after := Step(sys, cfg, e);
            && e.seg.groupID in after.store
            && StoreOk(after.store, cfg.maxSegments) && Enabled(after, DeleteEvent(adder))
            && e.seg.groupID !in Step(after, cfg, DeleteEvent(adder)).store
  {
    UpdateOk(sys.store, cfg.maxSegments, e.gen, e.seg);
  }
}

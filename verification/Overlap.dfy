/**
 * A run of two adders on one store: the first files both segments of a message, the
 * second resends segment 1 before the first has deleted the group.
 */
module Overlap {
  import opened Base
  import opened Reassembly
  import opened Interleaving

  const TWO := Config(2, 0)
  const S1 := Segment([], 1, 2, [], 0, 0, false, 0)
  const S2 := Segment([], 2, 2, [], 0, 0, false, 0)

  function Half(id: uint64): Group {
    Group([Some(S1.(messageID := id)), None], 1, 2, false)
  }

  const WHOLE := Group([Some(S1.(messageID := 1)), Some(S2.(messageID := 1))], 2, 2, false)

  /** The first adder's two segments, the resend, and the two completion tests and deletes. */
  const FILING: seq<Event> := [UpdateEvent(0, Some(1), S1), TestEvent(0), UpdateEvent(0, Some(2), S2)]
  const RESENDING: seq<Event> := [UpdateEvent(1, Some(3), S1), TestEvent(0), DeleteEvent(0)]
  const ENDING: seq<Event> := [TestEvent(1), DeleteEvent(1)]
  const OVERLAP: seq<Event> := FILING + (RESENDING + ENDING)

  lemma {:induction false} FilesHalf(id: uint64)
    ensures Update(map[], 2, Some(id), S1) == (map[[] := Half(id)], Filed([], id, Half(id)))
    ensures !Complete(Half(id)) && StoreInv(map[[] := Half(id)], 2)
  {
    var slots := NewGroup(2).slots;
    assert slots == [None, None] && slots[0 := Half(id).slots[0]] == Half(id).slots;
    var h := Half(id).slots;
    FilledUpdate([None, None], 0, h[0].value);
    assert h == [None, None][0 := Some(h[0].value)];
    NewGroupFilled(2);
  }

  lemma {:induction false} FilesInto(g: Group, newID: uint64, seg: Segment)
    requires GroupOk(g, 2) && g.slots[0].Some? && g.slots[0].value.messageID == 1
    requires Acceptable(2, seg) && seg.groupID == [] && File(g, seg, 1) == WHOLE
    ensures StoreOk(map[[] := g], 2) && StoreOk(map[[] := WHOLE], 2)
    ensures Update(map[[] := g], 2, Some(newID), seg) == (map[[] := WHOLE], Filed([], 1, WHOLE))
  {
    SharedGroupId(g, 2, 0, newID);
    UpdateOk(map[[] := g], 2, Some(newID), seg);
    hide File, GroupIdFor;
    var store: Store := map[[] := g];
    assert store[[] := WHOLE] == map[[] := WHOLE];
  }

  lemma {:induction false} FilesWhole()
    ensures StoreOk(map[[] := Half(1)], 2) && Complete(WHOLE) && StoreOk(map[[] := WHOLE], 2)
    ensures Update(map[[] := Half(1)], 2, Some(2), S2) == (map[[] := WHOLE], Filed([], 1, WHOLE))
    ensures Update(map[[] := WHOLE], 2, Some(3), S1) == (map[[] := WHOLE], Filed([], 1, WHOLE))
  {
    FilesHalf(1);
    var h, w := Half(1).slots, WHOLE.slots;
    assert h[1 := w[1]] == w && w[0 := w[0]] == w;
    var half: Store := map[[] := Half(1)];
    assert GroupOk(half[[]], 2);
    FilesInto(Half(1), 2, S2);
    var whole: Store := map[[] := WHOLE];
    assert GroupOk(whole[[]], 2);
    FilesInto(WHOLE, 3, S1);
  }

  lemma {:induction false} RunFirst(sys: System, cfg: Config, e: Event, rest: seq<Event>)
    requires StoreOk(sys.store, cfg.maxSegments) && Enabled(sys, e)
    ensures Run(sys, cfg, [e] + rest) == Run(Step(sys, cfg, e), cfg, rest)
  {
    assert ([e] + rest)[1..] == rest;
  }

  lemma {:induction false} RunNone(sys: System)
    ensures StoreOk(map[], 2) && Run(sys, TWO, []) == Some(sys)
  {
  }

  /** The first adder has filed both segments and not yet tested for completion. */
  lemma {:induction false} AfterFiling(rest: seq<Event>) returns (sys: System)
    ensures Run(EMPTY, TWO, FILING + rest) == Run(sys, TWO, rest)
    ensures sys.store == map[[] := WHOLE] && sys.running == map[0 := InFlight(1, Filed([], 1, WHOLE), false)]
    ensures sys.calls == 2 && sys.results.Keys == {0}
  {
    FilesHalf(1);
    FilesWhole();
    RunNone(EMPTY);
    var half := Filed([], 1, Half(1));
    hide Update, Complete, ReplyOf, StoreOk, Run;
    var a := System(map[[] := Half(1)], map[0 := InFlight(0, half, false)], 1, map[]);
    assert Step(EMPTY, TWO, FILING[0]) == a;
    var b := Step(a, TWO, TestEvent(0));
    assert b == System(map[[] := Half(1)], map[], 1, map[0 := ReplyOf(half)]);
    sys := Step(b, TWO, FILING[2]);
    assert FILING + rest == [FILING[0]] + ([FILING[1]] + ([FILING[2]] + rest));
    RunFirst(b, TWO, FILING[2], rest);
    RunFirst(a, TWO, FILING[1], [FILING[2]] + rest);
    RunFirst(EMPTY, TWO, FILING[0], [FILING[1]] + ([FILING[2]] + rest));
  }

  /** The resend has been filed into the doomed group, and the first adder has deleted it. */
  lemma {:induction false} AfterResending(sys: System, rest: seq<Event>) returns (after: System)
    requires sys.store == map[[] := WHOLE] && sys.running == map[0 := InFlight(1, Filed([], 1, WHOLE), false)]
    requires sys.calls == 2
    ensures Run(sys, TWO, RESENDING + rest) == Run(after, TWO, rest)
    ensures after.store == map[] && after.running == map[1 := InFlight(2, Filed([], 1, WHOLE), false)]
    ensures after.results == sys.results[1 := ReplyOf(Filed([], 1, WHOLE))]
  {
    FilesWhole();
    var whole := Filed([], 1, WHOLE);
    hide Update, Complete, ReplyOf, StoreOk, Run;
    var a := Step(sys, TWO, RESENDING[0]);
    assert a.running == map[0 := InFlight(1, whole, false), 1 := InFlight(2, whole, false)];
    var b := Step(a, TWO, RESENDING[1]);
    assert b.running == map[0 := InFlight(1, whole, true), 1 := InFlight(2, whole, false)];
    after := Step(b, TWO, RESENDING[2]);
    assert RESENDING + rest == [RESENDING[0]] + ([RESENDING[1]] + ([RESENDING[2]] + rest));
    RunFirst(b, TWO, RESENDING[2], rest);
    RunFirst(a, TWO, RESENDING[1], [RESENDING[2]] + rest);
    RunFirst(sys, TWO, RESENDING[0], [RESENDING[1]] + ([RESENDING[2]] + rest));
  }

  /** In that run the one message is reported complete twice, and nothing is left of the resend. */
  lemma {:induction false} OverlapCompletesTwice()
    ensures var end := Run(EMPTY, TWO, OVERLAP);
            && end.Some? && end.value.running == map[] && end.value.store == map[]
            && end.value.results.Keys == {0, 1, 2}
            && end.value.results[1].complete && end.value.results[2].complete && end.value.results[2].id == 1
  {
    FilesWhole();
    assert ReplyOf(Filed([], 1, WHOLE)).complete && ReplyOf(Filed([], 1, WHOLE)).id == 1;
    hide Complete, ReplyOf, StoreOk, Run;
    var a := AfterFiling(RESENDING + ENDING);
    var b := AfterResending(a, ENDING);
    RunNone(b);
    var c := Step(b, TWO, TestEvent(1));
    var d := Step(c, TWO, DeleteEvent(1));
    assert ENDING == [TestEvent(1)] + ([DeleteEvent(1)] + []);
    RunFirst(c, TWO, DeleteEvent(1), []);
    RunFirst(b, TWO, TestEvent(1), [DeleteEvent(1)] + []);
    RunNone(d);
  }

  lemma {:induction false} AtomicCons(e: Event, rest: seq<Event>)
    ensures AtomicCalls([e] + rest) == AtomicCall(e) + AtomicCalls(rest)
  {
    assert ([e] + rest)[1..] == rest;
  }

  lemma {:induction false} AtomicOverlap()
    ensures AtomicCalls(OVERLAP) == [AddCall(Some(1), S1)] + ([AddCall(Some(2), S2)] + [AddCall(Some(3), S1)])
  {
    hide AtomicCalls;
    var last := [RESENDING[1]] + ([RESENDING[2]] + ([ENDING[0]] + ([ENDING[1]] + [])));
    assert AtomicCalls(last) == [] by {
      assert AtomicCalls([]) == [] by { AtomicNone(); }
      AtomicCons(ENDING[1], []);
      AtomicCons(ENDING[0], [ENDING[1]] + []);
      AtomicCons(RESENDING[2], [ENDING[0]] + ([ENDING[1]] + []));
      AtomicCons(RESENDING[1], [RESENDING[2]] + ([ENDING[0]] + ([ENDING[1]] + [])));
    }
    assert OVERLAP == [FILING[0]] + ([FILING[1]] + ([FILING[2]] + ([RESENDING[0]] + last)));
    AtomicCons(RESENDING[0], last);
    AtomicCons(FILING[2], [RESENDING[0]] + last);
    AtomicCons(FILING[1], [FILING[2]] + ([RESENDING[0]] + last));
    AtomicCons(FILING[0], [FILING[1]] + ([FILING[2]] + ([RESENDING[0]] + last)));
  }

  lemma {:induction false} AtomicNone()
    ensures AtomicCalls([]) == []
  {
  }

  lemma {:induction false} AddFirst(store: Store, cfg: Config, gen: Option<uint64>, seg: Segment, rest: seq<Call>)
    requires StoreInv(store, cfg.maxSegments)
    ensures var (next, reply) := Add(store, cfg.maxSegments, gen, seg);
            && StoreInv(next, cfg.maxSegments)
            && StoreRun(store, cfg, [AddCall(gen, seg)] + rest) ==
               (StoreRun(next, cfg, rest).0, [reply] + StoreRun(next, cfg, rest).1)
  {
    AddKeepsInvariant(store, cfg.maxSegments, gen, seg);
    hide Add, StoreInv;
    assert ([AddCall(gen, seg)] + rest)[1..] == rest;
  }

  lemma {:induction false} AtomicAnswers()
    ensures StoreInv(map[], 2) && StoreInv(map[[] := Half(1)], 2) && StoreInv(map[[] := Half(3)], 2)
    ensures Add(map[], 2, Some(1), S1).0 == map[[] := Half(1)]
    ensures var (store, reply) := Add(map[[] := Half(1)], 2, Some(2), S2); store == map[] && reply.complete
    ensures var (store, reply) := Add(map[], 2, Some(3), S1);
            store == map[[] := Half(3)] && !reply.complete && reply.id == 3
  {
    FilesHalf(1);
    FilesHalf(3);
    FilesWhole();
    hide Update, Complete, StoreOk;
  }

  /** Atomic calls complete it once: the resend opens a group of its own. */
  lemma {:induction false} AtomicCompletesOnce()
    ensures StoreInv(map[], 2)
    ensures var (store, replies) := StoreRun(map[], TWO, AtomicCalls(OVERLAP));
            && store == map[[] := Half(3)] && |replies| == 3
            && replies[1].complete && !replies[2].complete && replies[2].id == 3
  {
    AtomicAnswers();
    AtomicOverlap();
    hide Add, StoreRun, StoreInv, AtomicCalls, OVERLAP, Half;
    AddFirst(map[], TWO, Some(1), S1, [AddCall(Some(2), S2)] + [AddCall(Some(3), S1)]);
    AddFirst(map[[] := Half(1)], TWO, Some(2), S2, [AddCall(Some(3), S1)]);
    AddFirst(map[], TWO, Some(3), S1, []);
    assert [AddCall(Some(3), S1)] + [] == [AddCall(Some(3), S1)];
    RunNothing(map[[] := Half(3)]);
  }

  lemma {:induction false} RunNothing(store: Store)
    requires StoreInv(store, 2)
    ensures StoreRun(store, TWO, []) == (store, [])
  {
  }
}

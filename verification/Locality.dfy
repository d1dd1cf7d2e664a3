/** Groups do not disturb one another, so what holds of a group alone holds of it among others. */
module Locality {
  import opened Base
  import opened Reassembly
  import opened ReassemblyLaws

  function Only(store: Store, k: bytes): Store {
    if k in store then map[k := store[k]] else map[]
  }

  predicate Touches(call: Call, k: bytes) {
    match call
    case AddCall(_, seg) => seg.groupID == k
    case SweepCall(part, _) => part(k)
    case StopCall(part) => part(k)
  }

  /** The calls, sweeps and stops that can matter to group k. */
  function About(calls: seq<Call>, k: bytes): seq<Call> {
    if calls == [] then []
    else (if Touches(calls[0], k) then [calls[0]] else []) + About(calls[1..], k)
  }

  /** What the calls for group k are told in a run that also serves others. */
  function Told(store: Store, cfg: Config, calls: seq<Call>, k: bytes): seq<Reply>
    requires StoreInv(store, cfg.maxSegments)
    decreases calls
  {
    if calls == [] then []
    else
      var (next, replies) := StoreStep(store, cfg, calls[0]);
      (if Touches(calls[0], k) then replies else []) + Told(next, cfg, calls[1..], k)
  }

  lemma {:induction false} OnlyPut(store: Store, k: bytes, g: Group)
    ensures Only(store[k := g], k) == Only(store, k)[k := g]
  {
  }

  lemma {:induction false} AddApart(store: Store, maxSegments: nat, gen: Option<uint64>, seg: Segment, k: bytes)
    requires StoreInv(store, maxSegments)
    ensures StoreInv(Only(store, k), maxSegments)
    ensures seg.groupID == k ==>
              Add(Only(store, k), maxSegments, gen, seg) ==
              (Only(Add(store, maxSegments, gen, seg).0, k), Add(store, maxSegments, gen, seg).1)
    ensures seg.groupID != k ==> Only(Add(store, maxSegments, gen, seg).0, k) == Only(store, k)
  {
    hide File, Complete, Texts, Coding, GroupOk, GroupIdFor;
    if seg.groupID == k {
      var few := Only(store, k);
      assert Refuses(few, maxSegments, seg) == Refuses(store, maxSegments, seg);
      assert GroupFor(few, seg) == GroupFor(store, seg);
      var (all, ticket) := Update(store, maxSegments, gen, seg);
      if gen.Some? && !Refuses(store, maxSegments, seg) {
        OnlyPut(store, k, ticket.snapshot);
      }
      assert Update(few, maxSegments, gen, seg) == (Only(all, k), ticket);
      assert Settle(Only(all, k), ticket) == Only(Settle(all, ticket), k);
    }
  }

  lemma {:induction false} StepApart(store: Store, cfg: Config, call: Call, k: bytes)
    requires StoreInv(store, cfg.maxSegments)
    ensures StoreInv(Only(store, k), cfg.maxSegments)
    ensures Touches(call, k) ==>
              StoreStep(Only(store, k), cfg, call) ==
              (Only(StoreStep(store, cfg, call).0, k), StoreStep(store, cfg, call).1)
    ensures !Touches(call, k) ==> Only(StoreStep(store, cfg, call).0, k) == Only(store, k)
  {
    match call {
      case AddCall(gen, seg) => AddApart(store, cfg.maxSegments, gen, seg, k);
      case SweepCall(part, now) =>
        assert part(k) ==>
          SweptPart(Only(store, k), part, now, cfg.maxAge) == Only(SweptPart(store, part, now, cfg.maxAge), k);
      case StopCall(part) =>
        assert part(k) ==> StoppedPart(Only(store, k), part) == Only(StoppedPart(store, part), k);
    }
  }

  lemma {:induction false} RunFirst(store: Store, cfg: Config, call: Call, rest: seq<Call>)
    requires StoreInv(store, cfg.maxSegments)
    ensures var (next, replies) := StoreStep(store, cfg, call);
            StoreRun(store, cfg, [call] + rest) ==
            (StoreRun(next, cfg, rest).0, replies + StoreRun(next, cfg, rest).1)
  {
    hide StoreStep, StoreInv;
    assert ([call] + rest)[1..] == rest;
  }

  lemma {:induction false} ToldFirst(store: Store, cfg: Config, calls: seq<Call>, k: bytes)
    requires StoreInv(store, cfg.maxSegments) && calls != []
    ensures var (next, replies) := StoreStep(store, cfg, calls[0]);
            Told(store, cfg, calls, k) ==
            if Touches(calls[0], k) then replies + Told(next, cfg, calls[1..], k) else Told(next, cfg, calls[1..], k)
  {
    hide StoreStep, StoreInv, Touches;
  }

  lemma {:induction false} AboutFirst(calls: seq<Call>, k: bytes)
    requires calls != []
    ensures About(calls, k) == if Touches(calls[0], k) then [calls[0]] + About(calls[1..], k) else About(calls[1..], k)
  {
  }

  lemma {:induction false} NoCalls(store: Store, cfg: Config, k: bytes)
    requires StoreInv(store, cfg.maxSegments)
    ensures StoreRun(store, cfg, []) == (store, []) && Told(store, cfg, [], k) == []
    ensures About([], k) == [] && AddsFor([], k) == []
  {
  }

  /** A group fares in any run as it would alone, from the part of the store that is its own. */
  lemma {:induction false} GroupsApart(store: Store, cfg: Config, calls: seq<Call>, k: bytes)
    requires StoreInv(store, cfg.maxSegments)
    ensures StoreInv(Only(store, k), cfg.maxSegments)
    ensures StoreRun(Only(store, k), cfg, About(calls, k)) ==
            (Only(StoreRun(store, cfg, calls).0, k), Told(store, cfg, calls, k))
    decreases calls
  {
    hide *;
    StepApart(store, cfg, StopCall(_ => true), k);
    if calls == [] {
      NoCalls(store, cfg, k);
      NoCalls(Only(store, k), cfg, k);
    } else {
      var call, rest := calls[0], calls[1..];
      assert calls == [call] + rest;
      StepApart(store, cfg, call, k);
      GroupsApart(StoreStep(store, cfg, call).0, cfg, rest, k);
      RunFirst(store, cfg, call, rest);
      ToldFirst(store, cfg, calls, k);
      AboutFirst(calls, k);
      if Touches(call, k) {
        RunFirst(Only(store, k), cfg, call, About(rest, k));
      }
    }
  }

  // ---------------------------------------------------------------- sweeps that look at the group and keep it

  function AddsFor(calls: seq<Call>, k: bytes): seq<Call> {
    if calls == [] then []
    else (if calls[0].AddCall? && calls[0].seg.groupID == k then [calls[0]] else []) + AddsFor(calls[1..], k)
  }

  /** A sweep that finds the group open keeps it; a Stop finds it closed. */
  predicate Spares(store: Store, cfg: Config, call: Call, k: bytes) {
    match call
    case AddCall(_, _) => true
    case SweepCall(part, now) => part(k) && k in store ==> Keeps(store[k], now, cfg.maxAge)
    case StopCall(part) => part(k) ==> k !in store
  }

  /** Every sweep and Stop of the run spares the group, as the run has it then. */
  predicate Spared(store: Store, cfg: Config, calls: seq<Call>, k: bytes)
    requires StoreInv(store, cfg.maxSegments)
    decreases calls
  {
    calls == [] || (Spares(store, cfg, calls[0], k) && Spared(StoreStep(store, cfg, calls[0]).0, cfg, calls[1..], k))
  }

  lemma {:induction false} SparedStep(store: Store, cfg: Config, call: Call, k: bytes)
    requires StoreInv(store, cfg.maxSegments) && Spares(store, cfg, call, k) && !call.AddCall?
    ensures Only(StoreStep(store, cfg, call).0, k) == Only(store, k) && StoreStep(store, cfg, call).1 == []
  {
  }

  lemma {:induction false} AddsFirst(calls: seq<Call>, k: bytes)
    requires calls != []
    ensures var mine := calls[0].AddCall? && calls[0].seg.groupID == k;
            && AddsFor(calls, k) == (if mine then [calls[0]] + AddsFor(calls[1..], k) else AddsFor(calls[1..], k))
            && (mine ==> Touches(calls[0], k))
            && (calls[0].AddCall? && !mine ==> !Touches(calls[0], k))
  {
  }

  lemma {:induction false} SparedFirst(store: Store, cfg: Config, calls: seq<Call>, k: bytes)
    requires StoreInv(store, cfg.maxSegments) && Spared(store, cfg, calls, k) && calls != []
    ensures Spares(store, cfg, calls[0], k) && Spared(StoreStep(store, cfg, calls[0]).0, cfg, calls[1..], k)
  {
  }

  lemma {:induction false} SparedApart(store: Store, cfg: Config, calls: seq<Call>, k: bytes)
    requires StoreInv(store, cfg.maxSegments) && Spared(store, cfg, calls, k)
    ensures StoreInv(Only(store, k), cfg.maxSegments)
    ensures StoreRun(Only(store, k), cfg, AddsFor(calls, k)) ==
            (Only(StoreRun(store, cfg, calls).0, k), Told(store, cfg, calls, k))
    decreases calls
  {
    hide *;
    StepApart(store, cfg, StopCall(_ => true), k);
    if calls == [] {
      NoCalls(store, cfg, k);
      NoCalls(Only(store, k), cfg, k);
    } else {
      var call, rest := calls[0], calls[1..];
      assert calls == [call] + rest;
      SparedFirst(store, cfg, calls, k);
      StepApart(store, cfg, call, k);
      SparedApart(StoreStep(store, cfg, call).0, cfg, rest, k);
      RunFirst(store, cfg, call, rest);
      ToldFirst(store, cfg, calls, k);
      AddsFirst(calls, k);
      if call.AddCall? && call.seg.groupID == k {
        RunFirst(Only(store, k), cfg, call, AddsFor(rest, k));
      } else if !call.AddCall? {
        SparedStep(store, cfg, call, k);
        var told := Told(StoreStep(store, cfg, call).0, cfg, rest, k);
        assert [] + told == told;
      }
    }
  }

  /**
   * Among any calls for other groups, and any sweeps that find this one young enough:
   * exactly the call that fills the last slot completes, with the latest copies in
   * sequence order.
   */
  lemma {:induction false} ReassemblesAmongOthers(
    store: Store, cfg: Config, calls: seq<Call>, k: bytes, arrivals: History)
    returns (replies: seq<Reply>)
    requires StoreInv(store, cfg.maxSegments) && k !in store && Spared(store, cfg, calls, k)
    requires CompletesLast(arrivals, k, cfg.maxSegments) && AddsFor(calls, k) == CallsFor(arrivals)
    ensures replies == Told(store, cfg, calls, k) && k !in StoreRun(store, cfg, calls).0
    ensures |replies| == |arrivals|
    ensures forall j :: 0 <= j < |replies| ==>
              replies[j].id == arrivals[0].id && !replies[j].err && (replies[j].complete <==> j == |replies| - 1)
    ensures replies[|replies| - 1].body == LatestTexts(arrivals, arrivals[0].seg.total)
    ensures replies[|replies| - 1].coding ==
            if LatestUcs2(arrivals, arrivals[0].seg.total) then CODING_UCS2 else CODING_DEFAULT
    ensures replies[|replies| - 1].receipt <==> exists i :: 0 <= i < |arrivals| && arrivals[i].seg.receipt
  {
    SparedApart(store, cfg, calls, k);
    replies := Reassembles(cfg, k, arrivals);
  }

  /** A run of the group's own calls is the simplest such run. */
  lemma {:induction false} AloneIsSpared(store: Store, cfg: Config, k: bytes, arrivals: History)
    requires StoreInv(store, cfg.maxSegments) && forall i :: 0 <= i < |arrivals| ==> arrivals[i].seg.groupID == k
    ensures Spared(store, cfg, CallsFor(arrivals), k) && AddsFor(CallsFor(arrivals), k) == CallsFor(arrivals)
    ensures Told(store, cfg, CallsFor(arrivals), k) == StoreRun(store, cfg, CallsFor(arrivals)).1
    decreases |arrivals|
  {
    hide Add, StoreInv;
    if arrivals != [] {
      var calls := CallsFor(arrivals);
      assert calls[1..] == CallsFor(arrivals[1..]);
      AloneIsSpared(StoreStep(store, cfg, calls[0]).0, cfg, k, arrivals[1..]);
    }
  }

  // ---------------------------------------------------------------- when sweeps do

  /** No Stop reaches the group, and no sweep that does comes more than maxAge after a registration for it. */
  predicate Timely(calls: seq<Call>, k: bytes, maxAge: int) {
    && (forall i :: 0 <= i < |calls| && calls[i].StopCall? ==> !calls[i].part(k))
    && (forall i, j :: 0 <= i < |calls| && 0 <= j < |calls| && calls[i].SweepCall? && calls[i].part(k) &&
                       calls[j].AddCall? && calls[j].seg.groupID == k ==>
                         calls[i].now - calls[j].seg.registeredAt <= maxAge)
  }

  /** The same of what the store holds already. */
  predicate YoungFor(store: Store, calls: seq<Call>, k: bytes, maxAge: int) {
    k in store ==>
      forall i, n :: 0 <= i < |calls| && calls[i].SweepCall? && calls[i].part(k) &&
                     0 <= n < |store[k].slots| && store[k].slots[n].Some? ==>
                       calls[i].now - store[k].slots[n].value.registeredAt <= maxAge
  }

  /** After a call each slot is as it was or holds the new segment. */
  lemma {:induction false} AddSlots(store: Store, maxSegments: nat, gen: Option<uint64>, seg: Segment, n: nat)
    requires StoreInv(store, maxSegments)
    requires var after := Add(store, maxSegments, gen, seg).0;
             seg.groupID in after && n < |after[seg.groupID].slots| && after[seg.groupID].slots[n].Some?
    ensures var slot := Add(store, maxSegments, gen, seg).0[seg.groupID].slots[n];
            || slot.value.registeredAt == seg.registeredAt
            || (seg.groupID in store && n < |store[seg.groupID].slots| && store[seg.groupID].slots[n] == slot)
  {
    hide Complete, Texts, Coding, GroupIdFor;
    if gen.Some? && !Refuses(store, maxSegments, seg) {
      var g := GroupFor(store, seg);
      var filed := File(g, seg, GroupIdFor(g, gen.value));
      assert Add(store, maxSegments, gen, seg).0[seg.groupID] == filed;
      assert n != seg.seqNum - 1 ==> filed.slots[n] == g.slots[n];
    }
  }

  lemma {:induction false} StaysYoung(store: Store, cfg: Config, calls: seq<Call>, k: bytes)
    requires StoreInv(store, cfg.maxSegments) && calls != []
    requires Timely(calls, k, cfg.maxAge) && YoungFor(store, calls, k, cfg.maxAge)
    ensures YoungFor(StoreStep(store, cfg, calls[0]).0, calls[1..], k, cfg.maxAge)
  {
    hide Add, Keeps;
    var rest := calls[1..];
    var next := StoreStep(store, cfg, calls[0]).0;
    assert forall i :: 0 <= i < |rest| ==> rest[i] == calls[i + 1];
    if calls[0].AddCall? && calls[0].seg.groupID == k && k in next {
      forall n | 0 <= n < |next[k].slots| && next[k].slots[n].Some?
        ensures forall i :: 0 <= i < |rest| && rest[i].SweepCall? && rest[i].part(k) ==>
                  rest[i].now - next[k].slots[n].value.registeredAt <= cfg.maxAge
      {
        AddSlots(store, cfg.maxSegments, calls[0].gen, calls[0].seg, n);
      }
    } else {
      StepApart(store, cfg, calls[0], k);
      assert k in next ==> k in store && next[k] == store[k];
    }
  }

  /** Timely sweeps spare the group. */
  lemma {:induction false} TimelySpares(store: Store, cfg: Config, calls: seq<Call>, k: bytes)
    requires StoreInv(store, cfg.maxSegments)
    requires Timely(calls, k, cfg.maxAge) && YoungFor(store, calls, k, cfg.maxAge)
    ensures Spared(store, cfg, calls, k)
    decreases calls
  {
    hide StoreStep, Keeps, YoungFor;
    if calls != [] {
      if calls[0].SweepCall? && calls[0].part(k) && k in store {
        YoungIsKept(store, cfg, calls, k);
      }
      StaysYoung(store, cfg, calls, k);
      assert Timely(calls[1..], k, cfg.maxAge);
      TimelySpares(StoreStep(store, cfg, calls[0]).0, cfg, calls[1..], k);
    }
  }

  lemma {:induction false} YoungIsKept(store: Store, cfg: Config, calls: seq<Call>, k: bytes)
    requires StoreInv(store, cfg.maxSegments) && k in store && YoungFor(store, calls, k, cfg.maxAge)
    requires calls != [] && calls[0].SweepCall? && calls[0].part(k)
    ensures Keeps(store[k], calls[0].now, cfg.maxAge)
  {
    SweepDecides(store, cfg.maxSegments, calls[0].now, cfg.maxAge, k);
  }
}

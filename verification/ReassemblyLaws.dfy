/** What callers of the reassembly store may rely on; proved through the history machine. */
module ReassemblyLaws {
  import opened Base
  import opened Reassembly

  // ---------------------------------------------------------------- one group, any order, any resends

  function CallsFor(arrivals: History): (calls: seq<Call>)
    ensures |calls| == |arrivals|
  {
    if arrivals == [] then []
    else [AddCall(Some(arrivals[0].id), arrivals[0].seg)] + CallsFor(arrivals[1..])
  }

  /** Every arrival is acceptable and belongs to group k. */
  predicate ForGroup(arrivals: History, k: bytes, maxSegments: nat) {
    Uniform(arrivals, maxSegments) && forall i :: 0 <= i < |arrivals| ==> arrivals[i].seg.groupID == k
  }

  lemma {:induction false} LatestExtends(h: History, more: History, n: int)
    ensures Latest(h, n).Some? ==> Latest(h + more, n).Some?
  {
    if more == [] {
      assert h + more == h;
    } else {
      assert (h + more)[..|h + more| - 1] == h + more[..|more| - 1];
      LatestExtends(h, more[..|more| - 1], n);
    }
  }

  lemma {:induction false} AllSeenExtends(h: History, more: History, total: nat)
    ensures AllSeen(h, total) ==> AllSeen(h + more, total)
  {
    forall n | 1 <= n <= total && Latest(h, n).Some? ensures Latest(h + more, n).Some? {
      LatestExtends(h, more, n);
    }
  }

  function OpenWith(k: bytes, h: History): Open {
    if h == [] then map[] else map[k := h]
  }

  /** One more arrival at a group whose arrivals so far are h. */
  lemma {:induction false} OneArrival(cfg: Config, k: bytes, h: History, a: Arrival)
    requires ForGroup(h + [a], k, cfg.maxSegments)
    requires h != [] ==> !AllSeen(h, h[0].seg.total)
    ensures OpenInv(OpenWith(k, h), cfg.maxSegments)
    ensures HistoryAdd(OpenWith(k, h), cfg.maxSegments, Some(a.id), a.seg) ==
            (if AllSeen(h + [a], a.seg.total) then map[] else OpenWith(k, h + [a]), HistoryReply(h + [a]))
  {
    var grown := h + [a];
    assert grown[|h|] == a;
    assert Arrival(a.seg, a.id) == a;
    forall i | 0 <= i < |h| ensures h[i] == grown[i] {}
    if h == [] {
      assert grown == [a];
    } else {
      assert h[0] == grown[0];
      assert OpenWith(k, h)[k] == h;
      assert map[k := h][k := grown] == map[k := grown];
    }
    assert OpenWith(k, h) - {k} == map[];
  }

  /** The answer to an accepted arrival that leaves its group incomplete. */
  function Incomplete(id: uint64): Reply {
    Reply(id, STATUS_OK, false, [], 0, false, false)
  }

  /** The arrivals fill group k of `total` segments, and the last of them is the one that completes it. */
  predicate CompletesLast(all: History, k: bytes, maxSegments: nat) {
    && ForGroup(all, k, maxSegments)
    && AllSeen(all, all[0].seg.total)
    && !AllSeen(all[..|all| - 1], all[0].seg.total)
  }

  /** The i-th of the arrivals completes the group only if it is also the last. */
  lemma {:induction false} FeedOne(cfg: Config, k: bytes, all: History, i: nat)
    requires CompletesLast(all, k, cfg.maxSegments) && i < |all|
    ensures OpenInv(OpenWith(k, all[..i]), cfg.maxSegments)
    ensures HistoryAdd(OpenWith(k, all[..i]), cfg.maxSegments, Some(all[i].id), all[i].seg) ==
            if i == |all| - 1 then (map[], HistoryReply(all))
            else (OpenWith(k, all[..i + 1]), Incomplete(all[0].id))
  {
    var h, grown, front := all[..i], all[..i + 1], all[..|all| - 1];
    assert grown == h + [all[i]];
    assert front == h + all[i..|all| - 1];
    AllSeenExtends(h, all[i..|all| - 1], all[0].seg.total);
    OneArrival(cfg, k, h, all[i]);
    if i == |all| - 1 {
      assert grown == all;
    } else {
      assert front == grown + all[i + 1..|all| - 1];
      AllSeenExtends(grown, all[i + 1..|all| - 1], all[0].seg.total);
    }
  }

  lemma {:induction false} FeedUnfold(cfg: Config, open: Open, rest: History)
    requires rest != [] && OpenInv(open, cfg.maxSegments)
    ensures var (open', reply) := HistoryAdd(open, cfg.maxSegments, Some(rest[0].id), rest[0].seg);
            OpenInv(open', cfg.maxSegments) &&
            HistoryRun(open, cfg, CallsFor(rest)) ==
            (HistoryRun(open', cfg, CallsFor(rest[1..])).0, [reply] + HistoryRun(open', cfg, CallsFor(rest[1..])).1)
  {
    HistoryAddKeepsInv(open, cfg.maxSegments, Some(rest[0].id), rest[0].seg);
    assert CallsFor(rest)[1..] == CallsFor(rest[1..]);
  }

  /** Feeding what is left after i arrivals: every call answers with the first ID, the last one alone completes. */
  lemma {:induction false} FeedRest(cfg: Config, k: bytes, all: History, i: nat) returns (replies: seq<Reply>)
    requires CompletesLast(all, k, cfg.maxSegments) && i < |all|
    ensures OpenInv(OpenWith(k, all[..i]), cfg.maxSegments)
    ensures HistoryRun(OpenWith(k, all[..i]), cfg, CallsFor(all[i..])) == (map[], replies)
    ensures |replies| == |all| - i && replies[|replies| - 1] == HistoryReply(all)
    ensures forall j :: 0 <= j < |replies| - 1 ==> replies[j] == Incomplete(all[0].id)
    decreases |all| - i
  {
    FeedOne(cfg, k, all, i);
    FeedUnfold(cfg, OpenWith(k, all[..i]), all[i..]);
    assert all[i..][0] == all[i] && all[i..][1..] == all[i + 1..];
    hide *;
    if i == |all| - 1 {
      assert all[i + 1..] == [];
      FeedNothing(cfg);
      replies := [HistoryReply(all)];
      assert replies == replies + [];
    } else {
      var rest := FeedRest(cfg, k, all, i + 1);
      replies := [Incomplete(all[0].id)] + rest;
    }
  }

  lemma {:induction false} FeedNothing(cfg: Config)
    ensures HistoryRun(map[], cfg, CallsFor([])) == (map[], [])
  {
  }

  /**
   * For any arrival order with any resends, exactly the call that fills the last
   * empty slot completes; every call answers with the first call's ID; the bytes are
   * the latest copies in sequence order; the receipt flag is the OR of all of them.
   */
  lemma {:induction false} Reassembles(cfg: Config, k: bytes, arrivals: History) returns (replies: seq<Reply>)
    requires CompletesLast(arrivals, k, cfg.maxSegments)
    ensures StoreRun(map[], cfg, CallsFor(arrivals)) == (map[], replies)
    ensures |replies| == |arrivals|
    ensures forall j :: 0 <= j < |replies| ==>
              replies[j].id == arrivals[0].id && !replies[j].err && (replies[j].complete <==> j == |replies| - 1)
    ensures replies[|replies| - 1].body == LatestTexts(arrivals, arrivals[0].seg.total)
    ensures replies[|replies| - 1].coding ==
            if LatestUcs2(arrivals, arrivals[0].seg.total) then CODING_UCS2 else CODING_DEFAULT
    ensures replies[|replies| - 1].receipt <==> exists i :: 0 <= i < |arrivals| && arrivals[i].seg.receipt
  {
    replies := FeedRest(cfg, k, arrivals, 0);
    assert arrivals[0..] == arrivals && arrivals[..0] == [];
    RunRefines(map[], map[], cfg, CallsFor(arrivals));
  }

  // ---------------------------------------------------------------- order independence without resends

  predicate EachOnce(arrivals: History) {
    forall i, j :: 0 <= i < j < |arrivals| ==> arrivals[i].seg.seqNum != arrivals[j].seg.seqNum
  }

  function Segments(h: History): seq<Segment> {
    seq(|h|, i requires 0 <= i < |h| => h[i].seg)
  }

  lemma {:induction false} LatestIsIn(h: History, n: int)
    ensures Latest(h, n).Some? ==> Latest(h, n).value in Segments(h) && Latest(h, n).value.seqNum == n
    ensures Latest(h, n).None? ==> forall i :: 0 <= i < |h| ==> h[i].seg.seqNum != n
  {
    if h != [] {
      LatestIsIn(h[..|h| - 1], n);
      assert forall i :: 0 <= i < |h| - 1 ==> Segments(h[..|h| - 1])[i] == Segments(h)[i] && h[..|h| - 1][i] == h[i];
      assert Segments(h)[|h| - 1] == h[|h| - 1].seg;
    }
  }

  lemma {:induction false} SameLatest(a: History, b: History, n: int)
    requires multiset(Segments(a)) == multiset(Segments(b)) && EachOnce(b)
    ensures Latest(a, n) == Latest(b, n)
  {
    LatestIsIn(a, n);
    LatestIsIn(b, n);
    if Latest(a, n).Some? {
      assert Latest(a, n).value in multiset(Segments(b));
      var i :| 0 <= i < |b| && Segments(b)[i] == Latest(a, n).value;
      assert b[i].seg.seqNum == n;
      var j :| 0 <= j < |b| && Segments(b)[j] == Latest(b, n).value;
    } else {
      forall i | 0 <= i < |b| ensures b[i].seg.seqNum != n {
        assert Segments(b)[i] in multiset(Segments(a));
        var j :| 0 <= j < |a| && Segments(a)[j] == Segments(b)[i];
      }
    }
  }

  lemma {:induction false} SameTexts(a: History, b: History, total: nat)
    requires multiset(Segments(a)) == multiset(Segments(b)) && EachOnce(b)
    ensures LatestTexts(a, total) == LatestTexts(b, total)
    ensures AllSeen(a, total) <==> AllSeen(b, total)
  {
    forall n | 1 <= n <= total ensures Latest(a, n) == Latest(b, n) { SameLatest(a, b, n); }
    if total > 0 {
      SameTexts(a, b, total - 1);
    }
  }

  /** The same segments, each sent once, reassemble to the same bytes in whatever order they arrive. */
  lemma {:induction false} OrderIndependent(cfg: Config, k: bytes, a: History, b: History)
    returns (ra: seq<Reply>, rb: seq<Reply>)
    requires ForGroup(a, k, cfg.maxSegments) && ForGroup(b, k, cfg.maxSegments)
    requires EachOnce(a) && EachOnce(b) && multiset(Segments(a)) == multiset(Segments(b))
    requires AllSeen(a, a[0].seg.total)
    ensures ra == StoreRun(map[], cfg, CallsFor(a)).1 && rb == StoreRun(map[], cfg, CallsFor(b)).1
    ensures |ra| == |rb| == |a| == |b|
    ensures ra[|a| - 1].complete && rb[|b| - 1].complete
    ensures ra[|a| - 1].body == rb[|b| - 1].body && ra[|a| - 1].receipt == rb[|b| - 1].receipt
  {
    assert |a| == |Segments(a)| == |multiset(Segments(a))| == |multiset(Segments(b))| == |Segments(b)| == |b|;
    SameTotal(k, a, b, cfg.maxSegments);
    SameTexts(a, b, a[0].seg.total);
    LastIsNeeded(a, cfg.maxSegments);
    LastIsNeeded(b, cfg.maxSegments);
    ra := Reassembles(cfg, k, a);
    rb := Reassembles(cfg, k, b);
    SameReceipt(a, b);
    SameReceipt(b, a);
  }

  lemma {:induction false} SameTotal(k: bytes, a: History, b: History, maxSegments: nat)
    requires ForGroup(a, k, maxSegments) && ForGroup(b, k, maxSegments)
    requires multiset(Segments(a)) == multiset(Segments(b))
    ensures a[0].seg.total == b[0].seg.total
  {
    assert Segments(a)[0] in multiset(Segments(b));
    var i :| 0 <= i < |b| && Segments(b)[i] == Segments(a)[0];
  }

  lemma {:induction false} SameReceipt(a: History, b: History)
    requires multiset(Segments(a)) == multiset(Segments(b))
    ensures (exists i :: 0 <= i < |a| && a[i].seg.receipt) ==> exists i :: 0 <= i < |b| && b[i].seg.receipt
  {
    if i :| 0 <= i < |a| && a[i].seg.receipt {
      assert Segments(a)[i] in multiset(Segments(b));
      var j :| 0 <= j < |b| && Segments(b)[j] == Segments(a)[i];
      assert b[j].seg.receipt;
    }
  }

  /** Without resends no proper prefix has seen everything. */
  lemma {:induction false} LastIsNeeded(h: History, maxSegments: nat)
    requires EachOnce(h) && Uniform(h, maxSegments)
    ensures !AllSeen(h[..|h| - 1], h[0].seg.total)
  {
    var n := h[|h| - 1].seg.seqNum;
    var front := h[..|h| - 1];
    LatestIsIn(front, n);
    assert forall i :: 0 <= i < |front| ==> Segments(front)[i] == h[i].seg && h[i].seg.seqNum != n;
  }

  // ---------------------------------------------------------------- identifiers

  /** The ID a stored group answers with; 0 stands for none and no well-formed group needs it. */
  function GroupId(g: Group): uint64 {
    GroupIdFor(g, 0)
  }

  ghost predicate IdsWithin(store: Store, used: set<uint64>) {
    forall k :: k in store ==> GroupId(store[k]) in used
  }

  /** No two open groups answer with the same ID. */
  ghost predicate IdsApart(store: Store) {
    forall j, k :: j in store && k in store && j != k ==> GroupId(store[j]) != GroupId(store[k])
  }

  function Generated(call: Call): set<uint64> {
    if call.AddCall? && call.gen.Some? then {call.gen.value} else {}
  }

  function AllGenerated(calls: seq<Call>): set<uint64> {
    if calls == [] then {} else Generated(calls[0]) + AllGenerated(calls[1..])
  }

  /** The generator never repeats itself within the run, nor an ID already used. */
  ghost predicate FreshRun(calls: seq<Call>, used: set<uint64>)
    decreases calls
  {
    calls == [] || (Generated(calls[0]) !! used && FreshRun(calls[1..], used + Generated(calls[0])))
  }

  /** Filing into an open group keeps its ID; filing into a new one gives it the generated ID. */
  lemma {:induction false} FiledId(g: Group, maxSegments: nat, seg: Segment, newID: uint64)
    requires g == NewGroup(seg.total) || GroupOk(g, maxSegments)
    requires 1 <= seg.seqNum <= |g.slots|
    ensures GroupId(File(g, seg, GroupIdFor(g, newID))) == GroupIdFor(g, newID)
    ensures GroupIdFor(g, newID) == if g.count == 0 then newID else GroupId(g)
  {
    var id := GroupIdFor(g, newID);
    var filed := File(g, seg, id);
    var i := seg.seqNum - 1;
    FilingShares(g, maxSegments, seg, newID);
    LowestSlotAt(filed.slots, i);
    var lowest := LowestSlotIndex(filed.slots);
    if g.count > 0 {
      FilledBounds(g.slots);
      var j :| 0 <= j < |g.slots| && g.slots[j].Some?;
      LowestSlotAt(g.slots, j);
    }
  }

  lemma {:induction false} PutKeepsIdsApart(store: Store, k: bytes, g: Group, used: set<uint64>)
    requires IdsApart(store) && IdsWithin(store, used)
    requires if k in store then GroupId(g) == GroupId(store[k]) else GroupId(g) !in used
    ensures IdsApart(store[k := g]) && IdsWithin(store[k := g], used + {GroupId(g)})
  {
  }

  lemma {:induction false} StepKeepsIdsApart(store: Store, cfg: Config, call: Call, used: set<uint64>)
    requires StoreInv(store, cfg.maxSegments) && IdsApart(store) && IdsWithin(store, used)
    requires Generated(call) !! used
    ensures IdsApart(StoreStep(store, cfg, call).0)
    ensures IdsWithin(StoreStep(store, cfg, call).0, used + Generated(call))
  {
    if call.AddCall? && call.gen.Some? && !Refuses(store, cfg.maxSegments, call.seg) {
      var g := GroupFor(store, call.seg);
      var filed := File(g, call.seg, GroupIdFor(g, call.gen.value));
      FiledId(g, cfg.maxSegments, call.seg, call.gen.value);
      PutKeepsIdsApart(store, call.seg.groupID, filed, used);
    }
  }

  lemma {:induction false} RunKeepsIdsApart(store: Store, cfg: Config, calls: seq<Call>, used: set<uint64>)
    requires StoreInv(store, cfg.maxSegments) && IdsApart(store) && IdsWithin(store, used)
    requires FreshRun(calls, used)
    ensures IdsApart(StoreRun(store, cfg, calls).0)
    decreases calls
  {
    if calls != [] {
      StepKeepsIdsApart(store, cfg, calls[0], used);
      RunKeepsIdsApart(StoreStep(store, cfg, calls[0]).0, cfg, calls[1..], used + Generated(calls[0]));
    }
  }
}

/**
 * Reassembly of segmented submit_sm messages, on values.
 *
 * Two machines answer the same calls. The slot machine keeps, per group, what
 * the code keeps: an array of slots, a counter and a receipt flag. The history
 * machine keeps only the list of accepted arrivals and reads every answer off
 * that list. RunRefines shows that no run can tell them apart.
 */
module Reassembly {
  import opened Base

  const MIN_SEGMENTS_CAP := 2
  const MAX_SEGMENTS_CAP := 25

  datatype Segment = Segment(
    groupID: bytes,
    seqNum: uint8,
    total: uint8,
    text: bytes,
    encoding: uint8,
    registeredAt: int,
    receipt: bool,
    messageID: uint64)

  type Slots = seq<Option<Segment>>

  datatype Group = Group(slots: Slots, count: nat, expected: nat, receipt: bool)

  type Store = map<bytes, Group>

  /** What one call to AddSegment returns; the text is left undecoded. */
  datatype Reply = Reply(
    id: uint64, status: uint32, complete: bool, body: bytes, coding: uint8, receipt: bool, err: bool)

  function Refusal(id: uint64, status: uint32): Reply {
    Reply(id, status, false, [], 0, false, true)
  }

  // ---------------------------------------------------------------- slots

  function LowestSlot(slots: Slots): Option<Segment> {
    if slots == [] then None
    else if slots[0].Some? then slots[0]
    else LowestSlot(slots[1..])
  }

  /** LowestSlot finds the filled slot of least index, if there is one. */
  lemma {:induction false} LowestSlotAt(slots: Slots, i: nat)
    requires i < |slots| && slots[i].Some?
    ensures LowestSlot(slots).Some?
    ensures (forall j :: 0 <= j < i ==> slots[j].None?) ==> LowestSlot(slots) == slots[i]
  {
    if slots[0].None? {
      LowestSlotAt(slots[1..], i - 1);
    }
  }

  lemma {:induction false} LowestSlotIndex(slots: Slots) returns (i: nat)
    requires LowestSlot(slots).Some?
    ensures i < |slots| && slots[i] == LowestSlot(slots)
    ensures forall j :: 0 <= j < i ==> slots[j].None?
  {
    if slots[0].Some? {
      i := 0;
    } else {
      var tail := slots[1..];
      var k := LowestSlotIndex(tail);
      i := k + 1;
      forall j | 0 <= j < i ensures slots[j].None? {
        assert j == 0 || slots[j] == tail[j - 1];
      }
    }
  }

  function Filled(slots: Slots): nat {
    if slots == [] then 0
    else Filled(slots[..|slots| - 1]) + (if slots[|slots| - 1].Some? then 1 else 0)
  }

  lemma {:induction false} FilledBounds(slots: Slots)
    ensures Filled(slots) <= |slots|
    ensures Filled(slots) == |slots| <==> forall i :: 0 <= i < |slots| ==> slots[i].Some?
    ensures Filled(slots) > 0 <==> exists i :: 0 <= i < |slots| && slots[i].Some?
  {
    if slots != [] {
      var front := slots[..|slots| - 1];
      FilledBounds(front);
      assert forall i :: 0 <= i < |front| ==> front[i] == slots[i];
      if slots[|slots| - 1].None? {
        assert Filled(slots) == Filled(front);
      }
    }
  }

  lemma {:induction false} FilledUpdate(slots: Slots, i: nat, s: Segment)
    requires i < |slots|
    ensures Filled(slots[i := Some(s)]) == Filled(slots) + (if slots[i].None? then 1 else 0)
  {
    var n := |slots| - 1;
    var updated := slots[i := Some(s)];
    if i == n {
      assert updated[..n] == slots[..n];
    } else {
      assert updated[..n] == slots[..n][i := Some(s)];
      FilledUpdate(slots[..n], i, s);
    }
  }

  function Texts(slots: Slots): bytes {
    if slots == [] then []
    else Texts(slots[..|slots| - 1]) + (match slots[|slots| - 1] case None => [] case Some(s) => s.text)
  }

  predicate AnyUcs2(slots: Slots) {
    exists i :: 0 <= i < |slots| && slots[i].Some? && slots[i].value.encoding == CODING_UCS2
  }

  function Coding(slots: Slots): uint8 {
    if AnyUcs2(slots) then CODING_UCS2 else CODING_DEFAULT
  }

  predicate Complete(g: Group) {
    g.count == g.expected && |g.slots| >= g.expected && forall i :: 0 <= i < g.expected ==> g.slots[i].Some?
  }

  /** Every filled slot carries the same message ID. */
  predicate SharedId(slots: Slots) {
    forall i, j :: 0 <= i < |slots| && 0 <= j < |slots| && slots[i].Some? && slots[j].Some? ==>
      slots[i].value.messageID == slots[j].value.messageID
  }

  predicate GroupOk(g: Group, maxSegments: nat) {
    && 2 <= g.expected <= maxSegments
    && |g.slots| == g.expected
    && 1 <= g.count == Filled(g.slots)
    && SharedId(g.slots)
  }

  /** What holds whenever the shard locks are free, even beside a call that has yet to delete its group. */
  predicate StoreOk(store: Store, maxSegments: nat) {
    forall k :: k in store ==> GroupOk(store[k], maxSegments)
  }

  /** What holds between calls: besides, no stored group is complete. */
  predicate StoreInv(store: Store, maxSegments: nat) {
    StoreOk(store, maxSegments) && forall k :: k in store ==> !Complete(store[k])
  }

  // ---------------------------------------------------------------- the slot machine

  predicate Acceptable(maxSegments: nat, seg: Segment) {
    2 <= seg.total <= maxSegments && 1 <= seg.seqNum <= seg.total
  }

  predicate Refuses(store: Store, maxSegments: nat, seg: Segment) {
    !Acceptable(maxSegments, seg) || (seg.groupID in store && store[seg.groupID].expected != seg.total)
  }

  function NewGroup(total: nat): Group {
    Group(seq(total, _ => None), 0, total, false)
  }

  function GroupFor(store: Store, seg: Segment): Group {
    if seg.groupID in store then store[seg.groupID] else NewGroup(seg.total)
  }

  function GroupIdFor(g: Group, newID: uint64): uint64 {
    if g.count == 0 then newID
    else match LowestSlot(g.slots) case Some(s) => s.messageID case None => newID
  }

  function File(g: Group, seg: Segment, id: uint64): Group
    requires 1 <= seg.seqNum <= |g.slots|
  {
    var i := seg.seqNum - 1;
    Group(g.slots[i := Some(seg.(messageID := id))],
          g.count + (if g.slots[i].None? then 1 else 0),
          g.expected,
          g.receipt || seg.receipt)
  }

  /** What a call holds after its first critical section: a refusal, or a private copy of the group. */
  datatype Ticket = Refused(reply: Reply) | Filed(key: bytes, id: uint64, snapshot: Group)

  /** The first critical section of AddSegment. */
  function Update(store: Store, maxSegments: nat, gen: Option<uint64>, seg: Segment): (r: (Store, Ticket))
    requires StoreOk(store, maxSegments)
  {
    match gen
    case None => (store, Refused(Refusal(0, STATUS_SYS_ERR)))
    case Some(newID) =>
      if Refuses(store, maxSegments, seg) then (store, Refused(Refusal(newID, STATUS_INV_MSG_LEN)))
      else
        var g := GroupFor(store, seg);
        var id := GroupIdFor(g, newID);
        var filed := File(g, seg, id);
        (store[seg.groupID := filed], Filed(seg.groupID, id, filed))
  }

  /** The unlocked completion test decides the answer from the private copy alone. */
  function ReplyOf(t: Ticket): Reply {
    match t
    case Refused(reply) => reply
    case Filed(_, id, g) =>
      if Complete(g) then Reply(id, STATUS_OK, true, Texts(g.slots), Coding(g.slots), g.receipt, false)
      else Reply(id, STATUS_OK, false, [], 0, false, false)
  }

  predicate MustDelete(t: Ticket) {
    t.Filed? && Complete(t.snapshot)
  }

  /** The second critical section. */
  function Settle(store: Store, t: Ticket): Store {
    if MustDelete(t) then store - {t.key} else store
  }

  /** AddSegment as one atomic call. */
  function Add(store: Store, maxSegments: nat, gen: Option<uint64>, seg: Segment): (r: (Store, Reply))
    requires StoreOk(store, maxSegments)
  {
    var (updated, t) := Update(store, maxSegments, gen, seg);
    (Settle(updated, t), ReplyOf(t))
  }

  lemma {:induction false} NewGroupFilled(total: nat)
    ensures Filled(NewGroup(total).slots) == 0
  {
    FilledBounds(NewGroup(total).slots);
  }

  /** A well-formed group answers with the ID that all its filled slots carry. */
  lemma {:induction false} SharedGroupId(g: Group, maxSegments: nat, i: nat, newID: uint64)
    requires GroupOk(g, maxSegments) && i < |g.slots| && g.slots[i].Some?
    ensures GroupIdFor(g, newID) == g.slots[i].value.messageID
  {
    LowestSlotAt(g.slots, i);
    var lowest := LowestSlotIndex(g.slots);
  }

  lemma {:induction false} FilingShares(g: Group, maxSegments: nat, seg: Segment, newID: uint64)
    requires g == NewGroup(seg.total) || GroupOk(g, maxSegments)
    requires 1 <= seg.seqNum <= |g.slots|
    ensures SharedId(File(g, seg, GroupIdFor(g, newID)).slots)
  {
    if GroupOk(g, maxSegments) {
      forall i | 0 <= i < |g.slots| && g.slots[i].Some?
        ensures g.slots[i].value.messageID == GroupIdFor(g, newID)
      {
        SharedGroupId(g, maxSegments, i, newID);
      }
    }
  }

  lemma {:induction false} UpdateOk(store: Store, maxSegments: nat, gen: Option<uint64>, seg: Segment)
    requires StoreOk(store, maxSegments)
    ensures StoreOk(Update(store, maxSegments, gen, seg).0, maxSegments)
  {
    if gen.Some? && !Refuses(store, maxSegments, seg) {
      var g := GroupFor(store, seg);
      var id := GroupIdFor(g, gen.value);
      var filed := File(g, seg, id);
      FilledUpdate(g.slots, seg.seqNum - 1, seg.(messageID := id));
      FilledBounds(filed.slots);
      assert filed.slots[seg.seqNum - 1].Some?;
      NewGroupFilled(seg.total);
      FilingShares(g, maxSegments, seg, gen.value);
    }
  }

  /** Between calls every stored group is well formed and incomplete, and a refused call changes nothing. */
  lemma {:induction false} AddKeepsInvariant(store: Store, maxSegments: nat, gen: Option<uint64>, seg: Segment)
    requires StoreInv(store, maxSegments)
    ensures StoreInv(Add(store, maxSegments, gen, seg).0, maxSegments)
    ensures Add(store, maxSegments, gen, seg).1.err ==> Add(store, maxSegments, gen, seg).0 == store
  {
    UpdateOk(store, maxSegments, gen, seg);
  }

  /** Which segments are refused, and with what; status 8 is a system error, 1 an invalid message length. */
  lemma {:induction false} RefusedExactly(store: Store, maxSegments: nat, gen: Option<uint64>, seg: Segment)
    requires StoreOk(store, maxSegments)
    ensures var (after, reply) := Add(store, maxSegments, gen, seg);
            var misfit := seg.total < 2 || seg.total > maxSegments || seg.seqNum < 1 || seg.seqNum > seg.total ||
                          (seg.groupID in store && |store[seg.groupID].slots| != seg.total);
            && (reply.err <==> gen.None? || misfit)
            && (reply.err ==> after == store && !reply.complete)
            && (gen.None? ==> reply.id == 0 && reply.status == 8)
            && (gen.Some? && misfit ==> reply.id == gen.value && reply.status == 1)
            && (!reply.err ==> reply.status == 0)
  {
    hide File, Complete, Texts, Coding, GroupIdFor;
  }

  // ---------------------------------------------------------------- cleanup and Stop

  /** cleanup keeps a group only while its lowest-numbered stored segment is young enough. */
  predicate Keeps(g: Group, now: int, maxAge: int) {
    match LowestSlot(g.slots)
    case None => false
    case Some(s) => now - s.registeredAt <= maxAge
  }

  function Swept(store: Store, now: int, maxAge: int): Store {
    map k | k in store && Keeps(store[k], now, maxAge) :: store[k]
  }

  /** A group whose segments have all expired goes; one whose segments are all fresh stays, untouched. */
  lemma {:induction false} SweepDecides(store: Store, maxSegments: nat, now: int, maxAge: int, k: bytes)
    requires StoreOk(store, maxSegments) && k in store
    ensures (forall i :: 0 <= i < |store[k].slots| && store[k].slots[i].Some? ==>
               now - store[k].slots[i].value.registeredAt > maxAge) ==> k !in Swept(store, now, maxAge)
    ensures (forall i :: 0 <= i < |store[k].slots| && store[k].slots[i].Some? ==>
               now - store[k].slots[i].value.registeredAt <= maxAge) ==>
            k in Swept(store, now, maxAge) && Swept(store, now, maxAge)[k] == store[k]
  {
    var slots := store[k].slots;
    FilledBounds(slots);
    var j :| 0 <= j < |slots| && slots[j].Some?;
    LowestSlotAt(slots, j);
    var i := LowestSlotIndex(slots);
  }

  // ---------------------------------------------------------------- the history machine

  datatype Arrival = Arrival(seg: Segment, id: uint64)

  type History = seq<Arrival>

  /** The accepted arrivals of every open group, oldest first. */
  type Open = map<bytes, History>

  /** The most recent copy of segment n. */
  function Latest(h: History, n: int): Option<Segment> {
    if h == [] then None
    else if h[|h| - 1].seg.seqNum == n then Some(h[|h| - 1].seg)
    else Latest(h[..|h| - 1], n)
  }

  predicate AllSeen(h: History, total: nat) {
    forall n :: 1 <= n <= total ==> Latest(h, n).Some?
  }

  function LatestTexts(h: History, total: nat): bytes {
    if total == 0 then []
    else LatestTexts(h, total - 1) + (match Latest(h, total) case None => [] case Some(s) => s.text)
  }

  predicate LatestUcs2(h: History, total: nat) {
    exists n :: 1 <= n <= total && Latest(h, n).Some? && Latest(h, n).value.encoding == CODING_UCS2
  }

  predicate ReceiptAsked(h: History) {
    exists i :: 0 <= i < |h| && h[i].seg.receipt
  }

  /** The answer to the last arrival of h, read off the whole list. */
  function HistoryReply(h: History): Reply
    requires h != []
  {
    var total := h[0].seg.total;
    if AllSeen(h, total) then
      Reply(h[0].id, STATUS_OK, true, LatestTexts(h, total),
            if LatestUcs2(h, total) then CODING_UCS2 else CODING_DEFAULT, ReceiptAsked(h), false)
    else Reply(h[0].id, STATUS_OK, false, [], 0, false, false)
  }

  predicate Uniform(h: History, maxSegments: nat) {
    h != [] && forall i :: 0 <= i < |h| ==> h[i].seg.total == h[0].seg.total && Acceptable(maxSegments, h[i].seg)
  }

  predicate OpenInv(open: Open, maxSegments: nat) {
    forall k :: k in open ==> Uniform(open[k], maxSegments) && !AllSeen(open[k], open[k][0].seg.total)
  }

  function HistoryAdd(open: Open, maxSegments: nat, gen: Option<uint64>, seg: Segment): (Open, Reply)
    requires OpenInv(open, maxSegments)
  {
    var k := seg.groupID;
    match gen
    case None => (open, Refusal(0, STATUS_SYS_ERR))
    case Some(newID) =>
      if !Acceptable(maxSegments, seg) || (k in open && open[k][0].seg.total != seg.total) then
        (open, Refusal(newID, STATUS_INV_MSG_LEN))
      else
        var h := (if k in open then open[k] else []) + [Arrival(seg, newID)];
        (if AllSeen(h, seg.total) then open - {k} else open[k := h], HistoryReply(h))
  }

  /** The number of the lowest segment seen so far. */
  predicate IsLowestSeen(h: History, n: int) {
    Latest(h, n).Some? && forall m :: 1 <= m < n ==> Latest(h, m).None?
  }

  predicate HistoryKeeps(h: History, now: int, maxAge: int)
    requires h != []
  {
    exists n :: 1 <= n <= h[0].seg.total && IsLowestSeen(h, n) && now - Latest(h, n).value.registeredAt <= maxAge
  }

  // ---------------------------------------------------------------- refinement

  function Stamped(s: Option<Segment>, id: uint64): Option<Segment> {
    match s case None => None case Some(seg) => Some(seg.(messageID := id))
  }

  /** Group g is what the slot machine makes of the arrivals h. */
  predicate Represents(g: Group, h: History, maxSegments: nat) {
    && Uniform(h, maxSegments)
    && g.expected == h[0].seg.total == |g.slots|
    && (forall i :: 0 <= i < |g.slots| ==> g.slots[i] == Stamped(Latest(h, i + 1), h[0].id))
    && g.count == Filled(g.slots)
    && g.receipt == ReceiptAsked(h)
  }

  predicate Refines(store: Store, open: Open, maxSegments: nat) {
    store.Keys == open.Keys && forall k :: k in store ==> Represents(store[k], open[k], maxSegments)
  }

  lemma {:induction false} TextsAgree(slots: Slots, h: History, id: uint64)
    requires forall i :: 0 <= i < |slots| ==> slots[i] == Stamped(Latest(h, i + 1), id)
    ensures Texts(slots) == LatestTexts(h, |slots|)
  {
    if slots != [] {
      TextsAgree(slots[..|slots| - 1], h, id);
    }
  }

  lemma {:induction false} CodingAgrees(slots: Slots, h: History, id: uint64)
    requires forall i :: 0 <= i < |slots| ==> slots[i] == Stamped(Latest(h, i + 1), id)
    ensures AnyUcs2(slots) <==> LatestUcs2(h, |slots|)
  {
    if AnyUcs2(slots) {
      var i :| 0 <= i < |slots| && slots[i].Some? && slots[i].value.encoding == CODING_UCS2;
      assert Latest(h, i + 1).Some? && Latest(h, i + 1).value.encoding == CODING_UCS2;
    }
    if LatestUcs2(h, |slots|) {
      var n :| 1 <= n <= |slots| && Latest(h, n).Some? && Latest(h, n).value.encoding == CODING_UCS2;
      assert slots[n - 1].Some?;
    }
  }

  lemma {:induction false} CompleteAgrees(g: Group, h: History, maxSegments: nat)
    requires Represents(g, h, maxSegments)
    ensures Complete(g) <==> AllSeen(h, h[0].seg.total)
    ensures ReplyOf(Filed([], h[0].id, g)) == HistoryReply(h)
  {
    TextsAgree(g.slots, h, h[0].id);
    CodingAgrees(g.slots, h, h[0].id);
    FilledBounds(g.slots);
    if Complete(g) {
      forall n | 1 <= n <= g.expected ensures Latest(h, n).Some? {
        assert g.slots[n - 1].Some?;
      }
    }
  }

  lemma {:induction false} RepresentedOk(g: Group, h: History, maxSegments: nat)
    requires Represents(g, h, maxSegments)
    ensures GroupOk(g, maxSegments)
    ensures GroupIdFor(g, h[0].id) == h[0].id
    ensures g.count > 0 && LowestSlot(g.slots).Some?
  {
    var last := h[|h| - 1].seg;
    assert Latest(h, last.seqNum).Some?;
    assert g.slots[last.seqNum - 1].Some?;
    FilledBounds(g.slots);
    LowestSlotAt(g.slots, last.seqNum - 1);
    var i := LowestSlotIndex(g.slots);
    assert g.slots[i] == Stamped(Latest(h, i + 1), h[0].id);
  }

  /** Filing one more arrival keeps a group in step with its history. */
  lemma {:induction false} FileRepresents(g: Group, h: History, maxSegments: nat, seg: Segment, newID: uint64)
    requires Represents(g, h, maxSegments)
    requires Acceptable(maxSegments, seg) && seg.total == h[0].seg.total
    ensures GroupIdFor(g, newID) == h[0].id
    ensures Represents(File(g, seg, h[0].id), h + [Arrival(seg, newID)], maxSegments)
  {
    RepresentedOk(g, h, maxSegments);
    var longer := h + [Arrival(seg, newID)];
    assert longer[..|h|] == h;
    FilledUpdate(g.slots, seg.seqNum - 1, seg.(messageID := h[0].id));
    if ReceiptAsked(h) {
      var i :| 0 <= i < |h| && h[i].seg.receipt;
      assert longer[i].seg.receipt;
    }
    assert seg.receipt ==> longer[|h|].seg.receipt;
  }

  lemma {:induction false} OpensRepresented(maxSegments: nat, seg: Segment, newID: uint64)
    requires Acceptable(maxSegments, seg)
    ensures Represents(File(NewGroup(seg.total), seg, newID), [Arrival(seg, newID)], maxSegments)
  {
    var g := NewGroup(seg.total);
    var h := [Arrival(seg, newID)];
    NewGroupFilled(seg.total);
    FilledUpdate(g.slots, seg.seqNum - 1, seg.(messageID := newID));
    assert h[..0] == [];
    assert seg.receipt ==> h[0].seg.receipt;
    forall i | 0 <= i < seg.total
      ensures File(g, seg, newID).slots[i] == Stamped(Latest(h, i + 1), newID)
    {
      assert Latest([], i + 1) == None;
    }
  }

  lemma {:induction false} PutRefines(store: Store, open: Open, maxSegments: nat, k: bytes, g: Group, h: History)
    requires Refines(store, open, maxSegments) && Represents(g, h, maxSegments)
    ensures Refines(store[k := g], open[k := h], maxSegments)
    ensures Refines(store[k := g] - {k}, open - {k}, maxSegments)
  {
  }

  /** The group an accepted arrival leaves behind represents its lengthened history. */
  lemma {:induction false} FiledRepresents(store: Store, open: Open, maxSegments: nat, newID: uint64, seg: Segment)
    requires Refines(store, open, maxSegments) && !Refuses(store, maxSegments, seg)
    ensures var g := GroupFor(store, seg);
            var h := (if seg.groupID in open then open[seg.groupID] else []) + [Arrival(seg, newID)];
            1 <= seg.seqNum <= |g.slots| && h[0].id == GroupIdFor(g, newID) &&
            Represents(File(g, seg, GroupIdFor(g, newID)), h, maxSegments)
  {
    var k := seg.groupID;
    if k in store {
      FileRepresents(store[k], open[k], maxSegments, seg, newID);
    } else {
      OpensRepresented(maxSegments, seg, newID);
      assert [] + [Arrival(seg, newID)] == [Arrival(seg, newID)];
    }
  }

  /** One call: both machines answer alike and stay in step. */
  lemma {:induction false} AddRefines(store: Store, open: Open, maxSegments: nat, gen: Option<uint64>, seg: Segment)
    requires Refines(store, open, maxSegments) && OpenInv(open, maxSegments) && StoreOk(store, maxSegments)
    ensures Add(store, maxSegments, gen, seg).1 == HistoryAdd(open, maxSegments, gen, seg).1
    ensures Refines(Add(store, maxSegments, gen, seg).0, HistoryAdd(open, maxSegments, gen, seg).0, maxSegments)
  {
    var k := seg.groupID;
    assert k in store ==> store[k].expected == open[k][0].seg.total;
    if gen.Some? && !Refuses(store, maxSegments, seg) {
      var newID := gen.value;
      var h := (if k in open then open[k] else []) + [Arrival(seg, newID)];
      var g := File(GroupFor(store, seg), seg, GroupIdFor(GroupFor(store, seg), newID));
      FiledRepresents(store, open, maxSegments, newID, seg);
      CompleteAgrees(g, h, maxSegments);
      PutRefines(store, open, maxSegments, k, g, h);
    }
  }

  lemma {:induction false} LowestAgrees(g: Group, h: History, maxSegments: nat, n: int)
    requires Represents(g, h, maxSegments) && 1 <= n <= g.expected && IsLowestSeen(h, n)
    ensures LowestSlot(g.slots) == Stamped(Latest(h, n), h[0].id)
  {
    forall j | 0 <= j < n - 1 ensures g.slots[j].None? {
      assert Latest(h, j + 1).None?;
    }
    assert g.slots[n - 1].Some?;
    LowestSlotAt(g.slots, n - 1);
  }

  lemma {:induction false} SomeLowest(g: Group, h: History, maxSegments: nat) returns (n: int)
    requires Represents(g, h, maxSegments)
    ensures 1 <= n <= g.expected && IsLowestSeen(h, n)
  {
    RepresentedOk(g, h, maxSegments);
    var i := LowestSlotIndex(g.slots);
    n := i + 1;
    forall m | 1 <= m < n ensures Latest(h, m).None? {
      assert g.slots[m - 1].None?;
    }
  }

  lemma {:induction false} KeepsAgrees(g: Group, h: History, maxSegments: nat, now: int, maxAge: int)
    requires Represents(g, h, maxSegments)
    ensures Keeps(g, now, maxAge) <==> HistoryKeeps(h, now, maxAge)
  {
    var n := SomeLowest(g, h, maxSegments);
    LowestAgrees(g, h, maxSegments, n);
    if HistoryKeeps(h, now, maxAge) {
      var m :| 1 <= m <= h[0].seg.total && IsLowestSeen(h, m) && now - Latest(h, m).value.registeredAt <= maxAge;
      LowestAgrees(g, h, maxSegments, m);
    }
  }

  // ---------------------------------------------------------------- runs

  /** A call, or a sweep or Stop of the shard whose keys are `part`; the reply list records calls only. */
  datatype Call =
    | AddCall(gen: Option<uint64>, seg: Segment)
    | SweepCall(part: bytes -> bool, now: int)
    | StopCall(part: bytes -> bool)

  datatype Config = Config(maxSegments: nat, maxAge: int)

  function SweptPart(store: Store, part: bytes -> bool, now: int, maxAge: int): Store {
    map k | k in store && (part(k) ==> Keeps(store[k], now, maxAge)) :: store[k]
  }

  function StoppedPart(store: Store, part: bytes -> bool): Store {
    map k | k in store && !part(k) :: store[k]
  }

  function StoreStep(store: Store, cfg: Config, call: Call): (r: (Store, seq<Reply>))
    requires StoreInv(store, cfg.maxSegments)
    ensures StoreInv(r.0, cfg.maxSegments)
  {
    match call
    case AddCall(gen, seg) =>
      AddKeepsInvariant(store, cfg.maxSegments, gen, seg);
      var (store', reply) := Add(store, cfg.maxSegments, gen, seg);
      (store', [reply])
    case SweepCall(part, now) => (SweptPart(store, part, now, cfg.maxAge), [])
    case StopCall(part) => (StoppedPart(store, part), [])
  }

  function StoreRun(store: Store, cfg: Config, calls: seq<Call>): (r: (Store, seq<Reply>))
    requires StoreInv(store, cfg.maxSegments)
    ensures StoreInv(r.0, cfg.maxSegments)
    decreases calls
  {
    if calls == [] then (store, [])
    else
      var (store', replies) := StoreStep(store, cfg, calls[0]);
      var (store'', rest) := StoreRun(store', cfg, calls[1..]);
      (store'', replies + rest)
  }

  lemma {:induction false} HistoryAddKeepsInv(open: Open, maxSegments: nat, gen: Option<uint64>, seg: Segment)
    requires OpenInv(open, maxSegments)
    ensures OpenInv(HistoryAdd(open, maxSegments, gen, seg).0, maxSegments)
  {
  }

  function HistoryStep(open: Open, cfg: Config, call: Call): (r: (Open, seq<Reply>))
    requires OpenInv(open, cfg.maxSegments)
    ensures OpenInv(r.0, cfg.maxSegments)
  {
    match call
    case AddCall(gen, seg) =>
      HistoryAddKeepsInv(open, cfg.maxSegments, gen, seg);
      var (open', reply) := HistoryAdd(open, cfg.maxSegments, gen, seg);
      (open', [reply])
    case SweepCall(part, now) =>
      (map k | k in open && (part(k) ==> HistoryKeeps(open[k], now, cfg.maxAge)) :: open[k], [])
    case StopCall(part) => (map k | k in open && !part(k) :: open[k], [])
  }

  function HistoryRun(open: Open, cfg: Config, calls: seq<Call>): (r: (Open, seq<Reply>))
    requires OpenInv(open, cfg.maxSegments)
    ensures OpenInv(r.0, cfg.maxSegments)
    decreases calls
  {
    if calls == [] then (open, [])
    else
      var (open', replies) := HistoryStep(open, cfg, calls[0]);
      var (open'', rest) := HistoryRun(open', cfg, calls[1..]);
      (open'', replies + rest)
  }

  lemma {:induction false} StepRefines(store: Store, open: Open, cfg: Config, call: Call)
    requires Refines(store, open, cfg.maxSegments)
    requires StoreInv(store, cfg.maxSegments) && OpenInv(open, cfg.maxSegments)
    ensures Refines(StoreStep(store, cfg, call).0, HistoryStep(open, cfg, call).0, cfg.maxSegments)
    ensures StoreStep(store, cfg, call).1 == HistoryStep(open, cfg, call).1
  {
    match call
    case AddCall(gen, seg) => AddRefines(store, open, cfg.maxSegments, gen, seg);
    case SweepCall(part, now) =>
      forall k | k in store ensures Keeps(store[k], now, cfg.maxAge) <==> HistoryKeeps(open[k], now, cfg.maxAge) {
        KeepsAgrees(store[k], open[k], cfg.maxSegments, now, cfg.maxAge);
      }
    case StopCall(part) =>
  }

  /**
   * The slot store refines the lists of arrivals: over every run of calls, sweeps and
   * Stops the two answer alike and stay related.
   */
  lemma {:induction false} RunRefines(store: Store, open: Open, cfg: Config, calls: seq<Call>)
    requires Refines(store, open, cfg.maxSegments)
    requires StoreInv(store, cfg.maxSegments) && OpenInv(open, cfg.maxSegments)
    ensures Refines(StoreRun(store, cfg, calls).0, HistoryRun(open, cfg, calls).0, cfg.maxSegments)
    ensures StoreRun(store, cfg, calls).1 == HistoryRun(open, cfg, calls).1
    decreases calls
  {
    if calls != [] {
      StepRefines(store, open, cfg, calls[0]);
      RunRefines(StoreStep(store, cfg, calls[0]).0, HistoryStep(open, cfg, calls[0]).0, cfg, calls[1..]);
    }
  }
}

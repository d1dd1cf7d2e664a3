/** The reassembly store as the code lays it out: 256 shards of maps to mutable groups. */
module SegmentStore {
  import opened Base
  import opened Reassembly

  const SHARDS: nat := 256
  const FNV_OFFSET: uint32 := 2166136261
  const FNV_PRIME: uint32 := 16777619

  // ---------------------------------------------------------------- 32-bit FNV-1a

  /** Exclusive or, bit by bit; a byte touches the low eight bits of h only. */
  function Xor(h: nat, b: nat): nat
    decreases b
  {
    if b == 0 then h
    else (if h % 2 == b % 2 then 0 else 1) + 2 * Xor(h / 2, b / 2)
  }

  function FnvStep(h: uint32, b: uint8): uint32 {
    (Xor(h, b) * FNV_PRIME) % 0x1_0000_0000
  }

  function Fnv32(s: bytes): uint32 {
    if s == [] then FNV_OFFSET else FnvStep(Fnv32(s[..|s| - 1]), s[|s| - 1])
  }

  method ComputeFnv32(s: bytes) returns (h: uint32)
    ensures h == Fnv32(s)
  {
    h := FNV_OFFSET;
    for i := 0 to |s|
      invariant h == Fnv32(s[..i])
    {
      assert s[..i + 1][..i] == s[..i];
      h := FnvStep(h, s[i]);
    }
    assert s[..|s|] == s;
  }

  /** The published values for the empty string and for "a". */
  lemma {:induction false} KnownHashes()
    ensures Fnv32([]) == 0x811C_9DC5 && Fnv32([97]) == 0xE40C_292C
  {
    var a: bytes := [97];
    assert a[..0] == [];
    assert Xor(33845879, 1) == 33845878;
    assert Xor(67691758, 3) == 67691757;
    assert Xor(135383516, 6) == 135383514;
    assert Xor(270767032, 12) == 270767028;
    assert Xor(541534065, 24) == 541534057;
    assert Xor(1083068130, 48) == 1083068114;
    assert Xor(2166136261, 97) == 2166136228;
    hide Xor;
  }

  function ShardIndex(key: bytes): (i: nat)
    ensures i < SHARDS
  {
    Fnv32(key) % SHARDS
  }

  // ---------------------------------------------------------------- groups and shards

  class SegmentGroup {
    ghost const key: bytes  // the one key this group is ever stored under
    const expected: uint8
    var list: seq<Option<Segment>>
    var count: uint8
    var receipt: bool

    ghost function View(): Group
      reads this
    {
      Group(list, count, expected, receipt)
    }

    constructor (ghost key: bytes, total: uint8)
      ensures View() == NewGroup(total) && this.key == key
    {
      this.key := key;
      expected := total;
      list := seq(total, _ => None);
      count := 0;
      receipt := false;
    }

    method IsComplete() returns (b: bool)
      ensures b == Complete(View())
    {
      if count != expected {
        return false;
      }
      for i := 0 to expected
        invariant i <= |list|
        invariant forall j :: 0 <= j < i ==> list[j].Some?
      {
        if i >= |list| || list[i].None? {
          return false;
        }
      }
      return true;
    }

    /** A private copy: a fresh object with the same contents. */
    method Snapshot() returns (copy: SegmentGroup)
      ensures fresh(copy) && copy.View() == View()
    {
      copy := new SegmentGroup(key, expected);
      copy.count, copy.receipt, copy.list := count, receipt, seq(|list|, _ => None);
      for i := 0 to |list|
        invariant |copy.list| == |list| && copy.count == count && copy.receipt == receipt
        invariant forall j :: 0 <= j < i ==> copy.list[j] == list[j]
        invariant forall j :: i <= j < |list| ==> copy.list[j].None?
      {
        if list[i].Some? {
          copy.list := copy.list[i := list[i]];
        }
      }
      assert copy.list == list;
    }

    /** The message ID carried by the first filled slot. */
    method FirstMessageID() returns (id: Option<uint64>)
      ensures id == match LowestSlot(list) case None => None case Some(s) => Some(s.messageID)
    {
      for i := 0 to |list|
        invariant forall j :: 0 <= j < i ==> list[j].None?
      {
        if list[i].Some? {
          LowestSlotAt(list, i);
          return Some(list[i].value.messageID);
        }
      }
      NoLowestSlot(list);
      return None;
    }
  }

  class SegmentShard {
    ghost const index: nat
    var segments: map<bytes, SegmentGroup>

    constructor (ghost index: nat)
      ensures this.index == index && segments == map[]
    {
      this.index := index;
      segments := map[];
    }
  }

  lemma {:induction false} NoLowestSlot(slots: Slots)
    requires forall j :: 0 <= j < |slots| ==> slots[j].None?
    ensures LowestSlot(slots).None?
  {
    if slots != [] {
      NoLowestSlot(slots[1..]);
    }
  }

  /** Reads a finished message out of a group, in sequence order. */
  method GetCompleteMessage(group: SegmentGroup) returns (ok: bool, full: bytes, coding: uint8)
    requires group.expected <= |group.list|
    ensures ok == Complete(group.View())
    ensures ok ==> full == Texts(group.list[..group.expected]) && coding == Coding(group.list[..group.expected])
    ensures !ok ==> full == [] && coding == 0
  {
    ok := group.IsComplete();
    full, coding := [], 0;
    if !ok {
      return;
    }
    coding := CODING_DEFAULT;
    var slots := group.list[..group.expected];
    for i := 0 to group.expected
      invariant coding == Coding(slots[..i])
    {
      assert slots[..i + 1] == slots[..i] + [slots[i]];
      if group.list[i].value.encoding == CODING_UCS2 {
        coding := CODING_UCS2;
        assert slots[..i + 1][i].value.encoding == CODING_UCS2;
      }
      assert AnyUcs2(slots[..i + 1]) <==> AnyUcs2(slots[..i]) || slots[i].value.encoding == CODING_UCS2 by {
        if AnyUcs2(slots[..i]) {
          var j :| 0 <= j < i && slots[..i][j].Some? && slots[..i][j].value.encoding == CODING_UCS2;
          assert slots[..i + 1][j] == slots[..i][j];
        }
      }
    }
    for i := 0 to group.expected
      invariant full == Texts(slots[..i])
    {
      assert slots[..i + 1][..i] == slots[..i];
      full := full + group.list[i].value.text;
    }
    assert slots[..group.expected] == slots;
  }

  // ---------------------------------------------------------------- the sharded store

  function Clamp(n: int): int {
    if n < MIN_SEGMENTS_CAP then MIN_SEGMENTS_CAP
    else if n > MAX_SEGMENTS_CAP then MAX_SEGMENTS_CAP
    else n
  }

  const DEFAULT_SEGMENT_AGE: int := 180_000_000_000  // three minutes, in nanoseconds

  lemma {:induction false} PutTwice(store: Store, k: bytes, g: Group)
    ensures forall h {:trigger store[k := g][k := h]} :: store[k := g][k := h] == store[k := h]
  {
  }

  /** The groups that belong in shard i. */
  ghost function PartOf(groups: map<bytes, SegmentGroup>, i: nat): map<bytes, SegmentGroup> {
    map k | k in groups && ShardIndex(k) == i :: groups[k]
  }

  lemma {:induction false} PartPut(groups: map<bytes, SegmentGroup>, key: bytes, g: SegmentGroup, i: nat)
    ensures PartOf(groups[key := g], i) ==
            if ShardIndex(key) == i then PartOf(groups, i)[key := g] else PartOf(groups, i)
  {
  }

  lemma {:induction false} PartDrop(groups: map<bytes, SegmentGroup>, keys: set<bytes>, i: nat)
    ensures PartOf(groups - keys, i) == PartOf(groups, i) - keys
    ensures (forall k :: k in keys && k in groups ==> ShardIndex(k) != i) ==>
              PartOf(groups - keys, i) == PartOf(groups, i)
  {
  }

  /** The keys of shard i, as the part of the store that one locked sweep or Stop works on. */
  function InShard(i: nat): bytes -> bool {
    k => ShardIndex(k) == i
  }

  lemma {:induction false} DropIsSweep(store: Store, keys: set<bytes>, i: nat, now: int, maxAge: int, maxSegments: nat)
    requires StoreInv(store, maxSegments)
    ensures StoreInv(store - keys, maxSegments)
    ensures (forall k :: k in keys <==> k in store && ShardIndex(k) == i && !Keeps(store[k], now, maxAge)) ==>
              store - keys == SweptPart(store, InShard(i), now, maxAge)
    ensures (forall k :: k in keys <==> k in store && ShardIndex(k) == i) ==>
              store - keys == StoppedPart(store, InShard(i))
  {
    hide Keeps, GroupOk, Complete, ShardIndex;
  }

  function SweptBelow(store: Store, i: nat, now: int, maxAge: int): Store {
    map k | k in store && (ShardIndex(k) < i ==> Keeps(store[k], now, maxAge)) :: store[k]
  }

  lemma {:induction false} SweptBelowGrows(store: Store, i: nat, now: int, maxAge: int)
    ensures SweptPart(SweptBelow(store, i, now, maxAge), InShard(i), now, maxAge) ==
            SweptBelow(store, i + 1, now, maxAge)
  {
  }

  lemma {:induction false} SweptBelowEnds(store: Store, now: int, maxAge: int)
    ensures SweptBelow(store, 0, now, maxAge) == store
    ensures SweptBelow(store, SHARDS, now, maxAge) == Swept(store, now, maxAge)
  {
    forall k ensures ShardIndex(k) < SHARDS {}
  }

  /** The atomic call, case by case. */
  lemma {:induction false} AddUnfolds(store: Store, maxSegments: nat, gen: Option<uint64>, seg: Segment)
    requires StoreInv(store, maxSegments)
    ensures StoreOk(store, maxSegments) && StoreInv(Add(store, maxSegments, gen, seg).0, maxSegments)
    ensures gen.None? ==> Add(store, maxSegments, gen, seg) == (store, Refusal(0, STATUS_SYS_ERR))
    ensures gen.Some? && !(2 <= seg.total <= maxSegments && 1 <= seg.seqNum <= seg.total) ==>
              Add(store, maxSegments, gen, seg) == (store, Refusal(gen.value, STATUS_INV_MSG_LEN))
    ensures (2 <= seg.total <= maxSegments && 1 <= seg.seqNum <= seg.total) <==> Acceptable(maxSegments, seg)
    ensures gen.Some? && Refuses(store, maxSegments, seg) ==>
              Add(store, maxSegments, gen, seg) == (store, Refusal(gen.value, STATUS_INV_MSG_LEN))
    ensures gen.Some? && !Refuses(store, maxSegments, seg) ==>
              var g := GroupFor(store, seg);
              && |g.slots| == seg.total
              && var t := Filed(seg.groupID, GroupIdFor(g, gen.value), File(g, seg, GroupIdFor(g, gen.value)));
                 Add(store, maxSegments, gen, seg) == (Settle(store[seg.groupID := t.snapshot], t), ReplyOf(t))
  {
    AddKeepsInvariant(store, maxSegments, gen, seg);
    hide File, Complete, Texts, Coding, GroupIdFor;
  }

  class SegmentsManager {
    const shards: seq<SegmentShard>
    const maxSegments: nat
    const maxAge: int

    ghost var groups: map<bytes, SegmentGroup>  // all groups, whatever their shard
    ghost var repr: set<SegmentGroup>           // every group object this store has ever owned
    ghost var flat: Store                       // and their contents: the one map the shards stand for

    /** Every group lives in the one shard its key hashes to, and `flat` tells the contents. */
    ghost predicate Laid()
      reads this, shards, repr
    {
      && |shards| == SHARDS
      && (forall i :: 0 <= i < SHARDS ==> shards[i].index == i)
      && (forall i :: 0 <= i < SHARDS ==> shards[i].segments == PartOf(groups, i))
      && flat.Keys == groups.Keys
      && (forall k :: k in groups ==> groups[k] in repr && groups[k].key == k && flat[k] == groups[k].View())
    }

    ghost predicate Valid()
      reads this, shards, repr
    {
      Laid() && 2 <= maxSegments <= MAX_SEGMENTS_CAP && StoreInv(flat, maxSegments)
    }

    constructor (segmentTTL: int, maxSubmitSegments: int)
      ensures Valid() && flat == map[] && fresh(shards) && repr == {}
      ensures maxSegments ==
              if maxSubmitSegments < 2 then 2 else if maxSubmitSegments > 25 then 25 else maxSubmitSegments
      ensures maxAge == if segmentTTL <= 0 then 180_000_000_000 else segmentTTL
    {
      var made: seq<SegmentShard> := [];
      for i := 0 to SHARDS
        invariant |made| == i && fresh(made)
        invariant forall j :: 0 <= j < i ==> made[j].index == j && made[j].segments == map[]
      {
        var shard := new SegmentShard(i);
        made := made + [shard];
      }
      shards := made;
      maxSegments := Clamp(maxSubmitSegments);
      maxAge := if segmentTTL <= 0 then DEFAULT_SEGMENT_AGE else segmentTTL;
      flat, groups, repr := map[], map[], {};
    }

    /** getShard and the map lookup. */
    method Lookup(key: bytes) returns (shard: nat, group: SegmentGroup?)
      requires Valid()
      ensures shard == ShardIndex(key) == Fnv32(key) % 256
      ensures group != null <==> key in flat
      ensures group != null ==> group == groups[key]
    {
      var hash := ComputeFnv32(key);
      shard := hash % SHARDS;
      assert key in shards[shard].segments <==> key in PartOf(groups, shard);
      group := if key in shards[shard].segments then shards[shard].segments[key] else null;
    }

    method Put(shard: nat, key: bytes, group: SegmentGroup)
      requires Laid() && shard == ShardIndex(key) && key !in flat && group.key == key
      modifies this`flat, this`groups, this`repr, shards
      ensures Laid() && groups == old(groups)[key := group] && repr == old(repr) + {group}
      ensures flat == old(flat)[key := group.View()]
    {
      hide ShardIndex, PartOf;
      ghost var before := groups;
      shards[shard].segments := shards[shard].segments[key := group];
      groups, flat, repr := groups[key := group], flat[key := group.View()], repr + {group};
      forall i | 0 <= i < SHARDS ensures shards[i].segments == PartOf(groups, i) {
        assert i != shard ==> shards[i] != shards[shard];
        PartPut(before, key, group, i);
      }
    }

    /** Deletes keys from one shard. */
    method Delete(shard: nat, keys: set<bytes>)
      requires Laid() && shard < SHARDS && forall k :: k in keys ==> ShardIndex(k) == shard
      modifies this`flat, this`groups, shards[shard]
      ensures Laid() && flat == old(flat) - keys && groups == old(groups) - keys
    {
      hide ShardIndex, PartOf;
      ghost var before := groups;
      shards[shard].segments := shards[shard].segments - keys;
      groups, flat := groups - keys, flat - keys;
      forall i | 0 <= i < SHARDS ensures shards[i].segments == PartOf(groups, i) {
        assert i != shard ==> shards[i] != shards[shard];
        PartDrop(before, keys, i);
      }
    }

    /** The body of the first critical section: one slot, the counter and the flag change. */
    method FileInto(group: SegmentGroup, segment: Segment, newID: uint64)
      returns (messageID: uint64, copy: SegmentGroup)
      requires Laid() && segment.groupID in groups && group == groups[segment.groupID]
      requires group.View() == NewGroup(segment.total) || GroupOk(group.View(), maxSegments)
      requires 1 <= segment.seqNum <= group.expected
      modifies this`flat, group
      ensures Laid()
      ensures messageID == GroupIdFor(old(group.View()), newID)
      ensures fresh(copy) && copy.View() == File(old(group.View()), segment, messageID)
      ensures flat == old(flat)[segment.groupID := copy.View()]
    {
      messageID := Write(group, segment, newID);
      flat := flat[segment.groupID := group.View()];
      copy := group.Snapshot();
    }

    method Write(group: SegmentGroup, segment: Segment, newID: uint64) returns (messageID: uint64)
      requires group.View() == NewGroup(segment.total) || GroupOk(group.View(), maxSegments)
      requires 1 <= segment.seqNum <= group.expected
      modifies group
      ensures messageID == GroupIdFor(old(group.View()), newID)
      ensures group.View() == File(old(group.View()), segment, messageID)
    {
      NewGroupFilled(segment.total);
      FilledBounds(group.list);
      group.receipt := group.receipt || segment.receipt;
      var i := segment.seqNum - 1;
      var oldCount := group.count;
      messageID := newID;
      if group.list[i].None? {
        assert group.count < group.expected;
        group.count := group.count + 1;
      }
      if oldCount != 0 {
        var first := group.FirstMessageID();
        if first.Some? {
          messageID := first.value;
        }
      }
      group.list := group.list[i := Some(segment.(messageID := messageID))];
    }

    /** Opens the group if need be; refuses a segment that disagrees on the total. */
    method FindOrOpen(segment: Segment) returns (group: SegmentGroup?)
      requires Valid() && Acceptable(maxSegments, segment)
      modifies this`flat, this`groups, this`repr, shards
      ensures Laid() && fresh(repr - old(repr))
      ensures group == null <==> Refuses(old(flat), maxSegments, segment)
      ensures group == null ==> flat == old(flat)
      ensures group != null ==>
                && flat == old(flat)[segment.groupID := GroupFor(old(flat), segment)]
                && segment.groupID in groups && group == groups[segment.groupID]
                && group.View() == GroupFor(old(flat), segment)
                && |group.list| == segment.total
                && (group.View() == NewGroup(segment.total) || GroupOk(group.View(), maxSegments))
                && group.expected == segment.total
                && group in repr && (group in old(repr) || fresh(group))
    {
      var shard, found := Lookup(segment.groupID);
      if found == null {
        group := new SegmentGroup(segment.groupID, segment.total);
        Put(shard, segment.groupID, group);
      } else if segment.total != found.expected {
        group := null;
      } else {
        group := found;
      }
    }

    /**
     * AddSegment answers and stores exactly as the atomic call on the flat map; a completed
     * message is decoded after the group is gone. `decode` is DecodeMessage with its codecs.
     */
    method AddSegment<T>(gen: Option<uint64>, segment: Segment, decode: (bytes, uint8) -> T)
      returns (reply: Reply, text: Option<T>)
      requires Valid()
      modifies this`flat, this`groups, this`repr, shards, repr
      ensures text == if reply.complete then Some(decode(reply.body, reply.coding)) else None
      ensures Valid() && fresh(repr - old(repr))
      ensures flat == Add(old(flat), maxSegments, gen, segment).0
      ensures reply == Add(old(flat), maxSegments, gen, segment).1
    {
      AddUnfolds(flat, maxSegments, gen, segment);
      hide Add, Acceptable, StoreInv, StoreOk, ShardIndex;
      if gen.None? {
        return Refusal(0, STATUS_SYS_ERR), None;
      }
      var messageID := gen.value;
      if segment.total <= 1 || segment.seqNum == 0 || segment.seqNum > segment.total ||
         segment.total > maxSegments || segment.seqNum > maxSegments {
        return Refusal(messageID, STATUS_INV_MSG_LEN), None;
      }
      reply := AddAcceptable(messageID, segment);
      text := if reply.complete then Some(decode(reply.body, reply.coding)) else None;
    }

    method AddAcceptable(newID: uint64, segment: Segment) returns (reply: Reply)
      requires Valid() && Acceptable(maxSegments, segment)
      modifies this`flat, this`groups, this`repr, shards, repr
      ensures Laid() && fresh(repr - old(repr))
      ensures flat == Add(old(flat), maxSegments, Some(newID), segment).0
      ensures reply == Add(old(flat), maxSegments, Some(newID), segment).1
    {
      AddUnfolds(flat, maxSegments, Some(newID), segment);
      hide Add, File, GroupIdFor, GroupOk, Complete, Texts, Coding, ShardIndex, PartOf;
      var refused, id, copy := FirstSection(newID, segment);
      if refused {
        return Refusal(newID, STATUS_INV_MSG_LEN);
      }
      reply := Finish(segment.groupID, id, copy.value);
    }

    /** The first critical section: find or open the group, file the segment, copy the group. */
    method FirstSection(newID: uint64, segment: Segment)
      returns (refused: bool, id: uint64, copy: Option<SegmentGroup>)
      requires Valid() && Acceptable(maxSegments, segment)
      modifies this`flat, this`groups, this`repr, shards, repr
      ensures Laid() && fresh(repr - old(repr))
      ensures refused <==> Refuses(old(flat), maxSegments, segment)
      ensures refused ==> flat == old(flat)
      ensures !refused ==>
                && copy.Some?
                && var g := GroupFor(old(flat), segment);
                && |g.slots| == segment.total
                && id == GroupIdFor(g, newID)
                && copy.value.View() == File(g, segment, id)
                && flat == old(flat)[segment.groupID := copy.value.View()]
    {
      var group := FindOrOpen(segment);
      if group == null {
        return true, newID, None;
      }
      var snapshot: SegmentGroup;
      PutTwice(old(flat), segment.groupID, GroupFor(old(flat), segment));
      id, snapshot := FileInto(group, segment, newID);
      refused, copy := false, Some(snapshot);
    }

    /** The unlocked completion test on the private copy, and the second critical section. */
    method Finish(key: bytes, messageID: uint64, copy: SegmentGroup) returns (reply: Reply)
      requires Laid() && |copy.list| == copy.expected
      modifies this`flat, this`groups, shards
      ensures Laid()
      ensures reply == ReplyOf(Filed(key, messageID, copy.View()))
      ensures flat == Settle(old(flat), Filed(key, messageID, copy.View()))
    {
      var complete, body, coding := GetCompleteMessage(copy);
      assert copy.list[..copy.expected] == copy.list;
      if !complete {
        return Reply(messageID, STATUS_OK, false, [], 0, false, false);
      }
      reply := Reply(messageID, STATUS_OK, true, body, coding, copy.receipt, false);
      var hash := ComputeFnv32(key);
      Delete(hash % SHARDS, {key});
    }

    /** cleanup: shard by shard, collect the groups that are too old, then delete them. */
    method Cleanup(now: int)
      requires Valid()
      modifies this`flat, this`groups, shards
      ensures Valid() && flat == Swept(old(flat), now, maxAge)
    {
      SweptBelowEnds(flat, now, maxAge);
      for i := 0 to SHARDS
        invariant Valid()
        invariant flat == SweptBelow(old(flat), i, now, maxAge)
      {
        SweptBelowGrows(old(flat), i, now, maxAge);
        CleanupShard(i, now);
      }
    }

    /** One shard under its lock: one sweep step of the reassembly machine. */
    method CleanupShard(i: nat, now: int)
      requires Valid() && i < SHARDS
      modifies this`flat, this`groups, shards
      ensures Valid() && flat == SweptPart(old(flat), InShard(i), now, maxAge)
    {
      var toDelete := TooOld(i, now);
      DropIsSweep(flat, toDelete, i, now, maxAge, maxSegments);
      hide StoreInv, SweptPart, ShardIndex, InShard, Keeps;
      Delete(i, toDelete);
    }

    /** The keys of shard i that cleanup deletes. */
    method TooOld(i: nat, now: int) returns (toDelete: set<bytes>)
      requires Valid() && i < SHARDS
      ensures forall k :: k in toDelete <==> k in flat && ShardIndex(k) == i && !Keeps(flat[k], now, maxAge)
    {
      var todo := shards[i].segments.Keys;
      assert forall k :: k in todo <==> k in PartOf(groups, i);
      toDelete := {};
      ghost var done: set<bytes> := {};
      while todo != {}
        invariant forall k :: k in todo || k in done <==> k in flat && ShardIndex(k) == i
        invariant todo <= shards[i].segments.Keys && todo !! done
        invariant forall k :: k in toDelete <==> k in done && !Keeps(flat[k], now, maxAge)
        decreases todo
      {
        var key :| key in todo;
        var group := shards[i].segments[key];
        assert group == PartOf(groups, i)[key];
        var tooOld := IsTooOld(group, now);
        todo, done := todo - {key}, done + {key};
        if tooOld {
          toDelete := toDelete + {key};
        }
      }
    }

    method IsTooOld(group: SegmentGroup, now: int) returns (tooOld: bool)
      ensures tooOld <==> !Keeps(group.View(), now, maxAge)
    {
      for i := 0 to |group.list|
        invariant forall j :: 0 <= j < i ==> group.list[j].None?
      {
        if group.list[i].Some? {
          LowestSlotAt(group.list, i);
          return now - group.list[i].value.registeredAt > maxAge;
        }
      }
      NoLowestSlot(group.list);
      return true;
    }

    /** One shard under its lock: one Stop step of the reassembly machine. */
    method StopShard(i: nat)
      requires Valid() && i < SHARDS
      modifies this`flat, this`groups, shards
      ensures Valid() && flat == StoppedPart(old(flat), InShard(i))
    {
      assert forall k :: k in shards[i].segments <==> k in PartOf(groups, i);
      DropIsSweep(flat, shards[i].segments.Keys, i, 0, maxAge, maxSegments);
      hide StoreInv, StoppedPart, ShardIndex, InShard;
      Delete(i, shards[i].segments.Keys);
    }

    /** Stop: every shard is left with an empty map. */
    method Stop()
      requires Valid()
      modifies this`flat, this`groups, shards
      ensures Valid() && flat == map[]
    {
      for i := 0 to SHARDS
        invariant Valid()
        invariant forall k :: k in flat ==> ShardIndex(k) >= i
      {
        StopShard(i);
      }
      assert forall k :: k in flat ==> ShardIndex(k) < SHARDS;
    }
  }
}

/** A long message inside a session: many submit_sm PDUs, one submit. */
module SegmentedSubmits {
  import opened Base
  import opened Correlation
  import opened Sessions
  import opened Reassembly
  import opened ReassemblyLaws
  import L = Locality

  predicate AllSegments(ps: seq<SubmitParams>) {
    forall i :: 0 <= i < |ps| ==> IsSegment(ps[i])
  }

  /** The PDUs as the reassembly store sees them, each with the ID generated for it. */
  function ArrivalsOf(ps: seq<SubmitParams>, ids: seq<uint64>): (h: History)
    requires |ps| == |ids| && AllSegments(ps)
  {
    seq(|ps|, i requires 0 <= i < |ps| => Arrival(Requested(ps[i]), ids[i]))
  }

  predicate AllAdds(calls: seq<Call>) {
    forall i :: 0 <= i < |calls| ==> calls[i].AddCall?
  }

  /** The i-th answer of a run is the answer of one call on the store as the first i calls left it. */
  lemma {:induction false} AnswerAt(store: Store, cfg: Config, calls: seq<Call>, i: nat)
    requires StoreInv(store, cfg.maxSegments) && AllAdds(calls) && i < |calls|
    ensures |StoreRun(store, cfg, calls).1| == |calls|
    ensures StoreRun(store, cfg, calls).1[i] ==
            Add(StoreRun(store, cfg, calls[..i]).0, cfg.maxSegments, calls[i].gen, calls[i].seg).1
    decreases calls
  {
    hide Add, StoreInv;
    var (next, reply) := StoreStep(store, cfg, calls[0]);
    assert |reply| == 1;
    if |calls| > 1 {
      AnswerAt(next, cfg, calls[1..], if i == 0 then 0 else i - 1);
    }
    if i == 0 {
      assert calls[..0] == [];
    } else {
      assert calls[..i][1..] == calls[1..][..i - 1] && calls[..i][0] == calls[0];
    }
  }

  lemma {:induction false} CallAt(h: History, i: nat)
    requires i < |h|
    ensures AllAdds(CallsFor(h))
    ensures CallsFor(h)[i] == AddCall(Some(h[i].id), h[i].seg) && CallsFor(h)[..i] == CallsFor(h[..i])
  {
    if |h| > 1 {
      CallAt(h[1..], if i == 0 then 0 else i - 1);
    }
    if i > 0 {
      assert h[..i][1..] == h[1..][..i - 1];
    }
  }

  /**
   * A moment in any run: what has been called since `start` concerns group k only by its
   * first i arrivals and by sweeps that kept it.
   */
  ghost predicate Moment(start: Store, cfg: Config, calls: seq<Call>, k: bytes, h: History, i: nat) {
    && i <= |h| && StoreInv(start, cfg.maxSegments) && k !in start
    && L.Spared(start, cfg, calls, k) && L.AddsFor(calls, k) == CallsFor(h[..i])
  }

  function StoreAfter(start: Store, cfg: Config, calls: seq<Call>): (store: Store)
    requires StoreInv(start, cfg.maxSegments)
    ensures StoreInv(store, cfg.maxSegments)
  {
    StoreRun(start, cfg, calls).0
  }

  /** At such a moment the next arrival is answered as it would be with nothing else going on. */
  lemma {:induction false} AnsweredAlone(start: Store, cfg: Config, calls: seq<Call>, k: bytes, h: History, i: nat)
    requires Moment(start, cfg, calls, k, h, i) && i < |h| && h[i].seg.groupID == k
    ensures StoreInv(map[], cfg.maxSegments) && StoreRun(map[], cfg, CallsFor(h)).1 != []
    ensures i < |StoreRun(map[], cfg, CallsFor(h)).1|
    ensures Add(StoreAfter(start, cfg, calls), cfg.maxSegments, Some(h[i].id), h[i].seg).1 ==
            StoreRun(map[], cfg, CallsFor(h)).1[i]
  {
    hide Add, StoreRun, CallsFor, L.Spared, L.AddsFor;
    L.SparedApart(start, cfg, calls, k);
    CallAt(h, i);
    AnswerAt(map[], cfg, CallsFor(h), i);
    L.AddApart(StoreAfter(start, cfg, calls), cfg.maxSegments, Some(h[i].id), h[i].seg, k);
  }

  predicate SomeoneAsked(ps: seq<SubmitParams>) {
    exists i :: 0 <= i < |ps| && RequiresReceipt(ps[i].registeredDelivery)
  }

  /**
   * Whatever the order, the resends and the other traffic, every PDU of a long message but
   * the last is held and answered with the first one's ID; the last is handled once, under
   * that ID, with the text of the latest copies in sequence order, and a receipt is due if
   * any PDU asked.
   */
  lemma {:induction false} HandledOnce(start: Store, cfg: Config, calls: seq<Call>, k: bytes, ps: seq<SubmitParams>,
                                       ids: seq<uint64>, decode: Decoder, verdict: Option<uint32>, i: nat)
    requires |ps| == |ids| && AllSegments(ps) && CompletesLast(ArrivalsOf(ps, ids), k, cfg.maxSegments) && i < |ps|
    requires Moment(start, cfg, calls, k, ArrivalsOf(ps, ids), i)
    ensures var h := ArrivalsOf(ps, ids);
            var d := Decide(StoreAfter(start, cfg, calls), cfg.maxSegments, Some(ids[i]), ps[i], decode, verdict);
            if i < |ps| - 1 then d == Held(ids[0])
            else
              var total := h[0].seg.total;
              var text := decode(LatestTexts(h, total), if LatestUcs2(h, total) then CODING_UCS2 else CODING_DEFAULT);
              if text.None? then d == Decision.Refused(ids[0], STATUS_OK)
              else d == HandledAs(ps[i], ids[0], text.value, SomeoneAsked(ps), verdict)
  {
    hide Add, StoreRun, CallsFor, LatestTexts, LatestUcs2, CompletesLast, StoreOk, Moment;
    var h := ArrivalsOf(ps, ids);
    var replies := Reassembles(cfg, k, h);
    OfGroup(h, k, cfg.maxSegments, i);
    AnsweredAlone(start, cfg, calls, k, h, i);
    MomentOk(start, cfg, calls, k, h, i);
    var store := StoreAfter(start, cfg, calls);
    assert replies[i] == Add(store, cfg.maxSegments, Some(ids[i]), Requested(ps[i])).1;
    OkStatus(store, cfg.maxSegments, Some(ids[i]), Requested(ps[i]));
    assert forall j :: 0 <= j < |h| ==> (h[j].seg.receipt <==> RequiresReceipt(ps[j].registeredDelivery));
    assert (exists j :: 0 <= j < |h| && h[j].seg.receipt) <==> SomeoneAsked(ps);
  }

  lemma {:induction false} OfGroup(h: History, k: bytes, maxSegments: nat, i: nat)
    requires CompletesLast(h, k, maxSegments) && i < |h|
    ensures h[i].seg.groupID == k
  {
  }

  lemma {:induction false} MomentOk(start: Store, cfg: Config, calls: seq<Call>, k: bytes, h: History, i: nat)
    requires Moment(start, cfg, calls, k, h, i)
    ensures StoreInv(start, cfg.maxSegments) && StoreOk(StoreAfter(start, cfg, calls), cfg.maxSegments)
  {
  }

  lemma {:induction false} OkStatus(store: Store, maxSegments: nat, gen: Option<uint64>, seg: Segment)
    requires StoreOk(store, maxSegments)
    ensures !Add(store, maxSegments, gen, seg).1.err ==> Add(store, maxSegments, gen, seg).1.status == STATUS_OK
  {
  }

  // ---------------------------------------------------------------- whose policy counts

  /** What the session remembers after the PDU that completes the message has been handled. */
  function AfterCompletion(s: Sess, d: Decision, last: SubmitParams, now: int): Sess
    requires d.Handled?
  {
    Submit(s, d.sub, EntryFor(last, d.text, d.receipt, now))
  }

  /** What the completing PDU is decided as, on the store as it finds it. */
  function CompletionOf(store: Store, cfg: Config, ps: seq<SubmitParams>, ids: seq<uint64>, decode: Decoder,
                        verdict: Option<uint32>): Decision
    requires |ps| == |ids| && ps != [] && StoreOk(store, cfg.maxSegments)
  {
    var last := |ps| - 1;
    Decide(store, cfg.maxSegments, Some(ids[last]), ps[last], decode, verdict)
  }

  /** All PDUs but the last have arrived, in any order and with any resends, among any other traffic. */
  ghost predicate OneToGo(start: Store, cfg: Config, calls: seq<Call>, k: bytes, ps: seq<SubmitParams>,
                          ids: seq<uint64>)
  {
    && |ps| == |ids| && ps != [] && AllSegments(ps) && CompletesLast(ArrivalsOf(ps, ids), k, cfg.maxSegments)
    && Moment(start, cfg, calls, k, ArrivalsOf(ps, ids), |ps| - 1)
  }

  /**
   * Whatever the order, the resends and the other traffic, a handled long message leaves an
   * entry exactly if some PDU asked for a receipt; but a report of an outcome queues one
   * exactly if the policy of the completing PDU asks for that outcome, and otherwise spends
   * the entry.
   */
  lemma {:induction false} CompletingOctetDecides(
    start: Store, cfg: Config, calls: seq<Call>, k: bytes, ps: seq<SubmitParams>, ids: seq<uint64>, decode: Decoder,
    verdict: Option<uint32>, s: Sess, now: int, success: bool, n: uint32, later: int)
    requires OneToGo(start, cfg, calls, k, ps, ids)
    requires CompletionOf(StoreAfter(start, cfg, calls), cfg, ps, ids, decode, verdict).Handled?
    requires NeverStored(s, ids[0]) && Msg(ids[0]) !in s.pending
    ensures var last := ps[|ps| - 1];
            var d := CompletionOf(StoreAfter(start, cfg, calls), cfg, ps, ids, decode, verdict);
            var after := AfterCompletion(s, d, last, now);
            var h := Life(Report(after, ids[0], success, n, Enqueued, later), ids[0]);
            && (Msg(ids[0]) in after.pending <==> SomeoneAsked(ps))
            && (Queued(success) in h <==> ShouldSend(last.registeredDelivery, success))
            && (SomeoneAsked(ps) && !ShouldSend(last.registeredDelivery, success) ==>
                  h == [Stored(last.registeredDelivery), Left(PolicySkip(success))])
  {
    hide CompletionOf, StoreAfter, AfterCompletion, Life, Report, ShouldSend, SomeoneAsked;
    hide CompletesLast, ArrivalsOf, NeverStored, StoreInv, Moment;
    CompletionIs(start, cfg, calls, k, ps, ids, decode, verdict);
    var d := CompletionOf(StoreAfter(start, cfg, calls), cfg, ps, ids, decode, verdict);
    SpentOrQueued(s, d, ps[|ps| - 1], now, success, n, later);
  }

  lemma {:induction false} CompletionIs(start: Store, cfg: Config, calls: seq<Call>, k: bytes, ps: seq<SubmitParams>,
                                        ids: seq<uint64>, decode: Decoder, verdict: Option<uint32>)
    requires OneToGo(start, cfg, calls, k, ps, ids)
    ensures StoreInv(start, cfg.maxSegments) && StoreOk(StoreAfter(start, cfg, calls), cfg.maxSegments)
    ensures var d := CompletionOf(StoreAfter(start, cfg, calls), cfg, ps, ids, decode, verdict);
            d.Handled? ==>
              && d.sub.id == ids[0] && d.receipt == SomeoneAsked(ps)
              && (RequiresReceipt(ps[|ps| - 1].registeredDelivery) ==> d.receipt)
  {
    hide LatestTexts, LatestUcs2, CompletesLast, Decide, Moment, StoreAfter, ArrivalsOf;
    MomentOk(start, cfg, calls, k, ArrivalsOf(ps, ids), |ps| - 1);
    HandledOnce(start, cfg, calls, k, ps, ids, decode, verdict, |ps| - 1);
    if RequiresReceipt(ps[|ps| - 1].registeredDelivery) {
      assert SomeoneAsked(ps);
    }
  }

  lemma {:induction false} SpentOrQueued(s: Sess, d: Decision, last: SubmitParams, now: int, success: bool, n: uint32,
      later: int)
    requires d.Handled? && NeverStored(s, d.sub.id) && Msg(d.sub.id) !in s.pending
    requires RequiresReceipt(last.registeredDelivery) ==> d.receipt
    ensures var after := AfterCompletion(s, d, last, now);
            var h := Life(Report(after, d.sub.id, success, n, Enqueued, later), d.sub.id);
            && (Msg(d.sub.id) in after.pending <==> d.receipt)
            && (Queued(success) in h <==> ShouldSend(last.registeredDelivery, success))
            && (d.receipt && !ShouldSend(last.registeredDelivery, success) ==>
                  h == [Stored(last.registeredDelivery), Left(PolicySkip(success))])
  {
    hide Submit, Report, Life;
    ReportedLife(s, d.sub, EntryFor(last, d.text, d.receipt, now), success, n, later);
  }

  /** The life of a fresh message that is submitted and then reported. */
  lemma {:induction false} ReportedLife(s: Sess, sub: Submission, entry: Option<PendingRequest>, success: bool,
      n: uint32, later: int)
    requires NeverStored(s, sub.id) && Msg(sub.id) !in s.pending
    ensures var after := Submit(s, sub, entry);
            && (Msg(sub.id) in after.pending <==> entry.Some?)
            && Life(Report(after, sub.id, success, n, Enqueued, later), sub.id) ==
               match entry
               case None => []
               case Some(e) =>
                 [Stored(e.octet)] +
                 (if ShouldSend(e.octet, success) then [Queued(success), Left(Sent)] else [Left(PolicySkip(success))])
  {
    var superseded := Supersede(s, sub.key, sub.replacing);
    assert Life(superseded, sub.id) == [] && Msg(sub.id) !in superseded.pending;
    hide Supersede;
    var after := Submit(s, sub, entry);
    if entry.Some? {
      assert [] + [Stored(entry.value.octet)] == [Stored(entry.value.octet)];
      assert Life(after, sub.id) == [Stored(entry.value.octet)];
    }
  }

  /** A segment of a two-part message with this policy octet. */
  function PartOfTwo(number: uint8, octet: uint8): SubmitParams {
    SubmitParams([], [], [], octet, 0, 0, 0, [], [], Some(Segment([], number, 2, [], 0, 0, false, 0)))
  }

  const ASKED_FIRST: seq<SubmitParams> := [PartOfTwo(1, SUCCESS_AND_FAILURE), PartOfTwo(2, NO_RECEIPT)]
  const TEN := Config(10, 0)

  /** The store when the first of the two has been filed. */
  function FirstFiled(): (store: Store)
    ensures StoreOk(store, 10)
  {
    var h := ArrivalsOf(ASKED_FIRST, [1, 2]);
    EmptyOk();
    StoreAfter(map[], TEN, CallsFor(h[..1]))
  }

  lemma {:induction false} EmptyOk()
    ensures StoreInv(map[], 10)
  {
  }

  /**
   * The first of two PDUs asks for every receipt and the second for none: an entry is left
   * that no report can turn into a receipt and no sweep ever removes.
   */
  lemma {:induction false} AskedFirstOnly(decode: Decoder, verdict: Option<uint32>, now: int, later: int, ttl: int,
                                          seen: set<PendingKey>)
    requires decode([], CODING_DEFAULT).Some?
    ensures var d := CompletionOf(FirstFiled(), TEN, ASKED_FIRST, [1, 2], decode, verdict);
            && SomeoneAsked(ASKED_FIRST) && d.Handled?
            && var after := AfterCompletion(FRESH, d, ASKED_FIRST[1], now);
               && Msg(1) in Sweep(after, seen, later, ttl).pending
               && forall success, n ::
                    Life(Report(after, 1, success, n, Enqueued, later), 1) ==
                    [Stored(NO_RECEIPT), Left(PolicySkip(success))]
  {
    hide CompletesLast, ArrivalsOf, Life, Report, LatestTexts, LatestUcs2, Submit, CompletionOf, Sweep;
    hide Moment, StoreAfter;
    TwoParts();
    OneFiled();
    var calls := CallsFor(ArrivalsOf(ASKED_FIRST, [1, 2])[..1]);
    CompletionHandled(calls, decode, verdict);
    CompletionIs(map[], TEN, calls, [], ASKED_FIRST, [1, 2], decode, verdict);
    var d := CompletionOf(FirstFiled(), TEN, ASKED_FIRST, [1, 2], decode, verdict);
    StaysFor(d, ASKED_FIRST[1], now, later, ttl, seen);
    forall success, n: uint32
      ensures Life(Report(AfterCompletion(FRESH, d, ASKED_FIRST[1], now), 1, success, n, Enqueued, later), 1)
              == [Stored(NO_RECEIPT), Left(PolicySkip(success))]
    {
      SpentOrQueued(FRESH, d, ASKED_FIRST[1], now, success, n, later);
    }
  }

  lemma {:induction false} OneFiled()
    ensures |ArrivalsOf(ASKED_FIRST, [1, 2])| == 2
    ensures var calls := CallsFor(ArrivalsOf(ASKED_FIRST, [1, 2])[..1]);
            Moment(map[], TEN, calls, [], ArrivalsOf(ASKED_FIRST, [1, 2]), 1)
  {
    hide L.Spared, L.AddsFor, CallsFor, StoreRun, L.Told;
    L.AloneIsSpared(map[], TEN, [], ArrivalsOf(ASKED_FIRST, [1, 2])[..1]);
  }

  lemma {:induction false} CompletionHandled(calls: seq<Call>, decode: Decoder, verdict: Option<uint32>)
    requires OneToGo(map[], TEN, calls, [], ASKED_FIRST, [1, 2])
    requires LatestTexts(ArrivalsOf(ASKED_FIRST, [1, 2]), 2) == [] && !LatestUcs2(ArrivalsOf(ASKED_FIRST, [1, 2]), 2)
    requires ArrivalsOf(ASKED_FIRST, [1, 2])[0].seg.total == 2 && decode([], CODING_DEFAULT).Some?
    ensures StoreInv(map[], 10) && StoreOk(StoreAfter(map[], TEN, calls), 10)
    ensures CompletionOf(StoreAfter(map[], TEN, calls), TEN, ASKED_FIRST, [1, 2], decode, verdict).Handled?
  {
    hide CompletesLast, LatestTexts, LatestUcs2, Decide, Moment, StoreAfter, ArrivalsOf;
    MomentOk(map[], TEN, calls, [], ArrivalsOf(ASKED_FIRST, [1, 2]), 1);
    HandledOnce(map[], TEN, calls, [], ASKED_FIRST, [1, 2], decode, verdict, 1);
  }

  /** An entry whose octet is zero outlives every sweep. */
  lemma {:induction false} StaysFor(d: Decision, last: SubmitParams, now: int, later: int, ttl: int,
                                    seen: set<PendingKey>)
    requires d.Handled? && d.receipt && last.registeredDelivery == 0
    ensures Msg(d.sub.id) in Sweep(AfterCompletion(FRESH, d, last, now), seen, later, ttl).pending
    ensures NeverStored(FRESH, d.sub.id)
  {
    assert !(d.sub.key in FRESH.last);
  }

  lemma {:induction false} TwoParts()
    ensures var ps := ASKED_FIRST;
            && AllSegments(ps) && CompletesLast(ArrivalsOf(ps, [1, 2]), [], 10)
            && ArrivalsOf(ps, [1, 2])[0].seg.total == 2 && SomeoneAsked(ps)
            && LatestTexts(ArrivalsOf(ps, [1, 2]), 2) == [] && !LatestUcs2(ArrivalsOf(ps, [1, 2]), 2)
  {
    var ps := ASKED_FIRST;
    var h := ArrivalsOf(ps, [1, 2]);
    assert RequiresReceipt(ps[0].registeredDelivery);
    var front := h[..1];
    assert front[..0] == [];
    assert Latest(h, 2) == Some(h[1].seg) && Latest(front, 1) == Some(h[0].seg) && Latest(h, 1) == Some(h[0].seg);
    assert Latest(front, 2) == None;
    var none: bytes := [];
    assert LatestTexts(h, 1) == LatestTexts(h, 0) + none && LatestTexts(h, 2) == LatestTexts(h, 1) + none;
  }
}

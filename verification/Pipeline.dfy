/** User data headers for concatenation, sections 9.2.3.24.1 and 9.2.3.24.8 of 3GPP TS 23.040. */
module Udh {
  import opened Base

  datatype Parsed = Parsed(reference: uint16, total: uint8, number: uint8)

  datatype UdhResult = Ok(udh: Parsed) | TooShort | BadLength | Unsupported | BadNumber

  function ParseUDH(data: bytes): UdhResult {
    if |data| < 6 then TooShort
    else if |data| - 1 < data[0] then BadLength
    else if data[0] == 5 && data[1] == 0 && data[2] == 3 then
      Checked(data[3], data[4], data[5])
    else if data[0] == 6 && data[1] == 8 && data[2] == 4 then
      Checked(data[3] as int * 256 + data[4], data[5], data[6])
    else Unsupported
  }

  function Checked(reference: uint16, total: uint8, number: uint8): UdhResult {
    if number == 0 || number > total then BadNumber else Ok(Parsed(reference, total, number))
  }

  function CreateUDH(reference: int, total: int, number: int): bytes {
    [5, 0, 3, reference % 256, total % 256, number % 256]
  }

  /** The header SendSegmentedDeliverSM writes: a 16-bit reference, the total and the index, each cut to a byte. */
  function Header(reference: uint16, total: nat, index: nat): bytes {
    [6, 8, 4, reference / 256, reference % 256, total % 256, (index + 1) % 256]
  }

  /** What parses, octet by octet: a whole header of one of two kinds whose part number is within its total. */
  lemma {:induction false} ParsesExactly(data: bytes)
    ensures ParseUDH(data).Ok? <==>
            || (|data| >= 6 && data[0] == 5 && data[1] == 0 && data[2] == 3 && 1 <= data[5] <= data[4])
            || (|data| >= 7 && data[0] == 6 && data[1] == 8 && data[2] == 4 && 1 <= data[6] <= data[5])
    ensures ParseUDH(data).Ok? ==>
              ParseUDH(data).udh ==
              if data[0] == 5 then Parsed(data[3], data[4], data[5])
              else Parsed(data[3] as int * 256 + data[4], data[5], data[6])
  {
  }

  /** Parsing returns what was written exactly when the numbers fit and are in range. */
  lemma {:induction false} ParseCreated(reference: int, total: int, number: int, payload: bytes)
    ensures (ParseUDH(CreateUDH(reference, total, number) + payload) ==
             Ok(Parsed(reference % 256, total % 256, number % 256))) <==> 1 <= number % 256 <= total % 256
    ensures (0 <= reference < 256 && 1 <= number <= total < 256) ==>
              ParseUDH(CreateUDH(reference, total, number) + payload) == Ok(Parsed(reference, total, number))
  {
    var data := CreateUDH(reference, total, number) + payload;
    assert data[0] == 5 && data[1] == 0 && data[2] == 3 && data[3] == reference % 256;
    assert data[4] == total % 256 && data[5] == number % 256;
  }

  lemma {:induction false} ParseHeader(reference: uint16, total: nat, index: nat, payload: bytes)
    requires index < total <= 255
    ensures ParseUDH(Header(reference, total, index) + payload) == Ok(Parsed(reference, total, index + 1))
    ensures (Header(reference, total, index) + payload)[7..] == payload
  {
    var data := Header(reference, total, index) + payload;
    assert data[0] == 6 && data[1] == 8 && data[2] == 4;
    assert data[3] == reference / 256 && data[4] == reference % 256;
    assert data[5] == total && data[6] == index + 1;
  }
}

/** The long-message pipeline: cut, encode, prefix, send; receive, strip, reassemble. */
module Pipeline {
  import opened Base
  import opened Splitting
  import opened Udh
  import R = Reassembly
  import Laws = ReassemblyLaws
  import L = Locality

  /** encodeText; None stands for its error. */
  type Encoder = seq<rune> -> Option<bytes>

  const MAX_PIECE_BYTES: nat := 248  // 255 octets of short_message less the header

  function Truncated(payload: bytes): bytes {
    if |payload| > MAX_PIECE_BYTES then payload[..MAX_PIECE_BYTES] else payload
  }

  /** The i-th message on the wire. */
  function Wire(pieces: seq<seq<rune>>, i: nat, reference: uint16, encode: Encoder): bytes
    requires i < |pieces| && encode(pieces[i]).Some?
  {
    Header(reference, |pieces|, i) + Truncated(encode(pieces[i]).value)
  }

  /** What is handed to the session for one deliver_sm. */
  datatype Deliver = Deliver(message: bytes, dataCoding: uint8, esmClass: uint8)

  const PLAIN: uint8 := 0
  const WITH_HEADER: uint8 := 0x40  // the UDH indicator, section 5.2.12 of SMPP v3.4

  /** The first messages of a multi-part text went out, and why no more did. */
  predicate SentPieces(pieces: seq<seq<rune>>, reference: uint16, coding: uint8, encode: Encoder, accepts: nat,
                       wire: seq<Deliver>)
  {
    && |wire| <= |pieces| && |wire| <= accepts
    && (|wire| < |pieces| ==> |wire| == accepts || encode(pieces[|wire|]).None?)
    && forall i :: 0 <= i < |wire| ==>
         encode(pieces[i]).Some? && wire[i] == Deliver(Wire(pieces, i, reference, encode), coding, WITH_HEADER)
  }

  /**
   * SendSegmentedDeliverSM. `accepts` is how many deliver_sm the session takes
   * before sending fails or the context ends. Returns what went out.
   */
  method SendSegmented(
    sessionID: bytes, source: bytes, dest: bytes, text: seq<rune>, limit: nat, determineEncoding: seq<rune> -> uint8,
    encodeText: (seq<rune>, uint8) -> Option<bytes>, reference: uint16, accepts: nat)
    returns (wire: seq<Deliver>, ok: bool)
    ensures text == [] || sessionID == [] || source == [] || dest == [] ==> wire == [] && !ok
    ensures var coding := determineEncoding(text);
            var kept := Cut(text, limit);
            var pieces := Split(kept, coding);
            text != [] && sessionID != [] && source != [] && dest != [] ==>
              && (ok <==> |wire| == |pieces|)
              && (|pieces| == 1 ==>
                    if ok then |wire| == 1 && encodeText(kept, coding) == Some(wire[0].message) &&
                               wire[0].dataCoding == coding && wire[0].esmClass == PLAIN
                    else wire == [] && (accepts == 0 || encodeText(kept, coding).None?))
              && (|pieces| > 1 ==> SentPieces(pieces, reference, coding, t => encodeText(t, coding), accepts, wire))
  {
    wire, ok := [], false;
    if text == [] || sessionID == [] || source == [] || dest == [] {
      return;
    }
    var coding := determineEncoding(text);
    var kept := text;
    if Utf8Length(text) > limit && |text| > limit {
      kept := text[..limit];
    }
    var pieces := SplitTextIntoSegments(kept, coding);
    SplitLaws(kept, coding);
    if |pieces| == 1 {
      var payload := encodeText(kept, coding);
      if payload.Some? && accepts > 0 {
        wire, ok := [Deliver(payload.value, coding, PLAIN)], true;
      }
      return;
    }
    wire := SendPieces(pieces, coding, t => encodeText(t, coding), reference, accepts);
    ok := |wire| == |pieces|;
  }

  /** The sending loop. */
  method SendPieces(pieces: seq<seq<rune>>, coding: uint8, encode: Encoder, reference: uint16, accepts: nat)
    returns (wire: seq<Deliver>)
    ensures SentPieces(pieces, reference, coding, encode, accepts, wire)
  {
    wire := [];
    for i := 0 to |pieces|
      invariant |wire| == i <= accepts
      invariant forall j :: 0 <= j < i ==>
                  encode(pieces[j]).Some? && wire[j] == Deliver(Wire(pieces, j, reference, encode), coding, WITH_HEADER)
    {
      var udh := [6, 8, 4, reference / 256, reference % 256, |pieces| % 256, (i + 1) % 256];
      var payload := encode(pieces[i]);
      if payload.None? || i == accepts {
        return;
      }
      var segmentBytes := payload.value;
      if |segmentBytes| + |udh| > 255 {
        segmentBytes := segmentBytes[..255 - |udh|];
      }
      wire := wire + [Deliver(udh + segmentBytes, coding, WITH_HEADER)];
    }
  }

  /** What went out, octet by octet: nothing over 255, a header with the part's place in it, then the encoded part. */
  lemma {:induction false} WireLayout(pieces: seq<seq<rune>>, reference: uint16, coding: uint8, encode: Encoder,
                                      accepts: nat, wire: seq<Deliver>, i: nat)
    requires SentPieces(pieces, reference, coding, encode, accepts, wire) && i < |wire|
    ensures var m, e := wire[i].message, encode(pieces[i]).value;
            && |m| == (if |e| <= 248 then 7 + |e| else 255)
            && m[..7] == [6, 8, 4, reference / 256, reference % 256, |pieces| % 256, (i + 1) % 256]
            && m[7..] == e[..|m| - 7]
            && wire[i].dataCoding == coding && wire[i].esmClass == 0x40
  {
  }

  // ---------------------------------------------------------------- the receiving end

  /** parseSubmitSM on a message payload that carries its own header. */
  function Receive(groupID: bytes, payload: bytes, at: int, receipt: bool): Option<R.Segment> {
    match ParseUDH(payload)
    case Ok(udh) =>
      if udh.total > 1 then
        Some(R.Segment(groupID, udh.number, udh.total, payload[payload[0] + 1..], CODING_DEFAULT, at, receipt, 0))
      else None
    case _ => None
  }

  /** One delivery of the piece numbered `piece`. */
  datatype Delivery = Delivery(piece: nat, at: int, receipt: bool, id: uint64)

  predicate Encodes(pieces: seq<seq<rune>>, encode: Encoder) {
    forall i :: 0 <= i < |pieces| ==> encode(pieces[i]).Some?
  }

  predicate Fits(pieces: seq<seq<rune>>, encode: Encoder)
    requires Encodes(pieces, encode)
  {
    forall i :: 0 <= i < |pieces| ==> |encode(pieces[i]).value| <= MAX_PIECE_BYTES
  }

  /** Encoding a text piece by piece is encoding it whole. */
  ghost predicate Homomorphic(encode: Encoder) {
    forall a, b {:trigger encode(a + b)} ::
      encode(a).Some? && encode(b).Some? ==> encode(a + b) == Some(encode(a).value + encode(b).value)
  }

  lemma {:induction false} ReceiveWire(pieces: seq<seq<rune>>, i: nat, reference: uint16, encode: Encoder,
                    groupID: bytes, at: int, receipt: bool)
    requires i < |pieces| && 2 <= |pieces| <= 255 && encode(pieces[i]).Some?
    ensures Receive(groupID, Wire(pieces, i, reference, encode), at, receipt) ==
            Some(R.Segment(groupID, i + 1, |pieces|, Truncated(encode(pieces[i]).value),
                           CODING_DEFAULT, at, receipt, 0))
  {
    ParseHeader(reference, |pieces|, i, Truncated(encode(pieces[i]).value));
  }

  /** One long message under way: its pieces and the header and group they travel with. */
  datatype Sending = Sending(pieces: seq<seq<rune>>, reference: uint16, encode: Encoder, groupID: bytes) {
    predicate Ok(maxSegments: nat) {
      2 <= |pieces| <= maxSegments <= 255 && Encodes(pieces, encode)
    }
  }

  predicate Known(s: Sending, deliveries: seq<Delivery>) {
    forall i :: 0 <= i < |deliveries| ==> deliveries[i].piece < |s.pieces|
  }

  /** What parsing one delivered message hands to AddSegment. */
  function ArrivalOf(s: Sending, d: Delivery): R.Arrival
    requires s.Ok(255) && d.piece < |s.pieces|
  {
    ReceiveWire(s.pieces, d.piece, s.reference, s.encode, s.groupID, d.at, d.receipt);
    R.Arrival(Receive(s.groupID, Wire(s.pieces, d.piece, s.reference, s.encode), d.at, d.receipt).value, d.id)
  }

  lemma {:induction false} ArrivalOfPiece(s: Sending, d: Delivery)
    requires s.Ok(255) && d.piece < |s.pieces|
    ensures ArrivalOf(s, d).seg ==
            R.Segment(s.groupID, d.piece + 1, |s.pieces|, Truncated(s.encode(s.pieces[d.piece]).value),
                      CODING_DEFAULT, d.at, d.receipt, 0)
  {
    ReceiveWire(s.pieces, d.piece, s.reference, s.encode, s.groupID, d.at, d.receipt);
  }

  function Arrivals(s: Sending, deliveries: seq<Delivery>): R.History
    requires s.Ok(255) && Known(s, deliveries)
  {
    seq(|deliveries|, i requires 0 <= i < |deliveries| => ArrivalOf(s, deliveries[i]))
  }

  predicate Delivered(deliveries: seq<Delivery>, piece: nat) {
    exists i :: 0 <= i < |deliveries| && deliveries[i].piece == piece
  }

  predicate AllDelivered(s: Sending, deliveries: seq<Delivery>) {
    forall p :: 0 <= p < |s.pieces| ==> Delivered(deliveries, p)
  }

  lemma {:induction false} DeliveredSnoc(deliveries: seq<Delivery>, piece: nat)
    requires deliveries != []
    ensures Delivered(deliveries, piece) <==>
            deliveries[|deliveries| - 1].piece == piece || Delivered(deliveries[..|deliveries| - 1], piece)
  {
    var front := deliveries[..|deliveries| - 1];
    if i :| 0 <= i < |front| && front[i].piece == piece {
      assert deliveries[i].piece == piece;
    }
    if i :| 0 <= i < |deliveries| && deliveries[i].piece == piece {
      assert i < |front| ==> front[i].piece == piece;
    }
  }

  /** Whatever copy of a piece came last, its text is the encoded piece. */
  lemma {:induction false} LatestIsPiece(s: Sending, deliveries: seq<Delivery>, n: nat)
    requires s.Ok(255) && Known(s, deliveries) && 1 <= n <= |s.pieces|
    ensures var latest := R.Latest(Arrivals(s, deliveries), n);
            && (latest.Some? <==> Delivered(deliveries, n - 1))
            && (latest.Some? ==> latest.value.text == Truncated(s.encode(s.pieces[n - 1]).value))
            && (latest.Some? ==> latest.value.encoding == CODING_DEFAULT)
  {
    hide ArrivalOf;
    if deliveries != [] {
      var front, last := deliveries[..|deliveries| - 1], deliveries[|deliveries| - 1];
      LatestIsPiece(s, front, n);
      ArrivalOfPiece(s, last);
      DeliveredSnoc(deliveries, n - 1);
      assert Arrivals(s, deliveries)[..|front|] == Arrivals(s, front);
    }
  }

  lemma {:induction false} TextsAreEncoding(s: Sending, deliveries: seq<Delivery>, total: nat)
    requires s.Ok(255) && Fits(s.pieces, s.encode) && Homomorphic(s.encode)
    requires Known(s, deliveries) && AllDelivered(s, deliveries) && 1 <= total <= |s.pieces|
    ensures s.encode(Concat(s.pieces[..total])) == Some(R.LatestTexts(Arrivals(s, deliveries), total))
  {
    hide ArrivalOf, Arrivals, Delivered;
    var h, piece := Arrivals(s, deliveries), s.pieces[total - 1];
    LatestIsPiece(s, deliveries, total);
    assert R.LatestTexts(h, total) == R.LatestTexts(h, total - 1) + s.encode(piece).value;
    assert s.pieces[..total] == s.pieces[..total - 1] + [piece];
    ConcatSnoc(s.pieces[..total - 1], piece);
    if total == 1 {
      assert s.pieces[..0] == [] && R.LatestTexts(h, 0) == [];
      assert Concat(s.pieces[..1]) == piece;
      assert [] + s.encode(piece).value == s.encode(piece).value;
    } else {
      TextsAreEncoding(s, deliveries, total - 1);
    }
  }

  /** What is filed is never longer than the encoding, and as long only if no piece was cut short. */
  lemma {:induction false} TextsAreShorter(s: Sending, deliveries: seq<Delivery>, total: nat)
    requires s.Ok(255) && Homomorphic(s.encode)
    requires Known(s, deliveries) && AllDelivered(s, deliveries) && 1 <= total <= |s.pieces|
    ensures s.encode(Concat(s.pieces[..total])).Some?
    ensures var filed, whole := |R.LatestTexts(Arrivals(s, deliveries), total)|,
            |s.encode(Concat(s.pieces[..total])).value|;
            filed <= whole && (filed == whole ==> Fits(s.pieces[..total], s.encode))
  {
    hide ArrivalOf, Arrivals, Delivered;
    var h, piece := Arrivals(s, deliveries), s.pieces[total - 1];
    LatestIsPiece(s, deliveries, total);
    assert R.LatestTexts(h, total) == R.LatestTexts(h, total - 1) + Truncated(s.encode(piece).value);
    var front := s.pieces[..total - 1];
    assert s.pieces[..total] == front + [piece];
    ConcatSnoc(front, piece);
    if total == 1 {
      assert front == [] && R.LatestTexts(h, 0) == [];
      assert Concat(s.pieces[..1]) == piece;
    } else {
      TextsAreShorter(s, deliveries, total - 1);
    }
  }

  lemma {:induction false} ArrivalsForGroup(s: Sending, deliveries: seq<Delivery>, maxSegments: nat)
    requires s.Ok(maxSegments) && Known(s, deliveries) && deliveries != []
    ensures Laws.ForGroup(Arrivals(s, deliveries), s.groupID, maxSegments)
    ensures Arrivals(s, deliveries)[0].seg.total == |s.pieces|
  {
    var h := Arrivals(s, deliveries);
    forall i | 0 <= i < |h|
      ensures h[i].seg.groupID == s.groupID && h[i].seg.total == |s.pieces| && R.Acceptable(maxSegments, h[i].seg)
    {
      ArrivalOfPiece(s, deliveries[i]);
    }
  }

  lemma {:induction false} SeenIsDelivered(s: Sending, deliveries: seq<Delivery>)
    requires s.Ok(255) && Known(s, deliveries)
    ensures R.AllSeen(Arrivals(s, deliveries), |s.pieces|) <==> AllDelivered(s, deliveries)
    ensures !R.LatestUcs2(Arrivals(s, deliveries), |s.pieces|)
  {
    forall n | 1 <= n <= |s.pieces|
      ensures R.Latest(Arrivals(s, deliveries), n).Some? <==> Delivered(deliveries, n - 1)
      ensures R.Latest(Arrivals(s, deliveries), n).Some? ==>
                R.Latest(Arrivals(s, deliveries), n).value.encoding == CODING_DEFAULT
    {
      LatestIsPiece(s, deliveries, n);
    }
    if R.AllSeen(Arrivals(s, deliveries), |s.pieces|) {
      forall p | 0 <= p < |s.pieces| ensures Delivered(deliveries, p) {
        assert R.Latest(Arrivals(s, deliveries), p + 1).Some?;
      }
    }
  }

  /**
   * The message's deliveries within a run that may also serve other groups and sweep the
   * store: every piece arrives, in any order and with any resends, none is missing until
   * the last delivery, and no sweep or Stop takes the group away.
   */
  ghost predicate Delivers(store: R.Store, cfg: R.Config, calls: seq<R.Call>, s: Sending, deliveries: seq<Delivery>) {
    && s.Ok(cfg.maxSegments) && deliveries != [] && Known(s, deliveries)
    && AllDelivered(s, deliveries) && !AllDelivered(s, deliveries[..|deliveries| - 1])
    && R.StoreInv(store, cfg.maxSegments) && s.groupID !in store
    && L.Spared(store, cfg, calls, s.groupID)
    && L.AddsFor(calls, s.groupID) == Laws.CallsFor(Arrivals(s, deliveries))
  }

  /** With nothing else going on, that is all there is to it. */
  lemma {:induction false} DeliversAlone(cfg: R.Config, s: Sending, deliveries: seq<Delivery>)
    requires s.Ok(cfg.maxSegments) && deliveries != [] && Known(s, deliveries)
    requires AllDelivered(s, deliveries) && !AllDelivered(s, deliveries[..|deliveries| - 1])
    ensures Delivers(map[], cfg, Laws.CallsFor(Arrivals(s, deliveries)), s, deliveries)
    ensures L.Told(map[], cfg, Laws.CallsFor(Arrivals(s, deliveries)), s.groupID) ==
            R.StoreRun(map[], cfg, Laws.CallsFor(Arrivals(s, deliveries))).1
  {
    hide ArrivalOf, Delivered, Laws.CallsFor, R.StoreRun, L.Told, L.Spared, L.AddsFor;
    ArrivalsForGroup(s, deliveries, cfg.maxSegments);
    L.AloneIsSpared(map[], cfg, s.groupID, Arrivals(s, deliveries));
  }

  /** Encoding more text takes more bytes. */
  ghost predicate Extending(encode: Encoder) {
    forall a, b {:trigger encode(a + b)} ::
      b != [] && encode(a).Some? && encode(a + b).Some? ==> |encode(a + b).value| > |encode(a).value|
  }

  /**
   * Sender and receiver. The sender keeps the first `limit` runes of the caller's text, cuts
   * them into 2..maxSegments pieces and puts those on the wire; they are delivered in any
   * order, with any resends, among any other traffic. Only the last call completes. It
   * yields exactly the encoding of what was kept if every piece fits its message, and
   * something shorter otherwise; so the caller's whole text comes back exactly if it is
   * also no longer than the limit.
   */
  lemma {:induction false} RoundTrip(store: R.Store, cfg: R.Config, calls: seq<R.Call>, text: seq<rune>, limit: nat,
                                     coding: uint8, s: Sending, deliveries: seq<Delivery>)
    returns (replies: seq<R.Reply>)
    requires s.pieces == Split(Cut(text, limit), coding) && Homomorphic(s.encode)
    requires Delivers(store, cfg, calls, s, deliveries)
    ensures replies == L.Told(store, cfg, calls, s.groupID) && |replies| == |deliveries|
    ensures forall j :: 0 <= j < |replies| ==> (replies[j].complete <==> j == |replies| - 1)
    ensures var last, kept := replies[|replies| - 1], Cut(text, limit);
            && last.body == R.LatestTexts(Arrivals(s, deliveries), |s.pieces|) && last.coding == CODING_DEFAULT
            && (s.encode(kept) == Some(last.body) <==> Fits(s.pieces, s.encode))
            && s.encode(kept).Some? && |last.body| <= |s.encode(kept).value|
            && (|last.body| == |s.encode(kept).value| ==> Fits(s.pieces, s.encode))
    ensures Extending(s.encode) ==>
              (s.encode(text) == Some(replies[|replies| - 1].body) <==> |text| <= limit && Fits(s.pieces, s.encode))
  {
    hide ArrivalOf, R.Latest, R.LatestTexts, Split, Delivered, L.Told, L.Spared, L.AddsFor;
    var h := Arrivals(s, deliveries);
    var front := deliveries[..|deliveries| - 1];
    ArrivalsForGroup(s, deliveries, cfg.maxSegments);
    SeenIsDelivered(s, deliveries);
    SeenIsDelivered(s, front);
    assert h[..|h| - 1] == Arrivals(s, front);
    replies := L.ReassemblesAmongOthers(store, cfg, calls, s.groupID, h);
    KeptBytes(text, limit, coding, s, deliveries);
  }

  /** The filed bytes against the encodings of the kept and of the whole text. */
  lemma {:induction false} KeptBytes(text: seq<rune>, limit: nat, coding: uint8, s: Sending, deliveries: seq<Delivery>)
    requires s.pieces == Split(Cut(text, limit), coding) && s.Ok(255) && Homomorphic(s.encode)
    requires Known(s, deliveries) && AllDelivered(s, deliveries)
    ensures var body, kept := R.LatestTexts(Arrivals(s, deliveries), |s.pieces|), Cut(text, limit);
            && (s.encode(kept) == Some(body) <==> Fits(s.pieces, s.encode))
            && s.encode(kept).Some? && |body| <= |s.encode(kept).value|
            && (|body| == |s.encode(kept).value| ==> Fits(s.pieces, s.encode))
            && (Extending(s.encode) ==> (s.encode(text) == Some(body) <==> |text| <= limit && Fits(s.pieces, s.encode)))
  {
    hide ArrivalOf, Arrivals, R.LatestTexts, Split, Delivered;
    var kept := Cut(text, limit);
    SplitLaws(kept, coding);
    CutBoundsPieces(text, limit, coding);
    assert s.pieces[..|s.pieces|] == s.pieces;
    TextsAreShorter(s, deliveries, |s.pieces|);
    if Fits(s.pieces, s.encode) {
      TextsAreEncoding(s, deliveries, |s.pieces|);
    }
    if |text| > limit {
      assert kept + text[limit..] == text;
    } else {
      assert kept == text;
    }
  }
}

/** The pipeline with UTF-16BE as its encoder, from text to text. */
module UnicodePipeline {
  import opened Base
  import opened Splitting
  import opened Pipeline
  import U = Ucs2
  import R = Reassembly
  import L = Locality

  function EncodeText(text: seq<rune>): Option<bytes> {
    Some(U.EncodeUcs2(text))
  }

  lemma {:induction false} EncodesConcatenations()
    ensures Homomorphic(EncodeText)
  {
    forall a: seq<rune>, b: seq<rune> ensures U.EncodeUcs2(a + b) == U.EncodeUcs2(a) + U.EncodeUcs2(b) {
      U.EncodeAppend(a, b);
    }
  }

  /** A piece is cut short on the wire exactly when it has more than 124 code units. */
  lemma {:induction false} FitsIffShort(piece: seq<rune>)
    ensures Truncated(U.EncodeUcs2(piece)) == U.EncodeUcs2(piece) <==> Utf16Length(piece) <= 124
  {
    U.EncodedLength(piece);
  }

  lemma {:induction false} AstralLength(text: seq<rune>)
    requires forall i :: 0 <= i < |text| ==> text[i] >= 0x1_0000
    ensures Utf16Length(text) == 2 * |text|
  {
    if text != [] {
      AstralLength(text[1..]);
    }
  }

  /** The splitter counts runes, not code units: a long text of supplementary characters loses octets. */
  lemma {:induction false} AstralTextLosesOctets(text: seq<rune>)
    requires |text| > 70 && forall i :: 0 <= i < |text| ==> text[i] >= 0x1_0000
    ensures var first := Split(text, CODING_UCS2)[0];
            |U.EncodeUcs2(first)| == 268 && Truncated(U.EncodeUcs2(first)) != U.EncodeUcs2(first)
    ensures !PiecesShort(text)
  {
    var first := text[..67];
    assert |Split(text, CODING_UCS2)| > 0 && Split(text, CODING_UCS2)[0] == first;
    AstralLength(first);
    U.EncodedLength(first);
  }

  /** No piece has more than 124 code units. */
  predicate PiecesShort(text: seq<rune>) {
    forall i :: 0 <= i < |Split(text, CODING_UCS2)| ==> Utf16Length(Split(text, CODING_UCS2)[i]) <= 124
  }

  lemma {:induction false} ShortIsFits(text: seq<rune>)
    ensures PiecesShort(text) <==> Fits(Split(text, CODING_UCS2), EncodeText)
  {
    var pieces := Split(text, CODING_UCS2);
    forall i | 0 <= i < |pieces|
      ensures Utf16Length(pieces[i]) <= 124 <==> |EncodeText(pieces[i]).value| <= MAX_PIECE_BYTES
    {
      U.EncodedLength(pieces[i]);
    }
  }

  /** A text of the basic multilingual plane has short pieces. */
  lemma {:induction false} BmpFits(text: seq<rune>)
    requires forall i :: 0 <= i < |text| ==> text[i] < 0x1_0000
    ensures PiecesShort(text)
  {
    var pieces := Split(text, CODING_UCS2);
    forall i | 0 <= i < |pieces| ensures Utf16Length(pieces[i]) <= 124 {
      PieceOfText(text, CODING_UCS2, i);
      forall j | 0 <= j < |pieces[i]| ensures pieces[i][j] < 0x1_0000 {
        assert pieces[i][j] in text;
      }
      BmpLength(pieces[i]);
    }
  }

  lemma {:induction false} PieceRunes(text: seq<rune>, m: nat, i: nat)
    requires m == 67 && i < |Pieces(text, m)|
    ensures |Pieces(text, m)[i]| <= m && forall r :: r in Pieces(text, m)[i] ==> r in text
    decreases |text|
  {
    if |text| > m && i > 0 {
      PieceRunes(text[m..], m, i - 1);
    }
  }

  lemma {:induction false} PieceOfText(text: seq<rune>, coding: uint8, i: nat)
    requires coding == CODING_UCS2 && i < |Split(text, coding)|
    ensures |Split(text, coding)[i]| <= 70 && forall r :: r in Split(text, coding)[i] ==> r in text
  {
    if |text| > 70 {
      PieceRunes(text, 67, i);
    }
  }

  /** With UTF-16BE pieces the filed bytes are whole code units. */
  lemma {:induction false} FiledUnits(s: Sending, deliveries: seq<Delivery>, total: nat)
    requires s.Ok(255) && s.encode == EncodeText && Known(s, deliveries) && AllDelivered(s, deliveries) &&
             total <= |s.pieces|
    ensures |R.LatestTexts(Arrivals(s, deliveries), total)| % 2 == 0
  {
    hide ArrivalOf, Arrivals, Delivered;
    if total > 0 {
      LatestIsPiece(s, deliveries, total);
      U.EncodedLength(s.pieces[total - 1]);
      FiledUnits(s, deliveries, total - 1);
    }
  }

  /** The limit that SendSegmentedDeliverSM has by default. */
  const DEFAULT_MAX_SEGS_COUNT: nat := 200

  lemma {:induction false} EncodesMore()
    ensures Extending(EncodeText)
  {
    forall a: seq<rune>, b: seq<rune> | b != [] ensures |U.EncodeUcs2(a + b)| > |U.EncodeUcs2(a)| {
      U.EncodeAppend(a, b);
      U.EncodedLength(b);
    }
  }

  /**
   * With UTF-16BE as encoder, whatever the order, the resends and the other traffic: the
   * caller's text comes back, as bytes and as text, exactly if it is no longer than the
   * limit and no piece has more than 124 code units.
   */
  lemma {:induction false} UnicodeRoundTrip(store: R.Store, cfg: R.Config, calls: seq<R.Call>, text: seq<rune>,
                                            limit: nat, s: Sending, deliveries: seq<Delivery>)
    returns (replies: seq<R.Reply>)
    requires s.pieces == Split(Cut(text, limit), CODING_UCS2) && s.encode == EncodeText
    requires Delivers(store, cfg, calls, s, deliveries)
    ensures replies == L.Told(store, cfg, calls, s.groupID) && |replies| == |deliveries|
    ensures forall j :: 0 <= j < |replies| ==> (replies[j].complete <==> j == |replies| - 1)
    ensures var last, kept := replies[|replies| - 1], Cut(text, limit);
            && last.coding == CODING_DEFAULT && |last.body| % 2 == 0
            && (last.body == U.EncodeUcs2(kept) <==> PiecesShort(kept))
            && (last.body == U.EncodeUcs2(text) <==> |text| <= limit && PiecesShort(kept))
            && (U.DecodeUnits(U.ReadUnits(last.body)) == text <==> |text| <= limit && PiecesShort(kept))
  {
    hide Arrivals, Split, R.LatestTexts, U.DecodeUnits, U.EncodeUcs2, Cut;
    hide PiecesShort, Fits, Homomorphic, Extending, L.Told, L.Spared, L.AddsFor;
    EncodesConcatenations();
    EncodesMore();
    var kept := Cut(text, limit);
    ShortIsFits(kept);
    replies := RoundTrip(store, cfg, calls, text, limit, CODING_UCS2, s, deliveries);
    FiledUnits(s, deliveries, |s.pieces|);
    DecodedBack(replies[|replies| - 1].body, text, limit);
  }

  /** Bytes no longer than the kept text's encoding decode to the caller's text only if they are its encoding. */
  lemma {:induction false} DecodedBack(body: bytes, text: seq<rune>, limit: nat)
    requires |body| % 2 == 0 && |body| <= |U.EncodeUcs2(Cut(text, limit))|
    requires |body| == |U.EncodeUcs2(Cut(text, limit))| ==> body == U.EncodeUcs2(Cut(text, limit))
    ensures U.DecodeUnits(U.ReadUnits(body)) == text <==> body == U.EncodeUcs2(text)
  {
    hide U.DecodeUnits, U.EncodeUcs2;
    var kept := Cut(text, limit);
    U.DecodedWidth(U.ReadUnits(body));
    U.EncodedLength(text);
    U.ReadInvertsEncode(text);
    CutBoundsPieces(text, limit, CODING_UCS2);
    if |text| > limit {
      EncodesMore();
      assert kept + text[limit..] == text;
      assert EncodeText(kept + text[limit..]).Some? && EncodeText(kept).Some?;
    } else {
      assert kept == text;
    }
  }

  /** Under the default limit the last of 201 letters does not go out, though every piece is short. */
  lemma {:induction false} LastLetterIsCut(letter: rune)
    requires letter < 0x1_0000
    ensures var text := Repeat(letter, 201);
            var kept := Cut(text, DEFAULT_MAX_SEGS_COUNT);
            && PiecesShort(text) && PiecesShort(kept) && |Split(kept, CODING_UCS2)| == 3
            && U.EncodeUcs2(kept) != U.EncodeUcs2(text)
  {
    var text := Repeat(letter, 201);
    CutBoundsPieces(text, DEFAULT_MAX_SEGS_COUNT, CODING_UCS2);
    var kept := Cut(text, DEFAULT_MAX_SEGS_COUNT);
    hide Cut, Split, PiecesShort, U.EncodeUcs2;
    SplitLaws(kept, CODING_UCS2);
    BmpFits(text);
    BmpFits(kept);
    BmpLength(text);
    BmpLength(kept);
    U.EncodedLength(text);
    U.EncodedLength(kept);
  }

  /**
   * From text to text: if the pieces are short and most code units of what was kept lie
   * below U+2000, that is reassembled and decoded in any delivery order, although its
   * segments arrive labelled with the default coding; it is the caller's text exactly if
   * that is no longer than the limit.
   */
  lemma {:induction false} TextRoundTrip(store: R.Store, cfg: R.Config, calls: seq<R.Call>, text: seq<rune>, limit: nat,
                                         s: Sending, deliveries: seq<Delivery>, codecs: U.Codecs)
    returns (decoded: U.Text)
    requires var kept := Cut(text, limit);
             PiecesShort(kept) && !U.LooksLikeUdh(U.EncodeUcs2(kept)) && 2 * U.LowUnits(U.Utf16(kept)) > |U.Utf16(kept)|
    requires s.pieces == Split(Cut(text, limit), CODING_UCS2) && s.encode == EncodeText
    requires Delivers(store, cfg, calls, s, deliveries)
    ensures var replies := L.Told(store, cfg, calls, s.groupID);
            && replies != [] && replies[|replies| - 1].complete
            && var last := replies[|replies| - 1]; decoded == U.DecodeBody(U.Stripped(last.body), last.coding, codecs)
    ensures decoded == U.Runes(Cut(text, limit))
    ensures decoded == U.Runes(text) <==> |text| <= limit
  {
    hide Arrivals, Split, PiecesShort, L.Told, L.Spared, L.AddsFor, Cut, U.DecodeBody, U.EncodeUcs2;
    var replies := UnicodeRoundTrip(store, cfg, calls, text, limit, s, deliveries);
    var last := replies[|replies| - 1];
    decoded := U.DecodeBody(U.Stripped(last.body), last.coding, codecs);
    U.GuessRecovers(Cut(text, limit), codecs);
    CutBoundsPieces(text, limit, CODING_UCS2);
    assert |text| <= limit ==> Cut(text, limit) == text;
  }
}

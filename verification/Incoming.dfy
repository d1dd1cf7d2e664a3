/** How parseSubmitSM finds out that a submit_sm is one segment of several. */
module Incoming {
  import opened Base
  import opened Tlv
  import opened Udh
  import P = Pipeline

  // Tags from sections 5.3.2.22 to 5.3.2.24 and 5.3.2.32 of SMPP v3.4.
  const SAR_MSG_REF_NUM: uint16 := 0x020C
  const SAR_TOTAL_SEGMENTS: uint16 := 0x020E
  const SAR_SEGMENT_SEQNUM: uint16 := 0x020F
  const MESSAGE_PAYLOAD: uint16 := 0x0424

  /** One information element of a user data header the PDU library has already split off. */
  datatype Element = Element(iei: uint8, data: bytes)

  datatype Numbers = Numbers(reference: uint8, total: uint8, number: uint8)

  datatype Part = Part(numbers: Numbers, text: bytes)

  datatype Fields = Fields(shortMessage: bytes, tlvs: map<uint16, bytes>, udh: seq<Element>)

  /** The effective message: message_payload takes priority when it is not empty. */
  function GetMessage(f: Fields): bytes {
    if MESSAGE_PAYLOAD in f.tlvs && f.tlvs[MESSAGE_PAYLOAD] != [] then f.tlvs[MESSAGE_PAYLOAD] else f.shortMessage
  }

  /** A concatenation element of 8-bit or 16-bit reference, sections 9.2.3.24.1 and 9.2.3.24.8 of 3GPP TS 23.040. */
  predicate IsConcat(e: Element) {
    (e.iei == 0 && |e.data| == 3) || (e.iei == 8 && |e.data| == 4)
  }

  /** The high octet of a 16-bit reference is dropped. */
  function NumbersOf(e: Element): Numbers
    requires IsConcat(e)
  {
    var n := |e.data|;
    Numbers(e.data[n - 3], e.data[n - 2], e.data[n - 1])
  }

  predicate IsLastConcat(udh: seq<Element>, i: int) {
    0 <= i < |udh| && IsConcat(udh[i]) && forall j :: i < j < |udh| ==> !IsConcat(udh[j])
  }

  /** `n` is what the last concatenation element says, or zeros. */
  ghost predicate LastSays(udh: seq<Element>, n: Numbers) {
    || (n == Numbers(0, 0, 0) && forall i :: 0 <= i < |udh| ==> !IsConcat(udh[i]))
    || exists i :: IsLastConcat(udh, i) && n == NumbersOf(udh[i])
  }

  method ScanElements(udh: seq<Element>) returns (n: Numbers)
    ensures LastSays(udh, n)
  {
    n := Numbers(0, 0, 0);
    for i := 0 to |udh|
      invariant LastSays(udh[..i], n)
    {
      ghost var before, was := udh[..i], n;
      var data := udh[i].data;
      if udh[i].iei == 0x00 {
        if |data| == 3 {
          n := Numbers(data[0], data[1], data[2]);
        }
      } else if udh[i].iei == 0x08 {
        if |data| == 4 {
          n := Numbers(data[1], data[2], data[3]);
        }
      }
      LastSaysSnoc(before, udh[i], was);
      assert udh[..i + 1] == before + [udh[i]];
    }
    assert udh[..|udh|] == udh;
  }

  lemma {:induction false} LastSaysSnoc(udh: seq<Element>, e: Element, n: Numbers)
    requires LastSays(udh, n)
    ensures LastSays(udh + [e], if IsConcat(e) then NumbersOf(e) else n)
  {
    var all := udh + [e];
    assert all[|udh|] == e && forall i :: 0 <= i < |udh| ==> all[i] == udh[i];
    if !IsConcat(e) && !(n == Numbers(0, 0, 0) && forall i :: 0 <= i < |udh| ==> !IsConcat(udh[i])) {
      var i :| IsLastConcat(udh, i) && n == NumbersOf(udh[i]);
      assert IsLastConcat(all, i) && n == NumbersOf(all[i]);
    }
  }

  lemma {:induction false} LastSaysUnique(udh: seq<Element>, m: Numbers, n: Numbers)
    requires LastSays(udh, m) && LastSays(udh, n)
    ensures m == n
  {
  }

  /**
   * The three sources in the order the code consults them: header elements, SAR parameters, a
   * header inside the payload.
   */
  method FindSegment(f: Fields) returns (part: Option<Part>)
    ensures exists n :: LastSays(f.udh, n) && part == Found(f, n)
    ensures part.Some? <==> Listed(f.udh) || ReferenceGiven(f.tlvs) || HeaderInside(f.tlvs)
    ensures part.Some? && ReferenceGiven(f.tlvs) ==> part.value.numbers.reference == LowOctet(f.tlvs[0x020C])
    ensures part.Some? && (Listed(f.udh) || ReferenceGiven(f.tlvs)) ==>
              part.value.text ==
              if 0x0424 in f.tlvs && |f.tlvs[0x0424]| > 0 then f.tlvs[0x0424] else f.shortMessage
  {
    part := None;
    var n := ScanElements(f.udh);
    FoundExactly(f, n);
    if |f.udh| > 0 && n.total > 1 && n.number > 0 {
      part := Some(Part(n, GetMessage(f)));
    }
    var reference := GetTLVUint16(f.tlvs, SAR_MSG_REF_NUM);
    if reference.Some? {
      var numbers := if part.Some? then part.value.numbers else Numbers(0, 0, 0);
      numbers := numbers.(reference := reference.value % 256);
      var total := GetTLVUint16(f.tlvs, SAR_TOTAL_SEGMENTS);
      if total.Some? {
        numbers := numbers.(total := total.value % 256);
      }
      var number := GetTLVUint16(f.tlvs, SAR_SEGMENT_SEQNUM);
      if number.Some? {
        numbers := numbers.(number := number.value % 256);
      }
      part := Some(Part(numbers, GetMessage(f)));
    }
    if part.None? && MESSAGE_PAYLOAD in f.tlvs && f.tlvs[MESSAGE_PAYLOAD] != [] {
      var payload := f.tlvs[MESSAGE_PAYLOAD];
      var parsed := ParseUDH(payload);
      if parsed.Ok? && parsed.udh.total > 1 && parsed.udh.number > 0 {
        var numbers := Numbers(parsed.udh.reference % 256, parsed.udh.total, parsed.udh.number);
        part := Some(Part(numbers, payload[payload[0] + 1..]));
      }
    }
  }

  /** What the sources amount to, `n` being what the header elements say. */
  function Found(f: Fields, n: Numbers): Option<Part> {
    var listed := n.total > 1 && n.number > 0;
    var reference := GetTLVUint16(f.tlvs, SAR_MSG_REF_NUM);
    if reference.Some? then
      var base := if listed then n else Numbers(0, 0, 0);
      Some(Part(Numbers(reference.value % 256, Override(f, SAR_TOTAL_SEGMENTS, base.total),
                        Override(f, SAR_SEGMENT_SEQNUM, base.number)), GetMessage(f)))
    else if listed then Some(Part(n, GetMessage(f)))
    else if MESSAGE_PAYLOAD in f.tlvs then InPayload(f.tlvs[MESSAGE_PAYLOAD])
    else None
  }

  function Override(f: Fields, tag: uint16, otherwise: uint8): uint8 {
    match GetTLVUint16(f.tlvs, tag) case Some(v) => v % 256 case None => otherwise
  }

  function InPayload(payload: bytes): Option<Part> {
    match ParseUDH(payload)
    case Ok(udh) =>
      var numbers := Numbers(udh.reference % 256, udh.total, udh.number);
      if udh.total > 1 then Some(Part(numbers, payload[payload[0] + 1..])) else None
    case _ => None
  }

  // ---------------------------------------------------------------- which PDUs are segments at all

  /** The last element of a concatenation kind announces more than one part and a part number. */
  ghost predicate Listed(udh: seq<Element>) {
    exists i :: Announces(udh, i)
  }

  predicate Announces(udh: seq<Element>, i: int) {
    && 0 <= i < |udh|
    && ((udh[i].iei == 0 && |udh[i].data| == 3 && udh[i].data[1] > 1 && udh[i].data[2] > 0) ||
        (udh[i].iei == 8 && |udh[i].data| == 4 && udh[i].data[2] > 1 && udh[i].data[3] > 0))
    && forall j :: i < j < |udh| ==>
         !(udh[j].iei == 0 && |udh[j].data| == 3) && !(udh[j].iei == 8 && |udh[j].data| == 4)
  }

  /** sar_msg_ref_num is there with one octet or two. */
  predicate ReferenceGiven(tlvs: map<uint16, bytes>) {
    0x020C in tlvs && 1 <= |tlvs[0x020C]| <= 2
  }

  function LowOctet(value: bytes): uint8
    requires value != []
  {
    value[|value| - 1]
  }

  /** The payload starts with a whole concatenation header of several parts and a part number within them. */
  predicate HeaderInside(tlvs: map<uint16, bytes>) {
    && 0x0424 in tlvs
    && var m := tlvs[0x0424];
       || (|m| >= 6 && m[0] == 5 && m[1] == 0 && m[2] == 3 && m[4] > 1 && 1 <= m[5] <= m[4])
       || (|m| >= 7 && m[0] == 6 && m[1] == 8 && m[2] == 4 && m[5] > 1 && 1 <= m[6] <= m[5])
  }

  /** What Found finds, field by field. */
  lemma {:induction false} FoundExactly(f: Fields, n: Numbers)
    requires LastSays(f.udh, n)
    ensures Found(f, n).Some? <==> Listed(f.udh) || ReferenceGiven(f.tlvs) || HeaderInside(f.tlvs)
    ensures Found(f, n).Some? && (Listed(f.udh) || ReferenceGiven(f.tlvs)) ==>
              Found(f, n).value.text ==
              if 0x0424 in f.tlvs && |f.tlvs[0x0424]| > 0 then f.tlvs[0x0424] else f.shortMessage
    ensures ReferenceGiven(f.tlvs) ==>
              var numbers := Found(f, n).value.numbers;
              && numbers.reference == LowOctet(f.tlvs[0x020C])
              && numbers.total == (if 0x020E in f.tlvs && 1 <= |f.tlvs[0x020E]| <= 2 then LowOctet(f.tlvs[0x020E])
                                   else if Listed(f.udh) then n.total else 0)
              && numbers.number == (if 0x020F in f.tlvs && 1 <= |f.tlvs[0x020F]| <= 2 then LowOctet(f.tlvs[0x020F])
                                    else if Listed(f.udh) then n.number else 0)
    ensures !ReferenceGiven(f.tlvs) && Listed(f.udh) ==> Found(f, n).value.numbers == n
    ensures !ReferenceGiven(f.tlvs) && !Listed(f.udh) && HeaderInside(f.tlvs) ==>
              var m := f.tlvs[0x0424];
              Found(f, n) == Some(if m[0] == 5 then Part(Numbers(m[3], m[4], m[5]), m[6..])
                                  else Part(Numbers(m[4], m[5], m[6]), m[7..]))
  {
    ListedSays(f.udh, n);
    LowOctets(f.tlvs);
  }

  /** What the header elements say is that of an announcement exactly if there is one. */
  lemma {:induction false} ListedSays(udh: seq<Element>, n: Numbers)
    requires LastSays(udh, n)
    ensures Listed(udh) <==> n.total > 1 && n.number > 0
  {
    if i :| Announces(udh, i) {
      assert IsLastConcat(udh, i);
      LastSaysUnique(udh, n, NumbersOf(udh[i]));
    }
    if n.total > 1 && n.number > 0 {
      var i :| IsLastConcat(udh, i) && n == NumbersOf(udh[i]);
      assert Announces(udh, i);
    }
  }

  /** Two octets cut to eight bits are the second; any other length is no number. */
  lemma {:induction false} LowOctets(tlvs: map<uint16, bytes>)
    ensures forall tag: uint16 ::
              (GetTLVUint16(tlvs, tag).Some? <==> tag in tlvs && 1 <= |tlvs[tag]| <= 2) &&
              (tag in tlvs && 1 <= |tlvs[tag]| <= 2 ==> GetTLVUint16(tlvs, tag).value % 256 == LowOctet(tlvs[tag]))
  {
  }

  /** An ordinary short message, whatever other parameters and elements it carries, is no segment. */
  lemma {:induction false} UnmarkedIsWhole(f: Fields, n: Numbers)
    requires LastSays(f.udh, n) && NoConcat(f.udh) && 0x020C !in f.tlvs && 0x0424 !in f.tlvs
    ensures Found(f, n) == None
  {
    FoundExactly(f, n);
  }

  // ---------------------------------------------------------------- one segment, sent in any of the five ways

  function SarTlvs(reference: uint16, total: uint8, number: uint8): map<uint16, bytes> {
    map[SAR_MSG_REF_NUM := PutU16(reference), SAR_TOTAL_SEGMENTS := [total], SAR_SEGMENT_SEQNUM := [number]]
  }

  /**
   * The ways a sender can mark a segment: an 8-bit or 16-bit element, SAR parameters, or either
   * header in the payload.
   */
  datatype Way = Element8 | Element16 | Sar | Payload8 | Payload16

  /** The fields of a segment sent in some way, other header elements before and after included. */
  function Marked(way: Way, reference: uint16, total: uint8, number: uint8, text: bytes,
                  before: seq<Element>, after: seq<Element>): Fields
    requires number >= 1
  {
    match way
    case Element8 => Fields(text, map[], before + [Element(0, [reference % 256, total, number])] + after)
    case Element16 =>
      Fields(text, map[], before + [Element(8, [reference / 256, reference % 256, total, number])] + after)
    case Sar => Fields(text, SarTlvs(reference, total, number), before + after)
    case Payload8 => Fields([], map[MESSAGE_PAYLOAD := CreateUDH(reference, total, number) + text], after)
    case Payload16 => Fields([], map[MESSAGE_PAYLOAD := Header(reference, total, number - 1) + text], after)
  }

  predicate NoConcat(udh: seq<Element>) {
    forall i :: 0 <= i < |udh| ==> !IsConcat(udh[i])
  }

  lemma {:induction false} LastIs(before: seq<Element>, e: Element, after: seq<Element>, n: Numbers)
    requires IsConcat(e) && NoConcat(after) && LastSays(before + [e] + after, n)
    ensures n == NumbersOf(e)
  {
    var all := before + [e] + after;
    assert all[|before|] == e;
    assert forall i :: |before| < i < |all| ==> all[i] == after[i - |before| - 1];
    assert LastSays(all, NumbersOf(e));
    LastSaysUnique(all, n, NumbersOf(e));
  }

  lemma {:induction false} PayloadParts(reference: uint16, total: uint8, number: uint8, text: bytes)
    requires total > 1 && 1 <= number <= total
    ensures var part := Part(Numbers(reference % 256, total, number), text);
            && InPayload(CreateUDH(reference, total, number) + text) == Some(part)
            && InPayload(Header(reference, total, number - 1) + text) == Some(part)
  {
    ParseCreated(reference, total, number, text);
    ParseHeader(reference, total, number - 1, text);
    assert (CreateUDH(reference, total, number) + text)[6..] == text;
  }

  /**
   * The five ways say the same: reference modulo 256, total, number and text, whatever other
   * elements stand in the header; earlier concatenation elements are overridden.
   */
  lemma {:induction false} EveryWayFinds(way: Way, reference: uint16, total: uint8, number: uint8, text: bytes,
                      before: seq<Element>, after: seq<Element>, n: Numbers)
    requires total > 1 && 1 <= number <= total && NoConcat(after)
    requires LastSays(Marked(way, reference, total, number, text, before, after).udh, n)
    ensures Found(Marked(way, reference, total, number, text, before, after), n) ==
            Some(Part(Numbers(reference % 256, total, number), text))
  {
    match way {
      case Element8 => LastIs(before, Element(0, [reference % 256, total, number]), after, n);
      case Element16 => LastIs(before, Element(8, [reference / 256, reference % 256, total, number]), after, n);
      case Sar => assert U16(PutU16(reference), 0) == reference;
      case Payload8 => PayloadParts(reference, total, number, text);
      case Payload16 => PayloadParts(reference, total, number, text);
    }
  }

  /** The receiver of the long-message pipeline is this parser on a payload that carries its own header. */
  lemma {:induction false} ReceiveFinds(groupID: bytes, payload: bytes, at: int, receipt: bool)
    ensures P.Receive(groupID, payload, at, receipt) ==
            match Found(Fields([], map[MESSAGE_PAYLOAD := payload], []), Numbers(0, 0, 0))
            case None => None
            case Some(part) =>
              Some(P.R.Segment(groupID, part.numbers.number, part.numbers.total, part.text,
                               CODING_DEFAULT, at, receipt, 0))
  {
  }

  /** Whichever way a piece is marked on its way in, the store sees the arrival that the round trip speaks of. */
  lemma {:induction false} ArrivesAnyWay(way: Way, s: P.Sending, d: P.Delivery, before: seq<Element>,
                                         after: seq<Element>, n: Numbers)
    requires s.Ok(255) && d.piece < |s.pieces| && NoConcat(after)
    requires var text := P.Truncated(s.encode(s.pieces[d.piece]).value);
             LastSays(Marked(way, s.reference, |s.pieces|, d.piece + 1, text, before, after).udh, n)
    ensures var text := P.Truncated(s.encode(s.pieces[d.piece]).value);
            var found := Found(Marked(way, s.reference, |s.pieces|, d.piece + 1, text, before, after), n);
            && found.Some?
            && P.ArrivalOf(s, d).seg ==
               P.R.Segment(s.groupID, found.value.numbers.number, found.value.numbers.total, found.value.text,
                           CODING_DEFAULT, d.at, d.receipt, 0)
  {
    hide P.ArrivalOf, Found, Marked, LastSays;
    var text := P.Truncated(s.encode(s.pieces[d.piece]).value);
    EveryWayFinds(way, s.reference, |s.pieces|, d.piece + 1, text, before, after, n);
    P.ArrivalOfPiece(s, d);
  }
}

/** Optional parameters: tag, length, value, each number in two octets, big-endian. */
module Tlv {
  import opened Base

  datatype Tlv = Tlv(tag: uint16, value: bytes)

  function U16(data: bytes, at: nat): uint16
    requires at + 2 <= |data|
  {
    data[at] as int * 256 + data[at + 1]
  }

  function PutU16(n: uint16): bytes {
    [n / 256, n % 256]
  }

  predicate Encodable(t: Tlv) { |t.value| < 0x1_0000 }

  function Encode(t: Tlv): bytes
    requires Encodable(t)
  {
    PutU16(t.tag) + PutU16(|t.value|) + t.value
  }

  function EncodeAll(ts: seq<Tlv>): bytes
    requires forall i :: 0 <= i < |ts| ==> Encodable(ts[i])
  {
    if ts == [] then [] else Encode(ts[0]) + EncodeAll(ts[1..])
  }

  /** The map a list of parameters stands for: the last value given to a tag wins. */
  function LastWins(ts: seq<Tlv>): map<uint16, bytes> {
    if ts == [] then map[] else LastWins(ts[..|ts| - 1])[ts[|ts| - 1].tag := ts[|ts| - 1].value]
  }

  /** No complete parameter starts at this offset. */
  predicate IncompleteAt(data: bytes, at: nat) {
    at + 4 > |data| || at + 4 + U16(data, at + 2) as int > |data|
  }

  function Next(data: bytes, at: nat): nat
    requires !IncompleteAt(data, at)
  {
    at + 4 + U16(data, at + 2) as int
  }

  function ReadAt(data: bytes, at: nat): (t: Tlv)
    requires !IncompleteAt(data, at)
    ensures Encodable(t)
  {
    Tlv(U16(data, at), data[at + 4..Next(data, at)])
  }

  /** The complete parameters from an offset on. */
  function DecodeFrom(data: bytes, at: nat): (ts: seq<Tlv>)
    ensures forall i :: 0 <= i < |ts| ==> Encodable(ts[i])
    decreases |data| - at
  {
    if IncompleteAt(data, at) then [] else [ReadAt(data, at)] + DecodeFrom(data, Next(data, at))
  }

  /** Where they end. */
  function EndFrom(data: bytes, at: nat): nat
    decreases |data| - at
  {
    if IncompleteAt(data, at) then at else EndFrom(data, Next(data, at))
  }

  /** Every octet string is, from any offset, one list of parameters followed by an incomplete tail. */
  lemma {:induction false} DecodeSplits(data: bytes, at: nat)
    requires at <= |data|
    ensures at <= EndFrom(data, at) <= |data| && IncompleteAt(data, EndFrom(data, at))
    ensures data[at..] == EncodeAll(DecodeFrom(data, at)) + data[EndFrom(data, at)..]
    decreases |data| - at
  {
    if !IncompleteAt(data, at) {
      var t, next := ReadAt(data, at), Next(data, at);
      DecodeSplits(data, next);
      EncodeRead(data, at);
      EncodeAllCons(t, DecodeFrom(data, next));
      Assoc(Encode(t), EncodeAll(DecodeFrom(data, next)), data[EndFrom(data, at)..]);
    }
  }

  lemma {:induction false} EncodeRead(data: bytes, at: nat)
    requires !IncompleteAt(data, at)
    ensures Next(data, at) <= |data| && data[at..] == Encode(ReadAt(data, at)) + data[Next(data, at)..]
  {
    assert Encode(ReadAt(data, at)) == data[at..Next(data, at)];
  }

  lemma {:induction false} EncodeAllCons(t: Tlv, ts: seq<Tlv>)
    requires Encodable(t) && forall i :: 0 <= i < |ts| ==> Encodable(ts[i])
    ensures EncodeAll([t] + ts) == Encode(t) + EncodeAll(ts)
  {
    assert ([t] + ts)[1..] == ts;
  }

  /** A parameter is read back from where it was written. */
  lemma {:induction false} ReadEncoded(data: bytes, at: nat, t: Tlv, rest: bytes)
    requires at <= |data| && Encodable(t) && data[at..] == Encode(t) + rest
    ensures !IncompleteAt(data, at) && ReadAt(data, at) == t
    ensures Next(data, at) <= |data| && data[Next(data, at)..] == rest
  {
    var l, back := |t.value|, data[at..];
    assert back[0] == t.tag / 256 && back[1] == t.tag % 256 && back[2] == l / 256 && back[3] == l % 256;
    assert back[4..4 + l] == t.value && back[4 + l..] == rest;
    assert data[at] == back[0] && data[at + 1] == back[1] && data[at + 2] == back[2] && data[at + 3] == back[3];
    assert data[at + 4..at + 4 + l] == back[4..4 + l];
  }

  /** And in one way only: decoding inverts encoding, whatever incomplete tail follows. */
  lemma {:induction false} DecodeEncoded(data: bytes, at: nat, ts: seq<Tlv>, tail: bytes)
    requires forall i :: 0 <= i < |ts| ==> Encodable(ts[i])
    requires IncompleteAt(tail, 0) && at <= |data| && data[at..] == EncodeAll(ts) + tail
    ensures DecodeFrom(data, at) == ts
    decreases |ts|
  {
    if ts == [] {
      assert data[at..] == tail;
      assert |tail| >= 4 ==> data[at + 2] == tail[2] && data[at + 3] == tail[3];
    } else {
      var rest := EncodeAll(ts[1..]);
      assert EncodeAll(ts) == Encode(ts[0]) + rest;
      Assoc(Encode(ts[0]), rest, tail);
      ReadEncoded(data, at, ts[0], rest + tail);
      DecodeEncoded(data, Next(data, at), ts[1..], tail);
      assert [ts[0]] + ts[1..] == ts;
    }
  }

  lemma {:induction false} LastWinsSnoc(ts: seq<Tlv>, t: Tlv)
    ensures LastWins(ts + [t]) == LastWins(ts)[t.tag := t.value]
  {
    assert (ts + [t])[..|ts|] == ts;
  }

  /** ParseTLV reads exactly the complete parameters from offset on, and nothing past the end. */
  method ParseTLV(data: bytes, offset: nat) returns (result: map<uint16, bytes>)
    ensures result == LastWins(DecodeFrom(data, offset))
  {
    result := map[];
    if offset >= |data| {
      return;
    }
    var at := offset;
    ghost var done: seq<Tlv> := [];
    while at < |data|
      invariant offset <= at <= |data|
      invariant result == LastWins(done)
      invariant DecodeFrom(data, offset) == done + DecodeFrom(data, at)
    {
      if at + 4 > |data| {
        break;
      }
      var tag := U16(data, at);
      var l: int := U16(data, at + 2);
      if at + 4 + l > |data| {
        break;
      }
      ghost var t := ReadAt(data, at);
      Assoc(done, [t], DecodeFrom(data, at + 4 + l));
      LastWinsSnoc(done, t);
      done := done + [t];
      at := at + 4;
      result := result[tag := data[at..at + l]];
      at := at + l;
    }
    assert done + [] == done;
  }

  /**
   * For any list of parameters and any incomplete tail, what ParseTLV returns is the
   * last-value-wins map of the list.
   */
  lemma {:induction false} ParseInvertsEncode(prefix: bytes, ts: seq<Tlv>, tail: bytes)
    requires (forall i :: 0 <= i < |ts| ==> Encodable(ts[i])) && IncompleteAt(tail, 0)
    ensures LastWins(DecodeFrom(prefix + (EncodeAll(ts) + tail), |prefix|)) == LastWins(ts)
  {
    var data := prefix + (EncodeAll(ts) + tail);
    assert data[|prefix|..] == EncodeAll(ts) + tail;
    DecodeEncoded(data, |prefix|, ts, tail);
  }

  /** On octets: tag 0x020C, two octets of value, then the tail, high octets first. */
  lemma {:induction false} ParsesOctets(a: uint8, b: uint8)
    ensures LastWins(DecodeFrom([0x02, 0x0C, 0, 2, a, b, 0x02, 0x0E, 0, 9], 0)) == map[0x020C := [a, b]]
    ensures GetTLVUint16(map[0x020C := [a, b]], 0x020C) == Some(256 * a + b)
    ensures GetTLVUint16(map[0x020C := [a]], 0x020C) == Some(a)
  {
    var data := [0x02, 0x0C, 0, 2, a, b, 0x02, 0x0E, 0, 9];
    assert IncompleteAt(data, 6) && DecodeFrom(data, 6) == [];
    assert ReadAt(data, 0) == Tlv(0x020C, [a, b]) && Next(data, 0) == 6;
    var ts := [ReadAt(data, 0)];
    assert DecodeFrom(data, 0) == ts + [] == ts && ts[..0] == [];
  }

  /** The winner of a tag is the last parameter that carries it. */
  lemma {:induction false} LastWinsIsLast(ts: seq<Tlv>, i: nat)
    requires i < |ts| && forall j :: i < j < |ts| ==> ts[j].tag != ts[i].tag
    ensures ts[i].tag in LastWins(ts) && LastWins(ts)[ts[i].tag] == ts[i].value
  {
    if i < |ts| - 1 {
      LastWinsIsLast(ts[..|ts| - 1], i);
    }
  }

  /** GetTLVUint16: one octet or two, nothing else. */
  function GetTLVUint16(params: map<uint16, bytes>, tag: uint16): Option<uint16> {
    if tag !in params then None
    else
      var v := params[tag];
      if |v| == 1 then Some(v[0]) else if |v| == 2 then Some(U16(v, 0)) else None
  }
}

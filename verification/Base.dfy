/** Machine integers and small sequence helpers shared by every module. */
module Base {

  type uint8 = x: int | 0 <= x < 0x100
  type uint16 = x: int | 0 <= x < 0x1_0000
  type uint32 = x: int | 0 <= x < 0x1_0000_0000
  type uint64 = x: int | 0 <= x < 0x1_0000_0000_0000_0000

  /** Go strings and byte slices are both sequences of octets. */
  type bytes = seq<uint8>

  /** A Unicode scalar value; the runes of a well-formed Go string. */
  type rune = x: int | 0 <= x < 0xD800 || 0xE000 <= x < 0x11_0000

  datatype Option<+T> = None | Some(value: T)

  // command_status values, section 5.1.3 of SMPP v3.4.
  const STATUS_OK: uint32 := 0
  const STATUS_INV_MSG_LEN: uint32 := 1
  const STATUS_ALY_BND: uint32 := 5
  const STATUS_SYS_ERR: uint32 := 8
  const STATUS_BIND_FAIL: uint32 := 0xD
  const STATUS_INV_DATA_CODING: uint32 := 0x10

  // data_coding values, section 5.2.19 of SMPP v3.4.
  const CODING_DEFAULT: uint8 := 0
  const CODING_LATIN1: uint8 := 3
  const CODING_CYRILLIC: uint8 := 6
  const CODING_UCS2: uint8 := 8

  function Concat<T>(pieces: seq<seq<T>>): (r: seq<T>) {
    if pieces == [] then [] else pieces[0] + Concat(pieces[1..])
  }

  lemma {:induction false} ConcatSnoc<T>(pieces: seq<seq<T>>, last: seq<T>)
    ensures Concat(pieces + [last]) == Concat(pieces) + last
  {
    if pieces == [] {
      assert [] + [last] == [last];
      assert Concat([last]) == last + Concat([]);
    } else {
      assert (pieces + [last])[1..] == pieces[1..] + [last];
      ConcatSnoc(pieces[1..], last);
    }
  }

  lemma {:induction false} Assoc<T>(a: seq<T>, b: seq<T>, c: seq<T>)
    ensures a + (b + c) == (a + b) + c
  {
  }
}

/** Decimal message IDs: a clock followed by an eight-digit counter. */
module MessageIds {
  import opened Base

  const COUNTER_LIMIT: nat := 100_000_000

  predicate IsDigit(b: uint8) { 48 <= b <= 57 }

  predicate AllDigits(s: bytes) { forall i :: 0 <= i < |s| ==> IsDigit(s[i]) }

  /** %d. */
  function Digits(n: nat): bytes {
    if n < 10 then [48 + n] else Digits(n / 10) + [48 + n % 10]
  }

  function Zeros(n: nat): bytes {
    seq(n, _ => 48)
  }

  /** %0wd. */
  function Padded(n: nat, w: nat): bytes {
    var d := Digits(n);
    if |d| >= w then d else Zeros(w - |d|) + d
  }

  function Value(s: bytes): nat
    requires AllDigits(s)
  {
    if s == [] then 0 else Value(s[..|s| - 1]) * 10 + (s[|s| - 1] - 48)
  }

  /** strconv.ParseUint in base 10, for results below limit. */
  function ParseUint(s: bytes, limit: nat): Option<nat> {
    if s == [] || !AllDigits(s) then None
    else if Value(s) >= limit then None
    else Some(Value(s))
  }

  function BuildMessageID(clock: uint64, counter: uint32): bytes {
    Digits(clock) + Padded(counter, 8)
  }

  function ParseMessageID(id: bytes): Option<(uint64, uint32)> {
    if |id| <= 8 then None
    else
      match ParseUint(id[..|id| - 8], 0x1_0000_0000_0000_0000)
      case None => None
      case Some(clock) =>
        match ParseUint(id[|id| - 8..], 0x1_0000_0000)
        case None => None
        case Some(counter) => Some((clock, counter))
  }

  // ---------------------------------------------------------------- digits

  lemma {:induction false} DigitsValue(n: nat)
    ensures AllDigits(Digits(n)) && Value(Digits(n)) == n
    ensures |Digits(n)| >= 1 && (|Digits(n)| > 1 ==> Digits(n)[0] != 48)
  {
    if n >= 10 {
      DigitsValue(n / 10);
      assert Digits(n)[..|Digits(n)| - 1] == Digits(n / 10);
    } else {
      assert Digits(n)[..0] == [];
    }
  }

  /** Fixed-width digits: the last w decimal places of n. */
  function Places(n: nat, w: nat): bytes {
    if w == 0 then [] else Places(n / 10, w - 1) + [48 + n % 10]
  }

  function Pow10(w: nat): nat {
    if w == 0 then 1 else 10 * Pow10(w - 1)
  }

  lemma {:induction false} PlacesOfZero(w: nat)
    ensures Places(0, w) == Zeros(w)
  {
    if w > 0 {
      PlacesOfZero(w - 1);
    }
  }

  lemma {:induction false} PaddedIsPlaces(n: nat, w: nat)
    requires n < Pow10(w) && w > 0
    ensures Padded(n, w) == Places(n, w)
  {
    if n < 10 {
      PlacesOfZero(w - 1);
      assert Zeros(w - 1) + [48 + n] == Padded(n, w);
    } else {
      PaddedIsPlaces(n / 10, w - 1);
      var d := Digits(n / 10);
      assert Digits(n) == d + [48 + n % 10];
      assert |d| <= w - 1 by { PlacesLength(n / 10, w - 1); }
      if |d| < w - 1 {
        assert Zeros(w - 1 - |d|) + (d + [48 + n % 10]) == (Zeros(w - 1 - |d|) + d) + [48 + n % 10];
      }
    }
  }

  lemma {:induction false} PlacesLength(n: nat, w: nat)
    ensures |Places(n, w)| == w && AllDigits(Places(n, w))
  {
    if w > 0 {
      PlacesLength(n / 10, w - 1);
    }
  }

  /** A digit string is the places of its own value. */
  lemma {:induction false} PlacesOfValue(s: bytes)
    requires AllDigits(s)
    ensures Places(Value(s), |s|) == s && Value(s) < Pow10(|s|)
  {
    if s != [] {
      var front := s[..|s| - 1];
      PlacesOfValue(front);
      assert Value(s) / 10 == Value(front) && Value(s) % 10 == s[|s| - 1] - 48;
      assert front + [s[|s| - 1]] == s;
    }
  }

  lemma {:induction false} ValueOfPlaces(n: nat, w: nat)
    requires n < Pow10(w)
    ensures AllDigits(Places(n, w)) && Value(Places(n, w)) == n
  {
    PlacesLength(n, w);
    if w > 0 {
      ValueOfPlaces(n / 10, w - 1);
      PlacesLength(n / 10, w - 1);
      assert Places(n, w)[..w - 1] == Places(n / 10, w - 1);
    }
  }

  /** Printing inverts reading on numerals without superfluous leading zeros, and on no others. */
  predicate Canonical(s: bytes) {
    s != [] && (|s| > 1 ==> s[0] != 48)
  }

  lemma {:induction false} DigitsOfValue(s: bytes)
    requires AllDigits(s) && Canonical(s)
    ensures Digits(Value(s)) == s
  {
    var front := s[..|s| - 1];
    if |s| == 1 {
      assert front == [];
    } else {
      DigitsOfValue(front);
      assert Value(front) >= 1 by {
        DigitsValue(Value(front));
        assert Value(front) == 0 ==> front == [48];
      }
      assert Value(s) / 10 == Value(front) && Value(s) % 10 == s[|s| - 1] - 48;
      assert front + [s[|s| - 1]] == s;
    }
  }

  lemma {:induction false} DigitsInjective(m: nat, n: nat)
    ensures Digits(m) == Digits(n) ==> m == n
  {
    DigitsValue(m);
    DigitsValue(n);
  }

  lemma {:induction false} Pow10Eight()
    ensures Pow10(8) == COUNTER_LIMIT
  {
    assert Pow10(4) == 10_000;
  }

  // ---------------------------------------------------------------- the round trips

  /** Parsing returns what was built exactly when the counter has at most eight digits. */
  lemma {:induction false} ParseBuilt(clock: uint64, counter: uint32)
    ensures ParseMessageID(BuildMessageID(clock, counter)) == Some((clock, counter)) <==> counter < COUNTER_LIMIT
  {
    Pow10Eight();
    var id := BuildMessageID(clock, counter);
    DigitsValue(clock);
    if counter < COUNTER_LIMIT {
      PaddedIsPlaces(counter, 8);
      PlacesLength(counter, 8);
      ValueOfPlaces(counter, 8);
      assert id[..|id| - 8] == Digits(clock) && id[|id| - 8..] == Places(counter, 8);
    } else if |id| > 8 && AllDigits(id[|id| - 8..]) {
      PlacesOfValue(id[|id| - 8..]);
    }
  }

  /** On digits: clock 12 and counter 34 are 1200000034. */
  lemma {:induction false} BuildsDigits()
    ensures BuildMessageID(12, 34) == [49, 50, 48, 48, 48, 48, 48, 48, 51, 52]
    ensures ParseMessageID([49, 50, 48, 48, 48, 48, 48, 48, 51, 52]) == Some((12, 34))
  {
    assert Digits(12) == [49, 50] && Digits(34) == [51, 52];
    assert Zeros(6) == [48, 48, 48, 48, 48, 48];
    assert BuildMessageID(12, 34) == [49, 50] + ([48, 48, 48, 48, 48, 48] + [51, 52]);
    ParseBuilt(12, 34);
  }

  /** So building is injective on counters of at most eight digits. */
  lemma {:induction false} BuildInjective(c1: uint64, n1: uint32, c2: uint64, n2: uint32)
    requires n1 < COUNTER_LIMIT && n2 < COUNTER_LIMIT
    requires BuildMessageID(c1, n1) == BuildMessageID(c2, n2)
    ensures c1 == c2 && n1 == n2
  {
    ParseBuilt(c1, n1);
    ParseBuilt(c2, n2);
  }

  /** And not beyond them: a nine-digit counter runs into the clock. */
  lemma {:induction false} BuildCollides(clock: uint64)
    requires clock >= 1 && clock * 10 + 1 < 0x1_0000_0000_0000_0000
    ensures BuildMessageID(clock, COUNTER_LIMIT) == BuildMessageID(clock * 10 + 1, 0)
  {
    assert Digits(clock * 10 + 1) == Digits(clock) + [49];
    hide Digits, Padded, Zeros;
    LimitPadded();
    Assoc(Digits(clock), [49], Zeros(8));
  }

  /** Nine digits are not cut to eight, and zero is filled up to them. */
  lemma {:induction false} LimitPadded()
    ensures Padded(COUNTER_LIMIT, 8) == [49] + Zeros(8) && Padded(0, 8) == Zeros(8)
  {
    Pow10Eight();
    PaddedIsPlaces(0, 8);
    PlacesOfZero(8);
    EightIsTooShort();
    PaddedIsPlaces(COUNTER_LIMIT, 9);
    PlacesOfOne(8);
    PlacesLength(COUNTER_LIMIT, 9);
    hide Places, Pow10, Digits, Zeros;
    assert |Digits(COUNTER_LIMIT)| == 9;
  }

  lemma {:induction false} PlacesOfOne(w: nat)
    ensures Places(Pow10(w), w + 1) == [49] + Zeros(w)
  {
    if w > 0 {
      PlacesOfOne(w - 1);
      assert Pow10(w) / 10 == Pow10(w - 1) && Pow10(w) % 10 == 0;
      assert [49] + Zeros(w - 1) + [48] == [49] + Zeros(w);
    }
  }

  lemma {:induction false} EightIsTooShort()
    ensures |Digits(COUNTER_LIMIT)| >= 9
  {
    Pow10Eight();
    DigitsValue(COUNTER_LIMIT);
    if |Digits(COUNTER_LIMIT)| <= 8 {
      PlacesOfValue(Digits(COUNTER_LIMIT));
      Pow10Grows(|Digits(COUNTER_LIMIT)|, 8);
    }
  }

  lemma {:induction false} Pow10Grows(a: nat, b: nat)
    requires a <= b
    ensures Pow10(a) <= Pow10(b)
  {
    if a < b {
      Pow10Grows(a, b - 1);
    }
  }

  /** Re-building a parsed ID returns the same string exactly when its clock part is canonical. */
  lemma {:induction false} BuildParsed(id: bytes)
    requires ParseMessageID(id).Some?
    ensures var (clock, counter) := ParseMessageID(id).value;
            BuildMessageID(clock, counter) == id <==> Canonical(id[..|id| - 8])
  {
    var (clock, counter) := ParseMessageID(id).value;
    var front, back := id[..|id| - 8], id[|id| - 8..];
    Pow10Eight();
    PlacesOfValue(back);
    PaddedIsPlaces(counter, 8);
    DigitsValue(clock);
    assert front + back == id;
    if Canonical(front) {
      DigitsOfValue(front);
    }
    if BuildMessageID(clock, counter) == id {
      assert BuildMessageID(clock, counter)[..|id| - 8] == Digits(clock);
    }
  }
}

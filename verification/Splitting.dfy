/** Cutting a deliver_sm text into pieces, and counting the segments of a submitted one. */
module Splitting {
  import opened Base

  // ---------------------------------------------------------------- text measures

  /** Octets of a rune in UTF-8, the encoding of Go strings. */
  function Utf8Width(r: rune): nat {
    if r < 0x80 then 1 else if r < 0x800 then 2 else if r < 0x1_0000 then 3 else 4
  }

  function Utf8Length(text: seq<rune>): nat {
    if text == [] then 0 else Utf8Width(text[0]) + Utf8Length(text[1..])
  }

  /** Code units of a rune in UTF-16. */
  function Utf16Width(r: rune): nat {
    if r < 0x1_0000 then 1 else 2
  }

  function Utf16Length(text: seq<rune>): nat {
    if text == [] then 0 else Utf16Width(text[0]) + Utf16Length(text[1..])
  }

  lemma {:induction false} RunesFitOctets(text: seq<rune>)
    ensures |text| <= Utf8Length(text)
    ensures (forall i :: 0 <= i < |text| ==> text[i] < 0x80) ==> Utf8Length(text) == |text|
  {
    if text != [] {
      RunesFitOctets(text[1..]);
      assert forall i :: 0 <= i < |text[1..]| ==> text[1..][i] == text[i + 1];
    }
  }

  lemma {:induction false} BmpLength(text: seq<rune>)
    requires forall i :: 0 <= i < |text| ==> text[i] < 0x1_0000
    ensures Utf16Length(text) == |text|
  {
    if text != [] {
      BmpLength(text[1..]);
    }
  }

  /** One rune over and over, for texts that show where something fails. */
  function Repeat(r: rune, n: nat): (text: seq<rune>)
    ensures |text| == n && forall i :: 0 <= i < n ==> text[i] == r
  {
    seq(n, _ => r)
  }

  // ---------------------------------------------------------------- splitTextIntoSegments

  function SingleLimit(coding: uint8): nat {
    if coding == CODING_DEFAULT then 160
    else if coding == CODING_LATIN1 || coding == CODING_CYRILLIC then 140
    else 70
  }

  function MultiLimit(coding: uint8): (m: nat)
    ensures m == 153 || m == 134 || m == 67
  {
    if coding == CODING_DEFAULT then 153
    else if coding == CODING_LATIN1 || coding == CODING_CYRILLIC then 134
    else 67
  }

  function Pieces(text: seq<rune>, m: nat): seq<seq<rune>>
    requires m > 0
  {
    if text == [] then []
    else if |text| <= m then [text]
    else [text[..m]] + Pieces(text[m..], m)
  }

  function Split(text: seq<rune>, coding: uint8): seq<seq<rune>> {
    if |text| <= SingleLimit(coding) then [text] else Pieces(text, MultiLimit(coding))
  }

  /** The next piece, and the rest. */
  lemma {:induction false} NextPiece(text: seq<rune>, start: nat, m: nat)
    requires start < |text| && m > 0
    ensures Pieces(text[start..], m) ==
            if start + m < |text| then [text[start..start + m]] + Pieces(text[start + m..], m) else [text[start..]]
  {
    var tail := text[start..];
    if start + m < |text| {
      assert tail[..m] == text[start..start + m] && tail[m..] == text[start + m..];
    }
  }

  method SplitTextIntoSegments(text: seq<rune>, coding: uint8) returns (segments: seq<seq<rune>>)
    ensures segments == Split(text, coding)
  {
    hide Pieces;
    var maxLen, maxMultiLen := 70, 67;
    match coding {
      case 0 => maxLen, maxMultiLen := 160, 153;
      case 3 => maxLen, maxMultiLen := 140, 134;
      case 6 => maxLen, maxMultiLen := 140, 134;
      case _ =>
    }
    if |text| <= maxLen {
      return [text];
    }
    segments := [];
    assert text[0..] == text && [] + Pieces(text, maxMultiLen) == Pieces(text, maxMultiLen);
    var start := 0;
    while start < |text|
      invariant 0 <= start
      invariant start < |text| ==> segments + Pieces(text[start..], maxMultiLen) == Pieces(text, maxMultiLen)
      invariant start >= |text| ==> segments == Pieces(text, maxMultiLen)
    {
      NextPiece(text, start, maxMultiLen);
      var end := start + maxMultiLen;
      if end > |text| {
        end := |text|;
      }
      assert end == |text| ==> text[start..end] == text[start..];
      if end < |text| {
        Assoc(segments, [text[start..end]], Pieces(text[end..], maxMultiLen));
      }
      segments := segments + [text[start..end]];
      start := start + maxMultiLen;
    }
  }

  function CeilDiv(n: nat, m: nat): nat
    requires m > 0
  {
    (n + m - 1) / m
  }

  lemma {:induction false} CeilStep(n: nat, m: nat)
    requires m == 153 || m == 134 || m == 67
    ensures n > m ==> CeilDiv(n, m) == 1 + CeilDiv(n - m, m)
    ensures 0 < n <= m ==> CeilDiv(n, m) == 1
    ensures CeilDiv(0, m) == 0
  {
  }

  /** Splitting loses nothing, and every piece but the last is exactly full. */
  lemma {:induction false} PiecesLaws(text: seq<rune>, m: nat)
    requires m == 153 || m == 134 || m == 67
    ensures var p := Pieces(text, m);
            && Concat(p) == text
            && |p| == CeilDiv(|text|, m)
            && (forall i :: 0 <= i < |p| - 1 ==> |p[i]| == m)
            && (p != [] ==> 0 < |p[|p| - 1]| <= m)
    decreases |text|
  {
    hide CeilDiv;
    CeilStep(|text|, m);
    if |text| > m {
      PiecesLaws(text[m..], m);
      var first, rest := text[..m], Pieces(text[m..], m);
      assert Pieces(text, m) == [first] + rest;
      hide Pieces;
      assert ([first] + rest)[1..] == rest;
      assert first + text[m..] == text;
    } else if text != [] {
      assert Concat([text]) == text + Concat([]);
    }
  }

  lemma {:induction false} SplitLaws(text: seq<rune>, coding: uint8)
    ensures var p := Split(text, coding);
            && Concat(p) == text
            && (|text| <= SingleLimit(coding) ==> |p| == 1)
            && (|text| > SingleLimit(coding) ==>
                  && |p| == CeilDiv(|text|, MultiLimit(coding)) >= 2
                  && (forall i :: 0 <= i < |p| - 1 ==> |p[i]| == MultiLimit(coding))
                  && 0 < |p[|p| - 1]| <= MultiLimit(coding))
  {
    PiecesLaws(text, MultiLimit(coding));
    assert Concat([text]) == text + Concat([]);
  }

  /** In numbers: 160 and 153 under the default coding, 140 and 134 under Latin1 and Cyrillic, 70 and 67 otherwise. */
  lemma {:induction false} SplitNumbers(text: seq<rune>, coding: uint8)
    ensures var p := Split(text, coding);
            var single := if coding == 0 then 160 else if coding == 3 || coding == 6 then 140 else 70;
            var multi := if coding == 0 then 153 else if coding == 3 || coding == 6 then 134 else 67;
            && (|text| <= single ==> p == [text])
            && (|text| > single ==>
                  && |p| >= 2 && (|p| - 1) * multi < |text| <= |p| * multi
                  && 1 <= |p[|p| - 1]| <= multi && forall i :: 0 <= i < |p| - 1 ==> |p[i]| == multi)
  {
    SplitLaws(text, coding);
  }

  // ---------------------------------------------------------------- the rune-prefix cut

  /** What SendSegmentedDeliverSM keeps of a text under the DefaultMaxSegsCount setting. */
  function Cut(text: seq<rune>, limit: nat): seq<rune> {
    if Utf8Length(text) > limit && |text| > limit then text[..limit] else text
  }

  /** After the cut the total and index bytes of the header cannot wrap, whatever the coding. */
  lemma {:induction false} CutBoundsPieces(text: seq<rune>, limit: nat, coding: uint8)
    ensures Cut(text, limit) == text[..if |text| <= limit then |text| else limit]
    ensures limit <= 255 * 67 ==> |Split(Cut(text, limit), coding)| <= 255
  {
    RunesFitOctets(text);
    SplitLaws(Cut(text, limit), coding);
    assert text[..|text|] == text;
  }

  /** The bound is exact: above it some text needs 256 pieces, whose total byte reads 0. */
  lemma {:induction false} CutBoundIsExact(limit: nat)
    ensures (forall text, coding :: |Split(Cut(text, limit), coding)| <= 255) <==> limit <= 255 * 67
  {
    hide Split, Cut;
    if limit <= 255 * 67 {
      forall text, coding ensures |Split(Cut(text, limit), coding)| <= 255 {
        CutBoundsPieces(text, limit, coding);
      }
    } else {
      var text := Repeat(0x41, limit);
      CutBoundsPieces(text, limit, CODING_UCS2);
      assert Cut(text, limit) == text;
      SplitLaws(text, CODING_UCS2);
      assert |Split(Cut(text, limit), CODING_UCS2)| > 255;
    }
  }
}

/** calcSegments: the number of segments a submitted text is billed at. */
module Billing {
  import opened Base
  import opened Splitting

  /** The basic character set of GSM 03.38 as the code lists it. */
  predicate Gsm7Basic(r: rune) {
    || r == 0x0A || r == 0x0D || r == 0x1B
    || 0x20 <= r <= 0x5A || r == 0x5F || 0x61 <= r <= 0x7A
    || r == 0xA1 || (0xA3 <= r <= 0xA5) || r == 0xA7 || r == 0xBF
    || (0xC4 <= r <= 0xC7) || r == 0xC9 || r == 0xD1 || r == 0xD6 || r == 0xD8 || r == 0xDC
    || (0xDF <= r <= 0xE0) || (0xE4 <= r <= 0xE6) || (0xE8 <= r <= 0xE9) || r == 0xEC
    || (0xF1 <= r <= 0xF2) || r == 0xF6 || (0xF8 <= r <= 0xF9) || r == 0xFC
    || (0x393 <= r <= 0x394) || r == 0x398 || r == 0x39B || r == 0x39E || r == 0x3A0
    || r == 0x3A3 || r == 0x3A6 || (0x3A8 <= r <= 0x3A9)
  }

  /** The extension table: two septets each. */
  predicate Gsm7Extended(r: rune) {
    0x5B <= r <= 0x5E || 0x7B <= r <= 0x7E || r == 0x20AC
  }

  /**
   * The two tables again, rune by rune; the basic one in the order of its septets, section
   * 6.2.1 of 3GPP TS 23.038.
   */
  lemma {:induction false} CharsetTables(r: rune)
    ensures Gsm7Basic(r) <==> r in {
      0x40, 0xA3, 0x24, 0xA5, 0xE8, 0xE9, 0xF9, 0xEC, 0xF2, 0xC7, 0x0A, 0xD8, 0xF8, 0x0D, 0xC5, 0xE5,
      0x394, 0x5F, 0x3A6, 0x393, 0x39B, 0x3A9, 0x3A0, 0x3A8, 0x3A3, 0x398, 0x39E, 0x1B, 0xC6, 0xE6, 0xDF, 0xC9,
      0x20, 0x21, 0x22, 0x23, 0xA4, 0x25, 0x26, 0x27, 0x28, 0x29, 0x2A, 0x2B, 0x2C, 0x2D, 0x2E, 0x2F,
      0x30, 0x31, 0x32, 0x33, 0x34, 0x35, 0x36, 0x37, 0x38, 0x39, 0x3A, 0x3B, 0x3C, 0x3D, 0x3E, 0x3F,
      0xA1, 0x41, 0x42, 0x43, 0x44, 0x45, 0x46, 0x47, 0x48, 0x49, 0x4A, 0x4B, 0x4C, 0x4D, 0x4E, 0x4F,
      0x50, 0x51, 0x52, 0x53, 0x54, 0x55, 0x56, 0x57, 0x58, 0x59, 0x5A, 0xC4, 0xD6, 0xD1, 0xDC, 0xA7,
      0xBF, 0x61, 0x62, 0x63, 0x64, 0x65, 0x66, 0x67, 0x68, 0x69, 0x6A, 0x6B, 0x6C, 0x6D, 0x6E, 0x6F,
      0x70, 0x71, 0x72, 0x73, 0x74, 0x75, 0x76, 0x77, 0x78, 0x79, 0x7A, 0xE4, 0xF6, 0xF1, 0xFC, 0xE0}
    ensures Gsm7Extended(r) <==> r in {0x5E, 0x7B, 0x7D, 0x5C, 0x5B, 0x7E, 0x5D, 0x7C, 0x20AC}
  {
  }

  predicate IsGsm7(text: seq<rune>) {
    forall i :: 0 <= i < |text| ==> Gsm7Basic(text[i]) || Gsm7Extended(text[i])
  }

  function ExtendedCount(text: seq<rune>): nat {
    if text == [] then 0
    else ExtendedCount(text[..|text| - 1]) + (if Gsm7Extended(text[|text| - 1]) then 1 else 0)
  }

  lemma {:induction false} NoExtended(text: seq<rune>)
    requires forall i :: 0 <= i < |text| ==> Gsm7Basic(text[i])
    ensures ExtendedCount(text) == 0
  {
    if text != [] {
      NoExtended(text[..|text| - 1]);
    }
  }

  /** The septet count: one per character and one more per extension character, or -1 off the charset. */
  method Gsm7SeptetCount(text: seq<rune>) returns (count: int)
    ensures count == if IsGsm7(text) then |text| + ExtendedCount(text) else -1
  {
    count := 0;
    for i := 0 to |text|
      invariant IsGsm7(text[..i])
      invariant count == i + ExtendedCount(text[..i])
    {
      assert text[..i + 1][..i] == text[..i];
      if Gsm7Basic(text[i]) {
        count := count + 1;
      } else if Gsm7Extended(text[i]) {
        count := count + 2;
      } else {
        return -1;
      }
    }
    assert text[..|text|] == text;
  }

  /** Length, single-message limit and per-segment limit, in the unit the coding counts. */
  function Measure(coding: uint8, text: seq<rune>): (nat, nat, nat) {
    if coding == CODING_DEFAULT && IsGsm7(text) then (|text| + ExtendedCount(text), 160, 153)
    else if coding == CODING_DEFAULT || coding == CODING_UCS2 then (Utf16Length(text), 70, 67)
    else (Utf8Length(text), 140, 134)
  }

  function Needed(coding: uint8, text: seq<rune>): nat {
    var (length, single, multi) := Measure(coding, text);
    if length <= single then 1
    else if multi == 153 then CeilDiv(length, 153)
    else if multi == 67 then CeilDiv(length, 67)
    else CeilDiv(length, 134)
  }

  /** What is billed: the quotient, cut to eight bits. */
  function Bill(coding: uint8, text: seq<rune>): uint8 {
    Needed(coding, text) % 256
  }

  method CalcSegments(coding: uint8, text: seq<rune>) returns (n: uint8)
    ensures n == Bill(coding, text)
    ensures n == Needed(coding, text) <==> Needed(coding, text) <= 255
  {
    var maxSingle, maxConcat, length := 140, 134, 0;
    var septets := Gsm7SeptetCount(text);
    if coding == CODING_DEFAULT && septets >= 0 {
      maxSingle, maxConcat, length := 160, 153, septets;
    } else if coding == CODING_DEFAULT || coding == CODING_UCS2 {
      maxSingle, maxConcat, length := 70, 67, Utf16Length(text);
    } else {
      length := Utf8Length(text);
    }
    if length <= maxSingle {
      return 1;
    }
    var segments := length / maxConcat;
    if length % maxConcat != 0 {
      segments := segments + 1;
    }
    assert segments == Needed(coding, text);
    n := segments % 256;
  }

  /** So many segments of m units hold the length, and one fewer would not. */
  predicate Holds(n: nat, m: nat, length: nat) {
    (n as int - 1) * m < length <= n * m
  }

  /**
   * In numbers: septets under the default coding if every rune has them, code units of
   * UTF-16 under UCS2 and for any other text under the default coding, octets otherwise.
   */
  lemma {:induction false} QuotientExactly(coding: uint8, text: seq<rune>)
    ensures var n, septets := Needed(coding, text), |text| + ExtendedCount(text);
            && (coding == 0 && IsGsm7(text) ==> if septets <= 160 then n == 1 else Holds(n, 153, septets))
            && ((coding == 0 && !IsGsm7(text)) || coding == 8 ==>
                  if Utf16Length(text) <= 70 then n == 1 else Holds(n, 67, Utf16Length(text)))
            && (coding != 0 && coding != 8 ==>
                  if Utf8Length(text) <= 140 then n == 1 else Holds(n, 134, Utf8Length(text)))
            && Bill(coding, text) == n % 256
  {
  }

  // ---------------------------------------------------------------- the bill against the splitter

  predicate Supported(coding: uint8) {
    coding == CODING_DEFAULT || coding == CODING_LATIN1 || coding == CODING_CYRILLIC || coding == CODING_UCS2
  }

  /** A rune that the bill counts as one unit, as the splitter does. */
  predicate UnitRune(coding: uint8, r: rune) {
    if coding == CODING_DEFAULT then Gsm7Basic(r)
    else if coding == CODING_UCS2 then r < 0x1_0000
    else r < 0x80
  }

  predicate CountsAlike(coding: uint8, text: seq<rune>) {
    Supported(coding) && forall i :: 0 <= i < |text| ==> UnitRune(coding, text[i])
  }

  /** On texts of such runes the quotient is the number of pieces, and the bill is while that fits in eight bits. */
  lemma {:induction false} BillAgrees(coding: uint8, text: seq<rune>)
    requires CountsAlike(coding, text)
    ensures Needed(coding, text) == |Split(text, coding)|
    ensures Bill(coding, text) == |Split(text, coding)| <==> |Split(text, coding)| <= 255
    ensures Bill(coding, text) >= |Split(text, coding)| <==> |Split(text, coding)| <= 255
  {
    SplitLaws(text, coding);
    if coding == CODING_DEFAULT {
      NoExtended(text);
    } else if coding == CODING_UCS2 {
      BmpLength(text);
    } else {
      RunesFitOctets(text);
    }
  }

  /**
   * The quotient is never below the number of pieces, so the bill is only when the quotient
   * does not fit in eight bits.
   */
  lemma {:induction false} UnderbilledOnlyByWrapping(coding: uint8, text: seq<rune>)
    requires Supported(coding)
    ensures Needed(coding, text) >= |Split(text, coding)|
    ensures Bill(coding, text) < |Split(text, coding)| ==> Needed(coding, text) > 255
  {
    hide Split, Needed;
    SplitNumbers(text, coding);
    QuotientExactly(coding, text);
    RunesFitOctets(text);
    RunesFitUnits(text);
  }

  lemma {:induction false} RunesFitUnits(text: seq<rune>)
    ensures |text| <= Utf16Length(text)
  {
    if text != [] { RunesFitUnits(text[1..]); }
  }

  /** What a repeated rune measures. */
  lemma {:induction false} RepeatMeasures(r: rune, n: nat)
    ensures Utf8Length(Repeat(r, n)) == n * Utf8Width(r) && Utf16Length(Repeat(r, n)) == n * Utf16Width(r)
    ensures Gsm7Extended(r) ==> ExtendedCount(Repeat(r, n)) == n
  {
    if n > 0 {
      RepeatMeasures(r, n - 1);
      assert Repeat(r, n)[1..] == Repeat(r, n - 1) == Repeat(r, n)[..n - 1];
    }
  }

  /** Any other rune, repeated to the single-message limit or less, is one piece billed as more. */
  lemma {:induction false} OffendingRune(coding: uint8, r: rune)
    requires Supported(coding) && !UnitRune(coding, r)
    ensures var text := Repeat(r, if coding == CODING_UCS2 then 70 else 140);
            |Split(text, coding)| == 1 < Bill(coding, text)
  {
    var n := if coding == CODING_UCS2 then 70 else 140;
    RepeatMeasures(r, n);
    assert Repeat(r, n)[0] == r;
  }

  /** One unit rune more than 255 full pieces: 256 pieces, billed as none. */
  lemma {:induction false} BillWraps(coding: uint8, r: rune)
    requires Supported(coding) && UnitRune(coding, r)
    ensures var text := Repeat(r, 255 * MultiLimit(coding) + 1);
            |Split(text, coding)| == 256 && Bill(coding, text) == 0
  {
    var text := Repeat(r, 255 * MultiLimit(coding) + 1);
    SplitLaws(text, coding);
    hide Split, Needed, Repeat;
    BillAgrees(coding, text);
  }

  ghost predicate Over(text: seq<rune>, alphabet: iset<rune>) {
    forall i :: 0 <= i < |text| ==> text[i] in alphabet
  }

  /**
   * The bill is the number of pieces for every text over an alphabet that is cut into at
   * most 255 exactly if each of its runes counts as one unit.
   */
  lemma {:induction false} BillAgreesOver(coding: uint8, alphabet: iset<rune>)
    requires Supported(coding)
    ensures (forall text :: Over(text, alphabet) && |Split(text, coding)| <= 255 ==>
               Bill(coding, text) == |Split(text, coding)|)
            <==> forall r :: r in alphabet ==> UnitRune(coding, r)
  {
    hide Needed, Bill, Split, UnitRune;
    if r :| r in alphabet && !UnitRune(coding, r) {
      OffendingRune(coding, r);
      assert Over(Repeat(r, if coding == CODING_UCS2 then 70 else 140), alphabet);
    } else {
      forall text | Over(text, alphabet) && |Split(text, coding)| <= 255
        ensures Bill(coding, text) == |Split(text, coding)|
      {
        BillAgrees(coding, text);
      }
    }
  }

  /** For texts of any length there is no such alphabet but the empty one. */
  lemma {:induction false} NoAlphabetAlways(coding: uint8, alphabet: iset<rune>)
    requires Supported(coding)
    ensures (forall text :: Over(text, alphabet) ==> Bill(coding, text) == |Split(text, coding)|)
            <==> forall r: rune :: r !in alphabet
  {
    hide Needed, Bill, Split, UnitRune;
    if r: rune :| r in alphabet {
      if UnitRune(coding, r) {
        BillWraps(coding, r);
        assert Over(Repeat(r, 255 * MultiLimit(coding) + 1), alphabet);
      } else {
        OffendingRune(coding, r);
        assert Over(Repeat(r, if coding == CODING_UCS2 then 70 else 140), alphabet);
      }
    } else {
      EmptyAgrees(coding);
      assert forall text :: Over(text, alphabet) ==> text == [] || text[0] in alphabet;
    }
  }

  lemma {:induction false} EmptyAgrees(coding: uint8)
    requires Supported(coding)
    ensures Bill(coding, []) == |Split([], coding)| == 1
  {
  }

  /** Two such texts: 81 euro signs are two segments by septets, 100 times e-acute two by octets; each is one piece. */
  lemma {:induction false} BillExceedsPieces()
    ensures |Split(Repeat(0x20AC, 81), CODING_DEFAULT)| == 1 && Bill(CODING_DEFAULT, Repeat(0x20AC, 81)) == 2
    ensures |Split(Repeat(0xE9, 100), CODING_LATIN1)| == 1 && Bill(CODING_LATIN1, Repeat(0xE9, 100)) == 2
  {
    hide Repeat, ExtendedCount, Utf8Length, Utf16Length, Pieces;
    RepeatMeasures(0x20AC, 81);
    RepeatMeasures(0xE9, 100);
  }
}

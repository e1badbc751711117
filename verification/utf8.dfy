/**
 * How Go's `for i := range s` steps through a string: from index i it
 * decodes one rune of s[i:] and moves on by that rune's width. A well-formed
 * UTF-8 sequence (the byte syntax of section 4 of RFC 3629) is one rune of
 * its own length; any other byte is a one-byte rune (utf8.RuneError).
 */
module Utf8 {
  import opened Bytes

  /** UTF8-tail of RFC 3629: 0x80..0xBF. */
  predicate IsTail(b: byte) {
    0x80 <= b <= 0xBF
  }

  /** A well-formed two-byte sequence starts at s[i]: C2..DF, then a tail. */
  predicate Lead2(s: GoString, i: nat) {
    i + 2 <= |s| && 0xC2 <= s[i] <= 0xDF && IsTail(s[i + 1])
  }

  /** A well-formed three-byte sequence starts at s[i]: E0 A0..BF, E1..EC tail, ED 80..9F, EE..EF tail; then a tail. */
  predicate Lead3(s: GoString, i: nat) {
    && i + 3 <= |s| && 0xE0 <= s[i] <= 0xEF && IsTail(s[i + 1]) && IsTail(s[i + 2])
    && (s[i] == 0xE0 ==> 0xA0 <= s[i + 1])
    && (s[i] == 0xED ==> s[i + 1] <= 0x9F)
  }

  /** A well-formed four-byte sequence starts at s[i]: F0 90..BF, F1..F3 tail, F4 80..8F; then two tails. */
  predicate Lead4(s: GoString, i: nat) {
    && i + 4 <= |s| && 0xF0 <= s[i] <= 0xF4 && IsTail(s[i + 1]) && IsTail(s[i + 2]) && IsTail(s[i + 3])
    && (s[i] == 0xF0 ==> 0x90 <= s[i + 1])
    && (s[i] == 0xF4 ==> s[i + 1] <= 0x8F)
  }

  /** The width of the rune that `range` decodes at index i of s. */
  function RuneWidth(s: GoString, i: nat): (w: nat)
    requires i < |s|
    ensures 1 <= w <= 4 && i + w <= |s|
  {
    if Lead2(s, i) then 2
    else if Lead3(s, i) then 3
    else if Lead4(s, i) then 4
    else 1
  }

  /** A Unicode scalar value: a code point that is not a surrogate. */
  predicate IsScalarValue(cp: int) {
    0 <= cp <= 0x10FFFF && !(0xD800 <= cp <= 0xDFFF)
  }

  /** The UTF-8 encoding of a scalar value (section 3 of RFC 3629). */
  function Encode(cp: int): (e: GoString)
    requires IsScalarValue(cp)
    ensures 1 <= |e| <= 4
    ensures |e| == 1 <==> cp < 0x80
  {
    if cp < 0x80 then
      [cp as byte]
    else if cp < 0x800 then
      [(0xC0 + cp / 0x40) as byte, (0x80 + cp % 0x40) as byte]
    else if cp < 0x10000 then
      [(0xE0 + cp / 0x1000) as byte, (0x80 + cp / 0x40 % 0x40) as byte, (0x80 + cp % 0x40) as byte]
    else
      [(0xF0 + cp / 0x40000) as byte, (0x80 + cp / 0x1000 % 0x40) as byte,
       (0x80 + cp / 0x40 % 0x40) as byte, (0x80 + cp % 0x40) as byte]
  }

  /** s holds the encoding of cp at index i. */
  predicate HoldsAt(s: GoString, i: nat, e: GoString) {
    i + |e| <= |s| && forall k :: 0 <= k < |e| ==> s[i + k] == e[k]
  }

  /** Wherever a well-formed rune sits, `range` steps over all of it at once. */
  lemma EncodedRuneWidth(cp: int, s: GoString, i: nat)
    requires IsScalarValue(cp) && HoldsAt(s, i, Encode(cp))
    ensures RuneWidth(s, i) == |Encode(cp)|
  {
    var e := Encode(cp);
    assert s[i] == e[0];
    if cp < 0x80 {
    } else if cp < 0x800 {
      assert 2 <= cp / 0x40 <= 0x1F;
      assert s[i + 1] == e[1];
    } else if cp < 0x10000 {
      assert s[i + 1] == e[1] && s[i + 2] == e[2];
      assert 0 <= cp / 0x1000 <= 0xF;
      if cp < 0x1000 {
        assert 0x20 <= cp / 0x40 < 0x40;
      } else if cp / 0x1000 == 0xD {
        assert 0x340 <= cp / 0x40 < 0x360;
      }
    } else {
      assert s[i + 1] == e[1] && s[i + 2] == e[2] && s[i + 3] == e[3];
      assert 0 <= cp / 0x40000 <= 4;
      if cp < 0x40000 {
        assert 0x10 <= cp / 0x1000 < 0x40;
      } else if cp >= 0x100000 {
        assert 0x100 <= cp / 0x1000 < 0x110;
      }
    }
  }

  /** The first byte of a multi-byte encoding is a lead byte, never a continuation byte. */
  lemma LeadIsNoTail(cp: int)
    requires IsScalarValue(cp) && cp >= 0x80
    ensures 0xC2 <= Encode(cp)[0] && !IsTail(Encode(cp)[0])
  {
    if cp < 0x800 {
      assert 2 <= cp / 0x40;
    }
  }

  /**
   * The converse of EncodedRuneWidth: a step wider than one byte covers the
   * encoding of some non-ASCII scalar value, so bytes that are not a
   * well-formed sequence are stepped over one at a time.
   */
  lemma WideStepIsEncoding(s: GoString, i: nat)
    requires i < |s| && RuneWidth(s, i) > 1
    ensures exists cp ::
      && IsScalarValue(cp) && cp >= 0x80 && HoldsAt(s, i, Encode(cp))
      && |Encode(cp)| == RuneWidth(s, i)
  {
    var b0 := s[i] as int;
    if Lead2(s, i) {
      var cp := (b0 - 0xC0) * 0x40 + (s[i + 1] as int - 0x80);
      Decode2(s, i, cp);
    } else if Lead3(s, i) {
      var cp := (b0 - 0xE0) * 0x1000 + (s[i + 1] as int - 0x80) * 0x40 + (s[i + 2] as int - 0x80);
      Decode3(s, i, cp);
    } else {
      var cp := (b0 - 0xF0) * 0x40000 + (s[i + 1] as int - 0x80) * 0x1000
        + (s[i + 2] as int - 0x80) * 0x40 + (s[i + 3] as int - 0x80);
      Decode4(s, i, cp);
    }
  }

  lemma Decode2(s: GoString, i: nat, cp: int)
    requires Lead2(s, i)
    requires cp == (s[i] as int - 0xC0) * 0x40 + (s[i + 1] as int - 0x80)
    ensures IsScalarValue(cp) && cp >= 0x80 && HoldsAt(s, i, Encode(cp)) && |Encode(cp)| == 2
  {
    assert cp / 0x40 == s[i] as int - 0xC0;
    assert cp % 0x40 == s[i + 1] as int - 0x80;
  }

  lemma Decode3(s: GoString, i: nat, cp: int)
    requires Lead3(s, i)
    requires cp == (s[i] as int - 0xE0) * 0x1000 + (s[i + 1] as int - 0x80) * 0x40 + (s[i + 2] as int - 0x80)
    ensures IsScalarValue(cp) && cp >= 0x80 && HoldsAt(s, i, Encode(cp)) && |Encode(cp)| == 3
  {
    var b0 := s[i] as int - 0xE0;
    var b1 := s[i + 1] as int - 0x80;
    var b2 := s[i + 2] as int - 0x80;
    assert cp / 0x1000 == b0;
    assert cp / 0x40 == b0 * 0x40 + b1;
    assert cp / 0x40 % 0x40 == b1;
    assert cp % 0x40 == b2;
    assert IsScalarValue(cp) && 0x800 <= cp < 0x10000;
  }

  lemma Decode4(s: GoString, i: nat, cp: int)
    requires Lead4(s, i)
    requires cp == (s[i] as int - 0xF0) * 0x40000 + (s[i + 1] as int - 0x80) * 0x1000
      + (s[i + 2] as int - 0x80) * 0x40 + (s[i + 3] as int - 0x80)
    ensures IsScalarValue(cp) && cp >= 0x80 && HoldsAt(s, i, Encode(cp)) && |Encode(cp)| == 4
  {
    var b0 := s[i] as int - 0xF0;
    var b1 := s[i + 1] as int - 0x80;
    var b2 := s[i + 2] as int - 0x80;
    var b3 := s[i + 3] as int - 0x80;
    assert cp / 0x40000 == b0;
    assert cp / 0x1000 == b0 * 0x40 + b1;
    assert cp / 0x1000 % 0x40 == b1;
    assert cp / 0x40 == (b0 * 0x40 + b1) * 0x40 + b2;
    assert cp / 0x40 % 0x40 == b2;
    assert cp % 0x40 == b3;
    assert IsScalarValue(cp) && cp >= 0x10000;
  }

  /**
   * Ill-formed bytes step one at a time: an overlong form, a surrogate, a
   * value above U+10FFFF, a byte that never leads, a cut-off sequence.
   * The nearest well-formed neighbours step whole.
   */
  lemma IllFormedSteps()
    ensures RuneWidth([0xC0, 0x80], 0) == 1
    ensures RuneWidth([0xE0, 0x9F, 0xBF], 0) == 1
    ensures RuneWidth([0xED, 0xA0, 0x80], 0) == 1
    ensures RuneWidth([0xF4, 0x90, 0x80, 0x80], 0) == 1
    ensures RuneWidth([0xF5, 0x80, 0x80, 0x80], 0) == 1
    ensures RuneWidth([0xE2, 0x82], 0) == 1
    ensures RuneWidth([0xED, 0x9F, 0xBF], 0) == 3
    ensures RuneWidth([0xF4, 0x8F, 0xBF, 0xBF], 0) == 4
  {
  }
}

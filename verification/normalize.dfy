/**
 * The façade's `normalized`: an allocation-free ASCII downcase. It fills a
 * zeroed buffer of the input's length, but only at the indices that
 * `for i := range s` visits. Those are rune starts, not every byte: the
 * continuation bytes of a multi-byte rune are never written and stay 0.
 */
module Normalize {
  import opened Bytes
  import opened Utf8

  /**
   * The output for the part of s from index i on, one rune at a time: the
   * rune's first byte downcased, then one zero per continuation byte.
   */
  function NormalizedFrom(s: GoString, i: nat): (r: GoString)
    requires i <= |s|
    ensures |r| == |s| - i
    decreases |s| - i
  {
    if i == |s| then []
    else
      var w := RuneWidth(s, i);
      [Lower(s[i])] + Zeros(w - 1) + NormalizedFrom(s, i + w)
  }

  /** Reference definition of `normalized(s)`. */
  function Normalized(s: GoString): (r: GoString)
    ensures |r| == |s|
  {
    NormalizedFrom(s, 0)
  }

  /** A `range` loop started at index j visits index i. */
  predicate Reaches(s: GoString, j: nat, i: int)
    decreases |s| - j
  {
    && j < |s|
    && j <= i
    && (i == j || Reaches(s, j + RuneWidth(s, j), i))
  }

  /** `for i := range s` visits index i. */
  predicate IsRuneStart(s: GoString, i: int) {
    Reaches(s, 0, i)
  }

  /** Every index of s is a one-byte rune. */
  predicate AllSingleRunes(s: GoString) {
    forall i :: 0 <= i < |s| ==> RuneWidth(s, i) == 1
  }

  /** The loop as the source writes it: zeroed buffer, one write per rune start. */
  method NormalizedBytes(s: GoString) returns (r: GoString)
    ensures r == Normalized(s)
  {
    var b := Zeros(|s|);
    var i := 0;
    ghost var target := Normalized(s);
    while i < |s|
      invariant i <= |s| && |b| == |s|
      invariant forall k :: i <= k < |s| ==> b[k] == 0
      invariant b[..i] + NormalizedFrom(s, i) == target
    {
      b, i := DowncaseAt(s, b, i, target);
    }
    assert b[..i] == b;
    r := b;
  }

  /** One iteration of the loop: downcase the byte at rune start i, step over the rune. */
  method DowncaseAt(s: GoString, b: GoString, i: nat, ghost target: GoString)
    returns (written: GoString, next: nat)
    requires i < |s| && |b| == |s|
    requires forall k :: i <= k < |s| ==> b[k] == 0
    requires b[..i] + NormalizedFrom(s, i) == target
    ensures i < next <= |s| && |written| == |s|
    ensures next == i + RuneWidth(s, i)
    ensures written[i] == Lower(s[i])
    ensures forall k :: 0 <= k < i ==> written[k] == b[k]
    ensures forall k :: next <= k < |s| ==> written[k] == 0
    ensures written[..next] + NormalizedFrom(s, next) == target
  {
    var c := s[i];
    if 0x41 <= c <= 0x5A {
      c := c + 0x20;
    }
    assert c == Lower(s[i]);
    next := i + RuneWidth(s, i);
    written := b[i := c];
    assert forall k :: 0 <= k < |s| && k != i ==> written[k] == b[k];
    StepKeeps(s, b, i, target);
  }

  /** Writing the downcased byte at rune start i keeps the loop invariant at the rune's end. */
  lemma StepKeeps(s: GoString, b: GoString, i: nat, target: GoString)
    requires i < |s| && |b| == |s|
    requires forall k :: i <= k < |s| ==> b[k] == 0
    requires b[..i] + NormalizedFrom(s, i) == target
    ensures b[i := Lower(s[i])][..i + RuneWidth(s, i)] + NormalizedFrom(s, i + RuneWidth(s, i)) == target
  {
    var w := RuneWidth(s, i);
    UnfoldAt(s, i);
    WriteStep(b, i, Lower(s[i]), w, NormalizedFrom(s, i + w));
  }

  /** One rune of the reference definition. */
  lemma UnfoldAt(s: GoString, i: nat)
    requires i < |s|
    ensures NormalizedFrom(s, i)
      == [Lower(s[i])] + Zeros(RuneWidth(s, i) - 1) + NormalizedFrom(s, i + RuneWidth(s, i))
  {
  }

  /** Writing byte c at index i of a buffer that is zero from i on. */
  lemma WriteStep(b: GoString, i: nat, c: byte, w: nat, rest: GoString)
    requires 1 <= w && i + w <= |b|
    requires forall k :: i <= k < |b| ==> b[k] == 0
    ensures b[i := c][..i + w] + rest == b[..i] + ([c] + Zeros(w - 1) + rest)
  {
    assert b[i := c][..i + w] == b[..i] + [c] + Zeros(w - 1);
  }

  lemma IndexAppend<T>(a: seq<T>, b: seq<T>, i: int)
    requires |a| <= i < |a| + |b|
    ensures (a + b)[i] == b[i - |a|]
  {
  }

  lemma IndexAppendLeft<T>(a: seq<T>, b: seq<T>, i: int)
    requires 0 <= i < |a|
    ensures (a + b)[i] == a[i]
  {
  }

  lemma {:induction false} PointwiseFrom(s: GoString, j: nat)
    requires j <= |s|
    ensures forall i :: j <= i < |s| ==>
      NormalizedFrom(s, j)[i - j] == if Reaches(s, j, i) then Lower(s[i]) else 0
    decreases |s| - j
  {
    if j < |s| {
      var w := RuneWidth(s, j);
      PointwiseFrom(s, j + w);
      var head := [Lower(s[j])] + Zeros(w - 1);
      var rest := NormalizedFrom(s, j + w);
      assert NormalizedFrom(s, j) == head + rest;
      forall i | j <= i < |s|
        ensures NormalizedFrom(s, j)[i - j] == if Reaches(s, j, i) then Lower(s[i]) else 0
      {
        if i < j + w {
          IndexAppendLeft(head, rest, i - j);
        } else {
          IndexAppend(head, rest, i - j);
        }
      }
    }
  }

  /** Output byte i is the downcased input byte at a rune start and 0 everywhere else. */
  lemma NormalizedPointwise(s: GoString)
    ensures forall i :: 0 <= i < |s| ==>
      Normalized(s)[i] == if IsRuneStart(s, i) then Lower(s[i]) else 0
  {
    PointwiseFrom(s, 0);
  }

  /** The loop moves from a rune start to the index just past that rune. */
  lemma {:induction false} ReachesNext(s: GoString, j: nat, i: nat)
    requires i < |s| && Reaches(s, j, i) && i + RuneWidth(s, i) < |s|
    ensures Reaches(s, j, i + RuneWidth(s, i))
    decreases |s| - j
  {
    if i != j {
      ReachesNext(s, j + RuneWidth(s, j), i);
    }
  }

  /** Between two visited indices there is at least the width of the first one's rune. */
  lemma {:induction false} ReachesGap(s: GoString, j: nat, i: nat, k: nat)
    requires i < k < |s| && Reaches(s, j, i) && Reaches(s, j, k)
    ensures i + RuneWidth(s, i) <= k
    decreases |s| - j
  {
    if i != j {
      ReachesGap(s, j + RuneWidth(s, j), i, k);
    }
  }

  /** When every rune is one byte wide, the loop visits every index. */
  lemma {:induction false} SingleRunesAllReached(s: GoString, j: nat)
    requires AllSingleRunes(s)
    ensures forall i :: j <= i < |s| ==> Reaches(s, j, i)
    decreases |s| - j
  {
    if j < |s| {
      SingleRunesAllReached(s, j + 1);
    }
  }

  lemma AsciiIsSingleRunes(s: GoString)
    requires AllAscii(s)
    ensures AllSingleRunes(s)
  {
  }

  /**
   * On ASCII input every byte is a rune start: byte i of the output is byte i
   * of the input plus 32 when it is in 'A'..'Z', and unchanged otherwise.
   */
  lemma NormalizedAscii(s: GoString)
    requires AllAscii(s)
    ensures forall i :: 0 <= i < |s| ==>
      Normalized(s)[i] as int == if IsUpper(s[i]) then s[i] as int + 32 else s[i] as int
  {
    AsciiIsSingleRunes(s);
    SingleRunesAllReached(s, 0);
    NormalizedPointwise(s);
  }

  /** Whatever the input, no byte of the output is in 'A'..'Z'. */
  lemma NormalizedHasNoUpper(s: GoString)
    ensures forall i :: 0 <= i < |s| ==> !IsUpper(Normalized(s)[i])
  {
    NormalizedPointwise(s);
  }

  /**
   * The loop visits every index that does not hold a continuation byte:
   * the bytes a wider step jumps over are all continuation bytes.
   */
  lemma {:induction false} NonTailReached(s: GoString, j: nat, k: nat)
    requires j <= k < |s| && !IsTail(s[k])
    ensures Reaches(s, j, k)
    decreases |s| - j
  {
    if j < k {
      var w := RuneWidth(s, j);
      if j + w <= k {
        NonTailReached(s, j + w, k);
      } else {
        assert false;
      }
    }
  }

  /**
   * Wherever the input holds a well-formed multi-byte rune, the loop writes
   * only its lead byte (unchanged: it is no letter); its continuation bytes
   * come out 0.
   */
  lemma MultiByteRuneZeroed(cp: int, s: GoString, i: nat)
    requires IsScalarValue(cp) && cp >= 0x80
    requires HoldsAt(s, i, Encode(cp))
    ensures Normalized(s)[i] == s[i]
    ensures forall k :: i < k < i + |Encode(cp)| ==> Normalized(s)[k] == 0
  {
    LeadIsNoTail(cp);
    assert s[i] == Encode(cp)[0];
    NonTailReached(s, 0, i);
    EncodedRuneWidth(cp, s, i);
    NormalizedPointwise(s);
    forall k | i < k < i + |Encode(cp)|
      ensures Normalized(s)[k] == 0
    {
      if IsRuneStart(s, k) {
        ReachesGap(s, 0, i, k);
      }
    }
  }

  /** "CAFÉ": the bytes C3 89 of 'É' become C3 00. */
  lemma NormalizedExample()
    ensures Normalized([0x43, 0x41, 0x46, 0xC3, 0x89]) == [0x63, 0x61, 0x66, 0xC3, 0x00]
  {
    var s: GoString := [0x43, 0x41, 0x46, 0xC3, 0x89];
    assert RuneWidth(s, 3) == 2;
    assert NormalizedFrom(s, 3) == [0xC3, 0x00];
  }

  // Idempotence. The output decodes as one-byte runes only and has no
  // upper-case letter, and such a sequence is its own normalization.

  /** At a one-byte rune of s, `range` over the output decodes a one-byte rune too. */
  lemma SingleRuneStaysSingle(s: GoString, i: nat)
    requires i < |s| && IsRuneStart(s, i) && RuneWidth(s, i) == 1
    ensures RuneWidth(Normalized(s), i) == 1
  {
    var n := Normalized(s);
    NormalizedPointwise(s);
    if !IsAscii(s[i]) && i + 1 < |s| {
      // The run of continuation bytes after i consists of rune starts, which
      // the output keeps as they are; the first other byte stays no tail.
      ReachesNext(s, 0, i);
      if IsTail(s[i + 1]) && i + 2 < |s| {
        ReachesNext(s, 0, i + 1);
        if IsTail(s[i + 2]) && i + 3 < |s| {
          ReachesNext(s, 0, i + 2);
        }
      }
    }
  }

  /** Every index of the output is a one-byte rune. */
  lemma NormalizedDecodesBytewise(s: GoString)
    ensures AllSingleRunes(Normalized(s))
  {
    var n := Normalized(s);
    NormalizedPointwise(s);
    forall i | 0 <= i < |n|
      ensures RuneWidth(n, i) == 1
    {
      if IsRuneStart(s, i) {
        if RuneWidth(s, i) == 1 {
          SingleRuneStaysSingle(s, i);
        } else if i + 1 < |s| && IsRuneStart(s, i + 1) {
          ReachesGap(s, 0, i, i + 1);
        }
      }
    }
  }

  /** `normalized` is idempotent, on every input and not only on ASCII. */
  lemma NormalizedIdempotent(s: GoString)
    ensures Normalized(Normalized(s)) == Normalized(s)
  {
    var n := Normalized(s);
    NormalizedDecodesBytewise(s);
    SingleRunesAllReached(n, 0);
    NormalizedPointwise(n);
    NormalizedHasNoUpper(s);
    assert forall i :: 0 <= i < |n| ==> Normalized(n)[i] == n[i];
  }
}

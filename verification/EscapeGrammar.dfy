/**
  How long an escape sequence is: the length measures of the guest-output filter.

  The grammar is that of control sequences (ECMA-48, section 5.4), control strings (ECMA-48,
  section 5.6) and the ESC I..I F family (ECMA-35, section 13), with the filter's own rule that an
  ESC inside a sequence cuts it short. A measure is Incomplete when more bytes are needed.
 */
module EscapeGrammar {
  import opened Bytes

  const ESC: Byte := 0x1b
  const BEL: Byte := 0x07
  const ST8: Byte := 0x9c

  datatype Measure = Incomplete | Complete(len: nat)

  predicate InRange(c: Byte, lo: Byte, hi: Byte) { lo <= c <= hi }
  predicate IsParam(c: Byte) { InRange(c, 0x30, 0x3f) }
  predicate IsInter(c: Byte) { InRange(c, 0x20, 0x2f) }

  /** OSC, DCS, SOS, PM and APC: the byte after ESC that opens a control string. */
  predicate OpensString(k: Byte) { k in {0x5d, 0x50, 0x58, 0x5e, 0x5f} }

  const CSI: Byte := 0x5b

  /** The first index at or after `i` whose byte is outside lo..hi. */
  function SpanEnd(b: seq<Byte>, i: nat, lo: Byte, hi: Byte): (j: nat)
    requires i <= |b|
    ensures i <= j <= |b|
    ensures forall k | i <= k < j :: InRange(b[k], lo, hi)
    ensures j < |b| ==> !InRange(b[j], lo, hi)
    decreases |b| - i
  {
    if i < |b| && InRange(b[i], lo, hi) then SpanEnd(b, i + 1, lo, hi) else i
  }

  /** Where a control sequence whose parameters start at `i` ends. */
  function CsiEnd(b: seq<Byte>, i: nat): (m: Measure)
    requires i <= |b|
    ensures m.Complete? ==> i <= m.len <= |b|
  {
    FinalAt(b, SpanEnd(b, SpanEnd(b, i, 0x30, 0x3f), 0x20, 0x2f))
  }

  function FinalAt(b: seq<Byte>, q: nat): (m: Measure)
    requires q <= |b|
    ensures m.Complete? ==> q <= m.len <= |b|
  {
    if q == |b| then Incomplete else if b[q] == ESC then Complete(q) else Complete(q + 1)
  }

  /** Where a control string whose body is read from `i` ends. */
  function StringEnd(b: seq<Byte>, i: nat): (m: Measure)
    requires i <= |b|
    ensures m.Complete? ==> i <= m.len <= |b|
    decreases |b| - i
  {
    if i == |b| then Incomplete
    else if b[i] == BEL || b[i] == ST8 then Complete(i + 1)
    else if b[i] != ESC then StringEnd(b, i + 1)
    else if i + 1 == |b| then Incomplete
    else if b[i + 1] == 0x5c then Complete(i + 2)
    else Complete(i)
  }

  /** escapeLen, on values: the measure of the sequence that the ESC at b[0] opens. */
  function EscapeLen(b: seq<Byte>): (m: Measure)
    requires |b| > 0
    ensures m.Complete? ==> 1 <= m.len <= |b|
  {
    if |b| < 2 then Incomplete
    else if b[1] == CSI then CsiEnd(b, 2)
    else if OpensString(b[1]) then StringEnd(b, 2)
    else if b[1] == ESC then Complete(1)
    else if IsInter(b[1]) then FinalAt(b, SpanEnd(b, 2, 0x20, 0x2f))
    else Complete(2)
  }

  // ----- the measures as the source runs them; `tests` counts the byte tests made -----

  method MeasureString(b: seq<Byte>) returns (n: nat, ok: bool, ghost tests: nat)
    requires |b| >= 2
    ensures StringEnd(b, 2) == if ok then Complete(n) else Incomplete
    ensures if ok then tests <= n else tests <= |b|
  {
    tests := 0;
    var i := 2;
    while i < |b|
      invariant 2 <= i <= |b|
      invariant tests == i - 2
      invariant StringEnd(b, 2) == StringEnd(b, i)
    {
      tests := tests + 1;
      if b[i] == BEL || b[i] == ST8 {
        return i + 1, true, tests;
      }
      if b[i] == ESC {
        if i + 1 >= |b| {
          return 0, false, tests;
        }
        tests := tests + 1;
        if b[i + 1] == 0x5c {
          return i + 2, true, tests;
        }
        return i, true, tests;
      }
      i := i + 1;
    }
    return 0, false, tests;
  }

  method MeasureSpan(b: seq<Byte>, from: nat, lo: Byte, hi: Byte) returns (i: nat, ghost tests: nat)
    requires from <= |b|
    ensures i == SpanEnd(b, from, lo, hi)
    ensures tests <= i - from + 1
    ensures i == |b| ==> tests <= i - from
  {
    i, tests := from, 0;
    while i < |b| && InRange(b[i], lo, hi)
      invariant from <= i <= |b|
      invariant tests == i - from
      invariant SpanEnd(b, from, lo, hi) == SpanEnd(b, i, lo, hi)
    {
      tests := tests + 1;
      i := i + 1;
    }
    tests := if i < |b| then tests + 1 else tests;
  }

  method MeasureEscape(b: seq<Byte>) returns (n: nat, ok: bool, ghost tests: nat)
    requires |b| > 0
    ensures EscapeLen(b) == if ok then Complete(n) else Incomplete
    ensures if ok then tests <= n + 2 else tests <= |b| + 1
  {
    if |b| < 2 {
      return 0, false, 0;
    }
    if OpensString(b[1]) {
      n, ok, tests := MeasureString(b);
      tests := tests + 1;
      return;
    }
    if b[1] == ESC {
      return 1, true, 1;
    }
    var i := 2;
    tests := 1;
    if b[1] == CSI {
      ghost var r;
      i, r := MeasureSpan(b, i, 0x30, 0x3f);
      tests := tests + r;
    } else if !IsInter(b[1]) {
      return 2, true, tests;
    }
    ghost var r;
    i, r := MeasureSpan(b, i, 0x20, 0x2f);
    tests := tests + r;
    if i >= |b| {
      return 0, false, tests;
    }
    tests := tests + 1;
    if b[i] == ESC {
      return i, true, tests;
    }
    return i + 1, true, tests;
  }

  /**
    escapeLenAfterIntro: the in-place measure for an 8-bit introducer. It agrees with the simple
    measure of the 7-bit spelling ESC intro rest, which is one byte longer, and copies nothing.
   */
  method MeasureAfterIntro(intro: Byte, rest: seq<Byte>) returns (n: nat, ok: bool, ghost tests: nat)
    ensures intro == CSI || OpensString(intro) ==>
              EscapeLen([ESC, intro] + rest) == if ok then Complete(n + 1) else Incomplete
    ensures intro != CSI && !OpensString(intro) ==> ok && n == 1
    ensures ok ==> 1 <= n <= |rest| + 1
    ensures if ok then tests <= n + 2 else tests <= |rest| + 1
  {
    if intro == CSI {
      n, ok, tests := MeasureCsiAfterIntro(rest);
    } else if OpensString(intro) {
      n, ok, tests := MeasureStringAfterIntro(intro, rest);
    } else {
      n, ok, tests := 1, true, 0;
    }
  }

  method MeasureCsiAfterIntro(rest: seq<Byte>) returns (n: nat, ok: bool, ghost tests: nat)
    ensures CsiEnd([ESC, CSI] + rest, 2) == if ok then Complete(n + 1) else Incomplete
    ensures if ok then 1 <= n <= |rest| + 1 && tests <= n + 2 else tests <= |rest| + 1
  {
    var p, r := MeasureSpan(rest, 0, 0x30, 0x3f);
    SpanShift(rest, CSI, 0, 0x30, 0x3f);
    tests := r;
    var i;
    i, r := MeasureSpan(rest, p, 0x20, 0x2f);
    SpanShift(rest, CSI, p, 0x20, 0x2f);
    tests := tests + r;
    if i >= |rest| {
      return 0, false, tests;
    }
    tests := tests + 1;
    if rest[i] == ESC {
      return i + 1, true, tests;
    }
    return i + 2, true, tests;
  }

  method MeasureStringAfterIntro(intro: Byte, rest: seq<Byte>) returns (n: nat, ok: bool, ghost tests: nat)
    ensures StringEnd([ESC, intro] + rest, 2) == if ok then Complete(n + 1) else Incomplete
    ensures if ok then 1 <= n <= |rest| + 1 && tests <= n + 2 else tests <= |rest| + 1
  {
    ghost var b := [ESC, intro] + rest;
    var i := 0;
    tests := 0;
    while i < |rest|
      invariant 0 <= i <= |rest|
      invariant tests == i
      invariant StringEnd(b, 2) == StringEnd(b, i + 2)
    {
      tests := tests + 1;
      if rest[i] == BEL || rest[i] == ST8 {
        return i + 2, true, tests;
      }
      if rest[i] == ESC {
        if i + 1 >= |rest| {
          return 0, false, tests;
        }
        tests := tests + 1;
        if rest[i + 1] == 0x5c {
          return i + 3, true, tests;
        }
        return i + 1, true, tests;
      }
      i := i + 1;
    }
    return 0, false, tests;
  }

  lemma {:induction false} SpanShift(rest: seq<Byte>, intro: Byte, i: nat, lo: Byte, hi: Byte)
    requires i <= |rest|
    ensures SpanEnd([ESC, intro] + rest, i + 2, lo, hi) == SpanEnd(rest, i, lo, hi) + 2
    decreases |rest| - i
  {
    var b := [ESC, intro] + rest;
    if i < |rest| {
      assert b[i + 2] == rest[i];
      if InRange(rest[i], lo, hi) {
        SpanShift(rest, intro, i + 1, lo, hi);
      }
    }
  }

  // ----- prefix stability -----

  lemma {:induction false} SpanExtend(b: seq<Byte>, c: seq<Byte>, i: nat, lo: Byte, hi: Byte)
    requires i <= |b|
    ensures SpanEnd(b, i, lo, hi) < |b| ==> SpanEnd(b + c, i, lo, hi) == SpanEnd(b, i, lo, hi)
    decreases |b| - i
  {
    if i < |b| && InRange(b[i], lo, hi) {
      SpanExtend(b, c, i + 1, lo, hi);
    }
  }

  lemma {:induction false} StringExtend(b: seq<Byte>, c: seq<Byte>, i: nat)
    requires i <= |b|
    requires StringEnd(b, i).Complete?
    ensures StringEnd(b + c, i) == StringEnd(b, i)
    decreases |b| - i
  {
    if b[i] != BEL && b[i] != ST8 && b[i] != ESC {
      StringExtend(b, c, i + 1);
    }
  }

  /** A measure that succeeded is not changed by the bytes that come later. */
  lemma EscapeLenStable(b: seq<Byte>, c: seq<Byte>)
    requires |b| > 0
    requires EscapeLen(b).Complete?
    ensures EscapeLen(b + c) == EscapeLen(b)
  {
    if b[1] == CSI {
      var p := SpanEnd(b, 2, 0x30, 0x3f);
      SpanExtend(b, c, 2, 0x30, 0x3f);
      SpanExtend(b, c, p, 0x20, 0x2f);
    } else if OpensString(b[1]) {
      StringExtend(b, c, 2);
    } else if IsInter(b[1]) {
      SpanExtend(b, c, 2, 0x20, 0x2f);
    }
  }
}

/**
  What the filter does with each thing a guest can print, before any bytes that follow: text, quiet and loud
  sequences in both spellings, stray bytes, and beginnings that must wait for more.
 */
module FilterLaws {
  import opened Common
  import opened Bytes
  import opened EscapeGrammar
  import opened EscapePolicy
  import opened EscapeMeasures
  import opened TermFilter

  /** t is emitted, and the filter goes on with the rest. */
  ghost predicate Emits(t: seq<Byte>, rest: seq<Byte>) {
    Filter(t + rest) == Filtered(t + Filter(rest).out, |t| + Filter(rest).consumed)
  }

  /** t is dropped whole, and the filter goes on with the rest. */
  ghost predicate Drops(t: seq<Byte>, rest: seq<Byte>) {
    Filter(t + rest) == Filtered(Filter(rest).out, |t| + Filter(rest).consumed)
  }

  /** t waits for more bytes. */
  ghost predicate Waits(t: seq<Byte>) { Filter(t) == Filtered([], 0) }

  lemma Peel(t: seq<Byte>, rest: seq<Byte>, kept: bool)
    requires t != [] && NextToken(t + rest) == Some(Token(|t|, kept))
    ensures if kept then Emits(t, rest) else Drops(t, rest)
  {
    hide NextToken;
    SliceAppend(t, rest, |t|);
    Identity(t);
    assert t[|t|..] + rest == rest;
    assert [] + Filter(rest).out == Filter(rest).out;
  }

  // ----- text -----

  /** A character is emitted. */
  lemma CharIsEmitted(t: seq<Byte>, rest: seq<Byte>)
    requires IsUtf8Char(t) && t[0] != ESC
    ensures Emits(t, rest)
  {
    CharToken(t, rest);
    Peel(t, rest, true);
  }

  lemma CharToken(t: seq<Byte>, rest: seq<Byte>)
    requires IsUtf8Char(t) && t[0] != ESC
    ensures NextToken(t + rest) == Some(Token(|t|, true))
  {
    var b := t + rest;
    assert forall i | 0 <= i < |t| :: b[i] == t[i];
  }

  /** A byte from 0xc0 up with which no character begins or can still begin is emitted alone. */
  lemma BadLeadIsEmitted(c: Byte, rest: seq<Byte>)
    requires c >= 0xc0
    requires forall n | 0 < n <= |[c] + rest| :: !IsUtf8Char(([c] + rest)[..n])
    requires forall t | IsUtf8Char(t) :: !([c] + rest < t)
    ensures Emits([c], rest)
  {
    var b := [c] + rest;
    WidthIsRight(b);
    assert RuneWidth(b) == Complete(1);
    hide RuneWidth, IsUtf8Char;
    assert b[0] == c;
    Peel([c], rest, true);
  }

  /** A width above one is that of a character, and to wait is to have seen the beginning of one. */
  lemma WidthIsRight(b: seq<Byte>)
    requires |b| > 0 && b[0] >= 0xc0
    ensures RuneWidth(b).Complete? && RuneWidth(b).len > 1 ==> IsUtf8Char(b[..RuneWidth(b).len])
    ensures RuneWidth(b).Incomplete? ==> exists t :: IsUtf8Char(t) && b < t
  {
    if RuneWidth(b).Incomplete? {
      var second := if b[0] == 0xe0 then 0xa0 else if b[0] == 0xf0 then 0x90 else 0x80;
      var t: seq<Byte> := if |b| == 1 then [b[0], second] else b;
      t := if |t| < RuneNeed(b[0]) then t + [0x80] else t;
      t := if |t| < RuneNeed(b[0]) then t + [0x80] else t;
      assert IsUtf8Char(t) && b < t;
    }
  }

  /** The beginning of a character waits for its end. */
  lemma PartialCharWaits(t: seq<Byte>, n: nat)
    requires IsUtf8Char(t) && 0 < n < |t|
    ensures Waits(t[..n])
  {
  }

  // ----- 7-bit sequences -----

  /** A well-formed quiet sequence is emitted. */
  lemma QuietIsEmitted(t: seq<Byte>, rest: seq<Byte>)
    requires WellFormed(t)
    ensures Emits(t, rest)
  {
    WellFormedIsMeasured(t, rest);
    WellFormedIsSafe(t);
    hide WellFormed, EscapeIsSafe;
    SliceAppend(t, rest, |t|);
    Identity(t);
    assert (t + rest)[0] == t[0] == ESC by {
      StartsWithEsc(t);
    }
    Peel(t, rest, true);
  }

  lemma StartsWithEsc(t: seq<Byte>)
    requires WellFormed(t)
    ensures |t| >= 2 && t[0] == ESC
  {
  }

  lemma MeasuredToken(t: seq<Byte>, rest: seq<Byte>)
    requires |t| > 0 && t[0] == ESC && EscapeLen(t + rest) == Complete(|t|)
    ensures NextToken(t + rest) == Some(Token(|t|, EscapeIsSafe(t)))
  {
    hide EscapeLen, EscapeIsSafe;
    SliceAppend(t, rest, |t|);
    Identity(t);
  }

  /** A control sequence is emitted or dropped whole, by whether it solicits a reply. */
  lemma ControlSequenceIsJudged(params: seq<Byte>, inter: seq<Byte>, final: Byte, rest: seq<Byte>)
    requires IsControlSequence(params, inter, final)
    ensures var t := [ESC, CSI] + params + inter + [final];
            if SolicitsReply(params, inter, final) then Drops(t, rest) else Emits(t, rest)
  {
    var t := ControlSequence(params, inter, final);
    assert t[0] == ESC;
    CsiPolicy(params, inter, final);
    CsiIsMeasured(params, inter, final, rest);
    hide EscapeLen, EscapeIsSafe, SolicitsReply, IsControlSequence, NextToken, Filter;
    MeasuredToken(t, rest);
    Peel(t, rest, EscapeIsSafe(t));
  }

  /** A control string is dropped whole with its terminator; only an operating system command may be emitted. */
  lemma ControlStringIsJudged(k: Byte, body: seq<Byte>, term: seq<Byte>, rest: seq<Byte>)
    requires IsStringOpener(k) && IsBody(body) && IsTerminator(term)
    ensures var t := [ESC, k] + body + term;
            if k == 0x5d && OscAllowed(Split(body, SEMI)) then Emits(t, rest) else Drops(t, rest)
  {
    var t := [ESC, k] + body + term;
    assert t[0] == ESC;
    StringVerdict(k, body, term);
    StringIsMeasured(k, body, term, rest);
    hide EscapeLen, EscapeIsSafe, NextToken, Filter, OscAllowed, Split;
    Assoc([ESC, k] + body, term, rest);
    MeasuredToken(t, rest);
    Peel(t, rest, EscapeIsSafe(t));
  }

  lemma StringVerdict(k: Byte, body: seq<Byte>, term: seq<Byte>)
    requires IsStringOpener(k) && IsBody(body) && IsTerminator(term)
    ensures EscapeIsSafe([ESC, k] + body + term) <==> k == 0x5d && OscAllowed(Split(body, SEMI))
  {
    var t := [ESC, k] + body + term;
    assert t[1] == k && t[|t| - 1] == term[|term| - 1];
    hide OscAllowed, Split;
    if k == 0x5d {
      OscBodyIs(body, term);
      hide OscBody;
    }
  }

  /** ESC I..I F is emitted when it ends legally and does not switch the coding system, and dropped otherwise. */
  lemma InterIsJudged(inter: seq<Byte>, final: Byte, rest: seq<Byte>)
    requires inter != [] && (forall c | c in inter :: 0x20 <= c <= 0x2f) && !(0x20 <= final <= 0x2f) && final != ESC
    ensures var t := [ESC] + inter + [final];
            if inter[0] != 0x25 && 0x30 <= final <= 0x7e then Emits(t, rest) else Drops(t, rest)
  {
    var t := [ESC] + inter + [final];
    InterIsMeasured(inter, final, rest);
    assert t[1] == inter[0] && inter[0] in inter && t[|t| - 1] == final;
    assert EscapeIsSafe(t) <==> inter[0] != 0x25 && 0x30 <= final <= 0x7e;
    hide EscapeLen, EscapeIsSafe, NextToken, Filter;
    MeasuredToken(t, rest);
    Peel(t, rest, EscapeIsSafe(t));
  }

  /** Any other pair is emitted unless it asks for identification, ends a string, or is not 7-bit. */
  lemma PairIsJudged(k: Byte, rest: seq<Byte>)
    requires k != CSI && !IsStringOpener(k) && !(0x20 <= k <= 0x2f) && k != ESC
    ensures if k < 0x80 && k != 0x5a && k != 0x5c then Emits([ESC, k], rest) else Drops([ESC, k], rest)
  {
    var t := [ESC, k];
    PairIsMeasured(k, rest);
    assert EscapeIsSafe(t) <==> k < 0x80 && k != 0x5a && k != 0x5c;
    hide EscapeLen, EscapeIsSafe, NextToken, Filter;
    MeasuredToken(t, rest);
    Peel(t, rest, EscapeIsSafe(t));
  }

  /** Of two ESC the first is dropped. */
  lemma DoubleEscIsDropped(rest: seq<Byte>)
    ensures Drops([ESC], [ESC] + rest)
  {
    PairIsMeasured(ESC, rest);
    assert [ESC] + ([ESC] + rest) == [ESC, ESC] + rest;
    MeasuredToken([ESC], [ESC] + rest);
    Peel([ESC], [ESC] + rest, false);
  }

  /** A sequence cut short by an ESC is dropped up to that ESC. */
  lemma CutCsiIsDropped(params: seq<Byte>, inter: seq<Byte>, rest: seq<Byte>)
    requires CsiParts(params, inter, ESC)
    ensures Drops([ESC, CSI] + params + inter, [ESC] + rest)
  {
    var t := [ESC, CSI] + params + inter;
    CsiIsMeasured(params, inter, ESC, rest);
    Assoc(t, [ESC], rest);
    CutIsUnsafe(params, inter);
    hide EscapeLen, EscapeIsSafe, NextToken, Filter;
    assert t[0] == ESC;
    MeasuredToken(t, [ESC] + rest);
    Peel(t, [ESC] + rest, false);
  }

  lemma CutIsUnsafe(params: seq<Byte>, inter: seq<Byte>)
    requires CsiParts(params, inter, ESC)
    ensures !EscapeIsSafe([ESC, CSI] + params + inter)
  {
    var t := [ESC, CSI] + params + inter;
    var last := t[|t| - 1];
    if inter != [] {
      assert last == inter[|inter| - 1] && last in inter;
    } else if params != [] {
      assert last == params[|params| - 1] && last in params;
    } else {
      assert t == [ESC, CSI];
    }
    hide OscIsSafe;
  }

  /** What has begun and not ended waits. */
  lemma UnfinishedWaits(t: seq<Byte>)
    requires |t| > 0 && t[0] == ESC && EscapeLen(t) == Incomplete
    ensures Waits(t)
  {
  }

  // ----- 8-bit controls -----

  /** The 8-bit bytes that open a sequence are those whose 7-bit spelling, 0x40 lower, opens one. */
  lemma EightBitSpelling(c: Byte)
    ensures C1Introducer(c).Some? <==> 0x80 <= c <= 0x9f && (c - 0x40 == 0x5b || IsStringOpener(c - 0x40))
    ensures C1Introducer(c).Some? ==> C1Introducer(c).value == c - 0x40
  {
  }

  /** An 8-bit control sequence is dropped whole, quiet or not. */
  lemma EightBitSequenceIsDropped(params: seq<Byte>, inter: seq<Byte>, final: Byte, rest: seq<Byte>)
    requires IsControlSequence(params, inter, final)
    ensures Drops([0x9b] + params + inter + [final], rest)
  {
    var t: seq<Byte> := [0x9b] + params + inter + [final];
    CsiIsMeasured(params, inter, final, rest);
    assert (t + rest)[1..] == params + inter + [final] + rest;
    assert [ESC, CSI] + (params + inter + [final] + rest) == [ESC, CSI] + params + inter + [final] + rest;
    EightBitToken(t, rest, CSI);
    Peel(t, rest, false);
  }

  lemma EightBitToken(t: seq<Byte>, rest: seq<Byte>, k: Byte)
    requires |t| > 0 && C1Introducer(t[0]) == Some(k) && 0x80 <= t[0] < 0xc0
    requires EscapeLen([ESC, k] + (t + rest)[1..]) == Complete(|t| + 1)
    ensures NextToken(t + rest) == Some(Token(|t|, false))
  {
    assert (t + rest)[0] == t[0];
    hide EscapeLen;
  }

  /** An 8-bit control string is dropped whole with its terminator. */
  lemma EightBitStringIsDropped(c: Byte, body: seq<Byte>, term: seq<Byte>, rest: seq<Byte>)
    requires 0x80 <= c <= 0x9f && IsStringOpener(c - 0x40) && IsBody(body) && IsTerminator(term)
    ensures Drops([c] + body + term, rest)
  {
    var t := [c] + body + term;
    var k: Byte := c - 0x40;
    StringIsMeasured(k, body, term, rest);
    assert (t + rest)[1..] == body + (term + rest);
    assert [ESC, k] + (body + (term + rest)) == [ESC, k] + body + (term + rest);
    EightBitToken(t, rest, k);
    Peel(t, rest, false);
  }

  /** A continuation byte or any other C1 control where a character should begin is dropped alone. */
  lemma StrayByteIsDropped(c: Byte, rest: seq<Byte>)
    requires 0x80 <= c <= 0xbf && c != 0x9b && !(c <= 0x9f && IsStringOpener(c - 0x40))
    ensures Drops([c], rest)
  {
    EightBitSpelling(c);
    assert ([c] + rest)[0] == c;
    Peel([c], rest, false);
  }
}

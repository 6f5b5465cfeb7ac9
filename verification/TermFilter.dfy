/**
  The guest-output filter: a streaming tokenizer that splits guest bytes into runes, escape
  sequences and 8-bit controls, and drops tokens by policy.

  Filter is one pass over a buffer, on values; Sanitize is the source's index loop, proved equal to
  it with a linear bound on the byte tests of the length measures. Sanitizer is the stateful
  writer; WriteAll is any run of writes on it.
 */
module TermFilter {
  import opened Common
  import opened Bytes
  import opened EscapeGrammar
  import opened EscapePolicy

  // ----- UTF-8, section 4 of RFC 3629 -----

  predicate IsTail(c: Byte) { 0x80 <= c < 0xc0 }

  /** How many bytes a rune led by `c` takes; 1 for a byte that leads nothing. */
  function RuneNeed(c: Byte): nat {
    if c < 0xc2 then 1 else if c < 0xe0 then 2 else if c < 0xf0 then 3 else if c < 0xf5 then 4 else 1
  }

  predicate SecondOk(c: Byte, d: Byte) {
    if c == 0xe0 then 0xa0 <= d <= 0xbf
    else if c == 0xed then 0x80 <= d <= 0x9f
    else if c == 0xf0 then 0x90 <= d <= 0xbf
    else if c == 0xf4 then 0x80 <= d <= 0x8f
    else IsTail(d)
  }

  /**
    utf8.FullRune and the width utf8.DecodeRune reports: a malformed rune is complete, and one byte
    wide, as soon as a byte that cannot continue it is seen.
   */
  function RuneWidth(b: seq<Byte>): (m: Measure)
    requires |b| > 0
    ensures m.Complete? ==> 1 <= m.len <= |b|
  {
    var need := RuneNeed(b[0]);
    if need > 1 && |b| > 1 && !SecondOk(b[0], b[1]) then Complete(1)
    else if need > 2 && |b| > 2 && !IsTail(b[2]) then Complete(1)
    else if need > 3 && |b| > 3 && !IsTail(b[3]) then Complete(1)
    else if |b| >= need then Complete(need)
    else Incomplete
  }

  /** One character of the UTF8-octets grammar. */
  predicate IsUtf8Char(s: seq<Byte>) {
    || (|s| == 1 && s[0] < 0x80)
    || (|s| == 2 && 0xc2 <= s[0] <= 0xdf && IsTail(s[1]))
    || (|s| == 3 && s[0] == 0xe0 && 0xa0 <= s[1] <= 0xbf && IsTail(s[2]))
    || (|s| == 3 && 0xe1 <= s[0] <= 0xec && IsTail(s[1]) && IsTail(s[2]))
    || (|s| == 3 && s[0] == 0xed && 0x80 <= s[1] <= 0x9f && IsTail(s[2]))
    || (|s| == 3 && 0xee <= s[0] <= 0xef && IsTail(s[1]) && IsTail(s[2]))
    || (|s| == 4 && s[0] == 0xf0 && 0x90 <= s[1] <= 0xbf && IsTail(s[2]) && IsTail(s[3]))
    || (|s| == 4 && 0xf1 <= s[0] <= 0xf3 && IsTail(s[1]) && IsTail(s[2]) && IsTail(s[3]))
    || (|s| == 4 && s[0] == 0xf4 && 0x80 <= s[1] <= 0x8f && IsTail(s[2]) && IsTail(s[3]))
  }

  // ----- tokens -----

  /** The byte after ESC in the 7-bit spelling of an 8-bit introducer. */
  function C1Introducer(c: Byte): (k: Option<Byte>)
    ensures k.Some? ==> k.value == CSI || OpensString(k.value)
  {
    if c == 0x90 then Some(0x50)
    else if c == 0x98 then Some(0x58)
    else if c == 0x9b then Some(0x5b)
    else if c == 0x9d then Some(0x5d)
    else if c == 0x9e then Some(0x5e)
    else if c == 0x9f then Some(0x5f)
    else None
  }

  datatype Token = Token(len: nat, kept: bool)

  /** The token at the front of `b`, or None when more bytes are needed to tell. */
  function NextToken(b: seq<Byte>): (t: Option<Token>)
    requires |b| > 0
    ensures t.Some? ==> 1 <= t.value.len <= |b|
  {
    if b[0] == ESC then
      match EscapeLen(b)
      case Incomplete => None
      case Complete(n) => Some(Token(n, EscapeIsSafe(b[..n])))
    else if IsTail(b[0]) then
      match C1Introducer(b[0])
      case None => Some(Token(1, false))
      case Some(k) =>
        IntroLength(k, b[1..]);
        match EscapeLen([ESC, k] + b[1..])
        case Incomplete => None
        case Complete(n) => Some(Token(n - 1, false))
    else if b[0] >= 0xc0 then
      match RuneWidth(b)
      case Incomplete => None
      case Complete(n) => Some(Token(n, true))
    else Some(Token(1, true))
  }

  lemma IntroLength(k: Byte, rest: seq<Byte>)
    requires k == CSI || OpensString(k)
    ensures EscapeLen([ESC, k] + rest).Complete? ==> EscapeLen([ESC, k] + rest).len >= 2
  {
  }

  datatype Filtered = Filtered(out: seq<Byte>, consumed: nat)

  function Filter(b: seq<Byte>): (f: Filtered)
    ensures f.consumed <= |b|
  {
    if b == [] then Filtered([], 0)
    else
      match NextToken(b)
      case None => Filtered([], 0)
      case Some(t) =>
        var rest := Filter(b[t.len..]);
        Filtered((if t.kept then b[..t.len] else []) + rest.out, t.len + rest.consumed)
  }

  /** The result of a pass that has emitted `out` and goes on from `i`. */
  function Resumed(b: seq<Byte>, i: nat, out: seq<Byte>): Filtered
    requires i <= |b|
  {
    Filtered(out + Filter(b[i..]).out, i + Filter(b[i..]).consumed)
  }

  lemma FilterTurn(b: seq<Byte>, i: nat, out: seq<Byte>, n: nat, kept: bool)
    requires i < |b| && NextToken(b[i..]) == Some(Token(n, kept))
    ensures Resumed(b, i, out) == Resumed(b, i + n, if kept then out + b[i..i + n] else out)
  {
    hide NextToken;
    var rest := Filter(b[i + n..]);
    assert b[i..][n..] == b[i + n..] && b[i..][..n] == b[i..i + n];
    assert out + (b[i..i + n] + rest.out) == (out + b[i..i + n]) + rest.out;
  }

  lemma FilterEnds(b: seq<Byte>, i: nat, out: seq<Byte>)
    requires i <= |b|
    ensures i == |b| || NextToken(b[i..]).None? ==> Resumed(b, i, out) == Filtered(out, i)
    ensures Resumed(b, 0, []) == Filter(b)
  {
    assert b[0..] == b;
    assert i == |b| ==> b[i..] == [];
    assert out + [] == out;
  }

  /** One turn of the filter's loop: measure the token at `i` and decide whether it is kept. */
  method TakeToken(b: seq<Byte>, i: nat) returns (n: nat, kept: bool, ok: bool, ghost tests: nat)
    requires i < |b|
    ensures NextToken(b[i..]) == if ok then Some(Token(n, kept)) else None
    ensures if ok then tests <= 3 * n else tests <= 3 * (|b| - i)
  {
    var c := b[i];
    kept, ok, tests := false, true, 0;
    if c == ESC {
      n, ok, tests := MeasureEscape(b[i..]);
      if ok {
        assert b[i..][..n] == b[i..i + n];
        kept := EscapeVerdict(b[i..i + n]);
      }
    } else if IsTail(c) {
      n := 1;
      var intro := C1Introducer(c);
      if intro.Some? {
        assert b[i..][1..] == b[i + 1..];
        n, ok, tests := MeasureAfterIntro(intro.value, b[i + 1..]);
      }
    } else if c >= 0xc0 {
      var w := RuneWidth(b[i..]);
      if w.Incomplete? {
        return 0, false, false, 0;
      }
      n, kept := w.len, true;
    } else {
      n, kept := 1, true;
    }
  }

  /** sanitizeTerminalBytes. `tests` counts the byte tests of the length measures. */
  method Sanitize(b: seq<Byte>) returns (out: seq<Byte>, consumed: nat, ghost tests: nat)
    ensures Filtered(out, consumed) == Filter(b)
    ensures tests <= 3 * |b|
  {
    hide Filter, NextToken, Resumed;
    out, tests := [], 0;
    var i := 0;
    FilterEnds(b, i, out);
    while i < |b|
      invariant 0 <= i <= |b|
      invariant Filter(b) == Resumed(b, i, out)
      invariant tests <= 3 * i
    {
      var n, kept, ok, r := TakeToken(b, i);
      tests := tests + r;
      if !ok {
        FilterEnds(b, i, out);
        return out, i, tests;
      }
      FilterTurn(b, i, out, n, kept);
      out := if kept then out + b[i..i + n] else out;
      i := i + n;
    }
    FilterEnds(b, i, out);
    consumed := i;
  }

  // ----- the stream -----

  const MAX_HELD := 4096

  datatype Stream = Stream(held: seq<Byte>, out: seq<Byte>)

  const FRESH := Stream([], [])

  /** What a write of `p` leaves behind; a tail over the bound is dropped. */
  function WriteStep(s: Stream, p: seq<Byte>): Stream {
    var buf := s.held + p;
    var f := Filter(buf);
    var rest := buf[f.consumed..];
    Stream(if |rest| > MAX_HELD then [] else rest, s.out + f.out)
  }

  function WriteAll(s: Stream, ps: seq<seq<Byte>>): Stream {
    if ps == [] then s else WriteStep(WriteAll(s, ps[..|ps| - 1]), ps[|ps| - 1])
  }

  /** terminalSanitizer. `written` is what its writer was given, whose write may fail. */
  class Sanitizer {
    var held: seq<Byte>
    var written: seq<Byte>

    ghost predicate Valid()
      reads this
    {
      |held| <= MAX_HELD
    }

    constructor ()
      ensures Valid() && held == [] && written == []
    {
      held, written := [], [];
    }

    method Write(p: seq<Byte>, sinkOk: bool) returns (n: nat, ok: bool)
      requires Valid()
      modifies this
      ensures Valid()
      ensures held == WriteStep(Stream(old(held), old(written)), p).held
      ensures ok ==> Stream(held, written) == WriteStep(Stream(old(held), old(written)), p) && n == |p|
      ensures !ok ==> !sinkOk && written == old(written) && n == 0
      ensures !ok <==> !sinkOk && Filter(old(held) + p).out != []
    {
      var buf := if |held| > 0 then held + p else p;
      assert buf == held + p;
      var out, consumed, tests := Sanitize(buf);
      var rest := buf[consumed..];
      if |rest| > MAX_HELD {
        rest := [];
      }
      held := rest;
      if |out| > 0 {
        if !sinkOk {
          return 0, false;
        }
        written := written + out;
      }
      return |p|, true;
    }
  }
}

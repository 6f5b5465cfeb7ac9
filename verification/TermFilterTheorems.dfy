/**
  What the guest-output filter guarantees, whatever the guest prints and however it is cut into
  writes: chunk invariance, conservation, the bound on held bytes, and that everything that ever
  reached the terminal is a fixpoint of the filter.
 */
module TermFilterTheorems {
  import opened Common
  import opened Bytes
  import opened EscapeGrammar
  import opened EscapePolicy
  import opened EscapeMeasures
  import opened TermFilter
  import opened FilterLaws

  // ----- conservation -----

  datatype Lexeme = Lexeme(bytes: seq<Byte>, kept: bool)

  /** The tokens found in `b`, up to the unfinished tail. */
  function Lex(b: seq<Byte>): seq<Lexeme> {
    if b == [] || NextToken(b).None? then []
    else
      var t := NextToken(b).value;
      [Lexeme(b[..t.len], t.kept)] + Lex(b[t.len..])
  }

  function AllBytes(ls: seq<Lexeme>): seq<Byte> {
    if ls == [] then [] else ls[0].bytes + AllBytes(ls[1..])
  }

  function KeptParts(ls: seq<Lexeme>): seq<seq<Byte>> {
    if ls == [] then [] else (if ls[0].kept then [ls[0].bytes] else []) + KeptParts(ls[1..])
  }

  /** One token peeled off the front of a pass, or none. */
  lemma FilterCons(b: seq<Byte>, n: nat, kept: bool)
    requires |b| > 0 && NextToken(b) == Some(Token(n, kept))
    ensures Filter(b).out == (if kept then b[..n] else []) + Filter(b[n..]).out
    ensures Filter(b).consumed == n + Filter(b[n..]).consumed
    ensures Lex(b) == [Lexeme(b[..n], kept)] + Lex(b[n..])
  {
  }

  lemma FilterNil(b: seq<Byte>)
    requires b == [] || NextToken(b).None?
    ensures Filter(b) == Filtered([], 0) && Lex(b) == []
  {
  }

  /** The consumed prefix is the tokens laid end to end, and the output is the kept ones in order. */
  lemma {:induction false} Conservation(b: seq<Byte>)
    ensures AllBytes(Lex(b)) == b[..Filter(b).consumed]
    ensures Flatten(KeptParts(Lex(b))) == Filter(b).out
  {
    hide NextToken, Filter, Lex;
    if b == [] || NextToken(b).None? {
      FilterNil(b);
    } else {
      var t := NextToken(b).value;
      var rest := b[t.len..];
      Conservation(rest);
      FilterCons(b, t.len, t.kept);
      assert Lex(b)[1..] == Lex(rest);
      SliceSlice(b, t.len, Filter(rest).consumed);
      FlattenAppend(if t.kept then [b[..t.len]] else [], KeptParts(Lex(rest)));
      FlattenOne(b[..t.len]);
    }
  }

  lemma FlattenOne(p: seq<Byte>)
    ensures Flatten([p]) == p && Flatten([]) == []
  {
    Identity(p);
  }

  /** Text in the UTF8-octets grammar. */
  predicate ValidUtf8(b: seq<Byte>) {
    || b == []
    || (|b| >= 1 && IsUtf8Char(b[..1]) && ValidUtf8(b[1..]))
    || (|b| >= 2 && IsUtf8Char(b[..2]) && ValidUtf8(b[2..]))
    || (|b| >= 3 && IsUtf8Char(b[..3]) && ValidUtf8(b[3..]))
    || (|b| >= 4 && IsUtf8Char(b[..4]) && ValidUtf8(b[4..]))
  }

  /** Valid text without an ESC goes through byte for byte. */
  lemma {:induction false} TextPassesThrough(b: seq<Byte>)
    requires ValidUtf8(b) && ESC !in b
    ensures Filter(b) == Filtered(b, |b|)
  {
    if b != [] {
      var n :| 1 <= n <= 4 && |b| >= n && IsUtf8Char(b[..n]) && ValidUtf8(b[n..]);
      TextPassesThrough(b[n..]);
      CharPassesThrough(b, n);
    }
  }

  lemma CharPassesThrough(b: seq<Byte>, n: nat)
    requires 1 <= n <= |b| && IsUtf8Char(b[..n]) && b[0] != ESC
    requires Filter(b[n..]) == Filtered(b[n..], |b| - n)
    ensures Filter(b) == Filtered(b, |b|)
  {
    CharIsToken(b, n);
    hide NextToken;
    assert b[..n] + b[n..] == b;
  }

  lemma CharIsToken(b: seq<Byte>, n: nat)
    requires 1 <= n <= |b| && IsUtf8Char(b[..n]) && b[0] != ESC
    ensures NextToken(b) == Some(Token(n, true))
  {
    assert forall i | 0 <= i < n :: b[..n][i] == b[i];
  }

  // ----- chunk invariance -----

  lemma TokenStable(a: seq<Byte>, b: seq<Byte>)
    requires |a| > 0 && NextToken(a).Some?
    ensures NextToken(a + b) == NextToken(a)
  {
    var n := NextToken(a).value.len;
    assert (a + b)[..n] == a[..n];
    if a[0] == ESC {
      EscapeLenStable(a, b);
    } else if IsTail(a[0]) && C1Introducer(a[0]).Some? {
      var k := C1Introducer(a[0]).value;
      assert [ESC, k] + (a + b)[1..] == ([ESC, k] + a[1..]) + b;
      EscapeLenStable([ESC, k] + a[1..], b);
    }
  }

  /** What was consumed stays consumed: later bytes only continue from the unfinished tail. */
  lemma {:induction false} FilterAppend(a: seq<Byte>, b: seq<Byte>)
    ensures var fa := Filter(a);
            var fb := Filter(a[fa.consumed..] + b);
            Filter(a + b) == Filtered(fa.out + fb.out, fa.consumed + fb.consumed)
  {
    hide Filter, NextToken, Lex;
    if a == [] || NextToken(a).None? {
      FilterNil(a);
      Identity(a);
      Identity(Filter(a + b).out);
    } else {
      var t := NextToken(a).value;
      var rest, head := a[t.len..], if t.kept then a[..t.len] else [];
      TokenStable(a, b);
      FilterCons(a, t.len, t.kept);
      FilterCons(a + b, t.len, t.kept);
      SliceAppend(a, b, t.len);
      FilterAppend(rest, b);
      SliceSlice(a, t.len, Filter(rest).consumed);
      Assoc(head, Filter(rest).out, Filter(rest[Filter(rest).consumed..] + b).out);
    }
  }

  /** No write of the run left a tail over the bound. */
  predicate NothingDropped(s: Stream, ps: seq<seq<Byte>>) {
    ps == [] ||
    (NothingDropped(s, ps[..|ps| - 1]) &&
     var buf := WriteAll(s, ps[..|ps| - 1]).held + ps[|ps| - 1];
     |buf| - Filter(buf).consumed <= 4096)
  }

  /** The state of a stream that has seen `whole` and dropped nothing. */
  function OnePass(whole: seq<Byte>): Stream {
    Stream(whole[Filter(whole).consumed..], Filter(whole).out)
  }

  lemma OnePassStep(whole: seq<Byte>, p: seq<Byte>)
    requires var buf := OnePass(whole).held + p; |buf| - Filter(buf).consumed <= 4096
    ensures WriteStep(OnePass(whole), p) == OnePass(whole + p)
  {
    hide Filter;
    FilterAppend(whole, p);
    var c := Filter(whole).consumed;
    SliceAppend(whole, p, c);
    SliceSlice(whole + p, c, Filter(whole[c..] + p).consumed);
  }

  lemma FlattenLast(ps: seq<seq<Byte>>)
    requires ps != []
    ensures Flatten(ps) == Flatten(ps[..|ps| - 1]) + ps[|ps| - 1]
  {
    var k := |ps| - 1;
    assert ps == ps[..k] + [ps[k]];
    FlattenAppend(ps[..k], [ps[k]]);
    FlattenOne(ps[k]);
  }

  /**
    However a stream is cut into writes, as long as no tail is dropped the filter emits and holds
    exactly what one pass over the whole stream would.
   */
  lemma {:induction false} ChunkInvariance(ps: seq<seq<Byte>>)
    requires NothingDropped(FRESH, ps)
    ensures WriteAll(FRESH, ps) == OnePass(Flatten(ps))
  {
    if ps == [] {
      assert OnePass([]) == FRESH;
    } else {
      var k := |ps| - 1;
      ChunkInvariance(ps[..k]);
      OnePassStep(Flatten(ps[..k]), ps[k]);
      FlattenLast(ps);
    }
  }

  /** The byte after ESC that opens a device control string. */
  const DCS: Byte := 0x50

  /** In every run, dropped tails included, the held bytes stay within the bound. */
  lemma {:induction false} HeldIsBounded(s: Stream, ps: seq<seq<Byte>>)
    requires |s.held| <= 4096
    ensures |WriteAll(s, ps).held| <= 4096
  {
    if ps != [] {
      HeldIsBounded(s, ps[..|ps| - 1]);
    }
  }

  /**
    The bound is what chunk invariance needs. A device control string with any body of 4095 bytes or
    more is dropped whole when it arrives in one write, but its terminator gets through when the bytes
    before it arrive first and are dropped as an overlong tail.
   */
  lemma DropBreaksInvariance(pad: seq<Byte>)
    requires |pad| >= 4095 && forall c | c in pad :: Plain(c)
    ensures var head := [ESC, DCS] + pad;
            && !NothingDropped(FRESH, [head, [BEL]])
            && WriteAll(FRESH, [head, [BEL]]) == Stream([], [BEL])
            && Filter(head + [BEL]) == Filtered([], |head| + 1)
  {
    var head: seq<Byte> := [ESC, DCS] + pad;
    var first: seq<seq<Byte>> := [head];
    StringIsUnfinished(DCS, pad, []);
    Identity(head);
    UnfinishedWaits(head);
    ControlStringIsJudged(DCS, pad, [BEL], []);
    Identity(head + [BEL]);
    CharIsEmitted([BEL], []);
    Identity([BEL]);
    FilterNil([]);
    hide Filter, NextToken, EscapeLen;
    assert WriteAll(FRESH, []) == FRESH;
    assert [head, [BEL]][..1] == first && first[..0] == [];
    assert WriteAll(FRESH, first) == WriteStep(FRESH, head) == FRESH;
  }

  // ----- the output is a fixpoint -----

  /** A byte no continuation byte of a rune. */
  predicate Starts(b: seq<Byte>) { b == [] || !IsTail(b[0]) }

  /** A token the filter may emit, judged on its own. */
  ghost predicate Emittable(t: seq<Byte>) {
    |t| > 0 && !IsTail(t[0]) &&
    if t[0] == ESC then EscapeLen(t) == Complete(|t|) && EscapeIsSafe(t)
    else |t| == 1 || IsUtf8Char(t)
  }

  lemma KeptIsEmittable(b: seq<Byte>)
    requires |b| > 0 && NextToken(b).Some? && NextToken(b).value.kept
    ensures Emittable(b[..NextToken(b).value.len])
  {
    if b[0] == ESC {
      SafeIsWhole(b);
    }
  }

  lemma {:induction false} KeptPartsEmittable(b: seq<Byte>)
    ensures forall t | t in KeptParts(Lex(b)) :: Emittable(t)
  {
    if b != [] && NextToken(b).Some? {
      var t := NextToken(b).value;
      KeptPartsEmittable(b[t.len..]);
      assert Lex(b)[1..] == Lex(b[t.len..]);
      if t.kept {
        KeptIsEmittable(b);
      }
    }
  }

  /** A rune's lead byte with nothing behind it: the one thing the filter cannot judge alone. */
  predicate LoneLead(t: seq<Byte>) { |t| == 1 && 0xc2 <= t[0] <= 0xf4 }

  lemma EmittableRetokenizes(t: seq<Byte>, rest: seq<Byte>)
    requires Emittable(t) && Starts(rest)
    ensures NextToken(t + rest) == if LoneLead(t) && rest == [] then None else Some(Token(|t|, true))
  {
    assert (t + rest)[..|t|] == t;
    if t[0] == ESC {
      EscapeLenStable(t, rest);
    } else if IsUtf8Char(t) {
      CharIsToken(t + rest, |t|);
    }
  }

  lemma {:induction false} FlattenStarts(ts: seq<seq<Byte>>)
    requires forall t | t in ts :: Emittable(t)
    ensures Starts(Flatten(ts))
  {
    if ts != [] {
      assert Emittable(ts[0]);
    }
  }

  /** What the filter says of a byte string it has nothing to say against. */
  ghost predicate IsFixpoint(b: seq<Byte>) {
    var f := Filter(b);
    && f.out == b[..f.consumed]
    && (forall l | l in Lex(b) :: l.kept && Emittable(l.bytes))
    && (f.consumed == |b| || (f.consumed == |b| - 1 && LoneLead(b[f.consumed..])))
  }

  lemma FixpointCons(t: seq<Byte>, rest: seq<Byte>)
    requires Emittable(t) && NextToken(t + rest) == Some(Token(|t|, true))
    requires IsFixpoint(rest)
    ensures IsFixpoint(t + rest)
  {
    hide NextToken, Filter, Lex, Emittable;
    var b, n := t + rest, Filter(rest).consumed;
    FilterCons(b, |t|, true);
    assert b[..|t|] == t && b[|t|..] == rest;
    assert b[..|t| + n] == t + rest[..n];
    assert b[|t| + n..] == rest[n..];
  }

  lemma {:induction false} EmittablesAreFixpoint(ts: seq<seq<Byte>>)
    requires forall t | t in ts :: Emittable(t)
    ensures IsFixpoint(Flatten(ts))
  {
    if ts != [] {
      var t, rest := ts[0], Flatten(ts[1..]);
      FlattenStarts(ts[1..]);
      EmittableRetokenizes(t, rest);
      EmittablesAreFixpoint(ts[1..]);
      if LoneLead(t) && rest == [] {
        LoneLeadIsFixpoint(t + rest);
      } else {
        FixpointCons(t, rest);
      }
    }
  }

  lemma LoneLeadIsFixpoint(t: seq<Byte>)
    requires LoneLead(t)
    ensures IsFixpoint(t)
  {
    assert t[0..] == t;
    assert NextToken(t) == None;
  }

  /**
    Filtering filtered output drops nothing: every token found in it is kept, and at most one
    trailing lead byte is left waiting.
   */
  lemma OutputIsFixpoint(b: seq<Byte>)
    ensures IsFixpoint(Filter(b).out)
  {
    Conservation(b);
    KeptPartsEmittable(b);
    EmittablesAreFixpoint(KeptParts(Lex(b)));
  }

  /** The tokens a whole run emitted, in order. */
  function RunParts(s: Stream, ps: seq<seq<Byte>>): seq<seq<Byte>> {
    if ps == [] then []
    else
      var k := |ps| - 1;
      RunParts(s, ps[..k]) + KeptParts(Lex(WriteAll(s, ps[..k]).held + ps[k]))
  }

  lemma {:induction false} RunEmits(ps: seq<seq<Byte>>)
    ensures WriteAll(FRESH, ps).out == Flatten(RunParts(FRESH, ps))
    ensures forall t | t in RunParts(FRESH, ps) :: Emittable(t)
  {
    if ps != [] {
      var k := |ps| - 1;
      var buf := WriteAll(FRESH, ps[..k]).held + ps[k];
      RunEmits(ps[..k]);
      Conservation(buf);
      KeptPartsEmittable(buf);
      FlattenAppend(RunParts(FRESH, ps[..k]), KeptParts(Lex(buf)));
    }
  }

  /**
    Nothing is smuggled by cutting, padding or overflowing: in every run of writes, dropped tails
    included, the bytes that reached the terminal are a fixpoint of the filter, and every escape
    sequence the filter's grammar finds in them is well formed and solicits no reply.
   */
  lemma TerminalSeesOnlySafeTokens(ps: seq<seq<Byte>>)
    ensures var seen := WriteAll(FRESH, ps).out;
            && IsFixpoint(seen)
            && forall l | l in Lex(seen) && l.bytes[0] == ESC :: WellFormed(l.bytes)
  {
    RunEmits(ps);
    EmittablesAreFixpoint(RunParts(FRESH, ps));
    var seen := WriteAll(FRESH, ps).out;
    forall l | l in Lex(seen) && l.bytes[0] == ESC ensures WellFormed(l.bytes) {
      SafeIffWellFormed(l.bytes);
    }
  }
}

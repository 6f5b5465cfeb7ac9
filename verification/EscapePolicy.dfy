/**
  Which complete escape sequences may reach the operator's terminal.

  EscapeIsSafe is the filter's own decision. The lemmas compare it with the policy as documented:
  which control sequences solicit a reply (CsiPolicy), which OSC codes do (OscPolicy), and that
  everything let through is a whole, well-formed sequence.
 */
module EscapePolicy {
  import opened Common
  import opened Bytes
  import opened EscapeGrammar

  const SEMI: Byte := 0x3b
  const QUESTION: seq<Byte> := [0x3f]
  const BACKSLASH: Byte := 0x5c

  predicate EscapeIsSafe(t: seq<Byte>) {
    if |t| < 2 then false
    else
      var last := t[|t| - 1];
      if last == ESC || t[1] >= 0x80 || t[1] == 0x25 then false
      else if t[1] == CSI && !(0x40 <= last <= 0x7e) then false
      else if IsInter(t[1]) && !(0x30 <= last <= 0x7e) then false
      else if t[1] == CSI then CsiIsSafe(t)
      else if t[1] == 0x5d then OscIsSafe(t)
      else !OpensString(t[1]) && t[1] != 0x5a && t[1] != BACKSLASH
  }

  // ----- control sequences -----

  /** Where the run of intermediate bytes that ends `s` begins. */
  function InterStart(s: seq<Byte>): (k: nat)
    ensures k <= |s|
    ensures forall i | k <= i < |s| :: IsInter(s[i])
    ensures k > 0 ==> !IsInter(s[k - 1])
  {
    if s == [] || !IsInter(s[|s| - 1]) then |s| else InterStart(s[..|s| - 1])
  }

  predicate CsiIsSafe(t: seq<Byte>)
    requires |t| >= 2
  {
    |t| > 2 &&
    var rest := t[2..|t| - 1];
    var k := InterStart(rest);
    CsiAllowed(rest[..k], rest[k..], t[|t| - 1])
  }

  predicate HasPrefix(s: seq<Byte>, prefix: seq<Byte>) {
    |prefix| <= |s| && s[..|prefix|] == prefix
  }

  /** The rule per final byte, given parameters and intermediates. */
  predicate CsiAllowed(params: seq<Byte>, inter: seq<Byte>, final: Byte) {
    if final == 0x63 || final == 0x6e then false
    else if final == 0x78 then inter != []
    else if final == 0x71 then !HasPrefix(params, [0x3e])
    else if final == 0x70 then inter != [0x24]
    else if final == 0x74 then
      params == [0x32, 0x32] || params == [0x32, 0x33] ||
      HasPrefix(params, [0x32, 0x32, SEMI]) || HasPrefix(params, [0x32, 0x33, SEMI])
    else true
  }

  /** The backward scan of csiIsSafe, in place. */
  method CsiVerdict(t: seq<Byte>) returns (safe: bool)
    requires |t| >= 2
    ensures safe == CsiIsSafe(t)
  {
    if |t| == 2 {
      return false;
    }
    var rest := t[2..|t| - 1];
    var k := |rest|;
    while k > 0 && IsInter(rest[k - 1])
      invariant 0 <= k <= |rest|
      invariant InterStart(rest) == InterStart(rest[..k])
    {
      assert rest[..k][..k - 1] == rest[..k - 1];
      k := k - 1;
    }
    return CsiAllowed(rest[..k], rest[k..], t[|t| - 1]);
  }

  /** ECMA-48 section 5.4: CSI, parameter bytes, intermediate bytes, one final byte. */
  function ControlSequence(params: seq<Byte>, inter: seq<Byte>, final: Byte): seq<Byte> {
    [ESC, CSI] + params + inter + [final]
  }

  ghost predicate IsControlSequence(params: seq<Byte>, inter: seq<Byte>, final: Byte) {
    (forall c | c in params :: IsParam(c)) && (forall c | c in inter :: IsInter(c)) && 0x40 <= final <= 0x7e
  }

  /**
    The control sequences that make a terminal answer, or that reach the operator's window:
    device attributes, status reports, DECREQTPARM, XTVERSION, DECRQM, and the window operations
    other than pushing and popping the title stack.
   */
  ghost predicate SolicitsReply(params: seq<Byte>, inter: seq<Byte>, final: Byte) {
    || final in {0x63, 0x6e}
    || (final == 0x78 && inter == [])
    || (final == 0x71 && |params| > 0 && params[0] == 0x3e)
    || (final == 0x70 && inter == [0x24])
    || (final == 0x74 && !TitleStack(params))
  }

  ghost predicate TitleStack(params: seq<Byte>) {
    |params| >= 2 && params[0] == 0x32 && params[1] in {0x32, 0x33} && (|params| > 2 ==> params[2] == SEMI)
  }

  lemma {:induction false} InterStartIs(params: seq<Byte>, inter: seq<Byte>)
    requires forall c | c in params :: IsParam(c)
    requires forall c | c in inter :: IsInter(c)
    ensures InterStart(params + inter) == |params|
  {
    var s := params + inter;
    if inter != [] {
      assert s[..|s| - 1] == params + inter[..|inter| - 1];
      assert s[|s| - 1] == inter[|inter| - 1];
      InterStartIs(params, inter[..|inter| - 1]);
    } else if params != [] {
      assert s[|s| - 1] == params[|params| - 1] && params[|params| - 1] in params;
    }
  }

  /** A well-formed control sequence passes exactly when it solicits nothing. */
  lemma CsiPolicy(params: seq<Byte>, inter: seq<Byte>, final: Byte)
    requires IsControlSequence(params, inter, final)
    ensures EscapeIsSafe(ControlSequence(params, inter, final)) <==> !SolicitsReply(params, inter, final)
  {
    var t := ControlSequence(params, inter, final);
    var rest := t[2..|t| - 1];
    assert rest == params + inter;
    InterStartIs(params, inter);
    assert rest[..|params|] == params && rest[|params|..] == inter;
    assert HasPrefix(params, [0x3e]) <==> |params| > 0 && params[0] == 0x3e;
    TitleStackPrefix(params);
  }

  lemma TitleStackPrefix(params: seq<Byte>)
    ensures TitleStack(params) <==>
            || params == [0x32, 0x32] || params == [0x32, 0x33]
            || HasPrefix(params, [0x32, 0x32, SEMI]) || HasPrefix(params, [0x32, 0x33, SEMI])
  {
    if |params| >= 3 {
      assert params[..3] == [params[0], params[1], params[2]];
    }
    if |params| == 2 {
      assert params == [params[0], params[1]];
    }
  }

  // ----- operating system commands -----

  predicate ClipboardIsQuery(fields: seq<seq<Byte>>) {
    |fields| < 3 || TrimSpace(fields[|fields| - 1]) == QUESTION || TrimSpace(fields[|fields| - 1]) == []
  }

  /** The colour codes that answer a "?" field. */
  predicate Queryable(code: int) { code in {4, 5} || 10 <= code <= 21 }

  predicate OscAllowed(fields: seq<seq<Byte>>)
    requires |fields| > 0
  {
    match Atoi(fields[0])
    case None => false
    case Some(code) =>
      if code == 52 then !ClipboardIsQuery(fields)
      else if code == 1337 then false
      else !Queryable(code) || QUESTION !in fields[1..]
  }

  /** The body of an OSC without its terminator, when it has one. */
  function OscBody(t: seq<Byte>): Option<seq<Byte>>
    requires |t| >= 2
  {
    var body := t[2..];
    var n := |body|;
    if n >= 1 && (body[n - 1] == BEL || body[n - 1] == ST8) then Some(body[..n - 1])
    else if n >= 2 && body[n - 2] == ESC && body[n - 1] == BACKSLASH then Some(body[..n - 2])
    else None
  }

  predicate OscIsSafe(t: seq<Byte>)
    requires |t| >= 2
  {
    match OscBody(t)
    case None => false
    case Some(body) => OscAllowed(Split(body, SEMI))
  }

  method OscVerdict(t: seq<Byte>) returns (safe: bool)
    requires |t| >= 2
    ensures safe == OscIsSafe(t)
  {
    var body := OscBody(t);
    if body.None? {
      return false;
    }
    var fields := Split(body.value, SEMI);
    var code := Atoi(fields[0]);
    if code.None? || code.value == 1337 {
      return false;
    }
    if code.value == 52 {
      return !ClipboardIsQuery(fields);
    }
    var query := AnyQuery(fields[1..]);
    return !Queryable(code.value) || !query;
  }

  method AnyQuery(fields: seq<seq<Byte>>) returns (found: bool)
    ensures found <==> QUESTION in fields
  {
    for i := 0 to |fields|
      invariant forall j | 0 <= j < i :: fields[j] != QUESTION
    {
      if fields[i] == QUESTION {
        return true;
      }
    }
    return false;
  }

  /** escapeIsSafe: a sequence of full length passes exactly when it is well formed and quiet. */
  method EscapeVerdict(t: seq<Byte>) returns (safe: bool)
    ensures safe == EscapeIsSafe(t)
    ensures WellFormed(t) ==> safe
    ensures |t| > 0 && t[0] == ESC && EscapeLen(t) == Complete(|t|) ==> (safe <==> WellFormed(t))
  {
    if WellFormed(t) {
      WellFormedIsSafe(t);
    }
    if |t| > 0 && t[0] == ESC && EscapeLen(t) == Complete(|t|) {
      SafeIffWellFormed(t);
    }
    hide WellFormed, EscapeLen;
    if |t| < 2 {
      return false;
    }
    var last := t[|t| - 1];
    if last == ESC || t[1] >= 0x80 || t[1] == 0x25 {
      return false;
    }
    if t[1] == CSI && !(0x40 <= last <= 0x7e) {
      return false;
    }
    if IsInter(t[1]) && !(0x30 <= last <= 0x7e) {
      return false;
    }
    if t[1] == CSI {
      safe := CsiVerdict(t);
    } else if t[1] == 0x5d {
      safe := OscVerdict(t);
    } else {
      safe := !OpensString(t[1]) && t[1] != 0x5a && t[1] != BACKSLASH;
    }
  }

  /** The three ways an OSC may end. */
  predicate IsTerminator(term: seq<Byte>) { term == [BEL] || term == [ST8] || term == [ESC, BACKSLASH] }

  function Osc(fields: seq<seq<Byte>>, term: seq<Byte>): seq<Byte>
    requires |fields| > 0
  {
    [ESC, 0x5d] + Join(fields, SEMI) + term
  }

  /**
    An OSC is judged by its fields alone, whichever terminator ends it: the code is read as a
    number, the clipboard by its last field, a palette code by whether any field is a query.
   */
  lemma OscPolicy(fields: seq<seq<Byte>>, term: seq<Byte>)
    requires |fields| > 0 && IsTerminator(term)
    requires forall f | f in fields :: SEMI !in f
    ensures EscapeIsSafe(Osc(fields, term)) <==> OscAllowed(fields)
  {
    var t := Osc(fields, term);
    var body := Join(fields, SEMI);
    OscBodyIs(body, term);
    SplitJoin(fields, SEMI);
  }

  /** No spelling of the code with leading zeros lets a clipboard query through. */
  lemma ClipboardQueryNeverPasses(zeros: nat, middle: seq<seq<Byte>>, term: seq<Byte>)
    requires IsTerminator(term)
    requires forall f | f in middle :: SEMI !in f
    ensures !EscapeIsSafe(Osc([seq(zeros, _ => 0x30) + [0x35, 0x32]] + middle + [QUESTION], term))
  {
    var code: seq<Byte> := seq(zeros, _ => 0x30) + [0x35, 0x32];
    var fields := [code] + middle + [QUESTION];
    ZeroPadded(zeros);
    assert Atoi(code) == Some(52) by {
      assert code[0] != 0x2b && code[0] != 0x2d;
    }
    forall f | f in fields ensures SEMI !in f {
      assert f == code || f in middle || f == QUESTION;
    }
    OscPolicy(fields, term);
    assert TrimLeft(QUESTION) == QUESTION && TrimRight(QUESTION) == QUESTION;
  }

  lemma {:induction false} ZeroPadded(zeros: nat)
    ensures var code: seq<Byte> := seq(zeros, _ => 0x30) + [0x35, 0x32];
            AllDigits(code) && DigitsValue(code) == 52
  {
    var code: seq<Byte> := seq(zeros, _ => 0x30) + [0x35, 0x32];
    if zeros == 0 {
      assert code == [0x35, 0x32] && code[..1] == [0x35] && code[..1][..0] == [];
      assert DigitsValue(code[..1]) == 5;
    } else {
      var fewer: seq<Byte> := seq(zeros - 1, _ => 0x30) + [0x35, 0x32];
      ZeroPadded(zeros - 1);
      assert code == [0x30] + fewer;
      LeadingZero(fewer);
    }
  }

  // ----- what passes is whole -----

  lemma {:induction false} SpanIs(b: seq<Byte>, i: nat, j: nat, lo: Byte, hi: Byte)
    requires i <= j <= |b|
    requires forall k | i <= k < j :: InRange(b[k], lo, hi)
    requires j < |b| ==> !InRange(b[j], lo, hi)
    ensures SpanEnd(b, i, lo, hi) == j
    decreases j - i
  {
    if i < j {
      SpanIs(b, i + 1, j, lo, hi);
    }
  }

  predicate Plain(c: Byte) { c != BEL && c != ST8 && c != ESC }

  /** How a control string came to its end: at `stop`, the first byte that is not plain. */
  lemma {:induction false} StringShape(b: seq<Byte>, i: nat) returns (stop: nat)
    requires i <= |b|
    requires StringEnd(b, i).Complete?
    ensures i <= stop < |b| && (forall k | i <= k < stop :: Plain(b[k])) && !Plain(b[stop])
    ensures var n := StringEnd(b, i).len;
            || (n == stop + 1 && b[stop] != ESC)
            || (n == stop + 2 <= |b| && b[stop] == ESC && b[stop + 1] == BACKSLASH)
            || (n == stop && b[stop] == ESC)
    decreases |b| - i
  {
    if Plain(b[i]) {
      stop := StringShape(b, i + 1);
    } else {
      stop := i;
    }
  }

  lemma {:induction false} StringIs(b: seq<Byte>, i: nat, stop: nat)
    requires i <= stop < |b| && (forall k | i <= k < stop :: Plain(b[k])) && !Plain(b[stop])
    ensures StringEnd(b, i) == StringEnd(b, stop)
    decreases stop - i
  {
    if i < stop {
      StringIs(b, i + 1, stop);
    }
  }

  /**
    A measured sequence that passes is not a fragment: it measures to its full length on its own,
    so nothing printed after it can be swallowed as its continuation.
   */
  lemma SafeIsWhole(b: seq<Byte>)
    requires |b| > 0 && EscapeLen(b).Complete?
    ensures var t := b[..EscapeLen(b).len]; EscapeIsSafe(t) ==> EscapeLen(t) == Complete(|t|)
  {
    if |b| >= 2 && EscapeLen(b).len >= 2 {
      if b[1] == CSI {
        SafeCsiIsWhole(b);
      } else if OpensString(b[1]) {
        SafeStringIsWhole(b);
      } else if IsInter(b[1]) {
        SafeInterIsWhole(b);
      }
    }
  }

  lemma SafeCsiIsWhole(b: seq<Byte>)
    requires |b| >= 2 && EscapeLen(b).Complete? && b[1] == CSI
    ensures var t := b[..EscapeLen(b).len]; EscapeIsSafe(t) ==> EscapeLen(t) == Complete(|t|)
  {
    var n := EscapeLen(b).len;
    var t := b[..n];
    var p := SpanEnd(b, 2, 0x30, 0x3f);
    var q := SpanEnd(b, p, 0x20, 0x2f);
    if n == q {
      assert q > 2 ==> IsParam(t[q - 1]) || IsInter(t[q - 1]);
    } else {
      SpanIs(t, 2, p, 0x30, 0x3f);
      SpanIs(t, p, q, 0x20, 0x2f);
    }
  }

  lemma SafeInterIsWhole(b: seq<Byte>)
    requires |b| >= 2 && EscapeLen(b).Complete? && IsInter(b[1])
    ensures var t := b[..EscapeLen(b).len]; EscapeIsSafe(t) ==> EscapeLen(t) == Complete(|t|)
  {
    var n := EscapeLen(b).len;
    var t := b[..n];
    var q := SpanEnd(b, 2, 0x20, 0x2f);
    if n == q {
      assert IsInter(t[q - 1]);
    } else {
      SpanIs(t, 2, q, 0x20, 0x2f);
    }
  }

  lemma SafeStringIsWhole(b: seq<Byte>)
    requires |b| >= 2 && EscapeLen(b).Complete? && OpensString(b[1])
    ensures var t := b[..EscapeLen(b).len]; EscapeIsSafe(t) ==> EscapeLen(t) == Complete(|t|)
  {
    var n := EscapeLen(b).len;
    var t := b[..n];
    var stop := StringShape(b, 2);
    if n == stop {
      assert n > 2 ==> Plain(t[n - 1]) && t[2..][n - 3] == t[n - 1];
      assert n > 3 ==> Plain(t[n - 2]) && t[2..][n - 4] == t[n - 2];
      assert OscBody(t) == None;
    } else {
      StringIs(t, 2, stop);
    }
  }

  /** What a passed sequence looks like: one of the four families, complete and with a legal end. */
  ghost predicate WellFormed(t: seq<Byte>) {
    |t| >= 2 && t[0] == ESC &&
    if t[1] == CSI then WellFormedCsi(t)
    else if t[1] == 0x5d then WellFormedOsc(t)
    else if IsInter(t[1]) then
      t[1] != 0x25 && 0x30 <= t[|t| - 1] <= 0x7e && forall k | 1 <= k < |t| - 1 :: IsInter(t[k])
    else |t| == 2 && t[1] < 0x80 && t[1] !in {ESC, 0x50, 0x58, 0x5e, 0x5f, 0x5a, BACKSLASH}
  }

  ghost predicate WellFormedCsi(t: seq<Byte>) {
    exists params, inter, final :: QuietCsi(t, params, inter, final)
  }

  ghost predicate QuietCsi(t: seq<Byte>, params: seq<Byte>, inter: seq<Byte>, final: Byte) {
    && t == ControlSequence(params, inter, final)
    && IsControlSequence(params, inter, final)
    && !SolicitsReply(params, inter, final)
  }

  ghost predicate WellFormedOsc(t: seq<Byte>) {
    exists body, term :: QuietOsc(t, body, term)
  }

  ghost predicate QuietOsc(t: seq<Byte>, body: seq<Byte>, term: seq<Byte>) {
    && t == [ESC, 0x5d] + body + term
    && IsTerminator(term)
    && (forall c | c in body :: Plain(c))
    && OscAllowed(Split(body, SEMI))
  }

  /** Of the sequences that measure to their full length, exactly the well-formed quiet ones pass. */
  lemma SafeIffWellFormed(t: seq<Byte>)
    requires |t| > 0 && t[0] == ESC && EscapeLen(t) == Complete(|t|)
    ensures EscapeIsSafe(t) <==> WellFormed(t)
  {
    if WellFormed(t) {
      WellFormedIsSafe(t);
    }
    if EscapeIsSafe(t) {
      if t[1] == CSI {
        SafeCsiIsWellFormed(t);
      } else if t[1] == 0x5d {
        SafeOscIsWellFormed(t);
      }
    }
  }

  lemma WellFormedIsSafe(t: seq<Byte>)
    requires WellFormed(t)
    ensures EscapeIsSafe(t)
  {
    if t[1] == CSI {
      var params, inter, final :| QuietCsi(t, params, inter, final);
      CsiPolicy(params, inter, final);
    } else if t[1] == 0x5d {
      var body, term :| QuietOsc(t, body, term);
      OscBodyIs(body, term);
    }
  }

  lemma SafeCsiIsWellFormed(t: seq<Byte>)
    requires |t| >= 2 && t[0] == ESC && t[1] == CSI
    requires EscapeLen(t) == Complete(|t|) && EscapeIsSafe(t)
    ensures WellFormedCsi(t)
  {
    var p := SpanEnd(t, 2, 0x30, 0x3f);
    var q := SpanEnd(t, p, 0x20, 0x2f);
    var params, inter, final := t[2..p], t[p..q], t[q];
    assert IsControlSequence(params, inter, final);
    ControlSequenceParts(t, p, q);
    CsiPolicy(params, inter, final);
    assert QuietCsi(t, params, inter, final);
  }

  lemma ControlSequenceParts(t: seq<Byte>, p: nat, q: nat)
    requires 2 <= p <= q == |t| - 1 && t[0] == ESC && t[1] == CSI
    ensures t == ControlSequence(t[2..p], t[p..q], t[q])
  {
  }

  lemma SafeOscIsWellFormed(t: seq<Byte>)
    requires |t| >= 2 && t[0] == ESC && t[1] == 0x5d
    requires EscapeLen(t) == Complete(|t|) && EscapeIsSafe(t)
    ensures WellFormedOsc(t)
  {
    assert OscIsSafe(t) && t[|t| - 1] != ESC;
    var stop := StringShape(t, 2);
    assert StringEnd(t, 2) == Complete(|t|);
    hide EscapeLen, EscapeIsSafe, StringEnd, OscAllowed, Split;
    var body, term := t[2..stop], t[stop..];
    assert t == [ESC, 0x5d] + body + term;
    assert term == if t[stop] == ESC then [ESC, BACKSLASH] else [t[stop]];
    assert IsTerminator(term);
    OscBodyIs(body, term);
    assert QuietOsc(t, body, term);
  }

  lemma OscBodyIs(body: seq<Byte>, term: seq<Byte>)
    requires IsTerminator(term)
    ensures OscBody([ESC, 0x5d] + body + term) == Some(body)
  {
    var t := [ESC, 0x5d] + body + term;
    var n := |t[2..]|;
    assert t[2..] == body + term && n == |body| + |term|;
    if |term| == 1 {
      assert t[2..][n - 1] == term[0];
    } else {
      assert t[2..][n - 1] == term[1] && t[2..][n - 2] == term[0];
    }
    assert t[2..][..|body|] == body;
  }
}

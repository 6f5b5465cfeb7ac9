/**
  What the length measures give on each family of the grammar, whatever bytes follow. The cases cover every
  byte string an ESC can open, so they fix the measure without naming how it is computed.
 */
module EscapeMeasures {
  import opened Common
  import opened Bytes
  import opened EscapeGrammar
  import opened EscapePolicy

  /** Parameter bytes, intermediate bytes, and a byte that continues neither run. */
  ghost predicate CsiParts(params: seq<Byte>, inter: seq<Byte>, next: Byte) {
    && (forall c | c in params :: 0x30 <= c <= 0x3f) && (forall c | c in inter :: 0x20 <= c <= 0x2f)
    && !(0x20 <= next <= 0x2f) && (inter == [] ==> !(0x30 <= next <= 0x3f))
  }

  /** A control sequence ends with the first byte that is neither; an ESC there cuts it short. */
  lemma CsiIsMeasured(params: seq<Byte>, inter: seq<Byte>, next: Byte, rest: seq<Byte>)
    requires CsiParts(params, inter, next)
    ensures EscapeLen([ESC, CSI] + params + inter + [next] + rest)
            == Complete(2 + |params| + |inter| + if next == ESC then 0 else 1)
  {
    var b := [ESC, CSI] + params + inter + [next] + rest;
    var p, q := 2 + |params|, 2 + |params| + |inter|;
    forall k | 2 <= k < p ensures 0x30 <= b[k] <= 0x3f {
      assert b[k] == params[k - 2] && params[k - 2] in params;
    }
    forall k | p <= k < q ensures 0x20 <= b[k] <= 0x2f {
      assert b[k] == inter[k - p] && inter[k - p] in inter;
    }
    assert b[q] == next;
    SpanIs(b, 2, p, 0x30, 0x3f);
    SpanIs(b, p, q, 0x20, 0x2f);
  }

  lemma CsiIsUnfinished(params: seq<Byte>, inter: seq<Byte>)
    requires (forall c | c in params :: 0x30 <= c <= 0x3f) && (forall c | c in inter :: 0x20 <= c <= 0x2f)
    ensures EscapeLen([ESC, CSI] + params + inter) == Incomplete
  {
    var b := [ESC, CSI] + params + inter;
    var p := 2 + |params|;
    forall k | 2 <= k < p ensures 0x30 <= b[k] <= 0x3f {
      assert b[k] == params[k - 2] && params[k - 2] in params;
    }
    forall k | p <= k < |b| ensures 0x20 <= b[k] <= 0x2f {
      assert b[k] == inter[k - p] && inter[k - p] in inter;
    }
    SpanIs(b, 2, p, 0x30, 0x3f);
    SpanIs(b, p, |b|, 0x20, 0x2f);
  }

  /** ESC I..I F, of section 13 of ECMA-35. */
  lemma InterIsMeasured(inter: seq<Byte>, next: Byte, rest: seq<Byte>)
    requires inter != [] && (forall c | c in inter :: 0x20 <= c <= 0x2f) && !(0x20 <= next <= 0x2f)
    ensures EscapeLen([ESC] + inter + [next] + rest) == Complete(1 + |inter| + if next == ESC then 0 else 1)
  {
    var b := [ESC] + inter + [next] + rest;
    forall k | 1 <= k < 1 + |inter| ensures 0x20 <= b[k] <= 0x2f {
      assert b[k] == inter[k - 1] && inter[k - 1] in inter;
    }
    assert b[1 + |inter|] == next;
    SpanIs(b, 2, 1 + |inter|, 0x20, 0x2f);
  }

  lemma InterIsUnfinished(inter: seq<Byte>)
    requires forall c | c in inter :: 0x20 <= c <= 0x2f
    ensures EscapeLen([ESC] + inter) == Incomplete
  {
    var b := [ESC] + inter;
    forall k | 1 <= k < |b| ensures 0x20 <= b[k] <= 0x2f {
      assert b[k] == inter[k - 1] && inter[k - 1] in inter;
    }
    if inter != [] {
      SpanIs(b, 2, |b|, 0x20, 0x2f);
    }
  }

  /** The bytes after ESC that open a control string: DCS, SOS, OSC, PM and APC. */
  predicate IsStringOpener(k: Byte) { k == 0x50 || k == 0x58 || k == 0x5d || k == 0x5e || k == 0x5f }

  ghost predicate IsBody(body: seq<Byte>) { forall c | c in body :: c != 0x07 && c != 0x1b && c != 0x9c }

  lemma BodyRuns(k: Byte, body: seq<Byte>, next: Byte, rest: seq<Byte>)
    requires IsStringOpener(k) && IsBody(body) && (next == BEL || next == ST8 || next == ESC)
    ensures var b := [ESC, k] + body + ([next] + rest);
            EscapeLen(b) == StringEnd(b, 2 + |body|)
  {
    var b := [ESC, k] + body + ([next] + rest);
    forall i | 2 <= i < 2 + |body| ensures Plain(b[i]) {
      assert b[i] == body[i - 2] && body[i - 2] in body;
    }
    assert b[2 + |body|] == next && b[1] == k;
    StringIs(b, 2, 2 + |body|);
    hide StringEnd, IsBody;
  }

  /** A control string ends with its terminator; an ESC that begins none cuts it short before itself. */
  lemma StringIsMeasured(k: Byte, body: seq<Byte>, term: seq<Byte>, rest: seq<Byte>)
    requires IsStringOpener(k) && IsBody(body)
    requires term == [BEL] || term == [ST8] || (|term| == 2 && term[0] == ESC)
    ensures EscapeLen([ESC, k] + body + (term + rest))
            == Complete(2 + |body| + if |term| == 2 && term[1] != BACKSLASH then 0 else |term|)
  {
    var tail := term[1..] + rest;
    assert term + rest == [term[0]] + tail;
    BodyRuns(k, body, term[0], tail);
    var b := [ESC, k] + body + ([term[0]] + tail);
    hide EscapeLen, IsBody;
    assert b[2 + |body|] == term[0];
    if |term| == 2 {
      assert b[3 + |body|] == tail[0] == term[1];
    }
  }

  lemma StringIsUnfinished(k: Byte, body: seq<Byte>, tail: seq<Byte>)
    requires IsStringOpener(k) && IsBody(body) && (tail == [] || tail == [ESC])
    ensures EscapeLen([ESC, k] + body + tail) == Incomplete
  {
    var b := [ESC, k] + body + tail;
    forall i | 2 <= i < 2 + |body| ensures Plain(b[i]) {
      assert b[i] == body[i - 2] && body[i - 2] in body;
    }
    if tail == [] {
      StringRuns(b, 2);
    } else {
      StringIs(b, 2, 2 + |body|);
    }
  }

  lemma {:induction false} StringRuns(b: seq<Byte>, i: nat)
    requires i <= |b| && forall k | i <= k < |b| :: Plain(b[k])
    ensures StringEnd(b, i) == Incomplete
    decreases |b| - i
  {
    if i < |b| {
      StringRuns(b, i + 1);
    }
  }

  /** Any other byte after ESC completes the sequence; a second ESC leaves the first one alone. */
  lemma PairIsMeasured(k: Byte, rest: seq<Byte>)
    requires k != CSI && !IsStringOpener(k) && !(0x20 <= k <= 0x2f)
    ensures EscapeLen([ESC, k] + rest) == Complete(if k == ESC then 1 else 2)
  {
  }

  // ----- consequences for what passes -----

  lemma CsiTokenIsMeasured(t: seq<Byte>, rest: seq<Byte>)
    requires WellFormedCsi(t)
    ensures EscapeLen(t + rest) == Complete(|t|)
  {
    var params, inter, final :| QuietCsi(t, params, inter, final);
    hide EscapeLen, SolicitsReply;
    CsiIsMeasured(params, inter, final, rest);
  }

  lemma OscTokenIsMeasured(t: seq<Byte>, rest: seq<Byte>)
    requires WellFormedOsc(t)
    ensures EscapeLen(t + rest) == Complete(|t|)
  {
    var body, term :| QuietOsc(t, body, term);
    hide EscapeLen, OscAllowed, Split;
    StringIsMeasured(0x5d, body, term, rest);
    Assoc([ESC, 0x5d] + body, term, rest);
  }

  lemma InterTokenIsMeasured(t: seq<Byte>, rest: seq<Byte>)
    requires WellFormed(t) && 0x20 <= t[1] <= 0x2f
    ensures EscapeLen(t + rest) == Complete(|t|)
  {
    var inter, final := t[1..|t| - 1], t[|t| - 1];
    forall c | c in inter ensures 0x20 <= c <= 0x2f {
      var i :| 0 <= i < |inter| && inter[i] == c;
      assert t[i + 1] == c;
    }
    assert t == [ESC] + inter + [final];
    hide EscapeLen, WellFormed;
    InterIsMeasured(inter, final, rest);
  }

  /** A well-formed quiet sequence measures to its own length before any bytes. */
  lemma WellFormedIsMeasured(t: seq<Byte>, rest: seq<Byte>)
    requires WellFormed(t)
    ensures EscapeLen(t + rest) == Complete(|t|)
  {
    hide WellFormedCsi, WellFormedOsc;
    if t[1] == CSI {
      CsiTokenIsMeasured(t, rest);
    } else if t[1] == 0x5d {
      OscTokenIsMeasured(t, rest);
    } else if 0x20 <= t[1] <= 0x2f {
      InterTokenIsMeasured(t, rest);
    } else {
      PairIsMeasured(t[1], rest);
      assert t == [ESC, t[1]];
    }
    hide EscapeLen, WellFormed;
  }

  // ----- operating system commands by their number -----

  /** The codes that report or set a colour. */
  const COLOURS := {4, 5, 10, 11, 12, 13, 14, 15, 16, 17, 18, 19, 20, 21}

  /**
    What becomes of an OSC with this number: iTerm2's channel never passes, a colour passes unless a field
    queries it, the clipboard passes when it is set and not asked for, and anything else passes.
   */
  lemma OscByNumber(code: nat, fields: seq<seq<Byte>>, term: seq<Byte>)
    requires code <= MAX_INT && IsTerminator(term) && forall f | f in fields :: SEMI !in f
    ensures var safe := EscapeIsSafe(Osc([Itoa(code)] + fields, term));
            && (code == 1337 ==> !safe)
            && (code in COLOURS ==> (safe <==> QUESTION !in fields))
            && (code == 52 ==> (safe <==> |fields| >= 2 && TrimSpace(fields[|fields| - 1]) != []
                                          && TrimSpace(fields[|fields| - 1]) != QUESTION))
            && (code != 1337 && code !in COLOURS && code != 52 ==> safe)
  {
    hide Itoa, Atoi, EscapeIsSafe, TrimSpace, Osc, IsTerminator;
    var all := [Itoa(code)] + fields;
    AtoiItoa(code);
    ItoaDigits(code);
    forall f | f in all ensures SEMI !in f {
      assert f == Itoa(code) || f in fields;
    }
    OscPolicy(all, term);
    assert all[1..] == fields && all[0] == Itoa(code);
    assert |fields| > 0 ==> all[|all| - 1] == fields[|fields| - 1];
    ColoursAre(code);
    hide Queryable;
  }

  lemma ColoursAre(code: nat)
    ensures code in COLOURS <==> Queryable(code)
  {
  }

  lemma ItoaDigits(n: nat)
    ensures SEMI !in Itoa(n)
  {
    AtoiItoa(n);
  }
}

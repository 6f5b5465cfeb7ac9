/**
  The kernel's record of a process's arguments: a native 32-bit count, the executable's path, NUL padding,
  the NUL-terminated arguments, and an environment that is not read.
 */
module ProcArgs {
  import opened Common
  import opened Bytes

  type Text = seq<Byte>

  datatype Result = ShortBuffer | NegativeCount | NoPath | Truncated | Argv(argv: seq<Text>)

  predicate NulFree(s: Text) { 0 !in s }

  /** Where the first NUL is, or the length when there is none. */
  function NulAt(s: Text): (n: nat)
    ensures n <= |s| && NulFree(s[..n]) && (n < |s| ==> s[n] == 0)
  {
    if s == [] || s[0] == 0 then 0
    else
      var n := 1 + NulAt(s[1..]);
      assert s[..n] == [s[0]] + s[1..][..n - 1];
      n
  }

  function SkipNuls(s: Text): (r: Text)
    ensures r != [] ==> r[0] != 0
  {
    if s == [] || s[0] != 0 then s else SkipNuls(s[1..])
  }

  /** The first n NUL-terminated strings. */
  function Strings(n: nat, s: Text): Option<seq<Text>> {
    if n == 0 then Some([])
    else
      var j := NulAt(s);
      if j == |s| then None
      else
        var rest := Strings(n - 1, s[j + 1..]);
        if rest.None? then None else Some([s[..j]] + rest.value)
  }

  /** A 32-bit word from its octets, lowest first. */
  function Word(a: int, b: int, c: int, d: int): int { a + 0x100 * (b + 0x100 * (c + 0x100 * d)) }

  /** The first 32-bit word in the machine's byte order, read as a signed count. */
  function Count(b: Text, little: bool): int
    requires |b| >= 4
  {
    var w := if little then Word(b[0], b[1], b[2], b[3]) else Word(b[3], b[2], b[1], b[0]);
    if w >= 0x8000_0000 then w - 0x1_0000_0000 else w
  }

  function Parse(buf: Text, little: bool): Result {
    if |buf| < 4 then ShortBuffer
    else if Count(buf, little) < 0 then NegativeCount
    else
      var rest := buf[4..];
      var i := NulAt(rest);
      if i == |rest| then NoPath
      else
        var argv := Strings(Count(buf, little), SkipNuls(rest[i..]));
        if argv.None? then Truncated else Argv(argv.value)
  }

  /** processArgv, on the buffer the kernel gave. */
  method ProcessArgv(buf: Text, little: bool) returns (r: Result)
    ensures r == Parse(buf, little)
  {
    if |buf| < 4 {
      return ShortBuffer;
    }
    var argc := Count(buf, little);
    if argc < 0 {
      return NegativeCount;
    }
    var rest := buf[4..];
    var i := NulAt(rest);
    if i == |rest| {
      return NoPath;
    }
    rest := rest[i..];
    ghost var skipped := SkipNuls(rest);
    while |rest| > 0 && rest[0] == 0
      invariant SkipNuls(rest) == skipped
    {
      rest := rest[1..];
    }
    var argv: seq<Text> := [];
    assert Strings(argc, skipped) == Prepend([], Strings(argc, rest)) by {
      if Strings(argc, rest).Some? {
        Identity(Strings(argc, rest).value);
      }
    }
    for n := 0 to argc
      invariant Strings(argc, skipped) == Prepend(argv, Strings(argc - n, rest))
    {
      var j := NulAt(rest);
      if j == |rest| {
        return Truncated;
      }
      ghost var more := Strings(argc - n - 1, rest[j + 1..]);
      if more.Some? {
        Assoc(argv, [rest[..j]], more.value);
      }
      argv := argv + [rest[..j]];
      rest := rest[j + 1..];
    }
    Identity(argv);
    return Argv(argv);
  }

  function Prepend(argv: seq<Text>, rest: Option<seq<Text>>): Option<seq<Text>> {
    if rest.None? then None else Some(argv + rest.value)
  }

  // ----- the layout -----

  function CountBytes(n: nat, little: bool): (b: Text)
    requires n < 0x8000_0000
    ensures |b| == 4
  {
    var a, b, c, d := n % 256, n / 256 % 256, n / 256 / 256 % 256, n / 256 / 256 / 256;
    if little then [a, b, c, d] else [d, c, b, a]
  }

  function Zeros(n: nat): Text { seq(n, _ => 0) }

  function Terminated(argv: seq<Text>): Text {
    if argv == [] then [] else argv[0] + [0] + Terminated(argv[1..])
  }

  /** What the kernel lays out for an argument vector. */
  function Layout(path: Text, padding: nat, argv: seq<Text>, tail: Text, little: bool): Text
    requires |argv| < 0x8000_0000
  {
    CountBytes(|argv|, little) + (path + (Zeros(padding) + (Terminated(argv) + tail)))
  }

  ghost predicate WellFormed(path: Text, padding: nat, argv: seq<Text>) {
    NulFree(path) && padding >= 1 && |argv| < 0x8000_0000 && forall i | 0 <= i < |argv| :: NulFree(argv[i])
  }

  lemma {:induction false} NulAtEnd(a: Text, rest: Text)
    requires NulFree(a) && rest != [] && rest[0] == 0
    ensures NulAt(a + rest) == |a|
  {
    if a == [] {
      assert a + rest == rest;
    } else {
      assert a[0] in a;
      assert (a + rest)[1..] == a[1..] + rest;
      NulAtEnd(a[1..], rest);
    }
  }

  lemma {:induction false} SkipZeros(n: nat, rest: Text)
    ensures SkipNuls(Zeros(n) + rest) == SkipNuls(rest)
  {
    var s := Zeros(n) + rest;
    if n == 0 {
      assert s == rest;
    } else {
      assert s[0] == 0 && s[1..] == Zeros(n - 1) + rest;
      SkipZeros(n - 1, rest);
    }
  }

  lemma StringsStep(head: Text, rest: Text, n: nat)
    requires NulFree(head)
    ensures Strings(n + 1, head + ([0] + rest)) == Prepend([head], Strings(n, rest))
  {
    var s := head + ([0] + rest);
    NulAtEnd(head, [0] + rest);
    SliceAppend(head, [0] + rest, |head|);
    Identity(head);
    SliceSlice(s, |head|, 1);
    assert ([0] + rest)[1..] == rest;
    assert Strings(n + 1, s) == Prepend([s[..|head|]], Strings(n, s[|head| + 1..]));
    hide NulAt, Strings;
  }

  lemma {:induction false} StringsBack(argv: seq<Text>, tail: Text)
    requires forall i | 0 <= i < |argv| :: NulFree(argv[i])
    ensures Strings(|argv|, Terminated(argv) + tail) == Some(argv)
  {
    if argv != [] {
      var rest := Terminated(argv[1..]) + tail;
      StringsBack(argv[1..], tail);
      Assoc(argv[0] + [0], Terminated(argv[1..]), tail);
      Assoc(argv[0], [0], rest);
      hide Strings, Terminated;
      assert [argv[0]] + argv[1..] == argv;
      StringsStep(argv[0], rest, |argv| - 1);
    }
  }

  lemma CountBack(n: nat, rest: Text, little: bool)
    requires n < 0x8000_0000
    ensures Count(CountBytes(n, little) + rest, little) == n
  {
    var c := CountBytes(n, little);
    var b := c + rest;
    assert b[0] == c[0] && b[1] == c[1] && b[2] == c[2] && b[3] == c[3];
    WordOf(n);
  }

  lemma WordOf(n: nat)
    ensures Word(n % 256, n / 256 % 256, n / 256 / 256 % 256, n / 256 / 256 / 256) == n
  {
  }

  /** A layout is parsed as its strings, from the first byte past every leading NUL. */
  lemma ParseOfLayout(path: Text, padding: nat, argv: seq<Text>, tail: Text, little: bool)
    requires WellFormed(path, padding, argv)
    ensures var strings := Strings(|argv|, SkipNuls(Terminated(argv) + tail));
            Parse(Layout(path, padding, argv, tail, little), little)
            == if strings.None? then Truncated else Argv(strings.value)
  {
    var body := Terminated(argv) + tail;
    var rest := path + (Zeros(padding) + body);
    var buf := Layout(path, padding, argv, tail, little);
    CountBack(|argv|, rest, little);
    assert buf[4..] == rest;
    NulAtEnd(path, Zeros(padding) + body);
    assert rest[|path|..] == Zeros(padding) + body;
    SkipZeros(padding, body);
    hide Strings, Terminated, SkipNuls, Count, CountBytes, NulAt;
  }

  /**
    The round trip holds exactly when the first argument is not empty: an empty one is taken for padding,
    and every argument after it moves up.
   */
  lemma RoundTripIff(path: Text, padding: nat, argv: seq<Text>, tail: Text, little: bool)
    requires WellFormed(path, padding, argv)
    ensures Parse(Layout(path, padding, argv, tail, little), little) == Argv(argv) <==> argv == [] || argv[0] != []
  {
    ParseOfLayout(path, padding, argv, tail, little);
    var body := Terminated(argv) + tail;
    if argv == [] {
    } else if argv[0] != [] {
      assert body[0] == argv[0][0] && argv[0][0] in argv[0];
      StringsBack(argv, tail);
    } else {
      FirstIsNotEmpty(|argv|, SkipNuls(body));
    }
    hide Terminated, Parse, Layout;
  }

  lemma FirstIsNotEmpty(n: nat, s: Text)
    requires n > 0 && (s != [] ==> s[0] != 0)
    ensures Strings(n, s).Some? ==> Strings(n, s).value[0] != []
  {
  }

  // ----- and back -----

  lemma {:induction false} SkipIsZeros(s: Text)
    ensures |SkipNuls(s)| <= |s| && s == Zeros(|s| - |SkipNuls(s)|) + SkipNuls(s)
  {
    if s != [] && s[0] == 0 {
      SkipIsZeros(s[1..]);
      assert s == [s[0]] + s[1..];
      assert Zeros(|s| - |SkipNuls(s)|) == [0] + Zeros(|s| - 1 - |SkipNuls(s)|);
    } else {
      assert Zeros(0) + s == s;
    }
  }

  lemma {:induction false} StringsAre(n: nat, s: Text) returns (tail: Text)
    requires Strings(n, s).Some?
    ensures var argv := Strings(n, s).value;
            && |argv| == n && s == Terminated(argv) + tail && forall i | 0 <= i < |argv| :: NulFree(argv[i])
  {
    if n == 0 {
      tail := s;
      assert [] + s == s;
    } else {
      var j := NulAt(s);
      tail := StringsAre(n - 1, s[j + 1..]);
      var rest := Strings(n - 1, s[j + 1..]).value;
      var argv := Strings(n, s).value;
      assert argv == [s[..j]] + rest;
      hide Strings, NulAt, Terminated;
      HeadTail(s[..j], rest);
      TerminatedStep(s, j, argv, tail);
    }
  }

  lemma HeadTail(head: Text, rest: seq<Text>)
    ensures ([head] + rest)[0] == head && ([head] + rest)[1..] == rest
  {
  }

  lemma TerminatedStep(s: Text, j: nat, argv: seq<Text>, tail: Text)
    requires j < |s| && s[j] == 0 && argv != [] && argv[0] == s[..j]
    requires s[j + 1..] == Terminated(argv[1..]) + tail
    ensures s == Terminated(argv) + tail
  {
    assert s == s[..j] + [0] + s[j + 1..];
  }

  lemma CountForth(b: Text, little: bool)
    requires |b| >= 4 && Count(b, little) >= 0
    ensures Count(b, little) < 0x8000_0000 && b[..4] == CountBytes(Count(b, little), little)
  {
    if little {
      Octets(b[0], b[1], b[2], b[3]);
    } else {
      Octets(b[3], b[2], b[1], b[0]);
    }
  }

  lemma Octets(a: Byte, b: Byte, c: Byte, d: Byte)
    ensures var w := Word(a, b, c, d);
            && 0 <= w < 0x1_0000_0000
            && w % 256 == a && w / 256 % 256 == b && w / 256 / 256 % 256 == c && w / 256 / 256 / 256 == d
  {
    var w := Word(a, b, c, d);
    assert w / 256 == b + 0x100 * (c + 0x100 * d);
    assert w / 256 / 256 == c + 0x100 * d;
  }

  /** Every accepted buffer is the layout of what was read from it; nothing else is accepted. */
  lemma AcceptedIsLayout(buf: Text, little: bool) returns (path: Text, padding: nat, tail: Text)
    requires Parse(buf, little).Argv?
    ensures var argv := Parse(buf, little).argv;
            && WellFormed(path, padding, argv) && buf == Layout(path, padding, argv, tail, little)
            && (argv == [] || argv[0] != [])
  {
    var n := Count(buf, little);
    var rest := buf[4..];
    var i := NulAt(rest);
    var after := SkipNuls(rest[i..]);
    var argv := Parse(buf, little).argv;
    assert n >= 0 && i < |rest| && Strings(n, after) == Some(argv);
    hide Strings, Terminated, Count, CountBytes, NulAt, SkipNuls, Parse;
    CountForth(buf, little);
    SkipIsZeros(rest[i..]);
    Cut(buf, 4);
    Cut(rest, i);
    path, padding := rest[..i], |rest[i..]| - |after|;
    assert rest[i..][0] == 0;
    tail := StringsAre(n, after);
    if n > 0 {
      FirstIsNotEmpty(n, after);
    }
  }

  lemma Cut(s: Text, n: nat)
    requires n <= |s|
    ensures s == s[..n] + s[n..]
  {
  }
}

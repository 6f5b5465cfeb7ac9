/** Bytes, and the few operations on byte strings that several parts of hull share. */
module Bytes {
  import opened Common

  type Byte = b: int | 0 <= b < 256

  function Flatten(parts: seq<seq<Byte>>): seq<Byte> {
    if parts == [] then [] else parts[0] + Flatten(parts[1..])
  }

  lemma {:induction false} FlattenAppend(a: seq<seq<Byte>>, b: seq<seq<Byte>>)
    ensures Flatten(a + b) == Flatten(a) + Flatten(b)
  {
    if a == [] {
      assert a + b == b;
    } else {
      assert (a + b)[1..] == a[1..] + b;
      FlattenAppend(a[1..], b);
    }
  }

  // ----- facts about slices, for proofs that would otherwise search for them -----

  lemma SliceAppend<T>(a: seq<T>, b: seq<T>, n: nat)
    requires n <= |a|
    ensures (a + b)[..n] == a[..n] && (a + b)[n..] == a[n..] + b
  {
  }

  lemma SliceSlice<T>(a: seq<T>, n: nat, m: nat)
    requires n + m <= |a|
    ensures a[n..][m..] == a[n + m..] && a[..n] + a[n..][..m] == a[..n + m]
  {
  }

  lemma Identity<T>(a: seq<T>)
    ensures a[0..] == a && a[..|a|] == a && [] + a == a == a + []
  {
  }

  // ----- splitting at a separator (strings.Split with a one-byte separator) -----

  function Split(s: seq<Byte>, sep: Byte): (fields: seq<seq<Byte>>)
    ensures |fields| > 0
  {
    if s == [] then [[]]
    else
      var rest := Split(s[1..], sep);
      if s[0] == sep then [[]] + rest else [[s[0]] + rest[0]] + rest[1..]
  }

  function Join(fields: seq<seq<Byte>>, sep: Byte): seq<Byte>
    requires |fields| > 0
  {
    if |fields| == 1 then fields[0] else fields[0] + [sep] + Join(fields[1..], sep)
  }

  /** Splitting undoes joining, for fields that do not hold the separator. */
  lemma {:induction false} SplitJoin(fields: seq<seq<Byte>>, sep: Byte)
    requires |fields| > 0
    requires forall f | f in fields :: sep !in f
    ensures Split(Join(fields, sep), sep) == fields
    decreases |fields|, |fields[0]|
  {
    var head, joined := fields[0], Join(fields, sep);
    if head == [] {
      if |fields| > 1 {
        assert joined == [sep] + Join(fields[1..], sep);
        assert joined[1..] == Join(fields[1..], sep);
        SplitJoin(fields[1..], sep);
        assert fields == [[]] + fields[1..];
      } else {
        assert fields == [[]];
      }
    } else {
      assert head in fields;
      var shorter := fields[0 := head[1..]];
      assert joined[1..] == Join(shorter, sep) by {
        assert |fields| > 1 ==> shorter[1..] == fields[1..];
      }
      forall f | f in shorter ensures sep !in f {
        assert f == head[1..] || f in fields;
      }
      SplitJoin(shorter, sep);
      assert joined[0] == head[0];
      assert [head[0]] + head[1..] == head;
      assert fields == [head] + shorter[1..];
    }
  }

  // ----- decimal text (strconv.Atoi and strconv.Itoa) -----

  const MAX_INT := 0x7fff_ffff_ffff_ffff

  predicate IsDigit(c: Byte) { 0x30 <= c <= 0x39 }

  predicate AllDigits(s: seq<Byte>) { forall i | 0 <= i < |s| :: IsDigit(s[i]) }

  function DigitsValue(s: seq<Byte>): nat
    requires AllDigits(s)
  {
    if s == [] then 0 else 10 * DigitsValue(s[..|s| - 1]) + (s[|s| - 1] - 0x30)
  }

  /** An optional sign, at least one digit, and a value that fits a 64-bit int. */
  function Atoi(s: seq<Byte>): Option<int> {
    var signed := |s| > 0 && (s[0] == 0x2b || s[0] == 0x2d);
    var digits := if signed then s[1..] else s;
    if digits == [] || !AllDigits(digits) then None
    else
      var v: int := DigitsValue(digits);
      var n := if signed && s[0] == 0x2d then -v else v;
      if -MAX_INT - 1 <= n <= MAX_INT then Some(n) else None
  }

  function Itoa(n: nat): seq<Byte> {
    if n < 10 then [0x30 + n] else Itoa(n / 10) + [0x30 + n % 10]
  }

  /** Reading back a printed number. */
  lemma {:induction false} AtoiItoa(n: nat)
    ensures |Itoa(n)| > 0 && AllDigits(Itoa(n)) && DigitsValue(Itoa(n)) == n
    ensures n <= MAX_INT ==> Atoi(Itoa(n)) == Some(n)
  {
    if n >= 10 {
      AtoiItoa(n / 10);
      assert Itoa(n)[..|Itoa(n)| - 1] == Itoa(n / 10);
    } else {
      assert Itoa(n)[..0] == [];
    }
    assert IsDigit(Itoa(n)[0]);
  }

  /** Leading zeros do not change the number. */
  lemma {:induction false} LeadingZero(s: seq<Byte>)
    requires AllDigits(s)
    ensures AllDigits([0x30] + s) && DigitsValue([0x30] + s) == DigitsValue(s)
  {
    var z := [0x30] + s;
    assert forall i | 0 <= i < |z| :: IsDigit(z[i]);
    if s == [] {
      assert z[..0] == [];
    } else {
      assert z[..|z| - 1] == [0x30] + s[..|s| - 1];
      LeadingZero(s[..|s| - 1]);
    }
  }

  // ----- white space (strings.TrimSpace) -----

  /** The UTF-8 encodings of the code points Go's unicode.IsSpace accepts. */
  predicate IsSpace(e: seq<Byte>) {
    || (|e| == 1 && (0x09 <= e[0] <= 0x0d || e[0] == 0x20))
    || (|e| == 2 && e[0] == 0xc2 && (e[1] == 0x85 || e[1] == 0xa0))
    || (|e| == 3 && e[0] == 0xe1 && e[1] == 0x9a && e[2] == 0x80)
    || (|e| == 3 && e[0] == 0xe2 && e[1] == 0x80 && (0x80 <= e[2] <= 0x8a || e[2] in {0xa8, 0xa9, 0xaf}))
    || (|e| == 3 && e[0] == 0xe2 && e[1] == 0x81 && e[2] == 0x9f)
    || (|e| == 3 && e[0] == 0xe3 && e[1] == 0x80 && e[2] == 0x80)
  }

  function TrimLeft(s: seq<Byte>): seq<Byte> {
    if |s| >= 1 && IsSpace(s[..1]) then TrimLeft(s[1..])
    else if |s| >= 2 && IsSpace(s[..2]) then TrimLeft(s[2..])
    else if |s| >= 3 && IsSpace(s[..3]) then TrimLeft(s[3..])
    else s
  }

  function TrimRight(s: seq<Byte>): seq<Byte> {
    var n := |s|;
    if n >= 1 && IsSpace(s[n - 1..]) then TrimRight(s[..n - 1])
    else if n >= 2 && IsSpace(s[n - 2..]) then TrimRight(s[..n - 2])
    else if n >= 3 && IsSpace(s[n - 3..]) then TrimRight(s[..n - 3])
    else s
  }

  function TrimSpace(s: seq<Byte>): seq<Byte> { TrimRight(TrimLeft(s)) }
}

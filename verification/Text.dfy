/** Decimal integers as Rust prints and parses them, and UTF-8 validity. */
module Text {
  import opened Wrappers
  import opened Bytes

  const PLUS: Byte := 43
  const MINUS: Byte := 45
  const ZERO: Byte := 48
  const NINE: Byte := 57

  predicate IsDigit(b: Byte) {
    ZERO <= b <= NINE
  }

  predicate AllDigits(s: seq<Byte>) {
    forall i | 0 <= i < |s| :: IsDigit(s[i])
  }

  function NatText(n: nat): (s: seq<Byte>)
    ensures s != [] && AllDigits(s)
    ensures NatValue(s) == n
  {
    if n < 10 then [ZERO + n]
    else
      var s := NatText(n / 10) + [ZERO + n % 10];
      assert s[..|s| - 1] == NatText(n / 10);
      s
  }

  function NatValue(s: seq<Byte>): nat
    requires AllDigits(s)
  {
    if s == [] then 0 else NatValue(s[..|s| - 1]) * 10 + (s[|s| - 1] - ZERO)
  }

  function IntText(i: int): (s: seq<Byte>)
    ensures s != []
    ensures forall k | 0 <= k < |s| :: IsDigit(s[k]) || s[k] == MINUS
  {
    if i < 0 then [MINUS] + NatText(-i) else NatText(i)
  }

  function InRange(v: int, lo: int, hi: int): Option<int> {
    if lo <= v <= hi then Some(v) else None
  }

  /**
   `str::parse` for an integer type with range `lo..=hi`: an optional plus, or a minus if the
   type is signed, then at least one digit and nothing else; out of range is an error.
   */
  function ParseInt(s: seq<Byte>, lo: int, hi: int): Option<int> {
    if s == [] then None
    else if s[0] == PLUS then
      if |s| > 1 && AllDigits(s[1..]) then InRange(NatValue(s[1..]), lo, hi) else None
    else if s[0] == MINUS && lo < 0 then
      if |s| > 1 && AllDigits(s[1..]) then InRange(0 - NatValue(s[1..]), lo, hi) else None
    else if AllDigits(s) then InRange(NatValue(s), lo, hi)
    else None
  }

  /** Printing and parsing give the number back, for every type that can hold it. */
  lemma {:induction false} ParseIntText(i: int, lo: int, hi: int)
    requires lo <= i <= hi
    ensures ParseInt(IntText(i), lo, hi) == Some(i)
  {
    if i < 0 {
      assert IntText(i)[1..] == NatText(-i);
    }
  }

  // ---- UTF-8 ----

  predicate Continuation(b: Byte) {
    0x80 <= b <= 0xBF
  }

  /** Length of the well-formed scalar value at the front of `s`, or 0: section 3.9 of the Unicode Standard. */
  function ScalarLen(s: seq<Byte>): (n: nat)
    ensures n <= |s|
  {
    if s == [] then 0
    else if s[0] <= 0x7F then 1
    else if 0xC2 <= s[0] <= 0xDF && |s| >= 2 && Continuation(s[1]) then 2
    else if |s| >= 3 && Continuation(s[2])
            && ((s[0] == 0xE0 && 0xA0 <= s[1] <= 0xBF)
                || (((0xE1 <= s[0] <= 0xEC) || (0xEE <= s[0] <= 0xEF)) && Continuation(s[1]))
                || (s[0] == 0xED && 0x80 <= s[1] <= 0x9F)) then 3
    else if |s| >= 4 && Continuation(s[2]) && Continuation(s[3])
            && ((s[0] == 0xF0 && 0x90 <= s[1] <= 0xBF)
                || (0xF1 <= s[0] <= 0xF3 && Continuation(s[1]))
                || (s[0] == 0xF4 && 0x80 <= s[1] <= 0x8F)) then 4
    else 0
  }

  predicate Utf8(s: seq<Byte>) {
    s == [] || (ScalarLen(s) > 0 && Utf8(s[ScalarLen(s)..]))
  }

  lemma {:induction false} AsciiIsUtf8(s: seq<Byte>)
    requires forall i | 0 <= i < |s| :: s[i] <= 0x7F
    ensures Utf8(s)
  {
    if s != [] {
      AsciiIsUtf8(s[1..]);
    }
  }

  /** An integer may carry a plus, a minus only if the type is signed, and leading zeros; nothing else parses. */
  lemma {:induction false} ParseIntForms(n: nat, s: seq<Byte>, lo: int, hi: int)
    requires lo <= n <= hi
    ensures ParseInt(NatText(n), lo, hi) == Some(n) && ParseInt([43] + NatText(n), lo, hi) == Some(n)
    ensures ParseInt([45] + NatText(n), lo, hi) == if lo < 0 && lo <= 0 - n then Some(0 - n) else None
    ensures ParseInt([], lo, hi) == None
    ensures (exists i | 0 <= i < |s| :: !IsDigit(s[i]) && (i > 0 || (s[i] != 43 && s[i] != 45))) ==>
      ParseInt(s, lo, hi) == None
  {
    assert ([43] + NatText(n))[1..] == NatText(n) && ([45] + NatText(n))[1..] == NatText(n);
    if i :| 0 <= i < |s| && !IsDigit(s[i]) && (i > 0 || (s[i] != 43 && s[i] != 45)) {
      assert i > 0 ==> s[1..][i - 1] == s[i];
    }
  }

  /** A number outside the type does not parse. */
  lemma {:induction false} ParseIntOutside(i: int, lo: int, hi: int)
    requires !(lo <= i <= hi)
    ensures ParseInt(IntText(i), lo, hi) == None
  {
    if i < 0 {
      assert IntText(i)[1..] == NatText(-i);
    }
  }

  // ---- UTF-8 against its definition ----

  predicate IsScalar(v: nat) {
    v < 0xD800 || 0xE000 <= v <= 0x10FFFF
  }

  function EncodeScalar(v: nat): (s: seq<Byte>)
    requires IsScalar(v)
    ensures s != []
  {
    if v < 0x80 then [v]
    else if v < 0x800 then [0xC0 + v / 64, 0x80 + v % 64]
    else if v < 0x1_0000 then [0xE0 + v / 4096, 0x80 + v / 64 % 64, 0x80 + v % 64]
    else [0xF0 + v / 262144, 0x80 + v / 4096 % 64, 0x80 + v / 64 % 64, 0x80 + v % 64]
  }

  /** Every scalar value's bytes are recognised, whatever follows. */
  lemma {:induction false} ScalarAccepted(v: nat, rest: seq<Byte>)
    requires IsScalar(v)
    ensures ScalarLen(EncodeScalar(v) + rest) == |EncodeScalar(v)|
  {
  }

  lemma {:induction false} TwoBytes(a: Byte, b: Byte) returns (v: nat)
    requires 0xC2 <= a <= 0xDF && Continuation(b)
    ensures IsScalar(v) && EncodeScalar(v) == [a, b]
  {
    var x: int, y: int := a - 0xC0, b - 0x80;
    v := 64 * x + y;
    assert v / 64 == x && v % 64 == y;
  }

  lemma {:induction false} ThreeBytes(a: Byte, b: Byte, c: Byte) returns (v: nat)
    requires 0xE0 <= a <= 0xEF && Continuation(b) && Continuation(c)
    requires (a == 0xE0 ==> b >= 0xA0) && (a == 0xED ==> b <= 0x9F)
    ensures IsScalar(v) && EncodeScalar(v) == [a, b, c]
  {
    var x: int, y: int, z: int := a - 0xE0, b - 0x80, c - 0x80;
    var high := 64 * x + y;
    v := 64 * high + z;
    assert v / 64 == high && v % 64 == z && high / 64 == x && high % 64 == y;
    assert v / 4096 == x;
  }

  lemma {:induction false} FourBytes(a: Byte, b: Byte, c: Byte, d: Byte) returns (v: nat)
    requires 0xF0 <= a <= 0xF4 && Continuation(b) && Continuation(c) && Continuation(d)
    requires (a == 0xF0 ==> b >= 0x90) && (a == 0xF4 ==> b <= 0x8F)
    ensures IsScalar(v) && EncodeScalar(v) == [a, b, c, d]
  {
    var w: int, x: int, y: int, z: int := a - 0xF0, b - 0x80, c - 0x80, d - 0x80;
    var top := 64 * w + x;
    var high := 64 * top + y;
    v := 64 * high + z;
    assert v / 64 == high && v % 64 == z && high / 64 == top && high % 64 == y && top / 64 == w && top % 64 == x;
    assert v / 4096 == top && v / 262144 == w;
  }

  /** Nothing but a scalar value's bytes is recognised. */
  lemma {:induction false} ScalarFound(s: seq<Byte>) returns (v: nat)
    requires ScalarLen(s) > 0
    ensures IsScalar(v) && EncodeScalar(v) == s[..ScalarLen(s)]
  {
    var n := ScalarLen(s);
    if n == 1 {
      v := s[0];
      assert s[..1] == [s[0]];
    } else if n == 2 {
      v := TwoBytes(s[0], s[1]);
      assert s[..2] == [s[0], s[1]];
    } else if n == 3 {
      v := ThreeBytes(s[0], s[1], s[2]);
      assert s[..3] == [s[0], s[1], s[2]];
    } else {
      v := FourBytes(s[0], s[1], s[2], s[3]);
      assert s[..4] == [s[0], s[1], s[2], s[3]];
    }
  }

  predicate AllScalars(vs: seq<nat>) {
    forall i | 0 <= i < |vs| :: IsScalar(vs[i])
  }

  function EncodeText(vs: seq<nat>): seq<Byte>
    requires AllScalars(vs)
  {
    if vs == [] then [] else EncodeScalar(vs[0]) + EncodeText(vs[1..])
  }

  lemma {:induction false} EncodedTextIsUtf8(vs: seq<nat>)
    requires AllScalars(vs)
    ensures Utf8(EncodeText(vs))
  {
    if vs != [] {
      var first, rest := EncodeScalar(vs[0]), EncodeText(vs[1..]);
      ScalarAccepted(vs[0], rest);
      EncodedTextIsUtf8(vs[1..]);
      assert (first + rest)[|first|..] == rest;
    }
  }

  lemma {:induction false} Utf8IsEncodedText(s: seq<Byte>) returns (vs: seq<nat>)
    requires Utf8(s)
    ensures AllScalars(vs) && EncodeText(vs) == s
  {
    if s == [] {
      vs := [];
    } else {
      var n := ScalarLen(s);
      var v := ScalarFound(s);
      var rest := Utf8IsEncodedText(s[n..]);
      vs := [v] + rest;
      assert vs[1..] == rest && s[..n] + s[n..] == s;
    }
  }
}

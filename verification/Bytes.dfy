/** Outcome types shared by every module. */
module Wrappers {
  datatype Option<+T> = None | Some(value: T)

  datatype Result<+T, +E> = Ok(value: T) | Err(error: E)
}

module Arithmetic {
  function Max(a: int, b: int): int {
    if a < b then b else a
  }

  /** Subtraction of unsigned integers that stops at zero. */
  function SaturatingSub(a: nat, b: nat): nat {
    if a >= b then a - b else 0
  }
}

/** Bytes and fixed-width little-endian integers, as Rust's `to_le_bytes`/`from_le_bytes`. */
module Bytes {
  const U32_MAX: nat := 0xFFFF_FFFF
  const I64_MIN: int := -0x8000_0000_0000_0000
  const I64_MAX: int := 0x7FFF_FFFF_FFFF_FFFF

  type Byte = x: int | 0 <= x < 256
  type U32 = x: int | 0 <= x <= 0xFFFF_FFFF
  type U64 = x: int | 0 <= x <= 0xFFFF_FFFF_FFFF_FFFF
  type I64 = x: int | -0x8000_0000_0000_0000 <= x <= 0x7FFF_FFFF_FFFF_FFFF

  function Pow256(n: nat): (p: nat)
    ensures p > 0
  {
    if n == 0 then 1 else 256 * Pow256(n - 1)
  }

  function FromLe(s: seq<Byte>): (x: nat)
    ensures x < Pow256(|s|)
  {
    if s == [] then 0 else s[0] + 256 * FromLe(s[1..])
  }

  function ToLe(x: nat, n: nat): (s: seq<Byte>)
    requires x < Pow256(n)
    ensures |s| == n
    ensures FromLe(s) == x
  {
    if n == 0 then [] else [x % 256] + ToLe(x / 256, n - 1)
  }

  lemma {:induction false} FromLeToLe(s: seq<Byte>)
    ensures ToLe(FromLe(s), |s|) == s
  {
    if s != [] {
      FromLeToLe(s[1..]);
      assert FromLe(s) / 256 == FromLe(s[1..]);
    }
  }

  function U32ToLe(x: U32): (s: seq<Byte>)
    ensures |s| == 4
    ensures FromLe(s) == x
  {
    Widths();
    ToLe(x, 4)
  }

  function U32FromLe(s: seq<Byte>): (x: U32)
    requires |s| == 4
    ensures U32ToLe(x) == s
  {
    Widths();
    FromLeToLe(s);
    FromLe(s)
  }

  /** Two's complement, eight bytes. */
  function I64ToLe(x: I64): (s: seq<Byte>)
    ensures |s| == 8
    ensures FromLe(s) == if x < 0 then x + 0x1_0000_0000_0000_0000 else x
  {
    Widths();
    ToLe(if x < 0 then x + 0x1_0000_0000_0000_0000 else x, 8)
  }

  function I64FromLe(s: seq<Byte>): (x: I64)
    requires |s| == 8
    ensures I64ToLe(x) == s
  {
    Widths();
    FromLeToLe(s);
    var u := FromLe(s);
    if u <= I64_MAX then u else u - 0x1_0000_0000_0000_0000
  }

  /** Fields written one after another. */
  function Concat(fields: seq<seq<Byte>>): seq<Byte> {
    if fields == [] then [] else fields[0] + Concat(fields[1..])
  }

  function TotalLen(fields: seq<seq<Byte>>): nat {
    if fields == [] then 0 else |fields[0]| + TotalLen(fields[1..])
  }

  lemma {:induction false} ConcatLen(fields: seq<seq<Byte>>)
    ensures |Concat(fields)| == TotalLen(fields)
  {
    if fields != [] {
      ConcatLen(fields[1..]);
    }
  }

  lemma {:induction false} Widths()
    ensures Pow256(4) == 0x1_0000_0000
    ensures Pow256(8) == 0x1_0000_0000_0000_0000
  {
    assert Pow256(1) == 256;
    assert Pow256(2) == 65536;
    assert Pow256(3) == 16777216;
    assert Pow256(4) == 0x1_0000_0000;
    assert Pow256(5) == 0x100_0000_0000;
    assert Pow256(6) == 0x1_0000_0000_0000;
    assert Pow256(7) == 0x100_0000_0000_0000;
  }

  /** The least significant byte comes first. */
  lemma {:induction false} U32LittleEndian(x: U32)
    ensures U32ToLe(x) == [x % 256, x / 0x100 % 256, x / 0x1_0000 % 256, x / 0x100_0000 % 256]
  {
    Widths();
    assert Pow256(3) == 0x100_0000 && Pow256(2) == 0x1_0000 && Pow256(1) == 0x100;
    assert ToLe(x, 4) == [x % 256] + ToLe(x / 0x100, 3);
    assert ToLe(x / 0x100, 3) == [x / 0x100 % 256] + ToLe(x / 0x1_0000, 2);
    assert ToLe(x / 0x1_0000, 2) == [x / 0x1_0000 % 256] + ToLe(x / 0x100_0000, 1);
    assert ToLe(x / 0x100_0000, 1) == [x / 0x100_0000 % 256] + ToLe(x / 0x1_0000_0000, 0);
  }

  /** Eight bytes are the low four, then the high four, of the two's complement. */
  lemma {:induction false} I64LittleEndian(x: I64)
    ensures var u := if x < 0 then x + 0x1_0000_0000_0000_0000 else x;
      I64ToLe(x) == U32ToLe(u % 0x1_0000_0000) + U32ToLe(u / 0x1_0000_0000)
  {
    Widths();
    var u := if x < 0 then x + 0x1_0000_0000_0000_0000 else x;
    FirstBytes(u, 4, 4);
  }

  lemma {:induction false} FirstBytes(x: nat, m: nat, n: nat)
    requires x < Pow256(m + n)
    ensures x % Pow256(m) < Pow256(m) && x / Pow256(m) < Pow256(n)
    ensures ToLe(x, m + n) == ToLe(x % Pow256(m), m) + ToLe(x / Pow256(m), n)
  {
    if m > 0 {
      FirstBytes(x / 256, m - 1, n);
      DivMod256(x, Pow256(m - 1));
    }
  }

  lemma {:induction false} DivMod256(x: nat, p: nat)
    requires p > 0
    ensures 256 * p > 0 && x / (256 * p) == x / 256 / p
    ensures x % (256 * p) % 256 == x % 256 && x % (256 * p) / 256 == x / 256 % p
  {
    var q, r := x / 256, x % 256;
    var a, b := q / p, q % p;
    assert x == 256 * (a * p + b) + r;
    assert x == a * (256 * p) + (256 * b + r);
    assert 0 <= 256 * b + r < 256 * p;
    DivModUnique(x, 256 * p, a, 256 * b + r);
    DivModUnique(256 * b + r, 256, b, r);
  }

  lemma {:induction false} DivModUnique(x: nat, d: nat, q: nat, r: nat)
    requires x == q * d + r && r < d
    ensures x / d == q && x % d == r
  {
    var e := x / d - q;
    assert e * d == r - x % d;
    assert e >= 1 ==> e * d >= d;
    assert e <= -1 ==> e * d <= 0 - d;
  }
}

/** What the codec writes, byte for byte, and what it refuses. */
module RespLimits {
  import opened Wrappers
  import opened Bytes
  import opened Text
  import opened Resp
  import opened RespProofs
  import opened RespStream

  // ---- the bytes of each kind of frame ----

  /** Frames of one line, and the nulls. */
  lemma {:induction false} LineBytes(f: Frame, v: Version)
    requires Encode(f, v).Ok?
    ensures var e := Encode(f, v).value;
      match f
      case SimpleString(s) => e == [43] + s + [13, 10]
      case Error(s) => e == [45] + s + [13, 10]
      case Integer(i) => e == [58] + IntText(i) + [13, 10]
      case Bulk(b) => e == [36] + IntText(|b|) + [13, 10] + b + [13, 10]
      case NullBulk => e == [36, 45, 49, 13, 10]
      case NullArray => e == [42, 45, 49, 13, 10]
      case Boolean(b) => e == [35, if b then 116 else 102, 13, 10]
      case Null => e == [95, 13, 10]
      case BigNumber(s) => e == [40] + s + [13, 10]
      case _ => true
  {
    assert IntText(-1) == [45] + NatText(1) && NatText(1) == [49];
  }

  /** Aggregates: a type byte and a count, then the items. */
  lemma {:induction false} AggregateBytes(f: Frame, v: Version)
    requires IsAggregate(f) && Encode(f, v).Ok?
    ensures var prefix: Byte := if f.Array? then 42 else if f.Map? then 37 else if f.Set? then 126 else 62;
      var count := if f.Map? then |f.items| / 2 else |f.items|;
      EncodeAll(f.items, v).Ok?
      && Encode(f, v).value == [prefix] + IntText(count) + [13, 10] + EncodeAll(f.items, v).value
  {
  }

  /** No kind that RESP2 lacks, at any depth. */
  predicate Resp2Only(f: Frame) {
    match f
    case Map(_) => false
    case Set(_) => false
    case Push(_) => false
    case Boolean(_) => false
    case Null => false
    case BigNumber(_) => false
    case Array(items) => forall x | x in items :: Resp2Only(x)
    case _ => true
  }

  /** What a RESP2 connection is sent holds nothing a RESP2 client does not know. */
  lemma {:induction false} Resp2SendsResp2(f: Frame)
    requires Encode(f, Resp2).Ok?
    ensures Resp2Only(f)
    decreases f, 0
  {
    if f.Array? {
      Resp2SendsAll(f.items);
    }
  }

  lemma {:induction false} Resp2SendsAll(items: seq<Frame>)
    requires EncodeAll(items, Resp2).Ok?
    ensures forall x | x in items :: Resp2Only(x)
    decreases items, |items| + 1
  {
    if items != [] {
      var n := |items| - 1;
      Resp2SendsAll(items[..n]);
      Resp2SendsResp2(items[n]);
      assert forall x | x in items :: x in items[..n] || x == items[n];
    }
  }

  /** A text that could break the line is not sent. */
  lemma {:induction false} LineBreaksRefused(s: seq<Byte>, v: Version)
    ensures Encode(SimpleString(s), v).Ok? <==> 13 !in s && 10 !in s
    ensures Encode(Error(s), v).Ok? <==> 13 !in s && 10 !in s
  {
  }

  // ---- refusals ----

  function Announced(prefix: Byte, n: int, tail: seq<Byte>): seq<Byte> {
    [prefix] + IntText(n) + [13, 10] + tail
  }

  lemma {:induction false} AnnouncedHeader(prefix: Byte, n: int, tail: seq<Byte>)
    requires I64_MIN <= n <= I64_MAX
    ensures var e := Announced(prefix, n, tail);
      e[0] == prefix && ReadCount(e[1..]) == Ok((n, |IntText(n)| + 2)) && e[1..][|IntText(n)| + 2..] == tail
  {
    HeaderBack(prefix, n, tail);
    assert Announced(prefix, n, tail) == Line(prefix, IntText(n)) + tail;
  }

  lemma {:induction false} BulkByHeader(e: seq<Byte>, n: int, used: nat, lim: Limits, parse: Parser)
    requires Bounded(parse) && e != [] && e[0] == 36 && ReadCount(e[1..]) == Ok((n, used))
    ensures n < -1 ==> ParseByPrefix(e, lim, parse) == Err(InvalidEncoding)
    ensures n > lim.maxBulk ==> ParseByPrefix(e, lim, parse) == Err(BulkTooLarge(n, lim.maxBulk))
  {
  }

  lemma {:induction false} AggregateByHeader(e: seq<Byte>, n: int, used: nat, lim: Limits, parse: Parser)
    requires Bounded(parse) && e != [] && AggregatePrefix(e[0], lim.version) && ReadCount(e[1..]) == Ok((n, used))
    ensures n < -1 || (n == -1 && e[0] != 42) ==> ParseByPrefix(e, lim, parse) == Err(InvalidEncoding)
    ensures n > lim.maxArray ==> ParseByPrefix(e, lim, parse) == Err(ArrayTooLarge(n, lim.maxArray))
  {
  }

  /** A bulk string is refused as soon as its length is announced, if that is above the limit or negative. */
  lemma {:induction false} OversizeBulkRefused(n: int, tail: seq<Byte>, lim: Limits)
    requires I64_MIN <= n <= I64_MAX
    ensures n > lim.maxBulk ==> ParseFrame(Announced(36, n, tail), lim, 0) == Err(BulkTooLarge(n, lim.maxBulk))
    ensures n < -1 ==> ParseFrame(Announced(36, n, tail), lim, 0) == Err(InvalidEncoding)
  {
    AnnouncedHeader(36, n, tail);
    BulkByHeader(Announced(36, n, tail), n, |IntText(n)| + 2, lim, ParserAt(lim, 1));
  }

  /** So is an aggregate that announces too many items; only arrays may be null. */
  lemma {:induction false} OversizeAggregateRefused(prefix: Byte, n: int, tail: seq<Byte>, lim: Limits)
    requires I64_MIN <= n <= I64_MAX
    requires prefix == 42 || (lim.version == Resp3 && (prefix == 37 || prefix == 126 || prefix == 62))
    ensures n > lim.maxArray ==>
      ParseFrame(Announced(prefix, n, tail), lim, 0) == Err(ArrayTooLarge(n, lim.maxArray))
    ensures n < -1 || (n == -1 && prefix != 42) ==>
      ParseFrame(Announced(prefix, n, tail), lim, 0) == Err(InvalidEncoding)
  {
    AnnouncedHeader(prefix, n, tail);
    AggregateByHeader(Announced(prefix, n, tail), n, |IntText(n)| + 2, lim, ParserAt(lim, 1));
  }

  // ---- nesting ----

  /** `n` arrays of one item, each inside the one before. */
  function Nested(n: nat, inner: seq<Byte>): seq<Byte> {
    if n == 0 then inner else Announced(42, 1, Nested(n - 1, inner))
  }

  lemma {:induction false} OneItemFails(e: seq<Byte>, used: nat, error: ProtocolError, lim: Limits, parse: Parser)
    requires Bounded(parse) && e != [] && e[0] == 42 && lim.maxArray >= 1
    requires ReadCount(e[1..]) == Ok((1, used)) && parse(e[1..][used..]) == Err(error)
    ensures ParseByPrefix(e, lim, parse) == Err(error)
  {
    var body := e[1..][used..];
    assert body[0..] == body;
    assert ParseItems(body, 0, parse) == Ok(([], 0));
    assert ParseItems(body, 1, parse) == Err(error);
  }

  /** Nesting beyond 32 levels is refused whatever is inside. */
  lemma {:induction false} TooDeepRefused(n: nat, inner: seq<Byte>, lim: Limits, depth: nat)
    requires depth + n > 32 && lim.maxArray >= 1
    ensures ParseFrame(Nested(n, inner), lim, depth) == Err(InvalidEncoding)
    decreases n
  {
    if depth <= 32 {
      var rest := Nested(n - 1, inner);
      TooDeepRefused(n - 1, inner, lim, depth + 1);
      AnnouncedHeader(42, 1, rest);
      var parse := ParserAt(lim, depth + 1);
      assert parse(rest) == Err(InvalidEncoding);
      OneItemFails(Nested(n, inner), |IntText(1)| + 2, InvalidEncoding, lim, parse);
    }
  }

  // ---- other first bytes ----

  /** The bytes a frame can start with; `,` starts a double, which RESP3 knows and this model does not. */
  lemma {:induction false} FirstBytesOfFrames(b: Byte, v: Version)
    ensures KnownPrefix(b, v) <==>
      || b == 36 || b == 42 || b == 43 || b == 45 || b == 58
      || (v == Resp3 && (b == 35 || b == 37 || b == 40 || b == 62 || b == 95 || b == 126))
  {
  }

  /** A letter that starts no inline ping is taken for an inline command; any other unknown byte is noise. */
  lemma {:induction false} UnknownStartRefused(buf: seq<Byte>, lim: Limits)
    requires buf != [] && InlinePing(buf).None? && !KnownPrefix(buf[0], lim.version)
    requires lim.version == Resp3 ==> buf[0] != 44
    ensures Decode(buf, lim)
         == Failed(if 65 <= buf[0] <= 90 || 97 <= buf[0] <= 122 then InlineCommandRejected else InvalidEncoding)
  {
  }

  /** An inline ping is PING in any case, then LF or CR LF. */
  lemma {:induction false} InlinePingSpelled(buf: seq<Byte>)
    ensures InlinePing(buf).Some? <==>
      && |buf| >= 5
      && buf[0] in [80, 112] && buf[1] in [73, 105] && buf[2] in [78, 110] && buf[3] in [71, 103]
      && (buf[4] == 10 || (|buf| >= 6 && buf[4] == 13 && buf[5] == 10))
    ensures InlinePing(buf).Some? ==> InlinePing(buf).value == if buf[4] == 10 then 5 else 6
  {
  }

  // ---- what is accepted ----

  function NestedFrame(n: nat, f: Frame): Frame {
    if n == 0 then f else Array([NestedFrame(n - 1, f)])
  }

  lemma {:induction false} OneItemBack(
    e: seq<Byte>, used: nat, f: Frame, lim: Limits, parse: Parser)
    requires Bounded(parse) && e != [] && e[0] == 42 && lim.maxArray >= 1 && used <= |e| - 1
    requires ReadCount(e[1..]) == Ok((1, used)) && parse(e[1..][used..]) == Ok((f, |e| - 1 - used))
    ensures ParseByPrefix(e, lim, parse) == Ok((Array([f]), |e|))
  {
    var body := e[1..][used..];
    assert body[0..] == body;
    assert ParseItems(body, 0, parse) == Ok(([], 0));
    assert ParseItems(body, 1, parse) == Ok(([f], |body|)) by {
      assert [] + [f] == [f];
    }
    ItemsAfterHeader(42, e[1..], used, 1, [f], lim.maxArray, parse);
    AggregateFrame(e, Array([f]), lim, parse);
  }

  /** A null is accepted down to level 32. */
  lemma {:induction false} NullAccepted(lim: Limits, depth: nat)
    requires depth <= 32
    ensures ParseFrame([36, 45, 49, 13, 10], lim, depth) == Ok((NullBulk, 5))
  {
    RoundTrip(NullBulk, lim, depth);
    LineBytes(NullBulk, lim.version);
  }

  /** A family of parsers, one for each depth, that reads an array of one item if it reads the item one level down. */
  ghost predicate GoesDeeper(at: nat -> Parser) {
    forall rest, f, depth: nat {:trigger Array([f]), at(depth)(Announced(42, 1, rest))} ::
      depth < 32 && at(depth + 1)(rest) == Ok((f, |rest|)) ==>
        at(depth)(Announced(42, 1, rest)) == Ok((Array([f]), |Announced(42, 1, rest)|))
  }

  lemma {:induction false} NestedAccepted(n: nat, inner: seq<Byte>, f: Frame, at: nat -> Parser, depth: nat)
    requires GoesDeeper(at) && depth + n <= 32 && at(depth + n)(inner) == Ok((f, |inner|))
    ensures at(depth)(Nested(n, inner)) == Ok((NestedFrame(n, f), |Nested(n, inner)|))
    decreases n
  {
    if n > 0 {
      NestedAccepted(n - 1, inner, f, at, depth + 1);
      var rest, g := Nested(n - 1, inner), NestedFrame(n - 1, f);
      assert at(depth)(Announced(42, 1, rest)) == Ok((Array([g]), |Announced(42, 1, rest)|));
    }
  }

  function ParserFor(lim: Limits): nat -> Parser {
    (depth: nat) => ParserAt(lim, depth)
  }

  lemma {:induction false} ParserGoesDeeper(lim: Limits)
    requires lim.maxArray >= 1
    ensures GoesDeeper(ParserFor(lim))
  {
    forall rest, f, depth: nat | depth < 32 && ParserFor(lim)(depth + 1)(rest) == Ok((f, |rest|))
      ensures ParserFor(lim)(depth)(Announced(42, 1, rest)) == Ok((Array([f]), |Announced(42, 1, rest)|))
    {
      OneLevelMore(rest, f, lim, depth);
    }
  }

  /** Up to 32 nested arrays are accepted, and one more is not. */
  lemma {:induction false} NestingLimit(n: nat, lim: Limits)
    requires lim.maxArray >= 1
    ensures ParseFrame(Nested(n, [36, 45, 49, 13, 10]), lim, 0).Ok? <==> n <= 32
  {
    if n <= 32 {
      NullAccepted(lim, n);
      ParserGoesDeeper(lim);
      NestedAccepted(n, [36, 45, 49, 13, 10], NullBulk, ParserFor(lim), 0);
    } else {
      TooDeepRefused(n, [36, 45, 49, 13, 10], lim, 0);
    }
  }

  lemma {:induction false} OneLevelMore(rest: seq<Byte>, f: Frame, lim: Limits, depth: nat)
    requires depth < 32 && lim.maxArray >= 1 && ParseFrame(rest, lim, depth + 1) == Ok((f, |rest|))
    ensures ParseFrame(Announced(42, 1, rest), lim, depth) == Ok((Array([f]), |Announced(42, 1, rest)|))
  {
    var parse := ParserAt(lim, depth + 1);
    assert parse(rest) == Ok((f, |rest|));
    AnnouncedHeader(42, 1, rest);
    OneItemBack(Announced(42, 1, rest), |IntText(1)| + 2, f, lim, parse);
  }

  /** Digits with or without one leading sign, and only those, are a big number. */
  lemma {:induction false} BigNumberForm(n: nat, s: seq<Byte>)
    ensures LineFrame(40, NatText(n)) == Some(BigNumber(NatText(n)))
    ensures LineFrame(40, [45] + NatText(n)) == Some(BigNumber([45] + NatText(n)))
    ensures LineFrame(40, [43] + NatText(n)) == Some(BigNumber([43] + NatText(n)))
    ensures LineFrame(40, s).Some? ==>
      s != [] && forall i | 0 <= i < |s| :: 48 <= s[i] <= 57 || (i == 0 && (s[i] == 43 || s[i] == 45))
  {
    AsciiIsUtf8(NatText(n));
    AsciiIsUtf8([45] + NatText(n));
    AsciiIsUtf8([43] + NatText(n));
  }
}

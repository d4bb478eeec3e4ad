/** The parser inverts the encoder, is settled by enough bytes, and never settles early. */
module RespProofs {
  import opened Wrappers
  import opened Bytes
  import opened Text
  import opened Resp

  // ---- more bytes never change a settled answer ----

  predicate Settled<T>(r: Parsed<T>) {
    r != Err(Incomplete)
  }

  lemma {:induction false} FindCrlfStable(buf: seq<Byte>, more: seq<Byte>, i: nat)
    requires i <= |buf| && FindCrlf(buf, i).Some?
    ensures FindCrlf(buf + more, i) == FindCrlf(buf, i)
    decreases |buf| - i
  {
    if !(buf[i] == CR && buf[i + 1] == LF) {
      FindCrlfStable(buf, more, i + 1);
    }
  }

  lemma {:induction false} ReadLineStable(buf: seq<Byte>, more: seq<Byte>)
    requires ReadLine(buf).Ok?
    ensures ReadLine(buf + more) == ReadLine(buf)
  {
    FindCrlfStable(buf, more, 0);
    var i := FindCrlf(buf, 0).value;
    assert (buf + more)[..i] == buf[..i];
  }

  lemma {:induction false} ReadCountStable(buf: seq<Byte>, more: seq<Byte>)
    requires Settled(ReadCount(buf))
    ensures ReadCount(buf + more) == ReadCount(buf)
  {
    ReadLineStable(buf, more);
  }

  lemma {:induction false} ParseLineStable(prefix: Byte, buf: seq<Byte>, more: seq<Byte>)
    requires Settled(ParseLine(prefix, buf))
    ensures ParseLine(prefix, buf + more) == ParseLine(prefix, buf)
  {
    ReadLineStable(buf, more);
  }

  lemma {:induction false} ParseBulkStable(buf: seq<Byte>, more: seq<Byte>, maxBulk: nat)
    requires Settled(ParseBulk(buf, maxBulk))
    ensures ParseBulk(buf + more, maxBulk) == ParseBulk(buf, maxBulk)
  {
    ReadCountStable(buf, more);
    var header := ReadCount(buf);
    if header.Ok? {
      var (len, n) := header.value;
      if 0 <= len && n + len + 2 <= |buf| {
        assert (buf + more)[n..n + len] == buf[n..n + len];
      }
    }
  }

  ghost predicate StableParser(parse: Parser) {
    forall b, more: seq<Byte> {:trigger parse(b + more)} :: Settled(parse(b)) ==> parse(b + more) == parse(b)
  }

  lemma {:induction false} ParseItemsStable(buf: seq<Byte>, more: seq<Byte>, count: nat, parse: Parser)
    requires Bounded(parse) && StableParser(parse) && Settled(ParseItems(buf, count, parse))
    ensures ParseItems(buf + more, count, parse) == ParseItems(buf, count, parse)
  {
    if count > 0 {
      ParseItemsStable(buf, more, count - 1, parse);
      var before := ParseItems(buf, count - 1, parse);
      if before.Ok? {
        DropAppend(buf, more, before.value.1);
      }
    }
  }

  lemma {:induction false} DropAppend(buf: seq<Byte>, more: seq<Byte>, n: nat)
    requires n <= |buf|
    ensures (buf + more)[n..] == buf[n..] + more
  {
  }

  lemma {:induction false} ParseBodyStable(
    prefix: Byte, count: int, buf: seq<Byte>, more: seq<Byte>, maxArray: nat, parse: Parser)
    requires Bounded(parse) && StableParser(parse) && Settled(ParseBody(prefix, count, buf, maxArray, parse))
    ensures ParseBody(prefix, count, buf + more, maxArray, parse) == ParseBody(prefix, count, buf, maxArray, parse)
  {
    if 0 <= count <= maxArray {
      ParseItemsStable(buf, more, if prefix == 37 then 2 * count else count, parse);
    }
  }

  lemma {:induction false} ParseAggregateStable(
    prefix: Byte, buf: seq<Byte>, more: seq<Byte>, maxArray: nat, parse: Parser)
    requires Bounded(parse) && StableParser(parse) && Settled(ParseAggregate(prefix, buf, maxArray, parse))
    ensures ParseAggregate(prefix, buf + more, maxArray, parse) == ParseAggregate(prefix, buf, maxArray, parse)
  {
    ReadCountStable(buf, more);
    var header := ReadCount(buf);
    if header.Ok? {
      var (count, n) := header.value;
      assert (buf + more)[n..] == buf[n..] + more;
      ParseBodyStable(prefix, count, buf[n..], more, maxArray, parse);
    }
  }

  lemma {:induction false} ParseByPrefixStable(buf: seq<Byte>, more: seq<Byte>, lim: Limits, parse: Parser)
    requires Bounded(parse) && StableParser(parse) && Settled(ParseByPrefix(buf, lim, parse))
    ensures ParseByPrefix(buf + more, lim, parse) == ParseByPrefix(buf, lim, parse)
  {
    assert (buf + more)[1..] == buf[1..] + more;
    if LinePrefix(buf[0], lim.version) {
      ParseLineStable(buf[0], buf[1..], more);
    } else if buf[0] == 36 {
      ParseBulkStable(buf[1..], more, lim.maxBulk);
    } else if AggregatePrefix(buf[0], lim.version) {
      ParseAggregateStable(buf[0], buf[1..], more, lim.maxArray, parse);
    }
  }

  /** A parse that succeeded or failed for good is unchanged by whatever arrives later. */
  lemma {:induction false} ParseFrameStable(buf: seq<Byte>, more: seq<Byte>, lim: Limits, depth: nat)
    requires Settled(ParseFrame(buf, lim, depth))
    ensures ParseFrame(buf + more, lim, depth) == ParseFrame(buf, lim, depth)
    decreases if depth <= MAX_DEPTH then MAX_DEPTH + 1 - depth else 0, 0
  {
    if depth <= MAX_DEPTH {
      ParserAtStable(lim, depth + 1);
      ParseByPrefixStable(buf, more, lim, ParserAt(lim, depth + 1));
    }
  }

  lemma {:induction false} ParserAtStable(lim: Limits, depth: nat)
    ensures StableParser(ParserAt(lim, depth))
    decreases if depth <= MAX_DEPTH then MAX_DEPTH + 1 - depth else 0, 1
  {
    var parse := ParserAt(lim, depth);
    forall b, more: seq<Byte> | Settled(parse(b)) ensures parse(b + more) == parse(b) {
      ParseFrameStable(b, more, lim, depth);
    }
  }

  // ---- round trip ----

  predicate PlainText(s: seq<Byte>) {
    Utf8(s) && !HasLineBreak(s)
  }

  /** Frames the peer's parser can take: nesting, sizes and text within its limits. */
  predicate Legal(f: Frame, lim: Limits, depth: nat)
    decreases f, 0
  {
    && depth <= MAX_DEPTH
    && (RequiresResp3(f) ==> lim.version == Resp3)
    && match f
       case SimpleString(s) => PlainText(s)
       case Error(s) => PlainText(s)
       case Bulk(b) => |b| <= lim.maxBulk && |b| <= I64_MAX
       case Array(items) => LegalItems(items, |items|, lim, depth)
       case Map(items) => |items| % 2 == 0 && LegalItems(items, |items| / 2, lim, depth)
       case Set(items) => LegalItems(items, |items|, lim, depth)
       case Push(items) => LegalItems(items, |items|, lim, depth)
       case BigNumber(s) => WellFormedBigNumber(s)
       case _ => true
  }

  predicate LegalItems(items: seq<Frame>, count: nat, lim: Limits, depth: nat)
    decreases items, |items| + 1
  {
    count <= lim.maxArray && count <= I64_MAX && AllLegal(items, lim, depth + 1)
  }

  predicate AllLegal(items: seq<Frame>, lim: Limits, depth: nat)
    decreases items, |items|
  {
    items == [] || (AllLegal(items[..|items| - 1], lim, depth) && Legal(items[|items| - 1], lim, depth))
  }

  lemma {:induction false} FindCrlfAfter(s: seq<Byte>, i: nat)
    requires i <= |s| && CR !in s
    ensures FindCrlf(s + [CR, LF], i) == Some(|s|)
    decreases |s| - i
  {
    var buf := s + [CR, LF];
    if i < |s| {
      assert buf[i] == s[i];
      FindCrlfAfter(s, i + 1);
    }
  }

  lemma {:induction false} ReadLineBack(s: seq<Byte>)
    requires CR !in s
    ensures ReadLine(s + [CR, LF]) == Ok((s, |s| + 2))
  {
    FindCrlfAfter(s, 0);
    assert (s + [CR, LF])[..|s|] == s;
  }

  lemma {:induction false} ReadCountBack(i: int)
    requires I64_MIN <= i <= I64_MAX
    ensures ReadCount(IntText(i) + [CR, LF]) == Ok((i, |IntText(i)| + 2))
  {
    ReadLineBack(IntText(i));
    ParseIntText(i, I64_MIN, I64_MAX);
  }

  /** The encoding of the frame parses back to it and is used up, given a parser for nested frames. */
  ghost predicate Back(f: Frame, lim: Limits, parse: Parser)
    requires Bounded(parse)
  {
    var e := Encode(f, lim.version);
    e.Ok? && ParseByPrefix(e.value, lim, parse) == Ok((f, |e.value|))
  }

  /** A line parses to what it means. */
  lemma {:induction false} LineBack(prefix: Byte, s: seq<Byte>, lim: Limits, parse: Parser)
    requires Bounded(parse) && LinePrefix(prefix, lim.version)
    requires CR !in s && LineFrame(prefix, s).Some?
    ensures ParseByPrefix(Line(prefix, s), lim, parse) == Ok((LineFrame(prefix, s).value, |Line(prefix, s)|))
  {
    ParseLineBack(prefix, s);
    LineParsed(Line(prefix, s), LineFrame(prefix, s).value, lim, parse);
  }

  lemma {:induction false} ParseLineBack(prefix: Byte, s: seq<Byte>)
    requires CR !in s && LineFrame(prefix, s).Some?
    ensures var e := Line(prefix, s);
      e[0] == prefix && ParseLine(prefix, e[1..]) == Ok((LineFrame(prefix, s).value, |e| - 1))
  {
    assert Line(prefix, s)[1..] == s + [CR, LF];
    ReadLineBack(s);
  }

  lemma {:induction false} LineParsed(e: seq<Byte>, f: Frame, lim: Limits, parse: Parser)
    requires Bounded(parse) && e != [] && LinePrefix(e[0], lim.version)
    requires ParseLine(e[0], e[1..]) == Ok((f, |e| - 1))
    ensures ParseByPrefix(e, lim, parse) == Ok((f, |e|))
  {
  }

  /** Frames that are one line parse back from that line. */
  lemma {:induction false} LineFrameBack(f: Frame, lim: Limits, depth: nat, parse: Parser)
    requires Bounded(parse) && Legal(f, lim, depth)
    requires f.SimpleString? || f.Error? || f.Integer? || f.Boolean? || f.Null? || f.BigNumber?
    ensures Back(f, lim, parse)
  {
    match f
    case SimpleString(s) => LineBack(43, s, lim, parse);
    case Error(s) => LineBack(45, s, lim, parse);
    case Integer(i) =>
      ParseIntText(i, I64_MIN, I64_MAX);
      LineBack(58, IntText(i), lim, parse);
    case Boolean(b) => LineBack(35, if b then [116] else [102], lim, parse);
    case Null => LineBack(95, [], lim, parse);
    case BigNumber(s) =>
      AsciiIsUtf8(s);
      LineBack(40, s, lim, parse);
  }

  lemma {:induction false} HeaderBack(prefix: Byte, i: int, tail: seq<Byte>)
    requires I64_MIN <= i <= I64_MAX
    ensures var e := Line(prefix, IntText(i)) + tail;
      e[0] == prefix && ReadCount(e[1..]) == Ok((i, |IntText(i)| + 2)) && e[1..][|IntText(i)| + 2..] == tail
  {
    var e := Line(prefix, IntText(i)) + tail;
    assert e[1..] == IntText(i) + [CR, LF] + tail;
    ReadCountBack(i);
    ReadCountStable(IntText(i) + [CR, LF], tail);
  }

  lemma {:induction false} BulkAfterHeader(buf: seq<Byte>, n: nat, b: seq<Byte>, maxBulk: nat)
    requires ReadCount(buf) == Ok((|b|, n)) && |b| <= maxBulk && n <= |buf| && buf[n..] == b + [CR, LF]
    ensures ParseBulk(buf, maxBulk) == Ok((Bulk(b), |buf|))
  {
    assert |buf| == n + |b| + 2;
    assert buf[n + |b|] == buf[n..][|b|] && buf[n + |b| + 1] == buf[n..][|b| + 1];
    assert buf[n..n + |b|] == buf[n..][..|b|];
  }

  lemma {:induction false} BulkFrame(e: seq<Byte>, f: Frame, lim: Limits, parse: Parser)
    requires Bounded(parse) && e != [] && e[0] == 36 && ParseBulk(e[1..], lim.maxBulk) == Ok((f, |e| - 1))
    ensures ParseByPrefix(e, lim, parse) == Ok((f, |e|))
  {
  }

  lemma {:induction false} BulkBack(b: seq<Byte>, lim: Limits, parse: Parser)
    requires Bounded(parse) && |b| <= lim.maxBulk && |b| <= I64_MAX
    ensures Back(Bulk(b), lim, parse)
  {
    var e := Line(36, IntText(|b|)) + (b + [CR, LF]);
    assert Encode(Bulk(b), lim.version).value == e;
    HeaderBack(36, |b|, b + [CR, LF]);
    BulkAfterHeader(e[1..], |IntText(|b|)| + 2, b, lim.maxBulk);
    BulkFrame(e, Bulk(b), lim, parse);
  }

  lemma {:induction false} NullHeader(prefix: Byte)
    ensures var e := Line(prefix, IntText(-1));
      e[0] == prefix && ReadCount(e[1..]) == Ok((-1, |e| - 1))
  {
    assert Line(prefix, IntText(-1))[1..] == IntText(-1) + [CR, LF];
    ReadCountBack(-1);
  }

  lemma {:induction false} NullFrame(e: seq<Byte>, lim: Limits, parse: Parser)
    requires Bounded(parse) && e != [] && ReadCount(e[1..]) == Ok((-1, |e| - 1))
    ensures e[0] == 36 ==> ParseByPrefix(e, lim, parse) == Ok((NullBulk, |e|))
    ensures e[0] == 42 ==> ParseByPrefix(e, lim, parse) == Ok((NullArray, |e|))
  {
  }

  lemma {:induction false} NullBack(f: Frame, lim: Limits, parse: Parser)
    requires Bounded(parse) && (f.NullBulk? || f.NullArray?)
    ensures Back(f, lim, parse)
  {
    var prefix: Byte := if f.NullBulk? then 36 else 42;
    NullHeader(prefix);
    NullFrame(Line(prefix, IntText(-1)), lim, parse);
  }

  predicate IsAggregate(f: Frame) {
    f.Array? || f.Map? || f.Set? || f.Push?
  }

  lemma {:induction false} ScalarBack(f: Frame, lim: Limits, depth: nat, parse: Parser)
    requires Bounded(parse) && Legal(f, lim, depth) && !IsAggregate(f)
    ensures Back(f, lim, parse)
  {
    match f
    case Bulk(b) => BulkBack(b, lim, parse);
    case NullBulk => NullBack(f, lim, parse);
    case NullArray => NullBack(f, lim, parse);
    case _ => LineFrameBack(f, lim, depth, parse);
  }

  /** Every legal frame encodes, and its encoding parses back to it and to nothing less. */
  lemma {:induction false} RoundTrip(f: Frame, lim: Limits, depth: nat)
    requires Legal(f, lim, depth)
    ensures Encode(f, lim.version).Ok?
    ensures ParseFrame(Encode(f, lim.version).value, lim, depth) == Ok((f, |Encode(f, lim.version).value|))
    decreases f, 0
  {
    var parse := ParserAt(lim, depth + 1);
    if IsAggregate(f) {
      ItemsBack(f.items, lim, depth + 1);
      AggregateBack(f, lim, depth, parse);
    } else {
      ScalarBack(f, lim, depth, parse);
    }
  }

  function Joined(parts: seq<seq<Byte>>): seq<Byte> {
    if parts == [] then [] else Joined(parts[..|parts| - 1]) + parts[|parts| - 1]
  }

  /** The parts parse back to the items one by one. */
  ghost predicate ParseBack(items: seq<Frame>, parts: seq<seq<Byte>>, parse: Parser)
    requires |items| == |parts|
  {
    var n := |items| - 1;
    items != [] ==> ParseBack(items[..n], parts[..n], parse) && parse(parts[n]) == Ok((items[n], |parts[n]|))
  }

  lemma {:induction false} OneMore(a: seq<Byte>, b: seq<Byte>, items: seq<Frame>, item: Frame, parse: Parser)
    requires Bounded(parse) && StableParser(parse)
    requires ParseItems(a, |items|, parse) == Ok((items, |a|)) && parse(b) == Ok((item, |b|))
    ensures ParseItems(a + b, |items| + 1, parse) == Ok((items + [item], |a + b|))
  {
    ParseItemsStable(a, b, |items|, parse);
    assert (a + b)[|a|..] == b;
  }

  /** Then they parse back as a list. */
  lemma {:induction false} JoinedParsesBack(items: seq<Frame>, parts: seq<seq<Byte>>, parse: Parser)
    requires Bounded(parse) && StableParser(parse) && |items| == |parts|
    requires ParseBack(items, parts, parse)
    ensures ParseItems(Joined(parts), |items|, parse) == Ok((items, |Joined(parts)|))
  {
    if items != [] {
      var n := |items| - 1;
      JoinedParsesBack(items[..n], parts[..n], parse);
      OneMore(Joined(parts[..n]), parts[n], items[..n], items[n], parse);
      assert items[..n] + [items[n]] == items;
    }
  }

  lemma {:induction false} ItemsAfterHeader(
    prefix: Byte, buf: seq<Byte>, n: nat, count: nat, items: seq<Frame>, maxArray: nat, parse: Parser)
    requires Bounded(parse) && count <= maxArray && n <= |buf| && ReadCount(buf) == Ok((count, n))
    requires |items| == if prefix == 37 then 2 * count else count
    requires ParseItems(buf[n..], |items|, parse) == Ok((items, |buf| - n))
    ensures ParseAggregate(prefix, buf, maxArray, parse) == Ok((Aggregate(prefix, items), |buf|))
  {
  }

  /** A header and a list that parses back make an aggregate that parses back. */
  lemma {:induction false} HeaderAndItems(
    prefix: Byte, count: nat, items: seq<Frame>, body: seq<Byte>, maxArray: nat, parse: Parser)
    requires Bounded(parse) && count <= maxArray && count <= I64_MAX
    requires |items| == if prefix == 37 then 2 * count else count
    requires ParseItems(body, |items|, parse) == Ok((items, |body|))
    ensures var e := Line(prefix, IntText(count)) + body;
      e[0] == prefix && ParseAggregate(prefix, e[1..], maxArray, parse) == Ok((Aggregate(prefix, items), |e| - 1))
  {
    HeaderBack(prefix, count, body);
    var e := Line(prefix, IntText(count)) + body;
    ItemsAfterHeader(prefix, e[1..], |IntText(count)| + 2, count, items, maxArray, parse);
  }

  lemma {:induction false} EncodedStep(items: seq<Frame>, before: seq<seq<Byte>>, part: seq<Byte>, v: Version)
    requires items != [] && EncodeAll(items[..|items| - 1], v) == Ok(Joined(before))
    requires Encode(items[|items| - 1], v) == Ok(part)
    ensures EncodeAll(items, v) == Ok(Joined(before + [part]))
  {
    assert (before + [part])[..|before|] == before;
  }

  lemma {:induction false} ParseBackStep(items: seq<Frame>, before: seq<seq<Byte>>, part: seq<Byte>, parse: Parser)
    requires items != [] && |before| == |items| - 1 && ParseBack(items[..|items| - 1], before, parse)
    requires parse(part) == Ok((items[|items| - 1], |part|))
    ensures ParseBack(items, before + [part], parse)
  {
    assert (before + [part])[..|before|] == before;
  }

  lemma {:induction false} ItemsEncoded(items: seq<Frame>, lim: Limits, depth: nat) returns (parts: seq<seq<Byte>>)
    requires AllLegal(items, lim, depth)
    ensures |parts| == |items| && EncodeAll(items, lim.version) == Ok(Joined(parts))
    ensures ParseBack(items, parts, ParserAt(lim, depth))
    decreases items, |items|
  {
    if items == [] {
      parts := [];
    } else {
      var n := |items| - 1;
      var before := ItemsEncoded(items[..n], lim, depth);
      RoundTrip(items[n], lim, depth);
      var part := Encode(items[n], lim.version).value;
      parts := before + [part];
      EncodedStep(items, before, part, lim.version);
      ParseBackStep(items, before, part, ParserAt(lim, depth));
    }
  }

  /** The items' encodings, one after another, parse back as the list of items. */
  ghost predicate ItemsParseBack(items: seq<Frame>, lim: Limits, parse: Parser)
    requires Bounded(parse)
  {
    var e := EncodeAll(items, lim.version);
    e.Ok? && ParseItems(e.value, |items|, parse) == Ok((items, |e.value|))
  }

  lemma {:induction false} ItemsBack(items: seq<Frame>, lim: Limits, depth: nat)
    requires AllLegal(items, lim, depth)
    ensures ItemsParseBack(items, lim, ParserAt(lim, depth))
    decreases items, |items| + 1
  {
    var parts := ItemsEncoded(items, lim, depth);
    ParserAtStable(lim, depth);
    JoinedParsesBack(items, parts, ParserAt(lim, depth));
  }

  lemma {:induction false} AggregateFrame(e: seq<Byte>, f: Frame, lim: Limits, parse: Parser)
    requires Bounded(parse) && e != [] && AggregatePrefix(e[0], lim.version)
    requires ParseAggregate(e[0], e[1..], lim.maxArray, parse) == Ok((f, |e| - 1))
    ensures ParseByPrefix(e, lim, parse) == Ok((f, |e|))
  {
  }

  lemma {:induction false} FramedItems(prefix: Byte, count: nat, items: seq<Frame>, lim: Limits, parse: Parser)
    requires Bounded(parse) && AggregatePrefix(prefix, lim.version) && count <= lim.maxArray && count <= I64_MAX
    requires |items| == if prefix == 37 then 2 * count else count
    requires ItemsParseBack(items, lim, parse)
    ensures var e := EncodeAggregate(prefix, count, items, lim.version);
      e.Ok? && ParseByPrefix(e.value, lim, parse) == Ok((Aggregate(prefix, items), |e.value|))
  {
    FramedBody(prefix, count, items, EncodeAll(items, lim.version).value, lim, parse);
  }

  lemma {:induction false} FramedBody(
    prefix: Byte, count: nat, items: seq<Frame>, body: seq<Byte>, lim: Limits, parse: Parser)
    requires Bounded(parse) && AggregatePrefix(prefix, lim.version) && count <= lim.maxArray && count <= I64_MAX
    requires |items| == if prefix == 37 then 2 * count else count
    requires ParseItems(body, |items|, parse) == Ok((items, |body|))
    ensures var e := Line(prefix, IntText(count)) + body;
      ParseByPrefix(e, lim, parse) == Ok((Aggregate(prefix, items), |e|))
  {
    HeaderAndItems(prefix, count, items, body, lim.maxArray, parse);
    AggregateFrame(Line(prefix, IntText(count)) + body, Aggregate(prefix, items), lim, parse);
  }

  lemma {:induction false} AggregateBack(f: Frame, lim: Limits, depth: nat, parse: Parser)
    requires Bounded(parse) && IsAggregate(f) && Legal(f, lim, depth) && ItemsParseBack(f.items, lim, parse)
    ensures Back(f, lim, parse)
  {
    match f
    case Array(items) => FramedItems(42, |items|, items, lim, parse);
    case Map(items) => FramedItems(37, |items| / 2, items, lim, parse);
    case Set(items) => FramedItems(126, |items|, items, lim, parse);
    case Push(items) => FramedItems(62, |items|, items, lim, parse);
  }

  /** Whatever follows an encoding, parsing takes exactly the encoding. */
  lemma {:induction false} RoundTripInContext(f: Frame, rest: seq<Byte>, lim: Limits, depth: nat)
    requires Legal(f, lim, depth)
    ensures Encode(f, lim.version).Ok?
    ensures var e := Encode(f, lim.version).value;
      ParseFrame(e + rest, lim, depth) == Ok((f, |e|))
  {
    RoundTrip(f, lim, depth);
    ParseFrameStable(Encode(f, lim.version).value, rest, lim, depth);
  }

  lemma {:induction false} PrefixUnsettled(e: seq<Byte>, n: nat, f: Frame, parse: Parser)
    requires Bounded(parse) && StableParser(parse) && parse(e) == Ok((f, |e|)) && n < |e|
    ensures parse(e[..n]) == Err(Incomplete)
  {
    assert e[..n] + e[n..] == e;
  }

  /** Every proper prefix of an encoding is reported incomplete. */
  lemma {:induction false} ProperPrefixIncomplete(f: Frame, n: nat, lim: Limits, depth: nat)
    requires Legal(f, lim, depth)
    requires Encode(f, lim.version).Ok? && n < |Encode(f, lim.version).value|
    ensures ParseFrame(Encode(f, lim.version).value[..n], lim, depth) == Err(Incomplete)
  {
    RoundTrip(f, lim, depth);
    ParserAtStable(lim, depth);
    PrefixUnsettled(Encode(f, lim.version).value, n, f, ParserAt(lim, depth));
  }
}

/** RESP2/RESP3 frames, their encoding, and the incremental parser. */
module Resp {
  import opened Wrappers
  import opened Bytes
  import opened Text

  const CR: Byte := 13
  const LF: Byte := 10
  const MAX_DEPTH: nat := 32

  datatype Version = Resp2 | Resp3

  /**
   A frame. `NullBulk` and `NullArray` are the explicit nulls; a map lists its keys and values
   alternately. Doubles are not part of this model.
   */
  datatype Frame =
    | SimpleString(text: seq<Byte>)
    | Error(text: seq<Byte>)
    | Integer(value: I64)
    | NullBulk
    | Bulk(bytes: seq<Byte>)
    | NullArray
    | Array(items: seq<Frame>)
    | Map(items: seq<Frame>)
    | Set(items: seq<Frame>)
    | Push(items: seq<Frame>)
    | Boolean(truth: bool)
    | Null
    | BigNumber(text: seq<Byte>)

  datatype ProtocolError =
    | Incomplete
    | InvalidEncoding
    | BulkTooLarge(size: nat, max: nat)
    | ArrayTooLarge(len: nat, max: nat)
    | Resp3Required
    | InlineCommandRejected

  datatype Limits = Limits(version: Version, maxBulk: nat, maxArray: nat)

  type Parsed<T> = Result<(T, nat), ProtocolError>

  predicate RequiresResp3(f: Frame) {
    f.Map? || f.Set? || f.Push? || f.Boolean? || f.Null? || f.BigNumber?
  }

  // ---- encoding ----

  predicate HasLineBreak(s: seq<Byte>) {
    CR in s || LF in s
  }

  function Line(prefix: Byte, s: seq<Byte>): seq<Byte> {
    [prefix] + s + [CR, LF]
  }

  function Encode(f: Frame, v: Version): Result<seq<Byte>, ProtocolError>
    decreases f, 0
  {
    if v == Resp2 && RequiresResp3(f) then Err(Resp3Required)
    else match f
      case SimpleString(s) => if HasLineBreak(s) then Err(InvalidEncoding) else Ok(Line(43, s))
      case Error(s) => if HasLineBreak(s) then Err(InvalidEncoding) else Ok(Line(45, s))
      case Integer(i) => Ok(Line(58, IntText(i)))
      case NullBulk => Ok(Line(36, IntText(-1)))
      case Bulk(b) => Ok(Line(36, IntText(|b|)) + b + [CR, LF])
      case NullArray => Ok(Line(42, IntText(-1)))
      case Array(items) => EncodeAggregate(42, |items|, items, v)
      case Map(items) => EncodeAggregate(37, |items| / 2, items, v)
      case Set(items) => EncodeAggregate(126, |items|, items, v)
      case Push(items) => EncodeAggregate(62, |items|, items, v)
      case Boolean(b) => Ok(Line(35, if b then [116] else [102]))
      case Null => Ok(Line(95, []))
      case BigNumber(s) => Ok(Line(40, s))
  }

  function EncodeAggregate(prefix: Byte, count: nat, items: seq<Frame>, v: Version): Result<seq<Byte>, ProtocolError>
    decreases items, |items| + 1
  {
    var r := EncodeAll(items, v);
    if r.Err? then r else Ok(Line(prefix, IntText(count)) + r.value)
  }

  function EncodeAll(items: seq<Frame>, v: Version): Result<seq<Byte>, ProtocolError>
    decreases items, |items|
  {
    if items == [] then Ok([])
    else
      var before := EncodeAll(items[..|items| - 1], v);
      if before.Err? then before
      else
        var last := Encode(items[|items| - 1], v);
        if last.Err? then last else Ok(before.value + last.value)
  }

  // ---- parsing ----

  /** Index of the first CR that an LF follows, from `i` on. */
  function FindCrlf(buf: seq<Byte>, i: nat): (r: Option<nat>)
    requires i <= |buf|
    ensures r.Some? ==> i <= r.value && r.value + 1 < |buf|
    decreases |buf| - i
  {
    if i + 1 >= |buf| then None
    else if buf[i] == CR && buf[i + 1] == LF then Some(i)
    else FindCrlf(buf, i + 1)
  }

  function ReadLine(buf: seq<Byte>): (r: Parsed<seq<Byte>>)
    ensures r.Ok? ==> r.value.1 <= |buf|
  {
    var i := FindCrlf(buf, 0);
    if i.None? then Err(Incomplete) else Ok((buf[..i.value], i.value + 2))
  }

  /** A line holding a signed decimal number. */
  function ReadCount(buf: seq<Byte>): (r: Parsed<int>)
    ensures r.Ok? ==> r.value.1 <= |buf|
  {
    var line := ReadLine(buf);
    if line.Err? then Err(line.error)
    else
      var n := ParseInt(line.value.0, I64_MIN, I64_MAX);
      if n.None? then Err(InvalidEncoding) else Ok((n.value, line.value.1))
  }

  predicate WellFormedBigNumber(s: seq<Byte>) {
    s != [] && forall i | 0 <= i < |s| :: IsDigit(s[i]) || (i == 0 && (s[i] == PLUS || s[i] == MINUS))
  }

  function ParseBulk(buf: seq<Byte>, maxBulk: nat): (r: Parsed<Frame>)
    ensures r.Ok? ==> r.value.1 <= |buf|
  {
    var header := ReadCount(buf);
    if header.Err? then Err(header.error)
    else
      var (len, n) := header.value;
      if len == -1 then Ok((NullBulk, n))
      else if len < 0 then Err(InvalidEncoding)
      else if len > maxBulk then Err(BulkTooLarge(len, maxBulk))
      else if |buf| < n + len + 2 then Err(Incomplete)
      else if buf[n + len] != CR || buf[n + len + 1] != LF then Err(InvalidEncoding)
      else Ok((Bulk(buf[n..n + len]), n + len + 2))
  }

  /** What a line of text means after a prefix. */
  function LineFrame(prefix: Byte, s: seq<Byte>): Option<Frame> {
    if prefix == 43 then if Utf8(s) then Some(SimpleString(s)) else None
    else if prefix == 45 then if Utf8(s) then Some(Error(s)) else None
    else if prefix == 58 then
      var i := ParseInt(s, I64_MIN, I64_MAX);
      if i.Some? && I64_MIN <= i.value <= I64_MAX then Some(Integer(i.value)) else None
    else if prefix == 35 then
      if s == [116] then Some(Boolean(true)) else if s == [102] then Some(Boolean(false)) else None
    else if prefix == 95 then if s == [] then Some(Null) else None
    else if Utf8(s) && WellFormedBigNumber(s) then Some(BigNumber(s))
    else None
  }

  function ParseLine(prefix: Byte, buf: seq<Byte>): (r: Parsed<Frame>)
    ensures r.Ok? ==> r.value.1 <= |buf|
  {
    var line := ReadLine(buf);
    if line.Err? then Err(line.error)
    else
      var f := LineFrame(prefix, line.value.0);
      if f.None? then Err(InvalidEncoding) else Ok((f.value, line.value.1))
  }

  predicate LinePrefix(b: Byte, v: Version) {
    b == 43 || b == 45 || b == 58 || (v == Resp3 && (b == 35 || b == 95 || b == 40))
  }

  predicate AggregatePrefix(b: Byte, v: Version) {
    b == 42 || (v == Resp3 && (b == 37 || b == 126 || b == 62))
  }

  function Aggregate(prefix: Byte, items: seq<Frame>): Frame {
    if prefix == 42 then Array(items)
    else if prefix == 37 then Map(items)
    else if prefix == 126 then Set(items)
    else Push(items)
  }

  type Parser = seq<Byte> -> Parsed<Frame>

  /** Takes at least one byte and no more than there are. */
  ghost predicate Bounded(parse: Parser) {
    forall b :: parse(b).Ok? ==> 0 < parse(b).value.1 <= |b|
  }

  /** `count` frames one after another. */
  function ParseItems(buf: seq<Byte>, count: nat, parse: Parser): (r: Parsed<seq<Frame>>)
    requires Bounded(parse)
    ensures r.Ok? ==> r.value.1 <= |buf| && |r.value.0| == count
  {
    if count == 0 then Ok(([], 0))
    else
      var before := ParseItems(buf, count - 1, parse);
      if before.Err? then before
      else
        var (items, n) := before.value;
        var last := parse(buf[n..]);
        if last.Err? then Err(last.error)
        else Ok((items + [last.value.0], n + last.value.1))
  }

  /** The elements an aggregate header announces. */
  function ParseBody(prefix: Byte, count: int, buf: seq<Byte>, maxArray: nat, parse: Parser): (r: Parsed<Frame>)
    requires Bounded(parse)
    ensures r.Ok? ==> r.value.1 <= |buf|
  {
    if count == -1 && prefix == 42 then Ok((NullArray, 0))
    else if count < 0 then Err(InvalidEncoding)
    else if count > maxArray then Err(ArrayTooLarge(count, maxArray))
    else
      var items := ParseItems(buf, if prefix == 37 then 2 * count else count, parse);
      if items.Err? then Err(items.error) else Ok((Aggregate(prefix, items.value.0), items.value.1))
  }

  function ParseAggregate(prefix: Byte, buf: seq<Byte>, maxArray: nat, parse: Parser): (r: Parsed<Frame>)
    requires Bounded(parse)
    ensures r.Ok? ==> r.value.1 <= |buf|
  {
    var header := ReadCount(buf);
    if header.Err? then Err(header.error)
    else
      var (count, n) := header.value;
      Shift(ParseBody(prefix, count, buf[n..], maxArray, parse), n)
  }

  /** Counts `n` bytes read before. */
  function Shift(r: Parsed<Frame>, n: nat): Parsed<Frame> {
    if r.Err? then r else Ok((r.value.0, r.value.1 + n))
  }

  /** A frame by its first byte; `parse` reads the frames nested in it. */
  function ParseByPrefix(buf: seq<Byte>, lim: Limits, parse: Parser): (r: Parsed<Frame>)
    requires Bounded(parse)
    ensures r.Ok? ==> 0 < r.value.1 <= |buf|
  {
    if buf == [] then Err(Incomplete)
    else if LinePrefix(buf[0], lim.version) then Shift(ParseLine(buf[0], buf[1..]), 1)
    else if buf[0] == 36 then Shift(ParseBulk(buf[1..], lim.maxBulk), 1)
    else if AggregatePrefix(buf[0], lim.version)
    then Shift(ParseAggregate(buf[0], buf[1..], lim.maxArray, parse), 1)
    else Err(InvalidEncoding)
  }

  function ParseFrame(buf: seq<Byte>, lim: Limits, depth: nat): (r: Parsed<Frame>)
    ensures r.Ok? ==> 0 < r.value.1 <= |buf|
    decreases if depth <= MAX_DEPTH then MAX_DEPTH + 1 - depth else 0, 0
  {
    if depth > MAX_DEPTH then Err(InvalidEncoding) else ParseByPrefix(buf, lim, ParserAt(lim, depth + 1))
  }

  /** The parser of frames nested `depth` deep. */
  function ParserAt(lim: Limits, depth: nat): (parse: Parser)
    ensures Bounded(parse)
    decreases if depth <= MAX_DEPTH then MAX_DEPTH + 1 - depth else 0, 1
  {
    b => ParseFrame(b, lim, depth)
  }
}

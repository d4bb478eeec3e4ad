/** The codec as it runs: loops over the receive buffer, which a decode shortens. */
module RespCodec {
  import opened Wrappers
  import opened Bytes
  import opened Resp
  import RespStream

  const DEFAULT_MAX_BULK_SIZE: nat := 512 * 1024 * 1024
  const DEFAULT_MAX_ARRAY_LEN: nat := 1_048_576

  predicate CrlfAt(buf: seq<Byte>, i: nat) {
    i + 1 < |buf| && buf[i] == CR && buf[i + 1] == LF
  }

  lemma {:induction false} NoCrlfBefore(buf: seq<Byte>, i: nat, j: nat)
    requires i <= j <= |buf| && forall k | i <= k < j :: !CrlfAt(buf, k)
    ensures FindCrlf(buf, i) == FindCrlf(buf, j)
    decreases j - i
  {
    if i < j {
      assert !CrlfAt(buf, i);
      if i + 1 < |buf| { NoCrlfBefore(buf, i + 1, j); }
    }
  }

  /** The line up to the first CRLF; incomplete if there is none. */
  method ReadLineLoop(buf: seq<Byte>) returns (r: Parsed<seq<Byte>>)
    ensures r == ReadLine(buf)
    ensures r.Ok? ==> var (line, n) := r.value;
      n == |line| + 2 && buf[..n] == line + [CR, LF] && forall k | 0 <= k < |line| :: !CrlfAt(buf, k)
    ensures r.Err? ==> r.error == Incomplete && forall k | 0 <= k < |buf| :: !CrlfAt(buf, k)
  {
    var i := 0;
    while i + 1 < |buf|
      invariant 0 <= i <= |buf|
      invariant forall k | 0 <= k < i :: !CrlfAt(buf, k)
    {
      if buf[i] == CR && buf[i + 1] == LF {
        NoCrlfBefore(buf, 0, i);
        return Ok((buf[..i], i + 2));
      }
      i := i + 1;
    }
    NoCrlfBefore(buf, 0, i);
    r := Err(Incomplete);
  }

  /** One more frame extends the list, or stops it for good. */
  lemma {:induction false} NextItem(
    buf: seq<Byte>, i: nat, count: nat, items: seq<Frame>, consumed: nat, one: Parsed<Frame>, parse: Parser)
    requires Bounded(parse) && i < count
    requires ParseItems(buf, i, parse) == Ok((items, consumed)) && parse(buf[consumed..]) == one
    ensures one.Ok? ==>
      ParseItems(buf, i + 1, parse) == Ok((items + [one.value.0], consumed + one.value.1))
    ensures one.Err? ==> ParseItems(buf, count, parse) == Err(one.error)
  {
    if one.Err? {
      FirstErrorSticks(buf, i + 1, count, parse);
    }
  }

  lemma {:induction false} FirstErrorSticks(buf: seq<Byte>, m: nat, n: nat, parse: Parser)
    requires Bounded(parse) && m <= n && ParseItems(buf, m, parse).Err?
    ensures ParseItems(buf, n, parse) == ParseItems(buf, m, parse)
    decreases n - m
  {
    if m < n {
      FirstErrorSticks(buf, m, n - 1, parse);
    }
  }

  ghost predicate Reads(parse: Parser, buf: seq<Byte>, lim: Limits, depth: nat) {
    parse(buf) == ParseFrame(buf, lim, depth)
  }

  method ParseItem(buf: seq<Byte>, lim: Limits, depth: nat, ghost parse: Parser) returns (r: Parsed<Frame>)
    requires depth <= MAX_DEPTH + 1 && Reads(parse, buf, lim, depth)
    ensures r == parse(buf)
    decreases MAX_DEPTH + 1 - depth, 1
  {
    r := ParseFrameLoop(buf, lim, depth);
  }

  /** `count` frames one after another, accumulating what each consumed. */
  method ParseItemsLoop(buf: seq<Byte>, count: nat, lim: Limits, depth: nat, ghost parse: Parser)
    returns (r: Parsed<seq<Frame>>)
    requires depth <= MAX_DEPTH + 1
    requires Bounded(parse) && forall b :: Reads(parse, b, lim, depth)
    ensures r == ParseItems(buf, count, parse)
    decreases MAX_DEPTH + 1 - depth, 2
  {
    var consumed: nat, items := 0, [];
    for i := 0 to count
      invariant consumed <= |buf|
      invariant ParseItems(buf, i, parse) == Ok((items, consumed))
    {
      var one := ParseItem(buf[consumed..], lim, depth, parse);
      NextItem(buf, i, count, items, consumed, one, parse);
      if one.Err? {
        return Err(one.error);
      }
      items := items + [one.value.0];
      consumed := consumed + one.value.1;
    }
    r := Ok((items, consumed));
  }

  method ParseBodyLoop(prefix: Byte, count: int, buf: seq<Byte>, lim: Limits, depth: nat, ghost parse: Parser)
    returns (r: Parsed<Frame>)
    requires depth <= MAX_DEPTH + 1
    requires Bounded(parse) && forall b :: Reads(parse, b, lim, depth)
    ensures r == ParseBody(prefix, count, buf, lim.maxArray, parse)
    decreases MAX_DEPTH + 1 - depth, 3
  {
    if count == -1 && prefix == 42 {
      return Ok((NullArray, 0));
    }
    if count < 0 {
      return Err(InvalidEncoding);
    }
    if count > lim.maxArray {
      return Err(ArrayTooLarge(count, lim.maxArray));
    }
    var items := ParseItemsLoop(buf, if prefix == 37 then 2 * count else count, lim, depth, parse);
    r := if items.Err? then Err(items.error) else Ok((Aggregate(prefix, items.value.0), items.value.1));
  }

  method ParseFrameLoop(buf: seq<Byte>, lim: Limits, depth: nat) returns (r: Parsed<Frame>)
    requires depth <= MAX_DEPTH + 1
    ensures r == ParseFrame(buf, lim, depth)
    decreases MAX_DEPTH + 1 - depth, 0
  {
    if depth > MAX_DEPTH {
      return Err(InvalidEncoding);
    }
    if buf == [] {
      return Err(Incomplete);
    }
    var rest := buf[1..];
    if LinePrefix(buf[0], lim.version) {
      r := ParseLine(buf[0], rest);
    } else if buf[0] == 36 {
      r := ParseBulk(rest, lim.maxBulk);
    } else if AggregatePrefix(buf[0], lim.version) {
      var header := ReadCount(rest);
      if header.Err? {
        return Err(header.error);
      }
      var (count, n) := header.value;
      r := ParseBodyLoop(buf[0], count, rest[n..], lim, depth + 1, ParserAt(lim, depth + 1));
      r := Shift(r, n);
    } else {
      return Err(InvalidEncoding);
    }
    r := Shift(r, 1);
  }

  class BytesMut {
    var data: seq<Byte>

    constructor (data: seq<Byte>)
      ensures this.data == data
    {
      this.data := data;
    }
  }

  class Codec {
    var version: Version
    var maxBulkSize: nat
    var maxArrayLen: nat

    constructor ()
      ensures Lim() == Limits(Resp2, DEFAULT_MAX_BULK_SIZE, DEFAULT_MAX_ARRAY_LEN)
    {
      version, maxBulkSize, maxArrayLen := Resp2, DEFAULT_MAX_BULK_SIZE, DEFAULT_MAX_ARRAY_LEN;
    }

    function Lim(): Limits
      reads this
    {
      Limits(version, maxBulkSize, maxArrayLen)
    }

    method UpgradeToResp3()
      modifies this`version
      ensures Lim() == old(Lim()).(version := Resp3)
    {
      version := Resp3;
    }

    /** Takes one frame off the front of `src`; keeps all bytes while the frame is incomplete. */
    method Decode(src: BytesMut) returns (r: Result<Option<Frame>, ProtocolError>)
      modifies src
      ensures match RespStream.Decode(old(src.data), Lim())
        case NeedMore => r == Ok(None) && src.data == old(src.data)
        case Got(f, n) => r == Ok(Some(f)) && src.data == old(src.data)[n..]
        case Failed(e) => r == Err(e) && src.data == old(src.data)
    {
      if src.data == [] {
        return Ok(None);
      }
      var ping := RespStream.InlinePing(src.data);
      if ping.Some? {
        src.data := src.data[ping.value..];
        return Ok(Some(Array([Bulk(RespStream.PING)])));
      }
      if !RespStream.KnownPrefix(src.data[0], version) {
        return Err(if RespStream.IsLetter(src.data[0]) then InlineCommandRejected else InvalidEncoding);
      }
      var parsed := ParseFrameLoop(src.data, Lim(), 0);
      if parsed.Err? {
        return if parsed.error == Incomplete then Ok(None) else Err(parsed.error);
      }
      src.data := src.data[parsed.value.1..];
      r := Ok(Some(parsed.value.0));
    }
  }
}

/** Decoding a byte stream that arrives in arbitrary pieces. */
module RespStream {
  import opened Wrappers
  import opened Bytes
  import opened Resp
  import opened RespProofs

  datatype Decoded = NeedMore | Got(frame: Frame, consumed: nat) | Failed(error: ProtocolError)

  function Upper(b: Byte): Byte {
    if 97 <= b <= 122 then b - 32 else b
  }

  predicate IsLetter(b: Byte) {
    65 <= Upper(b) <= 90
  }

  const PING: seq<Byte> := [80, 73, 78, 71]

  /** `PING` in any case followed by a line feed, with or without a carriage return. */
  function InlinePing(buf: seq<Byte>): (r: Option<nat>)
    ensures r.Some? ==> 0 < r.value <= |buf|
  {
    if |buf| < 5 then None
    else if [Upper(buf[0]), Upper(buf[1]), Upper(buf[2]), Upper(buf[3])] != PING then None
    else if buf[4] == LF then Some(5)
    else if |buf| >= 6 && buf[4] == CR && buf[5] == LF then Some(6)
    else None
  }

  predicate KnownPrefix(b: Byte, v: Version) {
    LinePrefix(b, v) || b == 36 || AggregatePrefix(b, v)
  }

  /** One call of the decoder. */
  function Decode(buf: seq<Byte>, lim: Limits): (r: Decoded)
    ensures r.Got? ==> 0 < r.consumed <= |buf|
  {
    if buf == [] then NeedMore
    else if InlinePing(buf).Some? then Got(Array([Bulk(PING)]), InlinePing(buf).value)
    else if !KnownPrefix(buf[0], lim.version) then
      Failed(if IsLetter(buf[0]) then InlineCommandRejected else InvalidEncoding)
    else match ParseFrame(buf, lim, 0)
      case Ok((f, n)) => Got(f, n)
      case Err(e) => if e == Incomplete then NeedMore else Failed(e)
  }

  // ---- driving any decoder over a stream ----

  type Decoder = seq<Byte> -> Decoded

  /** Frames decoded, bytes left over, and the error that stopped the connection, if any. */
  datatype Outcome = Outcome(frames: seq<Frame>, rest: seq<Byte>, failed: Option<ProtocolError>)

  ghost predicate Progresses(decode: Decoder) {
    forall b :: decode(b).Got? ==> 0 < decode(b).consumed <= |b|
  }

  /** A frame that was decoded is decoded the same when more bytes follow. */
  ghost predicate GotIsFinal(decode: Decoder) {
    forall b, more: seq<Byte> {:trigger decode(b + more)} :: decode(b).Got? ==> decode(b + more) == decode(b)
  }

  /** Decodes until more bytes are needed. */
  function Drain(done: seq<Frame>, buf: seq<Byte>, decode: Decoder): Outcome
    requires Progresses(decode)
    decreases |buf|
  {
    match decode(buf)
    case NeedMore => Outcome(done, buf, None)
    case Got(f, n) => Drain(done + [f], buf[n..], decode)
    case Failed(e) => Outcome(done, buf, Some(e))
  }

  /** Feeds the pieces one after another to the same connection. */
  function Feed(state: Outcome, chunks: seq<seq<Byte>>, decode: Decoder): Outcome
    requires Progresses(decode)
    decreases |chunks|
  {
    if chunks == [] || state.failed.Some? then state
    else Feed(Drain(state.frames, state.rest + chunks[0], decode), chunks[1..], decode)
  }

  /** Bytes that arrive later continue from where the decoder stopped. */
  lemma {:induction false} DrainContinues(done: seq<Frame>, buf: seq<Byte>, more: seq<Byte>, decode: Decoder)
    requires Progresses(decode) && GotIsFinal(decode) && Drain(done, buf, decode).failed.None?
    ensures var d := Drain(done, buf, decode);
      Drain(done, buf + more, decode) == Drain(d.frames, d.rest + more, decode)
    decreases |buf|
  {
    var d := decode(buf);
    if d.Got? {
      assert (buf + more)[d.consumed..] == buf[d.consumed..] + more;
      DrainContinues(done + [d.frame], buf[d.consumed..], more, decode);
    }
  }

  /** `e` is what the decoder needs, and all it takes, to produce `f`. */
  ghost predicate Spells(e: seq<Byte>, f: Frame, decode: Decoder) {
    && decode(e) == Got(f, |e|)
    && forall n | 0 <= n < |e| :: decode(e[..n]) == NeedMore
  }

  /** The parts from position `i` on. */
  function StreamFrom(parts: seq<seq<Byte>>, i: nat): seq<Byte>
    requires i <= |parts|
    decreases |parts| - i
  {
    if i == |parts| then [] else parts[i] + StreamFrom(parts, i + 1)
  }

  lemma {:induction false} FirstPart(e: seq<Byte>, tail: seq<Byte>, f: Frame, decode: Decoder)
    requires GotIsFinal(decode) && decode(e) == Got(f, |e|)
    ensures decode(e + tail) == Got(f, |e|) && (e + tail)[|e|..] == tail
  {
  }

  function Concatenated(chunks: seq<seq<Byte>>): seq<Byte> {
    if chunks == [] then [] else chunks[0] + Concatenated(chunks[1..])
  }

  // ---- the RESP decoder ----

  function DecoderFor(lim: Limits): (decode: Decoder)
    ensures Progresses(decode)
  {
    b => Decode(b, lim)
  }

  lemma {:induction false} GotStable(buf: seq<Byte>, more: seq<Byte>, lim: Limits)
    requires Decode(buf, lim).Got?
    ensures Decode(buf + more, lim) == Decode(buf, lim)
  {
    if InlinePing(buf).Some? {
      InlinePingStable(buf, more);
    } else {
      ParseFrameStable(buf, more, lim, 0);
      assert (buf + more)[0] == buf[0];
      DecodeFramed(buf, lim);
      DecodeFramed(buf + more, lim);
    }
  }

  lemma {:induction false} InlinePingStable(buf: seq<Byte>, more: seq<Byte>)
    requires InlinePing(buf).Some?
    ensures InlinePing(buf + more) == InlinePing(buf)
  {
  }

  lemma {:induction false} DecoderGotIsFinal(lim: Limits)
    ensures GotIsFinal(DecoderFor(lim))
  {
    var decode := DecoderFor(lim);
    forall b, more: seq<Byte> | decode(b).Got? ensures decode(b + more) == decode(b) {
      GotStable(b, more, lim);
    }
  }

  /** An encoding starts with a byte no inline command starts with. */
  lemma {:induction false} EncodingStart(f: Frame, lim: Limits, e: seq<Byte>)
    requires Legal(f, lim, 0) && Encode(f, lim.version) == Ok(e)
    ensures e != [] && KnownPrefix(e[0], lim.version)
  {
  }

  lemma {:induction false} DecodeFramed(buf: seq<Byte>, lim: Limits)
    requires buf != [] && KnownPrefix(buf[0], lim.version)
    ensures Decode(buf, lim) == match ParseFrame(buf, lim, 0)
                                case Ok((f, n)) => Got(f, n)
                                case Err(e) => if e == Incomplete then NeedMore else Failed(e)
  {
    assert InlinePing(buf).None?;
  }

  lemma {:induction false} EncodingSpells(f: Frame, lim: Limits)
    requires Legal(f, lim, 0)
    ensures Encode(f, lim.version).Ok? && Spells(Encode(f, lim.version).value, f, DecoderFor(lim))
  {
    RoundTrip(f, lim, 0);
    var e := Encode(f, lim.version).value;
    EncodingStart(f, lim, e);
    DecodeFramed(e, lim);
    forall n | 0 <= n < |e| ensures Decode(e[..n], lim) == NeedMore {
      if n > 0 {
        ProperPrefixIncomplete(f, n, lim, 0);
        DecodeFramed(e[..n], lim);
      }
    }
  }
}

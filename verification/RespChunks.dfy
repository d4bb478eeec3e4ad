/** Streams of frames and inline pings, cut into pieces: only a cut inside an inline ping shows. */
module RespChunks {
  import opened Wrappers
  import opened Bytes
  import opened Resp
  import opened RespProofs
  import opened RespStream

  const PING_FRAME: Frame := Array([Bulk(PING)])

  /** The whole of `buf` is one inline ping, in any case and with either line end. */
  predicate IsInlinePing(buf: seq<Byte>) {
    InlinePing(buf) == Some(|buf|)
  }

  lemma {:induction false} PieceIsNoPing(buf: seq<Byte>, n: nat)
    requires IsInlinePing(buf) && 0 < n < |buf|
    ensures InlinePing(buf[..n]).None? && Upper(buf[0]) == 80
  {
    if n == 5 {
      assert buf[..n][4] == buf[4];
    }
  }

  lemma {:induction false} LetterRejected(buf: seq<Byte>, lim: Limits)
    requires buf != [] && InlinePing(buf).None? && Upper(buf[0]) == 80
    ensures Decode(buf, lim) == Failed(InlineCommandRejected)
  {
  }

  /** Cut anywhere, the first piece of an inline ping is rejected for good. */
  lemma {:induction false} InlinePingMustArriveWhole(buf: seq<Byte>, n: nat, lim: Limits)
    requires IsInlinePing(buf) && 0 < n < |buf|
    ensures Decode(buf, lim) == Got(PING_FRAME, |buf|)
    ensures Decode(buf[..n], lim) == Failed(InlineCommandRejected)
  {
    PieceIsNoPing(buf, n);
    LetterRejected(buf[..n], lim);
  }

  // ---- any decoder over parts some of which must not be cut ----

  /** Decodes whole, but fails on every proper prefix. */
  ghost predicate Brittle(e: seq<Byte>, f: Frame, decode: Decoder) {
    && decode(e) == Got(f, |e|)
    && forall n | 0 < n < |e| :: decode(e[..n]).Failed?
  }

  /** The parts are what they should be: those marked `brittle` break when cut, the others do not. */
  ghost predicate Parts(parts: seq<seq<Byte>>, brittle: seq<bool>, frames: seq<Frame>, decode: Decoder) {
    && |parts| == |brittle| == |frames|
    && forall i | 0 <= i < |parts| ::
         if brittle[i] then Brittle(parts[i], frames[i], decode) else Spells(parts[i], frames[i], decode)
  }

  /** Position `n` of the stream from part `i` on is strictly inside a brittle part. */
  predicate Inside(parts: seq<seq<Byte>>, brittle: seq<bool>, i: nat, n: nat)
    requires |parts| == |brittle| && i <= |parts|
    decreases |parts| - i
  {
    i < |parts| &&
    if n < |parts[i]| then 0 < n && brittle[i] else Inside(parts, brittle, i + 1, n - |parts[i]|)
  }

  /** The whole stream decodes to the frames, and nothing is left over. */
  lemma {:induction false} StreamDrains(
    parts: seq<seq<Byte>>, brittle: seq<bool>, frames: seq<Frame>, i: nat, decode: Decoder)
    requires Progresses(decode) && GotIsFinal(decode) && Parts(parts, brittle, frames, decode)
    requires i <= |parts| && decode([]) == NeedMore
    ensures Drain(frames[..i], StreamFrom(parts, i), decode) == Outcome(frames, [], None)
    decreases |parts| - i
  {
    if i == |parts| {
      assert frames[..i] == frames;
    } else {
      FirstPart(parts[i], StreamFrom(parts, i + 1), frames[i], decode);
      assert frames[..i] + [frames[i]] == frames[..i + 1];
      StreamDrains(parts, brittle, frames, i + 1, decode);
    }
  }

  /** A prefix of the stream makes the decoder fail exactly when it ends inside a brittle part. */
  lemma {:induction false} PrefixFailsIff(
    done: seq<Frame>, parts: seq<seq<Byte>>, brittle: seq<bool>, frames: seq<Frame>, i: nat, n: nat, decode: Decoder)
    requires Progresses(decode) && GotIsFinal(decode) && Parts(parts, brittle, frames, decode)
    requires i <= |parts| && n <= |StreamFrom(parts, i)| && decode([]) == NeedMore
    ensures Drain(done, StreamFrom(parts, i)[..n], decode).failed.Some? <==> Inside(parts, brittle, i, n)
    decreases |parts| - i
  {
    if i < |parts| {
      var e, tail := parts[i], StreamFrom(parts, i + 1);
      if n < |e| {
        assert StreamFrom(parts, i)[..n] == e[..n];
        assert if brittle[i] then Brittle(e, frames[i], decode) else Spells(e, frames[i], decode);
        assert n == 0 ==> e[..n] == [];
      } else {
        var cut := tail[..n - |e|];
        assert StreamFrom(parts, i)[..n] == e + cut;
        FirstPart(e, cut, frames[i], decode);
        PrefixFailsIff(done + [frames[i]], parts, brittle, frames, i + 1, n - |e|, decode);
      }
    }
  }

  /** A piece after `sent` bytes ends strictly inside a brittle part. */
  predicate SomeCut(sent: nat, chunks: seq<seq<Byte>>, parts: seq<seq<Byte>>, brittle: seq<bool>)
    requires |parts| == |brittle|
    decreases |chunks|
  {
    chunks != [] &&
    (Inside(parts, brittle, 0, sent + |chunks[0]|) || SomeCut(sent + |chunks[0]|, chunks[1..], parts, brittle))
  }

  lemma {:induction false} FeedFailed(state: Outcome, chunks: seq<seq<Byte>>, decode: Decoder)
    requires Progresses(decode) && state.failed.Some?
    ensures Feed(state, chunks, decode) == state
  {
  }

  lemma {:induction false} FeedDecides(
    sent: seq<Byte>, chunks: seq<seq<Byte>>, parts: seq<seq<Byte>>, brittle: seq<bool>, frames: seq<Frame>,
    decode: Decoder)
    requires Progresses(decode) && GotIsFinal(decode) && Parts(parts, brittle, frames, decode)
    requires decode([]) == NeedMore && sent + Concatenated(chunks) == StreamFrom(parts, 0)
    requires !Inside(parts, brittle, 0, |sent|)
    ensures var r := Feed(Drain([], sent, decode), chunks, decode);
      if SomeCut(|sent|, chunks, parts, brittle) then r.failed.Some?
      else r == Drain([], StreamFrom(parts, 0), decode)
    decreases |chunks|
  {
    var s := StreamFrom(parts, 0);
    assert s[..|sent|] == sent;
    PrefixFailsIff([], parts, brittle, frames, 0, |sent|, decode);
    if chunks == [] {
      assert sent == s;
    } else {
      DrainContinues([], sent, chunks[0], decode);
      var more := sent + chunks[0];
      assert more + Concatenated(chunks[1..]) == s;
      assert s[..|more|] == more;
      PrefixFailsIff([], parts, brittle, frames, 0, |more|, decode);
      if Inside(parts, brittle, 0, |more|) {
        FeedFailed(Drain([], more, decode), chunks[1..], decode);
      } else {
        FeedDecides(more, chunks[1..], parts, brittle, frames, decode);
      }
    }
  }

  // ---- where pieces and parts begin ----

  /** Where piece `j` begins. */
  function Boundary(chunks: seq<seq<Byte>>, j: nat): nat
    requires j <= |chunks|
  {
    if j == 0 then 0 else Boundary(chunks, j - 1) + |chunks[j - 1]|
  }

  predicate Between(parts: seq<seq<Byte>>, i: nat, position: nat)
    requires i < |parts|
  {
    Boundary(parts, i) < position < Boundary(parts, i + 1)
  }

  /** A piece begins or ends strictly inside part `i`. */
  ghost predicate Cut(chunks: seq<seq<Byte>>, parts: seq<seq<Byte>>, i: nat)
    requires i < |parts|
  {
    exists j | 0 <= j <= |chunks| :: Between(parts, i, Boundary(chunks, j))
  }

  lemma {:induction false} BoundaryShift(xs: seq<seq<Byte>>, j: nat)
    requires j < |xs|
    ensures Boundary(xs, j + 1) == |xs[0]| + Boundary(xs[1..], j)
  {
    if j > 0 {
      BoundaryShift(xs, j - 1);
    }
  }

  lemma {:induction false} BoundaryGrows(xs: seq<seq<Byte>>, i: nat, j: nat)
    requires i <= j <= |xs|
    ensures Boundary(xs, i) <= Boundary(xs, j)
  {
    if i < j {
      BoundaryGrows(xs, i, j - 1);
    }
  }

  /** A position inside a brittle part is between where that part and the next begin. */
  lemma {:induction false} InsideFinds(parts: seq<seq<Byte>>, brittle: seq<bool>, i: nat, n: nat) returns (x: nat)
    requires |parts| == |brittle| && i <= |parts| && Inside(parts, brittle, i, n)
    ensures x < |parts| && brittle[x] && Between(parts, x, Boundary(parts, i) + n)
    decreases |parts| - i
  {
    if n < |parts[i]| {
      x := i;
    } else {
      x := InsideFinds(parts, brittle, i + 1, n - |parts[i]|);
    }
  }

  lemma {:induction false} BetweenIsInside(parts: seq<seq<Byte>>, brittle: seq<bool>, i: nat, n: nat, x: nat)
    requires |parts| == |brittle| && i <= x < |parts| && brittle[x] && Between(parts, x, Boundary(parts, i) + n)
    ensures Inside(parts, brittle, i, n)
    decreases x - i
  {
    if i < x {
      BoundaryGrows(parts, i + 1, x);
      BetweenIsInside(parts, brittle, i + 1, n - |parts[i]|, x);
    }
  }

  lemma {:induction false} SomeCutFinds(sent: nat, chunks: seq<seq<Byte>>, parts: seq<seq<Byte>>, brittle: seq<bool>)
    returns (j: nat)
    requires |parts| == |brittle| && SomeCut(sent, chunks, parts, brittle)
    ensures 0 < j <= |chunks| && Inside(parts, brittle, 0, sent + Boundary(chunks, j))
    decreases |chunks|
  {
    if Inside(parts, brittle, 0, sent + |chunks[0]|) {
      j := 1;
      assert Boundary(chunks, 1) == |chunks[0]|;
    } else {
      var k := SomeCutFinds(sent + |chunks[0]|, chunks[1..], parts, brittle);
      BoundaryShift(chunks, k);
      j := k + 1;
    }
  }

  lemma {:induction false} InsideIsSomeCut(
    sent: nat, chunks: seq<seq<Byte>>, parts: seq<seq<Byte>>, brittle: seq<bool>, j: nat)
    requires |parts| == |brittle| && 0 < j <= |chunks| && Inside(parts, brittle, 0, sent + Boundary(chunks, j))
    ensures SomeCut(sent, chunks, parts, brittle)
    decreases |chunks|
  {
    BoundaryShift(chunks, j - 1);
    if j == 1 {
      assert Boundary(chunks[1..], 0) == 0;
    } else {
      InsideIsSomeCut(sent + |chunks[0]|, chunks[1..], parts, brittle, j - 1);
    }
  }

  ghost predicate NoneCut(chunks: seq<seq<Byte>>, parts: seq<seq<Byte>>, brittle: seq<bool>)
    requires |parts| == |brittle|
  {
    forall i | 0 <= i < |parts| && brittle[i] :: !Cut(chunks, parts, i)
  }

  lemma {:induction false} CutsAgree(chunks: seq<seq<Byte>>, parts: seq<seq<Byte>>, brittle: seq<bool>)
    requires |parts| == |brittle|
    ensures SomeCut(0, chunks, parts, brittle) <==> !NoneCut(chunks, parts, brittle)
  {
    if SomeCut(0, chunks, parts, brittle) {
      var j := SomeCutFinds(0, chunks, parts, brittle);
      var x := InsideFinds(parts, brittle, 0, Boundary(chunks, j));
      assert Between(parts, x, Boundary(chunks, j));
      assert Cut(chunks, parts, x);
    }
    if !NoneCut(chunks, parts, brittle) {
      var x :| 0 <= x < |parts| && brittle[x] && Cut(chunks, parts, x);
      var j :| 0 <= j <= |chunks| && Between(parts, x, Boundary(chunks, j));
      BetweenIsInside(parts, brittle, 0, Boundary(chunks, j), x);
      InsideIsSomeCut(0, chunks, parts, brittle, j);
    }
  }

  // ---- RESP streams with inline pings ----

  /** Part `i` is an inline ping, or the encoding of a legal frame. */
  ghost predicate IsPart(part: seq<Byte>, ping: bool, f: Frame, lim: Limits) {
    if ping then IsInlinePing(part) && f == PING_FRAME
    else Legal(f, lim, 0) && Encode(f, lim.version) == Ok(part)
  }

  lemma {:induction false} PartDecodes(part: seq<Byte>, ping: bool, f: Frame, lim: Limits)
    requires IsPart(part, ping, f, lim)
    ensures if ping then Brittle(part, f, DecoderFor(lim)) else Spells(part, f, DecoderFor(lim))
  {
    if ping {
      forall n | 0 < n < |part| ensures Decode(part[..n], lim).Failed? {
        InlinePingMustArriveWhole(part, n, lim);
      }
    } else {
      EncodingSpells(f, lim);
    }
  }

  /**
   A stream of encoded frames and inline pings, cut into pieces, decodes to all of its frames with
   nothing left over exactly when no piece ends strictly inside an inline ping.
   */
  lemma {:induction false} ChunkingInvisibleIff(
    chunks: seq<seq<Byte>>, parts: seq<seq<Byte>>, pings: seq<bool>, frames: seq<Frame>, lim: Limits)
    requires |parts| == |pings| == |frames|
    requires forall i | 0 <= i < |parts| :: IsPart(parts[i], pings[i], frames[i], lim)
    requires Concatenated(chunks) == StreamFrom(parts, 0)
    ensures Feed(Outcome([], [], None), chunks, DecoderFor(lim)) == Outcome(frames, [], None)
      <==> NoneCut(chunks, parts, pings)
  {
    var decode := DecoderFor(lim);
    forall i | 0 <= i < |parts|
      ensures if pings[i] then Brittle(parts[i], frames[i], decode) else Spells(parts[i], frames[i], decode)
    {
      PartDecodes(parts[i], pings[i], frames[i], lim);
    }
    AnyStream(chunks, parts, pings, frames, lim, decode);
  }

  /** However a stream of legal frames alone is cut into pieces, exactly those frames come out. */
  lemma {:induction false} ChunkingIsInvisible(
    chunks: seq<seq<Byte>>, frames: seq<Frame>, parts: seq<seq<Byte>>, lim: Limits)
    requires |parts| == |frames|
    requires forall i | 0 <= i < |frames| ::
      Legal(frames[i], lim, 0) && Encode(frames[i], lim.version) == Ok(parts[i])
    requires Concatenated(chunks) == StreamFrom(parts, 0)
    ensures Feed(Outcome([], [], None), chunks, DecoderFor(lim)) == Outcome(frames, [], None)
  {
    var pings := seq(|parts|, _ => false);
    assert forall i | 0 <= i < |parts| :: IsPart(parts[i], pings[i], frames[i], lim);
    ChunkingInvisibleIff(chunks, parts, pings, frames, lim);
    assert NoneCut(chunks, parts, pings);
  }

  lemma {:induction false} AnyStream(
    chunks: seq<seq<Byte>>, parts: seq<seq<Byte>>, pings: seq<bool>, frames: seq<Frame>, lim: Limits, decode: Decoder)
    requires decode == DecoderFor(lim) && Parts(parts, pings, frames, decode)
    requires Concatenated(chunks) == StreamFrom(parts, 0)
    ensures Feed(Outcome([], [], None), chunks, decode) == Outcome(frames, [], None) <==> NoneCut(chunks, parts, pings)
  {
    DecoderGotIsFinal(lim);
    assert decode([]) == NeedMore;
    assert Drain([], [], decode) == Outcome([], [], None);
    assert [] + Concatenated(chunks) == Concatenated(chunks);
    NotInsideAtStart(parts, pings);
    FeedDecides([], chunks, parts, pings, frames, decode);
    StreamDrains(parts, pings, frames, 0, decode);
    assert frames[..0] == [];
    CutsAgree(chunks, parts, pings);
  }

  lemma {:induction false} NotInsideAtStart(parts: seq<seq<Byte>>, brittle: seq<bool>)
    requires |parts| == |brittle|
    ensures !Inside(parts, brittle, 0, 0)
  {
    if Inside(parts, brittle, 0, 0) {
      var x := InsideFinds(parts, brittle, 0, 0);
    }
  }
}

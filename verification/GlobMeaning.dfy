/** What the bytes of a pattern mean, piece by piece. */
module GlobMeaning {
  import opened Wrappers
  import opened Bytes
  import opened Glob

  /**
   `AnyRun` is `*`, `AnyOne` is `?`, `In` is `[...]`, `NotIn` is `[^...]`, and `Itself` a byte that stands
   for itself: any but these three, or a `[` that nothing closes.
   */
  datatype Piece = AnyRun | AnyOne | In(bytes: seq<Byte>) | NotIn(bytes: seq<Byte>) | Itself(b: Byte)

  function Spelling(x: Piece): (p: seq<Byte>)
    ensures p != []
  {
    match x
    case AnyRun => [42]
    case AnyOne => [63]
    case In(s) => [91] + s + [93]
    case NotIn(s) => [91, 94] + s + [93]
    case Itself(b) => [b]
  }

  function Spell(xs: seq<Piece>): seq<Byte> {
    if xs == [] then [] else Spelling(xs[0]) + Spell(xs[1..])
  }

  /** A set ends at its first `]`; a set that starts with `^` is negated; a bare `[` has no `]` after it. */
  predicate Proper(x: Piece, rest: seq<Byte>) {
    match x
    case In(s) => 93 !in s && (s != [] ==> s[0] != 94)
    case NotIn(s) => 93 !in s
    case Itself(b) => b != 42 && b != 63 && (b == 91 ==> 93 !in rest)
    case _ => true
  }

  predicate AllProper(xs: seq<Piece>) {
    xs == [] || (Proper(xs[0], Spell(xs[1..])) && AllProper(xs[1..]))
  }

  /** The texts a piece stands for. */
  predicate Means(x: Piece, c: seq<Byte>) {
    match x
    case AnyRun => true
    case AnyOne => |c| == 1
    case In(s) => |c| == 1 && c[0] in s
    case NotIn(s) => |c| == 1 && c[0] !in s
    case Itself(b) => c == [b]
  }

  /** A pattern stands for the concatenations of what its pieces stand for. */
  ghost predicate MeansAll(xs: seq<Piece>, c: seq<Byte>)
    decreases |xs|
  {
    if xs == [] then c == []
    else exists k | 0 <= k <= |c| :: Means(xs[0], c[..k]) && MeansAll(xs[1..], c[k..])
  }

  function TokenOf(x: Piece): Token {
    match x
    case AnyRun => Star
    case AnyOne => AnyByte
    case In(s) => OneOf(s, false)
    case NotIn(s) => OneOf(s, true)
    case Itself(b) => if b == 91 then Unclosed else Literal(b)
  }

  lemma {:induction false} ClosedAt(p: seq<Byte>, i: nat, n: nat)
    requires i <= n < |p| && p[n] == 93 && forall j | i <= j < n :: p[j] != 93
    ensures ClosingBracket(p, i) == Some(n)
    decreases n - i
  {
    if i < n {
      ClosedAt(p, i + 1, n);
    }
  }

  lemma {:induction false} NeverClosed(p: seq<Byte>, i: nat)
    requires i <= |p| && forall j | i <= j < |p| :: p[j] != 93
    ensures ClosingBracket(p, i) == None
    decreases |p| - i
  {
    if i < |p| {
      NeverClosed(p, i + 1);
    }
  }

  lemma {:induction false} SetToken(inside: seq<Byte>, rest: seq<Byte>)
    requires 93 !in inside
    ensures var p := [91] + inside + [93] + rest;
      FirstToken(p) == (if inside != [] && inside[0] == 94 then OneOf(inside[1..], true) else OneOf(inside, false),
                        |inside| + 2)
  {
    var p := [91] + inside + [93] + rest;
    assert p[1..|inside| + 1] == inside;
    ClosedAt(p, 1, |inside| + 1);
  }

  /** A proper piece is read as its token, whatever follows it. */
  lemma {:induction false} PieceRead(x: Piece, rest: seq<Byte>)
    requires Proper(x, rest)
    ensures FirstToken(Spelling(x) + rest) == (TokenOf(x), |Spelling(x)|)
  {
    match x
    case In(s) =>
      SetToken(s, rest);
    case NotIn(s) =>
      SetToken([94] + s, rest);
      assert [91] + ([94] + s) + [93] == [91, 94] + s + [93];
      assert ([94] + s)[1..] == s;
    case Itself(b) =>
      if b == 91 {
        NeverClosed([b] + rest, 1);
      }
    case _ =>
  }

  function TokensOf(xs: seq<Piece>): (ts: seq<Token>)
    ensures |ts| == |xs|
  {
    seq(|xs|, i requires 0 <= i < |xs| => TokenOf(xs[i]))
  }

  lemma {:induction false} PiecesRead(xs: seq<Piece>)
    requires AllProper(xs)
    ensures Tokens(Spell(xs)) == TokensOf(xs)
  {
    if xs != [] {
      var rest := Spell(xs[1..]);
      PieceRead(xs[0], rest);
      PiecesRead(xs[1..]);
      assert (Spelling(xs[0]) + rest)[|Spelling(xs[0])|..] == rest;
      assert TokensOf(xs) == [TokenOf(xs[0])] + TokensOf(xs[1..]);
    }
  }

  lemma {:induction false} SingleMeans(x: Piece, b: Byte)
    requires !x.AnyRun?
    ensures Means(x, [b]) <==> Accepts(TokenOf(x), b)
  {
  }

  lemma {:induction false} FirstPieceSplits(xs: seq<Piece>, c: seq<Byte>)
    requires xs != [] && !xs[0].AnyRun?
    ensures MeansAll(xs, c) <==> c != [] && Means(xs[0], [c[0]]) && MeansAll(xs[1..], c[1..])
  {
    if MeansAll(xs, c) {
      var k :| 0 <= k <= |c| && Means(xs[0], c[..k]) && MeansAll(xs[1..], c[k..]);
      assert k == 1 && c[..1] == [c[0]];
    }
    if c != [] {
      assert c[..1] == [c[0]];
    }
  }

  lemma {:induction false} TokensMean(xs: seq<Piece>, c: seq<Byte>)
    ensures Matches(TokensOf(xs), c) <==> MeansAll(xs, c)
    decreases |xs|
  {
    if xs != [] {
      var ts := TokensOf(xs);
      assert ts[1..] == TokensOf(xs[1..]);
      if xs[0].AnyRun? {
        forall k | 0 <= k <= |c| ensures Matches(ts[1..], c[k..]) <==> MeansAll(xs[1..], c[k..]) {
          TokensMean(xs[1..], c[k..]);
        }
        if MeansAll(xs, c) {
          var k :| 0 <= k <= |c| && Means(xs[0], c[..k]) && MeansAll(xs[1..], c[k..]);
          assert Matches(ts[1..], c[k..]);
        }
        if Matches(ts, c) {
          var k :| 0 <= k <= |c| && Matches(ts[1..], c[k..]);
          assert Means(xs[0], c[..k]) && MeansAll(xs[1..], c[k..]);
        }
      } else {
        FirstPieceSplits(xs, c);
        if c != [] {
          SingleMeans(xs[0], c[0]);
          TokensMean(xs[1..], c[1..]);
        }
      }
    }
  }

  /** The tokens of a pattern match exactly the concatenations of what its pieces stand for. */
  lemma {:induction false} PatternMeaning(xs: seq<Piece>, c: seq<Byte>)
    requires AllProper(xs)
    ensures Matches(Tokens(Spell(xs)), c) <==> MeansAll(xs, c)
  {
    PiecesRead(xs);
    TokensMean(xs, c);
  }

  function PieceOf(t: Token): Piece {
    match t
    case Star => AnyRun
    case AnyByte => AnyOne
    case OneOf(chars, negate) => if negate then NotIn(chars) else In(chars)
    case Unclosed => Itself(91)
    case Literal(b) => Itself(b)
  }

  lemma {:induction false} FirstPiece(p: seq<Byte>) returns (x: Piece, n: nat)
    requires p != []
    ensures 0 < n <= |p| && Spelling(x) == p[..n] && Proper(x, p[n..])
  {
    var (t, m) := FirstToken(p);
    x, n := PieceOf(t), m;
    if p[0] == 91 {
      var close := ClosingBracket(p, 1);
      if close.Some? {
        var inside := p[1..close.value];
        assert [91] + inside + [93] == p[..close.value + 1];
        if inside != [] && inside[0] == 94 {
          assert inside == [94] + inside[1..];
          assert [91, 94] + inside[1..] + [93] == [91] + inside + [93];
        }
      }
    }
  }

  /** Every pattern is spelled by proper pieces, so it has a meaning. */
  lemma {:induction false} EveryPatternHasPieces(p: seq<Byte>) returns (xs: seq<Piece>)
    ensures AllProper(xs) && Spell(xs) == p
  {
    if p == [] {
      xs := [];
    } else {
      var x, n := FirstPiece(p);
      var rest := EveryPatternHasPieces(p[n..]);
      xs := [x] + rest;
      assert xs[1..] == rest;
      assert p == p[..n] + p[n..];
    }
  }

  // ---- the matcher on patterns ----

  predicate NoBareBracket(xs: seq<Piece>) {
    forall i | 0 <= i < |xs| :: xs[i] != Itself(91)
  }

  /** Without a bare bracket, the matcher accepts exactly what the pieces stand for. */
  lemma {:induction false} MatcherFollowsMeaning(xs: seq<Piece>, c: seq<Byte>)
    requires AllProper(xs)
    ensures MeansAll(xs, c) ==> Matcher(Tokens(Spell(xs)), c)
    ensures NoBareBracket(xs) ==> (Matcher(Tokens(Spell(xs)), c) <==> MeansAll(xs, c))
  {
    PatternMeaning(xs, c);
    PiecesRead(xs);
    NoMatchIsMissed(Tokens(Spell(xs)), c);
    if NoBareBracket(xs) {
      var ts := TokensOf(xs);
      assert forall i | 0 <= i < |ts| :: !ts[i].Unclosed?;
      SafeMatcherDecides(ts, c);
    }
  }

  // ---- single pieces and plain text ----

  lemma {:induction false} OnePiece(x: Piece, c: seq<Byte>)
    requires Proper(x, [])
    ensures Matches(Tokens(Spelling(x)), c) <==> Means(x, c)
  {
    assert Spell([x][1..]) == [] && Spelling(x) + [] == Spelling(x);
    assert AllProper([x][1..]) && AllProper([x]);
    PatternMeaning([x], c);
    if Means(x, c) {
      assert c[..|c|] == c && c[|c|..] == [];
      assert MeansAll([x][1..], c[|c|..]);
    }
    if MeansAll([x], c) {
      var k :| 0 <= k <= |c| && Means(x, c[..k]) && MeansAll([x][1..], c[k..]);
      assert c[k..] == [] && c[..k] == c;
    }
  }

  /** `[^s]` matches exactly the single bytes that are not in `s`. */
  lemma {:induction false} NegatedSetMeaning(s: seq<Byte>, c: seq<Byte>)
    requires 93 !in s
    ensures Matches(Tokens([91, 94] + s + [93]), c) <==> |c| == 1 && c[0] !in s
  {
    OnePiece(NotIn(s), c);
  }

  /** `[s]` matches exactly the single bytes in `s`. */
  lemma {:induction false} SetMeaning(s: seq<Byte>, c: seq<Byte>)
    requires 93 !in s && (s != [] ==> s[0] != 94)
    ensures Matches(Tokens([91] + s + [93]), c) <==> |c| == 1 && c[0] in s
  {
    OnePiece(In(s), c);
  }

  /** `?` matches exactly the single bytes, and `*` matches everything. */
  lemma {:induction false} WildcardMeaning(c: seq<Byte>)
    ensures Matches(Tokens([63]), c) <==> |c| == 1
    ensures Matches(Tokens([42]), c)
  {
    OnePiece(AnyOne, c);
    OnePiece(AnyRun, c);
  }

  /** A pattern without special bytes matches exactly itself. */
  lemma {:induction false} PlainTextMeaning(p: seq<Byte>, c: seq<Byte>)
    requires forall i | 0 <= i < |p| :: p[i] != 42 && p[i] != 63 && p[i] != 91
    ensures Matches(Tokens(p), c) <==> c == p
  {
    if p != [] {
      PlainTextMeaning(p[1..], if c == [] then c else c[1..]);
      assert FirstToken(p) == (Literal(p[0]), 1);
      if c != [] {
        assert c == [c[0]] + c[1..] && p == [p[0]] + p[1..];
      }
    }
  }
}

/** Glob patterns of pattern subscriptions, and the iterative matcher that backtracks to the last star. */
module Glob {
  import opened Wrappers
  import opened Bytes

  const STAR: Byte := 42
  const QUESTION: Byte := 63
  const OPEN: Byte := 91
  const CLOSE: Byte := 93
  const CARET: Byte := 94

  /** `Unclosed` is a `[` with no `]` after it, which stands for itself. */
  datatype Token = Star | AnyByte | OneOf(chars: seq<Byte>, negate: bool) | Unclosed | Literal(b: Byte)

  predicate Accepts(t: Token, b: Byte) {
    match t
    case Star => false
    case AnyByte => true
    case OneOf(chars, negate) => if negate then b !in chars else b in chars
    case Unclosed => b == OPEN
    case Literal(l) => b == l
  }

  // ---- reading a pattern ----

  /** First `]` at or after `i`. */
  function ClosingBracket(p: seq<Byte>, i: nat): (r: Option<nat>)
    requires i <= |p|
    ensures r.Some? ==> i <= r.value < |p| && p[r.value] == CLOSE && CLOSE !in p[i..r.value]
    ensures r.None? ==> CLOSE !in p[i..]
    decreases |p| - i
  {
    if i == |p| then None
    else if p[i] == CLOSE then Some(i)
    else ClosingBracket(p, i + 1)
  }

  function FirstToken(p: seq<Byte>): (r: (Token, nat))
    requires p != []
    ensures 1 <= r.1 <= |p|
  {
    if p[0] == STAR then (Star, 1)
    else if p[0] == QUESTION then (AnyByte, 1)
    else if p[0] == OPEN then
      var close := ClosingBracket(p, 1);
      if close.None? then (Unclosed, 1)
      else
        var chars := p[1..close.value];
        if chars != [] && chars[0] == CARET then (OneOf(chars[1..], true), close.value + 1)
        else (OneOf(chars, false), close.value + 1)
    else (Literal(p[0]), 1)
  }

  function Tokens(p: seq<Byte>): seq<Token> {
    if p == [] then [] else [FirstToken(p).0] + Tokens(p[FirstToken(p).1..])
  }

  // ---- what a pattern means ----

  /** A star stands for any run of bytes, every other token for one byte it accepts. */
  ghost predicate Matches(ts: seq<Token>, c: seq<Byte>)
    decreases |ts|
  {
    if ts == [] then c == []
    else if ts[0].Star? then exists k | 0 <= k <= |c| :: Matches(ts[1..], c[k..])
    else c != [] && Accepts(ts[0], c[0]) && Matches(ts[1..], c[1..])
  }

  // ---- the matcher, on tokens ----

  predicate AllStars(ts: seq<Token>) {
    forall i | 0 <= i < |ts| :: ts[i].Star?
  }

  ghost predicate StateOk(ts: seq<Token>, c: seq<Byte>, ti: nat, ci: nat, star: Option<nat>, after: nat) {
    && ti <= |ts| && ci <= |c|
    && (star.Some? ==> star.value < ti && ts[star.value].Star? && after <= ci)
    && (star.None? ==> after == 0)
  }

  /**
   The matcher's loop. `star` is the last star passed, `after` where the text after it
   was last tried. A mismatch on an unclosed bracket returns at once.
   */
  ghost function Search(ts: seq<Token>, c: seq<Byte>, ti: nat, ci: nat, star: Option<nat>, after: nat): bool
    requires StateOk(ts, c, ti, ci, star, after)
    decreases |ts| - (if star.Some? then star.value + 1 else 0), |c| - after, |c| - ci
  {
    if ci == |c| then AllStars(ts[ti..])
    else if ti < |ts| && ts[ti].Star? then Search(ts, c, ti + 1, ci, Some(ti), ci)
    else if ti < |ts| && Accepts(ts[ti], c[ci]) then Search(ts, c, ti + 1, ci + 1, star, after)
    else if ti < |ts| && ts[ti].Unclosed? then star.Some?
    else if star.None? then false
    else Search(ts, c, star.value + 1, after + 1, star, after + 1)
  }

  ghost function Matcher(ts: seq<Token>, c: seq<Byte>): bool {
    Search(ts, c, 0, 0, None, 0)
  }

  // ---- the matcher decides the meaning ----

  /** The tokens from `ti` match the text from `j`. */
  ghost predicate At(ts: seq<Token>, c: seq<Byte>, ti: nat, j: nat)
    requires ti <= |ts|
  {
    j <= |c| && Matches(ts[ti..], c[j..])
  }

  ghost predicate AfterStar(ts: seq<Token>, c: seq<Byte>, star: nat, j: nat)
    requires star < |ts|
  {
    At(ts, c, star + 1, j)
  }

  /** What is still to be decided: the text from here, or a later try of the last star. */
  ghost predicate Open(ts: seq<Token>, c: seq<Byte>, ti: nat, ci: nat, star: Option<nat>, after: nat)
    requires StateOk(ts, c, ti, ci, star, after)
  {
    At(ts, c, ti, ci) || (star.Some? && At(ts, c, star.value, after + 1))
  }

  /**
   Everything since the last star is a run of single-byte tokens: a match of the text after
   the star that starts `d` bytes later than the current try passes this point `d` bytes later.
   */
  ghost predicate Aligned(ts: seq<Token>, c: seq<Byte>, ti: nat, ci: nat, star: Option<nat>, after: nat)
    requires StateOk(ts, c, ti, ci, star, after)
  {
    star.Some? ==>
      forall j | after <= j && AfterStar(ts, c, star.value, j) :: At(ts, c, ti, j + (ci - after))
  }

  lemma {:induction false} AtStar(ts: seq<Token>, c: seq<Byte>, ti: nat, j: nat)
    requires ti < |ts| && ts[ti].Star?
    ensures At(ts, c, ti, j) <==> j <= |c| && (At(ts, c, ti + 1, j) || At(ts, c, ti, j + 1))
  {
    if j <= |c| {
      StarStep(ts[ti..], c[j..]);
      assert ts[ti..][1..] == ts[ti + 1..];
      if j < |c| { assert c[j..][1..] == c[j + 1..]; }
    }
  }

  lemma {:induction false} AtStarEarlier(ts: seq<Token>, c: seq<Byte>, ti: nat, i: nat, j: nat)
    requires ti < |ts| && ts[ti].Star? && i <= j && At(ts, c, ti, j)
    ensures At(ts, c, ti, i)
    decreases j - i
  {
    if i < j {
      AtStarEarlier(ts, c, ti, i + 1, j);
      AtStar(ts, c, ti, i);
    }
  }

  /** A star matches from `i` exactly when what follows it matches somewhere from `i` on. */
  lemma {:induction false} AtStarLater(ts: seq<Token>, c: seq<Byte>, ti: nat, i: nat) returns (j: nat)
    requires ti < |ts| && ts[ti].Star? && At(ts, c, ti, i)
    ensures i <= j && AfterStar(ts, c, ti, j)
    decreases |c| - i
  {
    AtStar(ts, c, ti, i);
    if At(ts, c, ti + 1, i) { j := i; } else { j := AtStarLater(ts, c, ti, i + 1); }
  }

  lemma {:induction false} AtToken(ts: seq<Token>, c: seq<Byte>, ti: nat, j: nat)
    requires ti < |ts| && !ts[ti].Star?
    ensures At(ts, c, ti, j) <==> j < |c| && Accepts(ts[ti], c[j]) && At(ts, c, ti + 1, j + 1)
  {
    if j <= |c| {
      assert ts[ti..][1..] == ts[ti + 1..];
      if j < |c| { assert c[j..][1..] == c[j + 1..]; }
    }
  }

  lemma {:induction false} AtEnd(ts: seq<Token>, c: seq<Byte>, ti: nat)
    requires ti <= |ts|
    ensures At(ts, c, ti, |c|) <==> AllStars(ts[ti..])
    ensures forall j | 0 <= j < |c| :: !At(ts, c, |ts|, j)
  {
    assert c[|c|..] == [];
    AllStarsMatchEmpty(ts[ti..]);
  }

  lemma {:induction false} StarStep(ts: seq<Token>, c: seq<Byte>)
    requires ts != [] && ts[0].Star?
    ensures Matches(ts, c) <==> Matches(ts[1..], c) || (c != [] && Matches(ts, c[1..]))
  {
    assert c[0..] == c;
    if c != [] {
      forall k | 0 <= k <= |c[1..]| ensures c[1..][k..] == c[k + 1..] {}
      if Matches(ts, c) {
        var k :| 0 <= k <= |c| && Matches(ts[1..], c[k..]);
        if k > 0 { assert c[1..][k - 1..] == c[k..]; }
      }
      if Matches(ts, c[1..]) {
        var k :| 0 <= k <= |c[1..]| && Matches(ts[1..], c[1..][k..]);
        assert Matches(ts[1..], c[k + 1..]);
      }
    }
  }

  lemma {:induction false} AllStarsMatchEmpty(ts: seq<Token>)
    ensures Matches(ts, []) <==> AllStars(ts)
  {
    if ts != [] {
      AllStarsMatchEmpty(ts[1..]);
      if ts[0].Star? {
        StarStep(ts, []);
        assert AllStars(ts) <==> AllStars(ts[1..]) by {
          assert forall i | 0 < i < |ts| :: ts[i] == ts[1..][i - 1];
        }
      }
    }
  }

  /** A retry of the last star that succeeds passes the current point later in the text. */
  lemma {:induction false} LaterTry(ts: seq<Token>, c: seq<Byte>, ti: nat, ci: nat, star: Option<nat>, after: nat)
    returns (j: nat)
    requires StateOk(ts, c, ti, ci, star, after) && Aligned(ts, c, ti, ci, star, after)
    requires star.Some? && At(ts, c, star.value, after + 1)
    ensures ci < j <= |c| && At(ts, c, ti, j)
  {
    var from := AtStarLater(ts, c, star.value, after + 1);
    j := from + (ci - after);
    assert At(ts, c, ti, j);
  }

  /** Moving on to a new star loses nothing: it can absorb whatever an older retry would skip. */
  lemma {:induction false} NewStar(ts: seq<Token>, c: seq<Byte>, ti: nat, ci: nat, star: Option<nat>, after: nat)
    requires StateOk(ts, c, ti, ci, star, after) && Aligned(ts, c, ti, ci, star, after)
    requires ti < |ts| && ts[ti].Star?
    ensures Open(ts, c, ti, ci, star, after) <==> Open(ts, c, ti + 1, ci, Some(ti), ci)
    ensures Aligned(ts, c, ti + 1, ci, Some(ti), ci)
  {
    AtStar(ts, c, ti, ci);
    if star.Some? && At(ts, c, star.value, after + 1) {
      var j := LaterTry(ts, c, ti, ci, star, after);
      AtStarEarlier(ts, c, ti, ci, j);
    }
  }

  lemma {:induction false} Advance(ts: seq<Token>, c: seq<Byte>, ti: nat, ci: nat, star: Option<nat>, after: nat)
    requires StateOk(ts, c, ti, ci, star, after) && Aligned(ts, c, ti, ci, star, after)
    requires ci < |c| && ti < |ts| && !ts[ti].Star? && Accepts(ts[ti], c[ci])
    ensures Open(ts, c, ti, ci, star, after) <==> Open(ts, c, ti + 1, ci + 1, star, after)
    ensures Aligned(ts, c, ti + 1, ci + 1, star, after)
  {
    AtToken(ts, c, ti, ci);
    if star.Some? {
      forall j | after <= j && AfterStar(ts, c, star.value, j)
        ensures At(ts, c, ti + 1, j + (ci + 1 - after))
      {
        AtToken(ts, c, ti, j + (ci - after));
      }
    }
  }

  lemma {:induction false} Retry(ts: seq<Token>, c: seq<Byte>, ti: nat, ci: nat, star: Option<nat>, after: nat)
    requires StateOk(ts, c, ti, ci, star, after) && star.Some? && ci < |c|
    requires !At(ts, c, ti, ci)
    ensures Open(ts, c, ti, ci, star, after)
            <==> Open(ts, c, star.value + 1, after + 1, star, after + 1)
    ensures Aligned(ts, c, star.value + 1, after + 1, star, after + 1)
  {
    AtStar(ts, c, star.value, after + 1);
  }

  predicate Satisfiable(t: Token) {
    exists b: Byte :: Accepts(t, b)
  }

  /** All single-byte tokens before position `n` accept some byte. */
  ghost predicate Passable(ts: seq<Token>, n: nat)
    requires n <= |ts|
  {
    forall i | 0 <= i < n && !ts[i].Star? :: Satisfiable(ts[i])
  }

  /** An unclosed bracket that follows a star and that some text can lead up to. */
  ghost predicate Hazard(ts: seq<Token>, n: nat)
    requires n < |ts|
  {
    ts[n].Unclosed? && Passable(ts, n) && exists i :: 0 <= i < n && ts[i].Star?
  }

  ghost predicate Safe(ts: seq<Token>) {
    forall n | 0 <= n < |ts| :: !Hazard(ts, n)
  }

  /** From every state of the loop: no match is missed, and none is invented by a safe pattern. */
  lemma {:induction false} SearchDecides(ts: seq<Token>, c: seq<Byte>, ti: nat, ci: nat, star: Option<nat>, after: nat)
    requires StateOk(ts, c, ti, ci, star, after) && Aligned(ts, c, ti, ci, star, after)
    requires Passable(ts, ti)
    ensures Open(ts, c, ti, ci, star, after) ==> Search(ts, c, ti, ci, star, after)
    ensures Safe(ts) && Search(ts, c, ti, ci, star, after) ==> Open(ts, c, ti, ci, star, after)
    decreases |ts| - (if star.Some? then star.value + 1 else 0), |c| - after, |c| - ci
  {
    if ci == |c| {
      AtEnd(ts, c, ti);
      if star.Some? && At(ts, c, star.value, after + 1) {
        var j := LaterTry(ts, c, ti, ci, star, after);
      }
    } else if ti < |ts| && ts[ti].Star? {
      NewStar(ts, c, ti, ci, star, after);
      SearchDecides(ts, c, ti + 1, ci, Some(ti), ci);
    } else if ti < |ts| && Accepts(ts[ti], c[ci]) {
      Advance(ts, c, ti, ci, star, after);
      SearchDecides(ts, c, ti + 1, ci + 1, star, after);
    } else {
      if ti < |ts| { AtToken(ts, c, ti, ci); } else { AtEnd(ts, c, ti); }
      if ti < |ts| && ts[ti].Unclosed? {
        assert star.Some? ==> Hazard(ts, ti);
      } else if star.Some? {
        Retry(ts, c, ti, ci, star, after);
        SearchDecides(ts, c, star.value + 1, after + 1, star, after + 1);
      }
    }
  }

  /** Backtracking only to the last star loses no match, whatever the pattern. */
  lemma {:induction false} NoMatchIsMissed(ts: seq<Token>, c: seq<Byte>)
    ensures Matches(ts, c) ==> Matcher(ts, c)
  {
    assert ts[0..] == ts && c[0..] == c;
    SearchDecides(ts, c, 0, 0, None, 0);
  }

  lemma {:induction false} SafeMatcherDecides(ts: seq<Token>, c: seq<Byte>)
    requires Safe(ts)
    ensures Matcher(ts, c) <==> Matches(ts, c)
  {
    assert ts[0..] == ts && c[0..] == c;
    SearchDecides(ts, c, 0, 0, None, 0);
  }

  // ---- an unsafe pattern accepts a text it does not match ----

  ghost function Pick(t: Token): (b: Byte)
    requires Satisfiable(t)
    ensures Accepts(t, b)
  {
    var b: Byte :| Accepts(t, b);
    b
  }

  /** The shortest text that leads the matcher up to position `n`. */
  ghost function Text(ts: seq<Token>, n: nat): seq<Byte>
    requires n <= |ts| && Passable(ts, n)
  {
    if n == 0 then []
    else if ts[n - 1].Star? then Text(ts, n - 1)
    else Text(ts, n - 1) + [Pick(ts[n - 1])]
  }

  lemma {:induction false} TextPrefix(ts: seq<Token>, m: nat, n: nat)
    requires m <= n <= |ts| && Passable(ts, n)
    ensures Text(ts, m) <= Text(ts, n)
    ensures m < n && !ts[m].Star? ==>
      |Text(ts, m)| < |Text(ts, n)| && Text(ts, n)[|Text(ts, m)|] == Pick(ts[m])
  {
    if m < n {
      TextPrefix(ts, m, n - 1);
    }
  }

  /** On that text followed by a byte other than `[` the matcher reaches the bracket and says yes. */
  lemma {:induction false} ReachesHazard(
    ts: seq<Token>, c: seq<Byte>, n: nat, ti: nat, star: Option<nat>, after: nat)
    requires n < |ts| && Hazard(ts, n) && c == Text(ts, n) + [0] && ti <= n
    requires StateOk(ts, c, ti, |Text(ts, ti)|, star, after)
    requires star.None? ==> forall i | 0 <= i < ti :: !ts[i].Star?
    ensures Search(ts, c, ti, |Text(ts, ti)|, star, after)
    decreases n - ti
  {
    TextPrefix(ts, ti, n);
    var ci := |Text(ts, ti)|;
    if ti < n {
      if ts[ti].Star? {
        ReachesHazard(ts, c, n, ti + 1, Some(ti), ci);
      } else {
        assert c[ci] == Pick(ts[ti]);
        ReachesHazard(ts, c, n, ti + 1, star, after);
      }
    }
  }

  function Singles(ts: seq<Token>): nat {
    if ts == [] then 0 else (if ts[0].Star? then 0 else 1) + Singles(ts[1..])
  }

  lemma {:induction false} SinglesSplit(ts: seq<Token>, n: nat)
    requires n <= |ts|
    ensures Singles(ts) == Singles(ts[..n]) + Singles(ts[n..])
  {
    if n > 0 {
      SinglesSplit(ts[1..], n - 1);
      assert ts[..n][1..] == ts[1..][..n - 1] && ts[n..] == ts[1..][n - 1..];
    } else {
      assert ts[0..] == ts;
    }
  }

  lemma {:induction false} TextLength(ts: seq<Token>, n: nat)
    requires n <= |ts| && Passable(ts, n)
    ensures |Text(ts, n)| == Singles(ts[..n])
  {
    if n > 0 {
      TextLength(ts, n - 1);
      SinglesSplit(ts[..n], n - 1);
      assert ts[..n][..n - 1] == ts[..n - 1] && ts[..n][n - 1..] == [ts[n - 1]];
      assert Singles([ts[n - 1]]) == if ts[n - 1].Star? then 0 else 1;
    }
  }

  /** A text is at least as long as the single-byte tokens it matches. */
  lemma {:induction false} MatchLength(ts: seq<Token>, c: seq<Byte>)
    requires Matches(ts, c)
    ensures |c| >= Singles(ts)
    decreases |ts|
  {
    if ts != [] {
      if ts[0].Star? {
        var k :| 0 <= k <= |c| && Matches(ts[1..], c[k..]);
        MatchLength(ts[1..], c[k..]);
      } else {
        MatchLength(ts[1..], c[1..]);
      }
    }
  }

  /** If it is exactly as long, the stars are empty and every token sits at its own place. */
  lemma {:induction false} TightMatch(ts: seq<Token>, c: seq<Byte>, n: nat)
    requires Matches(ts, c) && |c| == Singles(ts) && n < |ts| && !ts[n].Star?
    ensures Singles(ts[..n]) < |c| && Accepts(ts[n], c[Singles(ts[..n])])
    decreases |ts|
  {
    if n > 0 {
      assert ts[..n][1..] == ts[1..][..n - 1];
      if ts[0].Star? {
        var k :| 0 <= k <= |c| && Matches(ts[1..], c[k..]);
        MatchLength(ts[1..], c[k..]);
        assert c[0..] == c;
        TightMatch(ts[1..], c, n - 1);
      } else {
        TightMatch(ts[1..], c[1..], n - 1);
      }
    } else {
      assert ts[..0] == [];
    }
  }

  lemma {:induction false} HazardFoolsMatcher(ts: seq<Token>, n: nat) returns (c: seq<Byte>)
    requires n < |ts| && Hazard(ts, n)
    ensures Matcher(ts, c) && !Matches(ts, c)
  {
    c := Text(ts, n) + [0];
    ReachesHazard(ts, c, n, 0, None, 0);
    TextLength(ts, n);
    SinglesSplit(ts, n);
    assert ts[n..][0] == ts[n];
    if Matches(ts, c) {
      MatchLength(ts, c);
      TightMatch(ts, c, n);
    }
  }

  /** The matcher decides a pattern on every text exactly when the pattern is safe. */
  lemma {:induction false} MatcherDecidesIffSafe(ts: seq<Token>)
    ensures Safe(ts) <==> forall c: seq<Byte> :: Matcher(ts, c) <==> Matches(ts, c)
  {
    if Safe(ts) {
      forall c: seq<Byte> ensures Matcher(ts, c) <==> Matches(ts, c) {
        SafeMatcherDecides(ts, c);
      }
    } else {
      var n :| 0 <= n < |ts| && Hazard(ts, n);
      var c := HazardFoolsMatcher(ts, n);
    }
  }

  // ---- the matcher, on bytes ----

  /** Byte position of the `i`-th token. */
  ghost function Pos(p: seq<Byte>, i: nat): nat
    decreases i
  {
    if i == 0 || p == [] then 0 else FirstToken(p).1 + Pos(p[FirstToken(p).1..], i - 1)
  }

  lemma {:induction false} PosFacts(p: seq<Byte>, i: nat)
    requires i <= |Tokens(p)|
    ensures Pos(p, i) <= |p| && Tokens(p[Pos(p, i)..]) == Tokens(p)[i..]
    ensures Pos(p, i) == |p| <==> i == |Tokens(p)|
    ensures Pos(p, i) < |p| ==> Pos(p, i + 1) == Pos(p, i) + FirstToken(p[Pos(p, i)..]).1
  {
    if i == 0 {
      assert p[0..] == p;
    } else {
      var w := FirstToken(p).1;
      PosFacts(p[w..], i - 1);
      assert p[w..][Pos(p[w..], i - 1)..] == p[Pos(p, i)..];
      assert Tokens(p)[1..] == Tokens(p[w..]);
    }
  }

  /** The element at a token's position is that token. */
  lemma {:induction false} ElementAt(p: seq<Byte>, i: nat)
    requires i <= |Tokens(p)|
    ensures Pos(p, i) <= |p|
    ensures Pos(p, i) == |p| <==> i == |Tokens(p)|
    ensures i < |Tokens(p)| ==>
      && Tokens(p)[i] == FirstToken(p[Pos(p, i)..]).0
      && Pos(p, i + 1) == Pos(p, i) + FirstToken(p[Pos(p, i)..]).1
      && (Tokens(p)[i].Star? <==> p[Pos(p, i)] == STAR)
      && (Tokens(p)[i].Star? ==> Pos(p, i + 1) == Pos(p, i) + 1)
  {
    PosFacts(p, i);
    if i < |Tokens(p)| {
      assert Tokens(p[Pos(p, i)..])[0] == Tokens(p)[i..][0];
    }
  }

  datatype Attempt = Consumed(width: nat) | Mismatch | BareBracket

  method TryFirst(p: seq<Byte>, b: Byte) returns (r: Attempt)
    requires p != [] && p[0] != STAR
    ensures var (t, n) := FirstToken(p);
      r == if Accepts(t, b) then Consumed(n) else if t.Unclosed? then BareBracket else Mismatch
  {
    if p[0] == QUESTION {
      return Consumed(1);
    } else if p[0] == OPEN {
      var close := ClosingBracket(p, 1);
      if close.None? {
        return if p[0] == b then Consumed(1) else BareBracket;
      }
      var chars := p[1..close.value];
      var negate := chars != [] && chars[0] == CARET;
      if negate {
        chars := chars[1..];
      }
      var inSet := b in chars;
      return if (if negate then !inSet else inSet) then Consumed(close.value + 1) else Mismatch;
    } else {
      return if p[0] == b then Consumed(1) else Mismatch;
    }
  }

  /** Tries the pattern element at `pi`, which is not a star, on one byte. */
  method TryElement(pattern: seq<Byte>, pi: nat, b: Byte, ghost ti: nat) returns (r: Attempt)
    requires ti < |Tokens(pattern)| && pi == Pos(pattern, ti) && !Tokens(pattern)[ti].Star?
    ensures r.Consumed? <==> Accepts(Tokens(pattern)[ti], b)
    ensures r.Consumed? ==> pi + r.width == Pos(pattern, ti + 1)
    ensures r.BareBracket? <==> Tokens(pattern)[ti].Unclosed? && !r.Consumed?
  {
    ElementAt(pattern, ti);
    r := TryFirst(pattern[pi..], b);
  }

  /** What is left of the pattern must be stars. */
  method OnlyStarsLeft(pattern: seq<Byte>, from: nat, ghost ti: nat) returns (r: bool)
    requires ti <= |Tokens(pattern)| && from == Pos(pattern, ti)
    ensures r == AllStars(Tokens(pattern)[ti..])
  {
    ghost var ts := Tokens(pattern);
    ElementAt(pattern, ti);
    var pi: nat := from;
    ghost var i := ti;
    while pi < |pattern| && pattern[pi] == STAR
      invariant ti <= i <= |ts| && pi == Pos(pattern, i)
      invariant forall j | ti <= j < i :: ts[j].Star?
      decreases |pattern| - pi
    {
      ElementAt(pattern, i);
      pi, i := pi + 1, i + 1;
    }
    ElementAt(pattern, i);
    r := pi == |pattern|;
    assert forall j | ti <= j < |ts| :: ts[ti..][j - ti] == ts[j];
    assert !r ==> !ts[ti..][i - ti].Star?;
  }

  /** The matcher's loop over bytes; it always ends. */
  method Run(pattern: seq<Byte>, candidate: seq<Byte>) returns (r: bool)
    ensures r == Matcher(Tokens(pattern), candidate)
  {
    ghost var ts := Tokens(pattern);
    var pi: nat, ci: nat := 0, 0;
    var star: Option<nat> := None;
    var matchAfterStar: nat := 0;
    ghost var ti: nat := 0;
    ghost var starToken: Option<nat> := None;
    while ci < |candidate|
      invariant StateOk(ts, candidate, ti, ci, starToken, matchAfterStar)
      invariant pi == Pos(pattern, ti)
      invariant star.Some? == starToken.Some?
      invariant star.Some? ==> star.value + 1 == Pos(pattern, starToken.value + 1)
      invariant Matcher(ts, candidate) == Search(ts, candidate, ti, ci, starToken, matchAfterStar)
      decreases |ts| - (if starToken.Some? then starToken.value + 1 else 0),
                |candidate| - matchAfterStar, |candidate| - ci
    {
      ElementAt(pattern, ti);
      if pi < |pattern| {
        if pattern[pi] == STAR {
          star, starToken := Some(pi), Some(ti);
          matchAfterStar := ci;
          pi, ti := pi + 1, ti + 1;
          continue;
        }
        var attempt := TryElement(pattern, pi, candidate[ci], ti);
        if attempt.Consumed? {
          pi, ci, ti := pi + attempt.width, ci + 1, ti + 1;
          continue;
        } else if attempt.BareBracket? {
          return star.Some?;
        }
      }
      if star.None? {
        return false;
      }
      pi, ti := star.value + 1, starToken.value + 1;
      matchAfterStar := matchAfterStar + 1;
      ci := matchAfterStar;
    }
    r := OnlyStarsLeft(pattern, pi, ti);
  }

  /** Never misses a match; exact on every safe pattern. */
  method PatternMatches(pattern: seq<Byte>, candidate: seq<Byte>) returns (r: bool)
    ensures Matches(Tokens(pattern), candidate) ==> r
    ensures Safe(Tokens(pattern)) ==> (r <==> Matches(Tokens(pattern), candidate))
  {
    ghost var ts := Tokens(pattern);
    NoMatchIsMissed(ts, candidate);
    if Safe(ts) { SafeMatcherDecides(ts, candidate); }
    r := Run(pattern, candidate);
  }
}

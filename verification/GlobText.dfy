/** Shell patterns as they are written, and what they match: every list of pieces has a text that both matchers read as
  that list, and a name matches a list exactly when it can be cut into parts that match the pieces. */
module GlobText {
  import opened Glob

  predicate Special(c: char) {
    c == '*' || c == '?' || c == '\\' || c == '['
  }

  function PieceText(x: Piece): string {
    match x
    case Star => "*"
    case AnyChar => "?"
    case Exactly(c) => if Special(c) then ['\\', c] else [c]
  }

  function Text(ps: seq<Piece>): string {
    if ps == [] then "" else PieceText(ps[0]) + Text(ps[1..])
  }

  /** Without escapes. */
  predicate PlainPiece(x: Piece) {
    x.Exactly? ==> !Special(x.c)
  }

  /** pmatch() reads a text as the pieces that it was written for. */
  lemma {:induction false} TextRead(p: string, i: nat, ps: seq<Piece>)
    requires i <= |p| && p[i..] == Text(ps)
    ensures Pieces(p, i) == ps
    decreases |ps|
  {
    if ps == [] { return; }
    var first := PieceText(ps[0]);
    assert p[i] == first[0] && p[i + |first|..] == p[i..][|first|..] == Text(ps[1..]);
    TextRead(p, i + |first|, ps[1..]);
    if |first| == 2 {
      assert p[i + 1] == p[i..][1] == first[1];
    }
    assert ps == [ps[0]] + ps[1..];
  }

  /** So does glob_match(), if nothing is escaped. */
  lemma {:induction false} PlainRead(p: string, i: nat, ps: seq<Piece>)
    requires i <= |p| && p[i..] == Text(ps) && forall k :: 0 <= k < |ps| ==> PlainPiece(ps[k])
    ensures PlainPieces(p, i) == ps
    decreases |ps|
  {
    if ps == [] { return; }
    assert PlainPiece(ps[0]);
    var first := PieceText(ps[0]);
    assert p[i] == first[0] && p[i + 1..] == p[i..][1..] == Text(ps[1..]);
    PlainRead(p, i + 1, ps[1..]);
    assert ps == [ps[0]] + ps[1..];
  }

  // ----- what pieces match

  /** A name matches two lists one after the other exactly when it can be cut into names that match them. */
  lemma {:induction false} MatchesBoth(a: seq<Piece>, b: seq<Piece>, s: string, i: nat)
    requires i <= |s|
    ensures Matches(a + b, s, i) <==> exists k: nat :: i <= k <= |s| && Matches(a, s[..k], i) && Matches(b, s, k)
    decreases |a|
  {
    if a == [] {
      assert a + b == b;
      assert Matches(b, s, i) ==> i <= i <= |s| && Matches(a, s[..i], i);
      return;
    }
    var rest := a[1..];
    assert (a + b)[0] == a[0] && (a + b)[1..] == rest + b;
    match a[0]
    case Star => StarBoth(a, rest, b, s, i);
    case _ => if i < |s| {
      MatchesBoth(rest, b, s, i + 1);
      OneBoth(a, rest, b, s, i);
    }
  }

  lemma StarBoth(a: seq<Piece>, rest: seq<Piece>, b: seq<Piece>, s: string, i: nat)
    requires i <= |s| && a != [] && a[0] == Star && rest == a[1..] && (a + b)[0] == Star && (a + b)[1..] == rest + b
    ensures Matches(a + b, s, i) <==> exists k: nat :: i <= k <= |s| && Matches(a, s[..k], i) && Matches(b, s, k)
    decreases |a|, 0
  {
    assert a == [Star] + rest && a + b == [Star] + (rest + b);
    if Matches(a + b, s, i) {
      StarIs(rest + b, s, i);
      assert StarMatches(rest + b, s, i);
      var m: nat :| i <= m <= |s| && Matches(rest + b, s, m);
      MatchesBoth(rest, b, s, m);
      var k: nat :| m <= k <= |s| && Matches(rest, s[..k], m) && Matches(b, s, k);
      StarIs(rest, s[..k], i);
      assert Matches(a, s[..k], i);
    }
    if k: nat :| i <= k <= |s| && Matches(a, s[..k], i) && Matches(b, s, k) {
      StarIs(rest, s[..k], i);
      assert StarMatches(rest, s[..k], i);
      var m: nat :| i <= m <= k && Matches(rest, s[..k], m);
      MatchesBoth(rest, b, s, m);
      assert Matches(rest + b, s, m);
      StarIs(rest + b, s, i);
    }
  }

  lemma OneBoth(a: seq<Piece>, rest: seq<Piece>, b: seq<Piece>, s: string, i: nat)
    requires i < |s| && a != [] && a[0] != Star && rest == a[1..] && (a + b)[0] == a[0] && (a + b)[1..] == rest + b
    requires Matches(rest + b, s, i + 1) <==>
      exists k: nat :: i + 1 <= k <= |s| && Matches(rest, s[..k], i + 1) && Matches(b, s, k)
    ensures Matches(a + b, s, i) <==> exists k: nat :: i <= k <= |s| && Matches(a, s[..k], i) && Matches(b, s, k)
  {
    if Matches(a + b, s, i) {
      var k: nat :| i + 1 <= k <= |s| && Matches(rest, s[..k], i + 1) && Matches(b, s, k);
      assert Matches(a, s[..k], i);
    }
    if k: nat :| i <= k <= |s| && Matches(a, s[..k], i) && Matches(b, s, k) {
      assert i + 1 <= k <= |s| && Matches(rest, s[..k], i + 1);
    }
  }

  /** The parts: a star matches every name, a question mark one character, another piece that character. */
  lemma MatchesPart(c: char, s: string, i: nat)
    requires i <= |s|
    ensures Matches([Star], s, i) && (Matches([], s, i) <==> i == |s|)
    ensures Matches([AnyChar], s, i) <==> |s| == i + 1
    ensures Matches([Exactly(c)], s, i) <==> s[i..] == [c]
  {
    assert [Star][1..] == [] && [AnyChar][1..] == [] && [Exactly(c)][1..] == [];
    assert Matches([], s, |s|);
  }

  function Word(w: string): seq<Piece> {
    seq(|w|, k requires 0 <= k < |w| => Exactly(w[k]))
  }

  lemma {:induction false} WordIs(w: string, s: string, i: nat)
    requires i <= |s|
    ensures Matches(Word(w), s, i) <==> s[i..] == w
    decreases |w|
  {
    if w == "" { return; }
    assert Word(w)[1..] == Word(w[1..]) && w == [w[0]] + w[1..];
    if i < |s| {
      WordIs(w[1..], s, i + 1);
      assert s[i..] == [s[i]] + s[i + 1..];
    }
  }

  lemma {:induction false} WordText(w: string)
    requires forall k :: 0 <= k < |w| ==> !Special(w[k])
    ensures Text(Word(w)) == w
    decreases |w|
  {
    if w != "" {
      WordText(w[1..]);
      assert Word(w)[1..] == Word(w[1..]) && w == [w[0]] + w[1..];
    }
  }

  /** A pattern of ordinary characters matches that name only, in both matchers. */
  lemma WordMatches(w: string, s: string)
    requires forall k :: 0 <= k < |w| ==> !Special(w[k])
    ensures Pieces(w, 0) == PlainPieces(w, 0) == Word(w) && (Matches(Word(w), s, 0) <==> s == w)
  {
    WordText(w);
    assert w[0..] == w && s[0..] == s;
    TextRead(w, 0, Word(w));
    PlainRead(w, 0, Word(w));
    WordIs(w, s, 0);
  }

  /** A text t that is a star and a word behind it. */
  lemma SuffixReads(t: string, w: string)
    requires t != "" && t[0] == '*' && t[1..] == w && forall k :: 0 <= k < |w| ==> !Special(w[k])
    ensures Pieces(t, 0) == PlainPieces(t, 0) == [Star] + Word(w)
  {
    var p := [Star] + Word(w);
    WordText(w);
    assert p[0] == Star && p[1..] == Word(w);
    hide Pieces, PlainPieces;
    assert Text(p) == PieceText(Star) + w == t[0..];
    assert forall k :: 0 <= k < |p| ==> PlainPiece(p[k]);
    hide Text;
    TextRead(t, 0, p);
    PlainRead(t, 0, p);
  }

  /** It matches the names that end with that word. */
  lemma SuffixMatches(w: string, s: string)
    ensures Matches([Star] + Word(w), s, 0) <==> |w| <= |s| && s[|s| - |w|..] == w
  {
    hide Matches, Word;
    StarIs(Word(w), s, 0);
    forall k: nat | k <= |s| && Matches(Word(w), s, k)
      ensures |w| <= |s| && k == |s| - |w|
    {
      WordIs(w, s, k);
      assert |s[k..]| == |s| - k;
    }
    if |w| <= |s| {
      var n := |s| - |w|;
      WordIs(w, s, n);
      assert Matches(Word(w), s, n) ==> StarMatches(Word(w), s, 0);
    }
  }
}

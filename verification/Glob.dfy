/** The two shell-pattern matchers: pmatch() of apps/dash/expand.c and glob_match() of apps/find.c.
  Pointers into the pattern and the name are indices.  Both matchers decide the same relation between
  patterns and names, which is defined without any search order. */
module Glob {

  datatype Piece = Star | AnyChar | Exactly(c: char)

  /** The pieces match the name from position `i` to its end: a star any characters, the others one. */
  ghost predicate Matches(ps: seq<Piece>, s: string, i: nat)
    requires i <= |s|
    decreases |ps|
  {
    if ps == [] then i == |s|
    else
      match ps[0]
      case Star => exists k: nat :: i <= k <= |s| && Matches(ps[1..], s, k)
      case AnyChar => i < |s| && Matches(ps[1..], s, i + 1)
      case Exactly(c) => i < |s| && s[i] == c && Matches(ps[1..], s, i + 1)
  }

  function CharAt(s: string, i: nat): char {
    if i < |s| then s[i] else '\0'
  }

  ghost predicate CString(s: string) {
    forall i :: 0 <= i < |s| ==> s[i] != '\0'
  }

  predicate Escape(p: string, i: nat) {
    i + 1 < |p| && p[i] == '\\'
  }

  /** The shell's patterns: a backslash makes the next character literal, and is itself literal at the
      end of the pattern. */
  function Pieces(p: string, i: nat): seq<Piece>
    decreases |p| - i
  {
    if i >= |p| then []
    else if p[i] == '*' then [Star] + Pieces(p, i + 1)
    else if p[i] == '?' then [AnyChar] + Pieces(p, i + 1)
    else if Escape(p, i) then [Exactly(p[i + 1])] + Pieces(p, i + 2)
    else [Exactly(p[i])] + Pieces(p, i + 1)
  }

  /** find's patterns have no escapes. */
  function PlainPieces(p: string, i: nat): seq<Piece>
    decreases |p| - i
  {
    if i >= |p| then []
    else [if p[i] == '*' then Star else if p[i] == '?' then AnyChar else Exactly(p[i])] + PlainPieces(p, i + 1)
  }

  ghost predicate StarMatches(rest: seq<Piece>, s: string, i: nat)
    requires i <= |s|
  {
    exists k: nat :: i <= k <= |s| && Matches(rest, s, k)
  }

  lemma StarIs(rest: seq<Piece>, s: string, i: nat)
    requires i <= |s|
    ensures Matches([Star] + rest, s, i) <==> StarMatches(rest, s, i)
  {
    assert ([Star] + rest)[1..] == rest;
  }

  lemma HeadIs(n: Piece, rest: seq<Piece>, s: string, i: nat)
    requires i <= |s| && !n.Star?
    ensures Matches([n] + rest, s, i) <==> i < |s| && (n.Exactly? ==> s[i] == n.c) && Matches(rest, s, i + 1)
  {
    assert ([n] + rest)[1..] == rest;
  }

  /** Two stars in a row are one. */
  lemma StarStar(rest: seq<Piece>, s: string, i: nat)
    requires i <= |s|
    ensures StarMatches([Star] + rest, s, i) <==> StarMatches(rest, s, i)
  {
    if StarMatches([Star] + rest, s, i) {
      var k: nat :| i <= k <= |s| && Matches([Star] + rest, s, k);
      StarIs(rest, s, k);
      var m: nat :| k <= m <= |s| && Matches(rest, s, m);
      assert i <= m <= |s| && Matches(rest, s, m);
    }
    if StarMatches(rest, s, i) {
      StarIs(rest, s, i);
      assert Matches([Star] + rest, s, i);
    }
  }

  /** A star gives up one character, or nothing. */
  lemma StarStep(rest: seq<Piece>, s: string, i: nat)
    requires i <= |s|
    ensures StarMatches(rest, s, i) <==> Matches(rest, s, i) || (i < |s| && StarMatches(rest, s, i + 1))
  {
    if StarMatches(rest, s, i) {
      var k: nat :| i <= k <= |s| && Matches(rest, s, k);
      if k > i {
        assert i + 1 <= k <= |s| && Matches(rest, s, k);
      }
    }
    if Matches(rest, s, i) {
      assert i <= i <= |s| && Matches(rest, s, i);
    }
    if i < |s| && StarMatches(rest, s, i + 1) {
      var k: nat :| i + 1 <= k <= |s| && Matches(rest, s, k);
      assert i <= k <= |s| && Matches(rest, s, k);
    }
  }

  /** pmatch(), for patterns without bracket expressions. */
  method Pmatch(pattern: string, p0: nat, s: string, q0: nat) returns (r: bool)
    requires CString(pattern) && CString(s) && '[' !in pattern && p0 <= |pattern| && q0 <= |s|
    ensures r <==> Matches(Pieces(pattern, p0), s, q0)
    decreases |pattern| - p0, 0
  {
    var p, q := p0, q0;
    while p < |pattern|
      invariant p0 <= p <= |pattern| && 0 <= q <= |s|
      invariant Matches(Pieces(pattern, p0), s, q0) <==> Matches(Pieces(pattern, p), s, q)
      decreases |pattern| - p
    {
      var c := pattern[p];
      p := p + 1;
      match c
      case '?' =>
        HeadIs(AnyChar, Pieces(pattern, p), s, q);
        if q == |s| {
          return false;
        }
        q := q + 1;
      case '*' =>
        StarIs(Pieces(pattern, p), s, q);
        c := CharAt(pattern, p);
        while c == '*'
          invariant p0 < p <= |pattern| && c == CharAt(pattern, p)
          invariant Matches(Pieces(pattern, p0), s, q0) <==> StarMatches(Pieces(pattern, p), s, q)
          decreases |pattern| - p
        {
          StarStar(Pieces(pattern, p + 1), s, q);
          p := p + 1;
          c := CharAt(pattern, p);
        }
        r := AfterStar(pattern, p, s, q, c);
        return;
      case '\\' =>
        if p < |pattern| {
          c := pattern[p];
          p := p + 1;
        }
        HeadIs(Exactly(c), Pieces(pattern, p), s, q);
        if CharAt(s, q) != c {
          return false;
        }
        q := q + 1;
      case _ =>
        HeadIs(Exactly(c), Pieces(pattern, p), s, q);
        if CharAt(s, q) != c {
          return false;
        }
        q := q + 1;
    }
    return q == |s|;
  }

  /** The '*' case of pmatch() when the stars are behind it: skip to the first place the rest can match,
      then try every place from there on. */
  method AfterStar(pattern: string, p: nat, s: string, q0: nat, c: char) returns (r: bool)
    requires CString(pattern) && CString(s) && '[' !in pattern && p <= |pattern| && q0 <= |s|
    requires c == CharAt(pattern, p) && c != '*'
    ensures r <==> StarMatches(Pieces(pattern, p), s, q0)
    decreases |pattern| - p, 1
  {
    var q := q0;
    ghost var rest := Pieces(pattern, p);
    if c != '\\' && c != '?' && c != '*' && c != '[' {
      if p < |pattern| {
        assert rest == [Exactly(c)] + Pieces(pattern, p + 1);
      }
      while CharAt(s, q) != c
        invariant q <= |s| && (StarMatches(rest, s, q0) <==> StarMatches(rest, s, q))
        decreases |s| - q
      {
        StarStep(rest, s, q);
        if p < |pattern| {
          HeadIs(Exactly(c), Pieces(pattern, p + 1), s, q);
        }
        if q == |s| {
          return false;
        }
        q := q + 1;
      }
    }
    while true
      invariant q <= |s| && (StarMatches(rest, s, q0) <==> StarMatches(rest, s, q))
      decreases |s| - q
    {
      StarStep(rest, s, q);
      var found := Pmatch(pattern, p, s, q);
      if found {
        return true;
      }
      if q == |s| {
        return false;
      }
      q := q + 1;
    }
  }

  /** Pieces that match at the end of the name are all stars, so they match anywhere. */
  lemma {:induction false} EndMatchesAll(ps: seq<Piece>, s: string, i: nat)
    requires i <= |s| && Matches(ps, s, |s|)
    ensures ps != [] ==> Matches(ps, s, i)
    decreases |ps|
  {
    if ps == [] { return; }
    var k: nat :| |s| <= k <= |s| && Matches(ps[1..], s, k);
    assert i <= |s| <= |s| && Matches(ps[1..], s, |s|);
  }

  /** glob_match() */
  method GlobMatch(pattern: string, p0: nat, s: string, q0: nat) returns (r: bool)
    requires p0 <= |pattern| && q0 <= |s|
    ensures r <==> Matches(PlainPieces(pattern, p0), s, q0)
    decreases |pattern| - p0
  {
    var p, q := p0, q0;
    while p < |pattern| && q < |s|
      invariant p0 <= p <= |pattern| && 0 <= q <= |s|
      invariant Matches(PlainPieces(pattern, p0), s, q0) <==> Matches(PlainPieces(pattern, p), s, q)
      decreases |pattern| - p
    {
      ghost var rest := PlainPieces(pattern, p + 1);
      if pattern[p] == '*' {
        StarIs(rest, s, q);
        p := p + 1;
        if p == |pattern| {
          assert q <= |s| <= |s| && Matches(rest, s, |s|);
          return true;
        }
        ghost var q1 := q;
        while q < |s|
          invariant q1 <= q <= |s|
          invariant StarMatches(rest, s, q1) <==> StarMatches(rest, s, q)
          invariant forall k :: q1 <= k < q ==> !Matches(rest, s, k)
        {
          StarStep(rest, s, q);
          var found := GlobMatch(pattern, p, s, q);
          if found {
            return true;
          }
          q := q + 1;
        }
        StarStep(rest, s, q);
        if Matches(rest, s, |s|) {
          EndMatchesAll(rest, s, q1);
        }
        return false;
      }
      HeadIs(PlainPieces(pattern, p)[0], rest, s, q);
      if pattern[p] == '?' {
        p := p + 1;
        q := q + 1;
      } else {
        if pattern[p] != s[q] {
          return false;
        }
        p := p + 1;
        q := q + 1;
      }
    }
    while p < |pattern| && pattern[p] == '*'
      invariant p0 <= p <= |pattern| && 0 <= q <= |s| && (p == |pattern| || q == |s|)
      invariant Matches(PlainPieces(pattern, p0), s, q0) <==> Matches(PlainPieces(pattern, p), s, q)
      decreases |pattern| - p
    {
      StarIs(PlainPieces(pattern, p + 1), s, q);
      assert StarMatches(PlainPieces(pattern, p + 1), s, q) <==> Matches(PlainPieces(pattern, p + 1), s, q) by {
        StarStep(PlainPieces(pattern, p + 1), s, q);
      }
      p := p + 1;
    }
    if p < |pattern| {
      HeadIs(PlainPieces(pattern, p)[0], PlainPieces(pattern, p + 1), s, q);
    }
    return p == |pattern| && q == |s|;
  }

  /** Each escape makes the pattern one piece shorter. */
  lemma {:induction false} PiecesLength(p: string, i: nat)
    ensures |PlainPieces(p, i)| == if i < |p| then |p| - i else 0
    ensures |Pieces(p, i)| <= |PlainPieces(p, i)|
    decreases |p| - i
  {
    if i < |p| {
      PiecesLength(p, i + 1);
      if Escape(p, i) && p[i] != '*' {
        PiecesLength(p, i + 2);
      }
    }
  }

  /** From `i` on, no backslash is followed by a character. */
  predicate EscapeFree(p: string, i: nat)
    decreases |p| - i
  {
    i >= |p| || (!Escape(p, i) && EscapeFree(p, i + 1))
  }

  lemma ConsEqual<T>(x: T, a: seq<T>, b: seq<T>)
    ensures [x] + a == [x] + b <==> a == b
  {
    if [x] + a == [x] + b {
      assert a == ([x] + a)[1..] == ([x] + b)[1..] == b;
    }
  }

  /** The two syntaxes read a pattern alike exactly when it is free of escapes; on those patterns
      pmatch() and glob_match() decide the same names. */
  lemma {:induction false} SyntaxesAgree(p: string, i: nat)
    requires i <= |p|
    ensures Pieces(p, i) == PlainPieces(p, i) <==> EscapeFree(p, i)
    decreases |p| - i
  {
    if i == |p| { return; }
    PiecesLength(p, i);
    if Escape(p, i) {
      PiecesLength(p, i + 2);
      return;
    }
    SyntaxesAgree(p, i + 1);
    var head := if p[i] == '*' then Star else if p[i] == '?' then AnyChar else Exactly(p[i]);
    ConsEqual(head, Pieces(p, i + 1), PlainPieces(p, i + 1));
  }
}

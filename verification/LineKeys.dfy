/** What each key of libc/lineedit.c does to the line, as two texts: the one before the cursor and the one behind it. */
module LineKeys {
  import opened LineEdit

  datatype Zip = Zip(left: string, right: string)

  function LineOf(z: Zip): Line {
    Line(z.left + z.right, |z.left|)
  }

  /** The keys that edit the line or move in it. At most 255 characters fit. */
  predicate Edits(key: Key) {
    !key.Up? && !key.Down? && !key.Enter? && !key.Ignored?
  }

  function ZipKey(z: Zip, key: Key): Zip {
    var Zip(l, r) := z;
    match key
    case Char(c) => if |l| + |r| < 255 then Zip(l + [c], r) else z
    case Backspace => if l == "" then z else Zip(l[..|l| - 1], r)
    case Left => if l == "" then z else Zip(l[..|l| - 1], [l[|l| - 1]] + r)
    case Right => if r == "" then z else Zip(l + [r[0]], r[1..])
    case Home => Zip("", l + r)
    case End => Zip(l + r, "")
    case Kill => Zip("", "")
    case Delete => if r == "" then z else Zip(l, r[1..])
    case Eof => if r == "" then z else Zip(l, r[1..])
    case _ => z
  }

  ghost predicate Does(e: Ed, z: Zip, key: Key)
    requires e.line == LineOf(z) && e.histPos <= |e.all|
  {
    && KeyStep(e, key).0 == e.(line := LineOf(ZipKey(z, key)))
    && (KeyStep(e, key).2 <==> key.Eof? && z.left + z.right == "")
  }

  lemma TypingDoes(e: Ed, z: Zip, c: char)
    requires e.line == LineOf(z) && e.histPos <= |e.all|
    ensures Does(e, z, Char(c))
  {
    var Zip(l, r) := z;
    hide InsertOut;
    assert (l + r)[..|l|] == l && (l + r)[|l|..] == r;
    assert (l + [c]) + r == l + [c] + r;
  }

  lemma BackspaceDoes(e: Ed, z: Zip)
    requires e.line == LineOf(z) && e.histPos <= |e.all|
    ensures Does(e, z, Backspace)
  {
    hide BackspaceOut;
    if z.left != "" { assert Without(z.left + z.right, |z.left| - 1) == z.left[..|z.left| - 1] + z.right; }
  }

  lemma DeleteDoes(e: Ed, z: Zip)
    requires e.line == LineOf(z) && e.histPos <= |e.all|
    ensures Does(e, z, Delete) && Does(e, z, Eof)
  {
    hide DeleteOut;
    if z.right != "" { assert Without(z.left + z.right, |z.left|) == z.left + z.right[1..]; }
  }

  lemma MoveDoes(e: Ed, z: Zip)
    requires e.line == LineOf(z) && e.histPos <= |e.all|
    ensures Does(e, z, Left) && Does(e, z, Right)
  {
    var Zip(l, r) := z;
    if l != "" { assert l[..|l| - 1] + ([l[|l| - 1]] + r) == l + r; }
    if r != "" { assert (l + [r[0]]) + r[1..] == l + r; }
  }

  lemma JumpDoes(e: Ed, z: Zip)
    requires e.line == LineOf(z) && e.histPos <= |e.all|
    ensures Does(e, z, Home) && Does(e, z, End) && Does(e, z, Kill)
  {
    hide Backs, Refresh;
    var t := z.left + z.right;
    assert "" + t == t && t + "" == t;
    assert LineOf(Zip("", "")) == Line([], 0);
  }

  /** Such a key does this to the line and nothing else; only ^D on an empty line finishes it. */
  lemma KeyOnLine(e: Ed, z: Zip, key: Key)
    requires e.line == LineOf(z) && e.histPos <= |e.all| && Edits(key)
    ensures KeyStep(e, key).0 == e.(line := LineOf(ZipKey(z, key)))
    ensures KeyStep(e, key).2 <==> key.Eof? && z.left + z.right == ""
  {
    if key.Char? {
      TypingDoes(e, z, key.c);
    } else if key.Backspace? {
      BackspaceDoes(e, z);
    } else if key.Delete? || key.Eof? {
      DeleteDoes(e, z);
    } else if key.Left? || key.Right? {
      MoveDoes(e, z);
    } else {
      JumpDoes(e, z);
    }
    hide KeyStep, ZipKey;
  }

  /** UP and DOWN go one entry through the history, Enter finishes the line and adds it to the history, cut to 127
      characters and unless it is empty, and other input does nothing. */
  lemma OtherKeys(e: Ed)
    requires e.line.pos <= |e.line.text| && e.histPos <= |e.all|
    ensures KeyStep(e, Up).0 == UpStep(e) && !KeyStep(e, Up).2
    ensures KeyStep(e, Down).0 == DownStep(e) && !KeyStep(e, Down).2
    ensures KeyStep(e, Ignored) == (e, "", false)
    ensures KeyStep(e, Enter).2 && KeyStep(e, Enter).1 == "\n"
    ensures var t := e.line.text;
            KeyStep(e, Enter).0 == if t == "" then e else e.(all := e.all + [if |t| < 128 then t else t[..127]])
  {
  }

  /** A move to the left is undone by one to the right, and the other way round. */
  lemma MoveUndone(e: Ed)
    requires e.line.pos <= |e.line.text| && e.histPos <= |e.all|
    ensures e.line.pos > 0 ==> KeyStep(KeyStep(e, Left).0, Right).0 == e
    ensures e.line.pos < |e.line.text| ==> KeyStep(KeyStep(e, Right).0, Left).0 == e
  {
    var z := Cut(e.line);
    TwoKeys(e, z, Left, Right);
    TwoKeys(e, z, Right, Left);
    hide KeyStep;
    assert z.left != "" ==> ZipKey(ZipKey(z, Left), Right) == z;
    assert z.right != "" ==> ZipKey(ZipKey(z, Right), Left) == z;
  }

  /** A character is undone by a backspace, or by a move to the left and a delete. */
  lemma CharUndone(e: Ed, c: char)
    requires e.line.pos <= |e.line.text| < 255 && e.histPos <= |e.all|
    ensures KeyStep(KeyStep(e, Char(c)).0, Backspace).0 == e
    ensures KeyStep(KeyStep(KeyStep(e, Char(c)).0, Left).0, Delete).0 == e
  {
    var z := Cut(e.line);
    TwoKeys(e, z, Char(c), Backspace);
    TwoKeys(e, z, Char(c), Left);
    var y := ZipKey(ZipKey(z, Char(c)), Left);
    KeyOnLine(e.(line := LineOf(y)), y, Delete);
    hide KeyStep;
    BackAgain(z, c);
  }

  lemma BackAgain(z: Zip, c: char)
    requires |z.left| + |z.right| < 255
    ensures ZipKey(ZipKey(z, Char(c)), Backspace) == z && ZipKey(ZipKey(ZipKey(z, Char(c)), Left), Delete) == z
  {
    assert (z.left + [c])[..|z.left|] == z.left;
    assert ([c] + z.right)[1..] == z.right;
  }

  /** Where the cursor was does not matter for Home and End. */
  lemma HomeAndEnd(e: Ed)
    requires e.line.pos <= |e.line.text| && e.histPos <= |e.all|
    ensures KeyStep(KeyStep(e, Home).0, End).0 == KeyStep(e, End).0 == e.(line := Loaded(e.line.text))
    ensures KeyStep(KeyStep(e, End).0, Home).0 == KeyStep(e, Home).0 == e.(line := Line(e.line.text, 0))
  {
    var z := Cut(e.line);
    TwoKeys(e, z, Home, End);
    TwoKeys(e, z, End, Home);
    hide KeyStep;
    assert LineOf(ZipKey(z, End)) == Loaded(e.line.text) && LineOf(ZipKey(z, Home)) == Line(e.line.text, 0);
  }

  function Cut(l: Line): (z: Zip)
    requires l.pos <= |l.text|
    ensures LineOf(z) == l && |z.left| == l.pos && |z.left| + |z.right| == |l.text|
  {
    Zip(l.text[..l.pos], l.text[l.pos..])
  }

  lemma TwoKeys(e: Ed, z: Zip, first: Key, second: Key)
    requires e.line == LineOf(z) && e.histPos <= |e.all| && Edits(first) && Edits(second)
    ensures var f := KeyStep(e, first).0;
            && f == e.(line := LineOf(ZipKey(z, first)))
            && KeyStep(f, second).0 == e.(line := LineOf(ZipKey(ZipKey(z, first), second)))
  {
    KeyOnLine(e, z, first);
    KeyOnLine(KeyStep(e, first).0, ZipKey(z, first), second);
  }

  /** The keys of a text. */
  function Keys(w: string): seq<Key> {
    seq(|w|, k requires 0 <= k < |w| => Char(w[k]))
  }

  /** The characters of a text, typed one after the other, come behind what is before the cursor, as many as fit. */
  lemma {:induction false} TextTyped(e: Ed, z: Zip, w: string, f: Ed, out: string)
    requires e.line == LineOf(z) && |z.left| + |z.right| <= 255 && Handled(e, Keys(w), f, out)
    ensures var k := if |z.left| + |z.right| + |w| <= 255 then |w| else 255 - |z.left| - |z.right|;
            f == e.(line := LineOf(Zip(z.left + w[..k], z.right)))
    decreases |w|
  {
    if w == "" {
      assert z.left + w[..0] == z.left;
      return;
    }
    var c, y, room := w[0], ZipKey(z, Char(w[0])), 255 - |z.left| - |z.right|;
    assert Keys(w)[0] == Char(c) && Keys(w)[1..] == Keys(w[1..]);
    hide KeyStep, Keys;
    KeyOnLine(e, z, Char(c));
    var (g, o, _) := KeyStep(e, Char(c));
    TextTyped(g, y, w[1..], f, out[|o|..]);
    hide Handled;
    OneMore(z.left, w, if |w| <= room then |w| else room);
  }

  lemma OneMore(l: string, w: string, k: nat)
    requires w != "" && k <= |w|
    ensures k > 0 ==> (l + [w[0]]) + w[1..][..k - 1] == l + w[..k]
    ensures w[1..][..0] == w[..0]
  {
    if k > 0 { assert w[..k] == [w[0]] + w[1..][..k - 1]; }
  }

  /** A text typed on a new line and finished with Enter is the line, and the last entry of the history. */
  lemma LineTyped(all: seq<string>, w: string, f: Ed, out: string)
    requires 0 < |w| <= 255 && Handled(Fresh(all), Keys(w), f, out)
    ensures f == Fresh(all).(line := Line(w, |w|))
    ensures var (g, nl, done) := KeyStep(f, Enter);
            done && nl == "\n" && g.line.text == w && g.all == all + [if |w| < 128 then w else w[..127]]
  {
    hide Handled, KeyStep;
    assert LineOf(Zip("", "")) == Line([], 0);
    TextTyped(Fresh(all), Zip("", ""), w, f, out);
    assert "" + w[..|w|] + "" == w;
    OtherKeys(f);
  }
}

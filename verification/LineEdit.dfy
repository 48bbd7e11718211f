/** The line editor of libc/lineedit.c: what each key does to the line, what is written to the terminal for it, and
  why the terminal then shows the line. */
module LineEdit {

  const LINE_MAX: int := 256
  const HIST_MAX: int := 16
  const HIST_LINE: int := 128

  /** The backspace character. */
  const BS: char := 8 as char

  // ----- the line

  /** The buffer up to its length, and the cursor. */
  datatype Line = Line(text: string, pos: nat)

  predicate Printable(c: char) {
    ' ' <= c <= '~'
  }

  predicate ValidLine(l: Line) {
    l.pos <= |l.text| < LINE_MAX && forall i :: 0 <= i < |l.text| ==> Printable(l.text[i])
  }

  function Inserted(l: Line, c: char): Line
    requires l.pos <= |l.text|
  {
    if |l.text| >= LINE_MAX - 1 then l else Line(l.text[..l.pos] + [c] + l.text[l.pos..], l.pos + 1)
  }

  function Without(t: string, i: nat): string
    requires i < |t|
  {
    t[..i] + t[i + 1..]
  }

  function DeletedBack(l: Line): Line
    requires l.pos <= |l.text|
  {
    if l.pos == 0 then l else Line(Without(l.text, l.pos - 1), l.pos - 1)
  }

  function DeletedFwd(l: Line): Line
    requires l.pos <= |l.text|
  {
    if l.pos >= |l.text| then l else Line(Without(l.text, l.pos), l.pos)
  }

  // ----- the terminal

  /** The cells of the terminal from where the line starts, and the cursor. */
  datatype Screen = Screen(cells: nat -> char, cur: nat)

  /** A backspace moves left, a printable character overwrites a cell and moves right. */
  function Typed(s: Screen, c: char): Screen {
    if c == BS then s.(cur := if s.cur > 0 then s.cur - 1 else 0)
    else Screen((i: nat) => if i == s.cur then c else s.cells(i), s.cur + 1)
  }

  function Replay(s: Screen, out: string): Screen
    decreases |out|
  {
    if out == [] then s else Replay(Typed(s, out[0]), out[1..])
  }

  /** What a cell holds when the text is on the screen. */
  function Cell(t: string, i: nat): char {
    if i < |t| then t[i] else ' '
  }

  /** The cells show the text and then blanks, and the cursor is where it is in the line. */
  ghost predicate Shows(s: Screen, l: Line) {
    s.cur == l.pos && forall i: nat :: s.cells(i) == Cell(l.text, i)
  }

  // ----- what is written

  function Repeat(c: char, n: nat): (r: string)
    ensures |r| == n && forall i :: 0 <= i < n ==> r[i] == c
  {
    if n == 0 then [] else [c] + Repeat(c, n - 1)
  }

  function Backs(n: nat): string {
    Repeat(BS, n)
  }

  function Extra(oldLen: nat, len: nat): nat {
    if oldLen > len then oldLen - len else 0
  }

  /** le_refresh() */
  function Refresh(l: Line, oldLen: nat, oldPos: nat): string
    requires l.pos <= |l.text|
  {
    Backs(oldPos) + l.text + Repeat(' ', Extra(oldLen, |l.text|)) + Backs(|l.text| + Extra(oldLen, |l.text|) - l.pos)
  }

  /** le_output_char() and le_output_insert(), for the line after the insertion */
  function InsertOut(l: Line): string
    requires 0 < l.pos <= |l.text|
  {
    if l.pos == |l.text| then [l.text[l.pos - 1]] else l.text[l.pos - 1..] + Backs(|l.text| - l.pos)
  }

  /** le_output_backspace() */
  function BackspaceOut(l: Line): string
    requires l.pos <= |l.text|
  {
    [BS] + l.text[l.pos..] + " " + Backs(|l.text| - l.pos + 1)
  }

  /** le_output_delete() */
  function DeleteOut(l: Line, oldLen: nat): string
    requires l.pos <= |l.text|
  {
    l.text[l.pos..] + Repeat(' ', Extra(oldLen, |l.text|)) + Backs(|l.text| - l.pos + Extra(oldLen, |l.text|))
  }

  // ----- replaying it

  lemma {:induction false} ReplayConcat(s: Screen, a: string, b: string)
    ensures Replay(s, a + b) == Replay(Replay(s, a), b)
    decreases |a|
  {
    if a == [] {
      assert a + b == b;
    } else {
      ReplayConcat(Typed(s, a[0]), a[1..], b);
      assert (a + b)[1..] == a[1..] + b;
    }
  }

  lemma {:induction false} ReplayBacks(s: Screen, n: nat)
    requires n <= s.cur
    ensures var t := Replay(s, Backs(n)); t.cur == s.cur - n && forall i: nat :: t.cells(i) == s.cells(i)
    decreases n
  {
    if n > 0 {
      assert Backs(n)[1..] == Backs(n - 1);
      ReplayBacks(Typed(s, BS), n - 1);
    }
  }

  /** The characters of `t` are on the screen from the old cursor on. */
  ghost predicate Overwritten(s: Screen, t: string, r: Screen) {
    && r.cur == s.cur + |t|
    && forall i: nat :: r.cells(i) == if s.cur <= i < s.cur + |t| then t[i - s.cur] else s.cells(i)
  }

  lemma {:induction false} ReplayText(s: Screen, t: string)
    requires forall i :: 0 <= i < |t| ==> Printable(t[i])
    ensures Overwritten(s, t, Replay(s, t))
    decreases |t|
  {
    if t == [] { return; }
    var u := Typed(s, t[0]);
    ReplayText(u, t[1..]);
    var r := Replay(u, t[1..]);
    forall i: nat
      ensures r.cells(i) == if s.cur <= i < s.cur + |t| then t[i - s.cur] else s.cells(i)
    {
      assert s.cur < i < s.cur + |t| ==> t[1..][i - u.cur] == t[i - s.cur];
    }
  }

  /** Back `b`, then the text, then back `n`. */
  lemma ReplayPatch(s: Screen, b: nat, t: string, n: nat) returns (r: Screen)
    requires b <= s.cur && n <= s.cur - b + |t| && forall i :: 0 <= i < |t| ==> Printable(t[i])
    ensures r == Replay(s, Backs(b) + t + Backs(n)) && r.cur == s.cur - b + |t| - n
    ensures forall i: nat :: r.cells(i) == if s.cur - b <= i < s.cur - b + |t| then t[i - (s.cur - b)] else s.cells(i)
  {
    ReplayConcat(s, Backs(b) + t, Backs(n));
    ReplayConcat(s, Backs(b), t);
    ReplayBacks(s, b);
    var u := Replay(s, Backs(b));
    ReplayText(u, t);
    ReplayBacks(Replay(u, t), n);
    r := Replay(s, Backs(b) + t + Backs(n));
  }

  /** After such output the screen shows line l, if the text written agrees with l and l continues behind it as
      before. */
  lemma PatchShows(s: Screen, before: Line, b: nat, t: string, n: nat, l: Line)
    requires Shows(s, before) && b <= before.pos && (forall i :: 0 <= i < |t| ==> Printable(t[i]))
    requires before.pos - b + |t| - n == l.pos
    requires forall i: nat :: Cell(l.text, i) ==
               if before.pos - b <= i < before.pos - b + |t| then t[i - (before.pos - b)] else Cell(before.text, i)
    ensures Shows(Replay(s, Backs(b) + t + Backs(n)), l)
  {
    var r := ReplayPatch(s, b, t, n);
  }

  lemma InsertShows(s: Screen, l: Line, c: char)
    requires ValidLine(l) && Printable(c) && Shows(s, l) && |l.text| < LINE_MAX - 1
    ensures ValidLine(Inserted(l, c)) && Shows(Replay(s, InsertOut(Inserted(l, c))), Inserted(l, c))
  {
    var m := Inserted(l, c);
    var t := m.text[m.pos - 1..];
    assert InsertOut(m) == Backs(0) + t + Backs(|m.text| - m.pos);
    PatchShows(s, l, 0, t, |m.text| - m.pos, m);
  }

  lemma BackspaceShows(s: Screen, l: Line)
    requires ValidLine(l) && Shows(s, l) && l.pos > 0
    ensures ValidLine(DeletedBack(l)) && Shows(Replay(s, BackspaceOut(DeletedBack(l))), DeletedBack(l))
  {
    var m := DeletedBack(l);
    var t := m.text[m.pos..] + " ";
    assert BackspaceOut(m) == Backs(1) + t + Backs(|m.text| - m.pos + 1);
    PatchShows(s, l, 1, t, |m.text| - m.pos + 1, m);
  }

  lemma DeleteShows(s: Screen, l: Line)
    requires ValidLine(l) && Shows(s, l) && l.pos < |l.text|
    ensures ValidLine(DeletedFwd(l)) && Shows(Replay(s, DeleteOut(DeletedFwd(l), |l.text|)), DeletedFwd(l))
  {
    var m := DeletedFwd(l);
    var t := m.text[m.pos..] + Repeat(' ', 1);
    assert DeleteOut(m, |l.text|) == Backs(0) + t + Backs(|m.text| - m.pos + 1);
    PatchShows(s, l, 0, t, |m.text| - m.pos + 1, m);
  }

  /** A whole new line, as after ^U and in the history. */
  lemma RefreshShows(s: Screen, l: Line, m: Line)
    requires ValidLine(l) && ValidLine(m) && Shows(s, l)
    ensures Shows(Replay(s, Refresh(m, |l.text|, l.pos)), m)
  {
    var extra := Extra(|l.text|, |m.text|);
    var t := m.text + Repeat(' ', extra);
    assert Refresh(m, |l.text|, l.pos) == Backs(l.pos) + t + Backs(|m.text| + extra - m.pos);
    PatchShows(s, l, l.pos, t, |m.text| + extra - m.pos, m);
  }

  lemma LeftShows(s: Screen, l: Line, n: nat)
    requires ValidLine(l) && Shows(s, l) && n <= l.pos
    ensures Shows(Replay(s, Backs(n)), l.(pos := l.pos - n))
  {
    ReplayBacks(s, n);
  }

  lemma RightShows(s: Screen, l: Line, to: nat)
    requires ValidLine(l) && Shows(s, l) && l.pos <= to <= |l.text|
    ensures Shows(Replay(s, l.text[l.pos..to]), l.(pos := to))
  {
    ReplayText(s, l.text[l.pos..to]);
  }

  // ----- keys

  datatype Key =
    | Char(c: char) | Left | Right | Home | End | Backspace | Delete | Enter | Eof | Kill | Up | Down | Ignored

  datatype Saved = None | Some(text: string)

  /** The line; every entry ever added to the history, of which the ring holds the last 16; the place in the history
      that is shown, which is their number for the line itself; and the line saved by the first UP. */
  datatype Ed = Ed(line: Line, all: seq<string>, histPos: nat, scratch: Saved)

  function Oldest(all: seq<string>): nat {
    if |all| > HIST_MAX then |all| - HIST_MAX else 0
  }

  /** What le_hist_add() keeps of a line. */
  function Entry(text: string): string {
    if |text| >= HIST_LINE then text[..HIST_LINE - 1] else text
  }

  ghost predicate ValidEd(e: Ed) {
    && ValidLine(e.line) && Oldest(e.all) <= e.histPos <= |e.all|
    && (forall k :: 0 <= k < |e.all| ==> ValidLine(Line(e.all[k], 0)))
    && (e.scratch.Some? <==> e.histPos < |e.all|)
    && (e.scratch.Some? ==> ValidLine(Line(e.scratch.text, 0)))
  }

  function Loaded(t: string): Line {
    Line(t, |t|)
  }

  predicate CanUp(e: Ed) {
    e.all != [] && e.histPos > Oldest(e.all)
  }

  predicate CanDown(e: Ed) {
    e.histPos < |e.all|
  }

  /** le_hist_up(); unchanged when it returns 0. */
  function UpStep(e: Ed): Ed
    requires e.histPos <= |e.all|
  {
    if !CanUp(e) then e
    else e.(scratch := if e.scratch == None then Some(e.line.text) else e.scratch,
            histPos := e.histPos - 1, line := Loaded(e.all[e.histPos - 1]))
  }

  /** le_hist_down() */
  function DownStep(e: Ed): Ed {
    if !CanDown(e) then e
    else if e.histPos + 1 == |e.all| then
      e.(line := if e.scratch.Some? then Loaded(e.scratch.text) else e.line, scratch := None, histPos := e.histPos + 1)
    else e.(line := Loaded(e.all[e.histPos + 1]), histPos := e.histPos + 1)
  }

  /** One key: the new state, what is written, and whether the line is finished. */
  function KeyStep(e: Ed, key: Key): (Ed, string, bool)
    requires e.line.pos <= |e.line.text| && e.histPos <= |e.all|
  {
    var l := e.line;
    match key
    case Char(c) =>
      if |l.text| >= LINE_MAX - 1 then (e, [], false)
      else (e.(line := Inserted(l, c)), InsertOut(Inserted(l, c)), false)
    case Backspace =>
      if l.pos == 0 then (e, [], false) else (e.(line := DeletedBack(l)), BackspaceOut(DeletedBack(l)), false)
    case Delete =>
      if l.pos >= |l.text| then (e, [], false)
      else (e.(line := DeletedFwd(l)), DeleteOut(DeletedFwd(l), |l.text|), false)
    case Left => if l.pos == 0 then (e, [], false) else (e.(line := l.(pos := l.pos - 1)), [BS], false)
    case Right =>
      if l.pos >= |l.text| then (e, [], false) else (e.(line := l.(pos := l.pos + 1)), [l.text[l.pos]], false)
    case Home => if l.pos == 0 then (e, [], false) else (e.(line := l.(pos := 0)), Backs(l.pos), false)
    case End => if l.pos == |l.text| then (e, [], false) else (e.(line := l.(pos := |l.text|)), l.text[l.pos..], false)
    case Kill =>
      if l.text == [] then (e, [], false)
      else (e.(line := Line([], 0)), Refresh(Line([], 0), |l.text|, l.pos), false)
    case Up =>
      if !CanUp(e) then (e, [], false) else (UpStep(e), Refresh(UpStep(e).line, |l.text|, l.pos), false)
    case Down =>
      if !CanDown(e) then (e, [], false) else (DownStep(e), Refresh(DownStep(e).line, |l.text|, l.pos), false)
    case Eof =>
      if l.text == [] then (e, [], true)
      else if l.pos >= |l.text| then (e, [], false)
      else (e.(line := DeletedFwd(l)), DeleteOut(DeletedFwd(l), |l.text|), false)
    case Enter => (if l.text == [] then e else e.(all := e.all + [Entry(l.text)]), "\n", true)
    case Ignored => (e, [], false)
  }

  /** What le_readline() starts with. */
  function Fresh(all: seq<string>): Ed {
    Ed(Line([], 0), all, |all|, None)
  }

  /** The keys that the key reader makes: characters are printable. */
  predicate IsKey(key: Key) {
    key.Char? ==> Printable(key.c)
  }

  lemma HistoryValid(e: Ed)
    requires ValidEd(e)
    ensures ValidEd(UpStep(e)) && ValidEd(DownStep(e))
  {
  }

  /** The keys by what they do to the line: change its text, */
  lemma EditShows(s: Screen, e: Ed, key: Key)
    requires ValidEd(e) && Shows(s, e.line) && IsKey(key) && (key.Char? || key.Backspace? || key.Delete? || key.Eof?)
    ensures var (f, out, done) := KeyStep(e, key);
            !done ==> ValidEd(f) && f.all == e.all && Shows(Replay(s, out), f.line)
  {
    hide Shows, Replay;
    var l := e.line;
    match key
    case Char(c) => if |l.text| < LINE_MAX - 1 { InsertShows(s, l, c); } else { SilentShows(s, l); }
    case Backspace => if l.pos > 0 { BackspaceShows(s, l); } else { SilentShows(s, l); }
    case _ => if l.pos < |l.text| { DeleteShows(s, l); } else { SilentShows(s, l); }
  }

  /** move the cursor, */
  lemma MoveShows(s: Screen, e: Ed, key: Key)
    requires ValidEd(e) && Shows(s, e.line) && (key.Left? || key.Right? || key.Home? || key.End?)
    ensures var (f, out, done) := KeyStep(e, key);
            !done ==> ValidEd(f) && f.all == e.all && Shows(Replay(s, out), f.line)
  {
    hide Shows, Replay;
    var l := e.line;
    match key
    case Left => if l.pos > 0 { assert Backs(1) == [BS]; LeftShows(s, l, 1); } else { SilentShows(s, l); }
    case Right =>
      if l.pos < |l.text| {
        assert l.text[l.pos..l.pos + 1] == [l.text[l.pos]];
        RightShows(s, l, l.pos + 1);
      } else {
        SilentShows(s, l);
      }
    case Home => LeftShows(s, l, l.pos);
    case End => assert l.text[l.pos..|l.text|] == l.text[l.pos..]; RightShows(s, l, |l.text|);
  }

  /** or put another line in its place. */
  lemma ReplaceShows(s: Screen, e: Ed, key: Key)
    requires ValidEd(e) && Shows(s, e.line) && (key.Kill? || key.Up? || key.Down?)
    ensures var (f, out, done) := KeyStep(e, key);
            !done ==> ValidEd(f) && f.all == e.all && Shows(Replay(s, out), f.line)
  {
    hide Shows, Replay;
    var l := e.line;
    SilentShows(s, l);
    match key
    case Kill => RefreshShows(s, l, Line([], 0));
    case Up => HistoryValid(e); RefreshShows(s, l, UpStep(e).line);
    case Down => HistoryValid(e); RefreshShows(s, l, DownStep(e).line);
  }

  lemma SilentShows(s: Screen, l: Line)
    requires l.pos <= |l.text| && Shows(s, l)
    ensures Shows(Replay(s, []), l)
  {
  }

  /** Each key leaves a valid state, and a screen that shows its line. */
  lemma KeyShows(s: Screen, e: Ed, key: Key)
    requires ValidEd(e) && Shows(s, e.line) && IsKey(key)
    ensures var (f, out, done) := KeyStep(e, key);
            !done ==> ValidEd(f) && f.all == e.all && Shows(Replay(s, out), f.line)
  {
    if key.Char? || key.Backspace? || key.Delete? || key.Eof? {
      EditShows(s, e, key);
    } else if key.Left? || key.Right? || key.Home? || key.End? {
      MoveShows(s, e, key);
    } else if key.Kill? || key.Up? || key.Down? {
      ReplaceShows(s, e, key);
    } else {
      SilentShows(s, e.line);
    }
  }

  /** The keys are handled one after the other, and none but the last may finish the line; `out` is all that is
      written before that. */
  ghost predicate Handled(e: Ed, keys: seq<Key>, f: Ed, out: string)
    decreases |keys|
  {
    if keys == [] then f == e && out == []
    else
      && e.line.pos <= |e.line.text| && e.histPos <= |e.all|
      && var (g, o, done) := KeyStep(e, keys[0]);
         !done && o <= out && Handled(g, keys[1..], f, out[|o|..])
  }

  /** After every sequence of keys, the bytes written make the terminal show the line, with blanks behind it and the
      cursor in its place. */
  lemma {:induction false} ScreenShowsLine(s: Screen, e: Ed, keys: seq<Key>, f: Ed, out: string)
    requires ValidEd(e) && Shows(s, e.line) && Handled(e, keys, f, out)
    requires forall i :: 0 <= i < |keys| ==> IsKey(keys[i])
    ensures ValidEd(f) && Shows(Replay(s, out), f.line)
    decreases |keys|
  {
    if keys != [] {
      var (g, o, done) := KeyStep(e, keys[0]);
      KeyShows(s, e, keys[0]);
      ScreenShowsLine(Replay(s, o), g, keys[1..], f, out[|o|..]);
      ReplayConcat(s, o, out[|o|..]);
      assert out == o + out[|o|..];
    }
  }

  /** A new line starts valid, on a blank screen. */
  lemma FreshShows(all: seq<string>, s: Screen)
    requires (forall k :: 0 <= k < |all| ==> ValidLine(Line(all[k], 0))) && s.cur == 0
      && forall i: nat :: s.cells(i) == ' '
    ensures ValidEd(Fresh(all)) && Shows(s, Fresh(all).line)
  {
  }

  // ----- history

  function Ups(e: Ed, k: nat): Ed
    requires e.histPos <= |e.all|
    ensures Ups(e, k).histPos <= |e.all| && Ups(e, k).all == e.all
  {
    if k == 0 then e else UpStep(Ups(e, k - 1))
  }

  function Downs(e: Ed, k: nat): Ed {
    if k == 0 then e else DownStep(Downs(e, k - 1))
  }

  /** After k successful UPs the entry k places up is shown, and the line itself is saved. */
  lemma {:induction false} UpsShow(e: Ed, k: nat)
    requires ValidEd(e) && Oldest(e.all) + k <= e.histPos && k > 0
    ensures Ups(e, k) == Ed(Loaded(e.all[e.histPos - k]), e.all, e.histPos - k,
                            if e.scratch == None then Some(e.line.text) else e.scratch)
    decreases k
  {
    if k > 1 {
      UpsShow(e, k - 1);
    } else {
      assert Ups(e, 0) == e;
    }
  }

  /** After k DOWNs that do not reach the line itself, the entry k places down is shown. */
  lemma {:induction false} DownsShow(e: Ed, k: nat)
    requires ValidEd(e) && e.histPos + k < |e.all| && k > 0
    ensures Downs(e, k) == Ed(Loaded(e.all[e.histPos + k]), e.all, e.histPos + k, e.scratch)
    decreases k
  {
    if k > 1 {
      DownsShow(e, k - 1);
    } else {
      assert Downs(e, 0) == e;
    }
  }

  /** After the DOWN that reaches it, the saved line is shown again. */
  lemma DownsReach(e: Ed, k: nat)
    requires ValidEd(e) && e.histPos + k == |e.all| && k > 0
    ensures Downs(e, k) == Ed(Loaded(e.scratch.text), e.all, |e.all|, None)
  {
    if k > 1 {
      DownsShow(e, k - 1);
    } else {
      assert Downs(e, 0) == e;
    }
  }

  lemma {:induction false} UpsValid(e: Ed, k: nat)
    requires ValidEd(e)
    ensures ValidEd(Ups(e, k))
    decreases k
  {
    if k > 0 {
      UpsValid(e, k - 1);
      HistoryValid(Ups(e, k - 1));
    }
  }

  /** k successful UPs and then k DOWNs, with no edit between them, lead back to the same place. The line shown there
      is the one before, with the cursor at its end, exactly when that was the line itself or an entry not edited. */
  lemma UpsThenDowns(e: Ed, k: nat)
    requires ValidEd(e) && k > 0 && Oldest(e.all) + k <= e.histPos
    ensures var f := Downs(Ups(e, k), k);
            && f.histPos == e.histPos && f.all == e.all && f.scratch == e.scratch && f.line.pos == |f.line.text|
            && (f.line.text == e.line.text <==> e.histPos == |e.all| || e.line.text == e.all[e.histPos])
  {
    UpsShow(e, k);
    UpsValid(e, k);
    var u := Ups(e, k);
    if e.histPos == |e.all| {
      DownsReach(u, k);
    } else {
      DownsShow(u, k);
    }
  }

  /** On a new line behind one entry: UP, a character, DOWN, and UP again shows the entry without the character. */
  lemma EditLost(entry: string, c: char)
    requires ValidLine(Line(entry, 0)) && |entry| < HIST_LINE && Printable(c)
    ensures var edited := KeyStep(KeyStep(Fresh([entry]), Up).0, Char(c)).0;
            && edited.line.text == entry + [c]
            && KeyStep(KeyStep(edited, Down).0, Up).0.line.text == entry
  {
    var u := KeyStep(Fresh([entry]), Up).0;
    assert u.line == Loaded(entry);
    assert entry[..|entry|] == entry && entry[|entry|..] == [];
  }

  /** UP succeeds as long as an entry of the last 16 is left: from the line itself, min(16, entries) times. */
  lemma {:induction false} UpsStop(e: Ed, k: nat)
    requires ValidEd(e) && e.histPos == |e.all|
    ensures CanUp(Ups(e, k)) <==> k < HIST_MAX && k < |e.all|
    decreases k
  {
    if k == 0 { return; }
    if k <= HIST_MAX && k <= |e.all| {
      UpsShow(e, k);
    } else {
      UpsStop(e, k - 1);
    }
  }
}

/** The functions of libc/lineedit.c over the edit buffer and the history ring. */
module LineEditor {
  import opened LineEdit

  class Editor {
    const buf: array<char>
    const history: array<string>
    var len: int
    var pos: int
    var histCount: nat
    var histPos: nat
    var scratch: string
    var scratchValid: bool
    ghost var all: seq<string>

    ghost function Text(): string
      requires 0 <= len <= buf.Length
      reads this, buf
    {
      buf[..len]
    }

    ghost function L(): Line
      requires 0 <= len <= buf.Length && 0 <= pos
      reads this, buf
    {
      Line(Text(), pos)
    }

    /** The buffer has room for the line and its zero byte. */
    ghost predicate Fits()
      reads this, buf
    {
      buf.Length == LINE_MAX && 0 <= pos <= len < LINE_MAX
    }

    /** The ring holds the last entries. */
    ghost predicate Ring()
      reads this, history
    {
      && history.Length == HIST_MAX && histCount == |all|
      && forall k :: Oldest(all) <= k < |all| ==> history[k % HIST_MAX] == all[k]
    }

    ghost predicate Valid()
      reads this, buf, history
    {
      Fits() && Ring() && histPos <= histCount
    }

    ghost function E(): Ed
      requires Valid()
      reads this, buf, history
    {
      Ed(L(), all, histPos, if scratchValid then Some(scratch) else None)
    }

    constructor ()
      ensures Valid() && E() == Fresh([]) && fresh(buf) && fresh(history)
    {
      buf := new char[LINE_MAX];
      history := new string[HIST_MAX];
      len, pos, histCount, histPos := 0, 0, 0, 0;
      scratch, scratchValid, all := [], false, [];
    }

    // ----- le_insert() to le_kill_line(): whether the display needs an update

    /** The loop that opens a gap at `at`. */
    method ShiftRight(at: int, n: int)
      requires buf.Length == LINE_MAX && 0 <= at <= n < LINE_MAX
      modifies buf
      ensures forall x :: at < x <= n ==> buf[x] == old(buf[x - 1])
      ensures forall x :: 0 <= x <= at || n < x < LINE_MAX ==> buf[x] == old(buf[x])
    {
      ghost var t := buf[..];
      var i := n;
      while i > at
        invariant at <= i <= n
        invariant forall x :: i < x <= n ==> buf[x] == t[x - 1]
        invariant forall x :: 0 <= x <= i || n < x < LINE_MAX ==> buf[x] == t[x]
      {
        buf[i] := buf[i - 1];
        i := i - 1;
      }
    }

    method Insert(c: char) returns (r: bool)
      requires Fits()
      modifies this`len, this`pos, buf
      ensures Fits() && r == (old(len) < LINE_MAX - 1) && L() == Inserted(old(L()), c)
    {
      if len >= LINE_MAX - 1 {
        return false;
      }
      ghost var t := Text();
      ghost var p := pos;
      ShiftRight(pos, len);
      buf[pos] := c;
      len := len + 1;
      pos := pos + 1;
      assert buf[..len] == t[..p] + [c] + t[p..];
      r := true;
    }

    /** The loop that closes the gap at `at`. */
    method ShiftLeft(at: int, n: int)
      requires buf.Length == LINE_MAX && 0 <= at < n < LINE_MAX
      modifies buf
      ensures buf[..n - 1] == Without(old(buf[..n]), at)
    {
      ghost var t := buf[..];
      var i := at;
      while i < n - 1
        invariant at <= i <= n - 1
        invariant forall x :: at <= x < i ==> buf[x] == t[x + 1]
        invariant forall x :: 0 <= x < at || i <= x < LINE_MAX ==> buf[x] == t[x]
      {
        buf[i] := buf[i + 1];
        i := i + 1;
      }
      assert buf[..n - 1] == t[..n][..at] + t[..n][at + 1..];
    }

    method DeleteBack() returns (r: bool)
      requires Fits()
      modifies this`len, this`pos, buf
      ensures Fits() && r == (old(pos) > 0) && L() == DeletedBack(old(L()))
    {
      if pos <= 0 {
        return false;
      }
      pos := pos - 1;
      ShiftLeft(pos, len);
      len := len - 1;
      r := true;
    }

    method DeleteFwd() returns (r: bool)
      requires Fits()
      modifies this`len, buf
      ensures Fits() && r == (old(pos) < old(len)) && L() == DeletedFwd(old(L()))
    {
      if pos >= len {
        return false;
      }
      ShiftLeft(pos, len);
      len := len - 1;
      r := true;
    }

    // ----- output

    /** for (i = 0; i < n; i++) tmp[ti++] = c */
    method Emit(tmp: string, c: char, n: int) returns (r: string)
      ensures r == tmp + Repeat(c, if n > 0 then n else 0)
    {
      r := tmp;
      var i := 0;
      assert tmp + Repeat(c, 0) == tmp;
      while i < n
        invariant i == 0 || 0 < i <= n
        invariant r == tmp + Repeat(c, i)
      {
        RepeatSnoc(c, i);
        assert tmp + (Repeat(c, i) + [c]) == r + [c];
        r := r + [c];
        i := i + 1;
      }
    }

    /** for (i = from; i < len; i++) tmp[ti++] = buf[i] */
    method EmitText(tmp: string, from: int) returns (r: string)
      requires 0 <= from <= len <= buf.Length
      ensures r == tmp + Text()[from..]
    {
      r := tmp;
      var i := from;
      while i < len
        invariant from <= i <= len && r == tmp + Text()[from..i]
      {
        assert Text()[from..i + 1] == Text()[from..i] + [buf[i]];
        r := r + [buf[i]];
        i := i + 1;
      }
      assert Text()[from..len] == Text()[from..];
    }

    method RefreshOut(oldLen: nat, oldPos: nat) returns (r: string)
      requires Fits()
      ensures r == Refresh(L(), oldLen, oldPos)
    {
      var tmp := Emit([], BS, oldPos);
      tmp := EmitText(tmp, 0);
      var extra := oldLen - len;
      tmp := Emit(tmp, ' ', extra);
      var tail := len + (if extra > 0 then extra else 0) - pos;
      r := Emit(tmp, BS, tail);
      assert Text()[0..] == Text();
      assert [] + Backs(oldPos) == Backs(oldPos);
    }

    method OutputInsert() returns (r: string)
      requires Fits() && pos > 0
      ensures r == InsertOut(L())
    {
      if pos == len {
        return [buf[pos - 1]];
      }
      r := EmitText([], pos - 1);
      assert [] + Text()[pos - 1..] == Text()[pos - 1..];
      r := Emit(r, BS, len - pos);
    }

    method OutputBackspace() returns (r: string)
      requires Fits()
      ensures r == BackspaceOut(L())
    {
      r := EmitText([BS], pos);
      r := r + " ";
      r := Emit(r, BS, len - pos + 1);
    }

    method OutputDelete(oldLen: nat) returns (r: string)
      requires Fits() && len <= oldLen
      ensures r == DeleteOut(L(), oldLen)
    {
      r := EmitText([], pos);
      assert [] + Text()[pos..] == Text()[pos..];
      var extra := oldLen - len;
      r := Emit(r, ' ', extra);
      r := Emit(r, BS, len - pos + extra);
    }

    // ----- history

    /** le_hist_add() */
    method HistAdd()
      requires Fits() && Ring()
      modifies history, this`histCount, this`all
      ensures Ring() && all == old(all) + [Entry(Text())]
    {
      var slot := histCount % HIST_MAX;
      var n := len;
      if n >= HIST_LINE {
        n := HIST_LINE - 1;
      }
      history[slot] := buf[..n];
      histCount := histCount + 1;
      ghost var before := all;
      all := all + [Entry(Text())];
      assert buf[..n] == Entry(Text());
      forall k | Oldest(all) <= k < |all|
        ensures history[k % HIST_MAX] == all[k]
      {
        if k < |before| {
          OtherSlot(k, |before|);
        }
      }
    }

    /** le_hist_load() */
    method HistLoad(src: string)
      requires Fits() && |src| < LINE_MAX
      modifies buf, this`len, this`pos
      ensures Fits() && L() == Loaded(src)
    {
      var i := 0;
      while i < |src| && i < LINE_MAX - 1
        invariant 0 <= i <= |src| && buf[..i] == src[..i]
      {
        buf[i] := src[i];
        i := i + 1;
      }
      len := i;
      pos := i;
    }

    method HistUp() returns (r: bool)
      requires Valid() && (forall k :: 0 <= k < |all| ==> |all[k]| < LINE_MAX)
      modifies this, buf
      ensures Valid() && r == CanUp(old(E())) && E() == UpStep(old(E()))
    {
      var oldest := if histCount > HIST_MAX then histCount - HIST_MAX else 0;
      if histCount == 0 || histPos <= oldest {
        return false;
      }
      if !scratchValid {
        scratch := buf[..len];
        scratchValid := true;
      }
      histPos := histPos - 1;
      assert history[histPos % HIST_MAX] == all[histPos];
      HistLoad(history[histPos % HIST_MAX]);
      r := true;
    }

    method HistDown() returns (r: bool)
      requires Valid() && Oldest(all) <= histPos && (forall k :: 0 <= k < |all| ==> |all[k]| < LINE_MAX)
      requires scratchValid ==> |scratch| < LINE_MAX
      modifies this, buf
      ensures Valid() && r == CanDown(old(E())) && E() == DownStep(old(E()))
    {
      if histPos >= histCount {
        return false;
      }
      histPos := histPos + 1;
      if histPos == histCount {
        if scratchValid {
          HistLoad(scratch);
        }
        scratchValid := false;
        return true;
      }
      assert history[histPos % HIST_MAX] == all[histPos];
      HistLoad(history[histPos % HIST_MAX]);
      r := true;
    }

    // ----- the loop of le_readline()

    /** The start of le_readline(). */
    method Begin()
      requires Valid()
      modifies this
      ensures Valid() && E() == Fresh(old(all))
    {
      len := 0;
      pos := 0;
      histPos := histCount;
      scratchValid := false;
      assert buf[..0] == [];
    }

    method OnChar(c: char) returns (out: string)
      requires Fits()
      modifies this`len, this`pos, buf
      ensures Fits() && L() == Inserted(old(L()), c)
      ensures out == if old(len) >= LINE_MAX - 1 then [] else InsertOut(L())
    {
      out := [];
      var ok := Insert(c);
      if ok {
        out := OutputInsert();
      }
    }

    method OnBackspace() returns (out: string)
      requires Fits()
      modifies this`len, this`pos, buf
      ensures Fits() && L() == DeletedBack(old(L()))
      ensures out == if old(pos) == 0 then [] else BackspaceOut(L())
    {
      out := [];
      var ok := DeleteBack();
      if ok {
        out := OutputBackspace();
      }
    }

    method OnDelete() returns (out: string)
      requires Fits()
      modifies this`len, buf
      ensures Fits() && L() == DeletedFwd(old(L()))
      ensures out == if old(pos) >= old(len) then [] else DeleteOut(L(), old(len))
    {
      out := [];
      var oldLen := len;
      ghost var before := L();
      var ok := DeleteFwd();
      if ok {
        assert |Text()| == |before.text| - 1;
        out := OutputDelete(oldLen);
      }
    }

    method OnMove(key: Key) returns (out: string)
      requires Fits() && (key.Left? || key.Right? || key.Home? || key.End? || key.Kill?)
      modifies this`pos, this`len
      ensures Fits()
      ensures forall all, histPos: nat, scratch :: histPos <= |all| ==>
        KeyStep(Ed(old(L()), all, histPos, scratch), key) == (Ed(L(), all, histPos, scratch), out, false)
    {
      out := [];
      var oldLen, oldPos := len, pos;
      match key {
        case Left =>
          if pos > 0 {
            pos := pos - 1;
            out := [BS];
          }
        case Right =>
          if pos < len {
            pos := pos + 1;
            out := [buf[pos - 1]];
          }
        case Home =>
          if pos != 0 {
            pos := 0;
            out := Emit([], BS, oldPos);
            assert [] + Backs(oldPos) == Backs(oldPos);
          }
        case End =>
          if pos != len {
            pos := len;
            out := buf[oldPos..len];
            assert Text()[oldPos..] == buf[oldPos..len];
          }
        case Kill =>
          if len != 0 {
            len := 0;
            pos := 0;
            out := RefreshOut(oldLen, oldPos);
          }
      }
    }

    method OnHistory(up: bool) returns (out: string)
      requires Valid() && ValidEd(E())
      modifies this, buf
      ensures Valid() && (E(), out, false) == KeyStep(old(E()), if up then Up else Down)
    {
      out := [];
      var oldLen, oldPos := len, pos;
      EntriesFit(E());
      var ok;
      if up {
        ok := HistUp();
      } else {
        ok := HistDown();
      }
      if ok {
        out := RefreshOut(oldLen, oldPos);
      }
    }

    /** The switch on a key: what is written, and whether the line is finished. */
    method HandleKey(key: Key) returns (out: string, done: bool)
      requires Valid() && ValidEd(E())
      modifies this, buf, history
      ensures Valid() && (E(), out, done) == KeyStep(old(E()), key)
    {
      hide InsertOut, BackspaceOut, DeleteOut, Refresh;
      done := false;
      match key {
        case Char(c) => out := OnChar(c);
        case Backspace => out := OnBackspace();
        case Delete => out := OnDelete();
        case Up => out := OnHistory(true);
        case Down => out := OnHistory(false);
        case Eof =>
          if len == 0 {
            return [], true;
          }
          out := OnDelete();
        case Enter =>
          if len > 0 {
            HistAdd();
          }
          return "\n", true;
        case Ignored => out := [];
        case _ => out := OnMove(key);
      }
    }

    /** The end of le_readline(): the line with a newline, cut to the size of the caller's buffer. */
    method Result(bufsz: int) returns (r: string)
      requires Fits() && bufsz >= 1
      ensures r == Text()[..if len + 1 > bufsz then bufsz - 1 else len] + "\n" && |r| <= bufsz
    {
      var n := len;
      if n + 1 > bufsz {
        n := bufsz - 1;
      }
      r := buf[..n] + "\n";
    }
  }

  lemma {:induction false} RepeatSnoc(c: char, n: nat)
    ensures Repeat(c, n) + [c] == Repeat(c, n + 1)
  {
    if n > 0 {
      RepeatSnoc(c, n - 1);
    }
  }

  lemma EntriesFit(e: Ed)
    requires ValidEd(e)
    ensures (forall k :: 0 <= k < |e.all| ==> |e.all[k]| < LINE_MAX)
      && (e.scratch.Some? ==> |e.scratch.text| < LINE_MAX)
  {
    assert forall k :: 0 <= k < |e.all| ==> ValidLine(Line(e.all[k], 0));
  }

  /** Entries less than 16 apart are in different slots. */
  lemma OtherSlot(k: nat, n: nat)
    requires k < n < k + HIST_MAX
    ensures k % HIST_MAX != n % HIST_MAX
  {
  }
}

/** calcsize(), copynode(), copynodelist(), nodesavestr() and copyfunc() of apps/dash/nodes.c. */
module NodeCopy {
  import opened Nodes

  class Arena {
    var funcblocksize: int
    var funcstringsize: int
    var funcblock: int
    var funcstring: int
    var memory: Memory
    ghost var blockStart: int
    ghost var stringStart: int
    ghost var pieces: seq<(int, int)>        // the structures made so far, with their sizes
    ghost var strings: seq<(int, int)>       // the strings made so far

    /** The structures fill the block up to funcblock, and the strings theirs up to funcstring. */
    ghost predicate Valid()
      reads this
    {
      && 0 < blockStart && 0 < stringStart
      && Tile(pieces, blockStart, funcblock) && Tile(strings, stringStart, funcstring)
    }

    /** What a copy may rely on and what it leaves alone. */
    twostate predicate Grown()
      reads this
    {
      && Valid() && blockStart == old(blockStart) && stringStart == old(stringStart)
      && old(funcblock) <= funcblock && old(funcstring) <= funcstring
      && old(pieces) <= pieces && old(strings) <= strings
      && Outside(old(memory), memory, Area(old(funcblock), funcblock, old(funcstring), funcstring))
    }

    // ----- the first pass

    method CalcSize(t: Tree)
      modifies this`funcblocksize, this`funcstringsize
      ensures funcblocksize == old(funcblocksize) + BlockSize(t)
      ensures funcstringsize == old(funcstringsize) + StringSize(t)
      decreases t
    {
      match t {
        case Null =>
        case Node(typ, fields) =>
          funcblocksize := funcblocksize + NodeSize(typ);
          CalcFields(fields);
      }
    }

    method CalcFields(fs: Fields)
      modifies this`funcblocksize, this`funcstringsize
      ensures funcblocksize == old(funcblocksize) + FieldsBlock(fs)
      ensures funcstringsize == old(funcstringsize) + FieldsString(fs)
      decreases fs
    {
      match fs {
        case Done =>
        case Field(v, rest) =>
          match v {
            case Sub(t) => CalcSize(t);
            case List(ts) => SizeNodeList(ts);
            case Str(s) => funcstringsize := funcstringsize + |s| + 1;
            case Num(_) =>
          }
          CalcFields(rest);
      }
    }

    method SizeNodeList(ts: Trees)
      modifies this`funcblocksize, this`funcstringsize
      ensures funcblocksize == old(funcblocksize) + ListBlock(ts)
      ensures funcstringsize == old(funcstringsize) + ListString(ts)
      decreases ts
    {
      var lp := ts;
      while lp.More?
        invariant funcblocksize + ListBlock(lp) == old(funcblocksize) + ListBlock(ts)
        invariant funcstringsize + ListString(lp) == old(funcstringsize) + ListString(ts)
        invariant lp == ts || lp < ts
        decreases lp
      {
        funcblocksize := funcblocksize + LIST_SIZE;
        CalcSize(lp.first);
        lp := lp.rest;
      }
    }

    // ----- the second pass

    /** The next structure of `n` bytes. */
    method Bump(n: nat) returns (p: int)
      requires Valid() && n > 0
      modifies this`funcblock, this`pieces
      ensures Valid() && p == old(funcblock) && p > 0 && funcblock == p + n && pieces == old(pieces) + [(p, n)]
    {
      TileApart(pieces, blockStart, funcblock);
      TileMore(pieces, blockStart, funcblock, n);
      p := funcblock;
      funcblock := funcblock + n;
      pieces := pieces + [(p, n)];
    }

    /** stpcpy() */
    method StpCpy(to: int, s: string) returns (end: int)
      modifies this`memory
      ensures end == to + |s| && memory.cells == old(memory).cells
      ensures StringAt(memory, to, s, Area(0, 0, to, end + 1)) && Outside(old(memory), memory, Area(0, 0, to, end + 1))
    {
      ghost var m := memory;
      var i := 0;
      while i < |s|
        invariant 0 <= i <= |s| && memory.cells == m.cells
        invariant forall q :: to <= q < to + i ==> q in memory.chars && memory.chars[q] == s[q - to]
        invariant forall q :: q in m.chars && !(to <= q < to + i) ==> q in memory.chars && memory.chars[q] == m.chars[q]
      {
        memory := memory.(chars := memory.chars[to + i := s[i]]);
        i := i + 1;
      }
      memory := memory.(chars := memory.chars[to + |s| := '\0']);
      end := to + |s|;
    }

    method NodeSaveStr(s: string) returns (rtn: int)
      requires Valid() && ValueShaped(Str(s))
      modifies this`funcstring, this`memory, this`strings
      ensures Valid() && rtn == old(funcstring) && funcstring == rtn + |s| + 1
        && strings == old(strings) + [(rtn, |s| + 1)]
      ensures memory.cells == old(memory).cells && Outside(old(memory), memory, Area(0, 0, rtn, funcstring))
      ensures StringAt(memory, rtn, s, Area(funcblock, funcblock, rtn, funcstring))
    {
      rtn := funcstring;
      TileMore(strings, stringStart, funcstring, |s| + 1);
      strings := strings + [(funcstring, |s| + 1)];
      var end := StpCpy(funcstring, s);
      funcstring := end + 1;
    }

    method CopyNode(t: Tree) returns (p: int)
      requires Valid() && Shaped(t)
      modifies this`funcblock, this`funcstring, this`memory, this`pieces, this`strings
      ensures Grown()
      ensures funcblock == old(funcblock) + BlockSize(t) && funcstring == old(funcstring) + StringSize(t)
      ensures Holds(memory, p, t, Area(old(funcblock), funcblock, old(funcstring), funcstring))
      decreases t, 0
    {
      match t {
        case Null => p := 0;
        case Node(typ, fields) =>
          p := Bump(NodeSize(typ));
          ghost var b, s := funcblock, funcstring;
          var ws := CopyFields(fields);
          ghost var m := memory;
          memory := memory.(cells := memory.cells[p := NodeCell(typ, ws)]);
          FieldsStay(m, ws, fields, Area(b, funcblock, s, funcstring), memory, Area(p, funcblock, s, funcstring));
      }
    }

    /** The assignments to the fields of a new node, in their order. */
    method CopyFields(fs: Fields) returns (ws: seq<Word>)
      requires Valid() && FieldsShaped(fs)
      modifies this`funcblock, this`funcstring, this`memory, this`pieces, this`strings
      ensures Grown()
      ensures funcblock == old(funcblock) + FieldsBlock(fs) && funcstring == old(funcstring) + FieldsString(fs)
      ensures HoldsFields(memory, ws, fs, Area(old(funcblock), funcblock, old(funcstring), funcstring))
      decreases fs
    {
      match fs {
        case Done => ws := [];
        case Field(v, rest) =>
          ghost var b0, s0 := funcblock, funcstring;
          var w := CopyValue(v);
          ghost var m, b, s := memory, funcblock, funcstring;
          var ws' := CopyFields(rest);
          ws := [w] + ws';
          ValueStays(m, w, v, Area(b0, b, s0, s), memory, Area(b0, funcblock, s0, funcstring));
          FieldsStay(memory, ws', rest, Area(b, funcblock, s, funcstring), memory, Area(b0, funcblock, s0, funcstring));
          assert ws[1..] == ws';
      }
    }

    method CopyValue(v: Value) returns (w: Word)
      requires Valid() && ValueShaped(v)
      modifies this`funcblock, this`funcstring, this`memory, this`pieces, this`strings
      ensures Grown()
      ensures funcblock == old(funcblock) + ValueBlock(v) && funcstring == old(funcstring) + ValueString(v)
      ensures HoldsValue(memory, w, v, Area(old(funcblock), funcblock, old(funcstring), funcstring))
      decreases v
    {
      match v {
        case Sub(t) =>
          var p := CopyNode(t);
          w := Ptr(p);
        case List(ts) =>
          var p := CopyNodeList(ts);
          w := Ptr(p);
        case Str(s) =>
          var p := NodeSaveStr(s);
          w := Ptr(p);
        case Num(n) => w := Int(n);
      }
    }

    /** copynodelist() */
    method CopyNodeList(ts: Trees) returns (start: int)
      requires Valid() && ListShaped(ts)
      modifies this`funcblock, this`funcstring, this`memory, this`pieces, this`strings
      ensures Grown()
      ensures funcblock == old(funcblock) + ListBlock(ts) && funcstring == old(funcstring) + ListString(ts)
      ensures HoldsList(memory, start, ts, Area(old(funcblock), funcblock, old(funcstring), funcstring))
      decreases ts
    {
      TileApart(pieces, blockStart, funcblock);
      start := 0;
      var prev := 0;             // the element whose next field is to be set, or 0 for the variable itself
      var lp := ts;
      ghost var made := Empty;
      while lp.More?
        invariant Grown() && ListShaped(lp) && (lp == ts || lp < ts)
        invariant funcblock + ListBlock(lp) == old(funcblock) + ListBlock(ts)
        invariant funcstring + ListString(lp) == old(funcstring) + ListString(ts)
        invariant Chained(memory, start, made, Area(old(funcblock), funcblock, old(funcstring), funcstring), prev)
        invariant Append(made, lp) == ts
        decreases lp
      {
        AppendSnoc(made, lp.first, lp.rest);
        start, prev := CopyElement(lp.first, start, prev, made, old(funcblock), old(funcstring));
        made := Snoc(made, lp.first);
        lp := lp.rest;
      }
      AppendEmpty(made);
      ChainedHolds(memory, start, made, Area(old(funcblock), funcblock, old(funcstring), funcstring), prev);
    }

    /** The new element is linked to the one before it. */
    method LinkElement(start0: int, prev: int, ghost made: Trees, ghost lo: int, ghost slo: int)
      returns (start: int, p: int)
      requires Valid() && 0 < lo <= funcblock && slo <= funcstring
      requires Chained(memory, start0, made, Area(lo, funcblock, slo, funcstring), prev)
      modifies this`funcblock, this`memory, this`pieces
      ensures Valid() && p == old(funcblock) && funcblock == p + LIST_SIZE && old(pieces) <= pieces
      ensures start == (if made.Empty? then p else start0) && (prev != 0 ==> prev < p)
      ensures Extended(old(memory), memory, Area(lo, p, slo, funcstring), prev, p)
      ensures Outside(old(memory), memory, Area(lo, funcblock, slo, funcstring))
    {
      start := start0;
      LastInside(memory, start0, made, Area(lo, funcblock, slo, funcstring), prev);
      p := Bump(LIST_SIZE);
      if prev == 0 {
        start := p;
      } else {
        memory := memory.(cells := memory.cells[prev := memory.cells[prev].(next := p)]);
      }
    }

    /** One turn of the loop: the new element is linked, and then filled. */
    method CopyElement(t: Tree, start0: int, prev: int, ghost made: Trees, ghost lo: int, ghost slo: int)
      returns (start: int, p: int)
      requires Valid() && Shaped(t) && 0 < lo <= funcblock && slo <= funcstring
      requires Chained(memory, start0, made, Area(lo, funcblock, slo, funcstring), prev)
      modifies this`funcblock, this`funcstring, this`memory, this`pieces, this`strings
      ensures Valid() && blockStart == old(blockStart) && stringStart == old(stringStart)
      ensures old(pieces) <= pieces && old(strings) <= strings
      ensures Outside(old(memory), memory, Area(lo, funcblock, slo, funcstring))
      ensures funcblock == old(funcblock) + LIST_SIZE + BlockSize(t) && funcstring == old(funcstring) + StringSize(t)
      ensures Chained(memory, start, Snoc(made, t), Area(lo, funcblock, slo, funcstring), p)
      decreases t, 1
    {
      hide Holds, Chained, Outside, Shaped, BlockSize, StringSize;
      ghost var m0, b0, s0 := memory, funcblock, funcstring;
      start, p := LinkElement(start0, prev, made, lo, slo);
      ghost var m1, b := memory, funcblock;
      var n := CopyNode(t);
      ghost var m2 := memory;
      memory := memory.(cells := memory.cells[p := ListCell(0, n)]);
      HoldsStays(m2, n, t, Area(b, funcblock, s0, funcstring), memory, Area(p + LIST_SIZE, funcblock, slo, funcstring));
      StillExtended(m0, m1, m2, memory, Area(lo, b0, slo, s0), prev, p, Area(b, funcblock, s0, funcstring));
      ChainedSnoc(m0, start0, made, Area(lo, b0, slo, s0), prev, memory, p, n, t, Area(lo, funcblock, slo, funcstring));
      StillOutside(m0, m1, m2, memory, Area(lo, b, slo, s0), p, Area(b, funcblock, s0, funcstring));
    }

    // ----- the whole copy

    /** copyfunc(), for a block allocated at f whose header has `offset` bytes. */
    method CopyFunc(t: Tree, f: int, offset: nat) returns (p: int)
      requires Shaped(t) && f > 0
      modifies this
      ensures funcblocksize == offset + BlockSize(t) && funcstringsize == StringSize(t)
      ensures funcblock == f + funcblocksize && funcstring == f + funcblocksize + funcstringsize
      ensures Tile(pieces, f + offset, f + funcblocksize)
      ensures Tile(strings, f + funcblocksize, f + funcblocksize + funcstringsize)
      ensures var area := Area(f + offset, f + funcblocksize, f + funcblocksize, f + funcblocksize + funcstringsize);
              Holds(memory, p, t, area) && Outside(old(memory), memory, area)
    {
      hide Holds, Outside, BlockSize, StringSize;
      funcblocksize := offset;
      funcstringsize := 0;
      CalcSize(t);
      funcblock := f + offset;
      funcstring := f + funcblocksize;
      blockStart, stringStart, pieces, strings := funcblock, funcstring, [], [];
      p := CopyNode(t);
    }
  }

  function Snoc(ts: Trees, t: Tree): Trees {
    if ts.Empty? then More(t, Empty) else More(ts.first, Snoc(ts.rest, t))
  }

  function Append(ts: Trees, us: Trees): Trees {
    if ts.Empty? then us else More(ts.first, Append(ts.rest, us))
  }

  lemma {:induction false} AppendSnoc(ts: Trees, t: Tree, us: Trees)
    ensures Append(ts, More(t, us)) == Append(Snoc(ts, t), us)
    decreases ts
  {
    if ts.More? {
      AppendSnoc(ts.rest, t, us);
    }
  }

  lemma {:induction false} AppendEmpty(ts: Trees)
    ensures Append(ts, Empty) == ts
    decreases ts
  {
    if ts.More? {
      AppendEmpty(ts.rest);
    }
  }

  /** A list whose elements were made one after the other: the tree of each element lies between it and the next
      one, and `last` is the last element, or 0. */
  predicate Chained(m: Memory, p: int, ts: Trees, r: Area, last: int)
    decreases ts
  {
    match ts
    case Empty => p == 0 && last == 0
    case More(t, rest) =>
      && p in m.cells && m.cells[p].ListCell? && CellAt(m, p, m.cells[p], r)
      && var c := m.cells[p];
         if rest.Empty? then last == p && c.next == 0 && Holds(m, c.node, t, Area(p + LIST_SIZE, r.hi, r.slo, r.shi))
         else
           && p < c.next && p < last && Holds(m, c.node, t, Area(p + LIST_SIZE, c.next, r.slo, r.shi))
           && Chained(m, c.next, rest, r, last)
  }

  lemma {:induction false} ChainedHolds(m: Memory, p: int, ts: Trees, r: Area, last: int)
    requires Chained(m, p, ts, r, last)
    ensures HoldsList(m, p, ts, r)
    decreases ts
  {
    if ts.Empty? { return; }
    var c := m.cells[p];
    if ts.rest.Empty? {
      HoldsStays(m, c.node, ts.first, Area(p + LIST_SIZE, r.hi, r.slo, r.shi), m, r);
    } else {
      ChainedHolds(m, c.next, ts.rest, r, last);
      HoldsStays(m, c.node, ts.first, Area(p + LIST_SIZE, c.next, r.slo, r.shi), m, r);
    }
  }

  /** The last element is in the area, and is not linked yet. */
  lemma {:induction false} LastInside(m: Memory, p: int, ts: Trees, r: Area, last: int)
    requires Chained(m, p, ts, r, last)
    ensures if ts.Empty? then last == 0
            else last != 0 && r.lo <= last < r.hi && last in m.cells && m.cells[last].ListCell?
    decreases ts
  {
    if ts.More? && ts.rest.More? {
      LastInside(m, m.cells[p].next, ts.rest, r, last);
    }
  }

  /** n is m with the element q behind the last one, and with whatever is needed for it from the end of area r on. */
  predicate Extended(m: Memory, n: Memory, r: Area, last: int, q: int) {
    && (forall x :: x in m.cells && r.lo <= x < r.hi && x != last ==> x in n.cells && n.cells[x] == m.cells[x])
    && (last != 0 ==>
          last in m.cells && m.cells[last].ListCell? && last in n.cells && n.cells[last] == m.cells[last].(next := q))
    && (forall x :: x in m.chars && r.slo <= x < r.shi ==> x in n.chars && n.chars[x] == m.chars[x])
  }

  /** Filling the new element leaves the earlier ones. */
  lemma StillExtended(m0: Memory, m1: Memory, m2: Memory, m3: Memory, r: Area, last: int, q: int, w: Area)
    requires Extended(m0, m1, r, last, q) && Outside(m1, m2, w) && r.hi <= w.lo && r.shi <= w.slo && q == r.hi
    requires last != 0 ==> last < r.hi
    requires m3.chars == m2.chars && forall x :: x in m2.cells && x != q ==> x in m3.cells && m3.cells[x] == m2.cells[x]
    ensures Extended(m0, m3, r, last, q)
  {
  }

  lemma StillOutside(m0: Memory, m1: Memory, m2: Memory, m3: Memory, r: Area, q: int, w: Area)
    requires Outside(m0, m1, r) && Outside(m1, m2, w) && r.lo <= q < r.hi == w.lo <= w.hi
      && r.slo <= r.shi == w.slo <= w.shi
    requires m3.chars == m2.chars && forall x :: x in m2.cells && x != q ==> x in m3.cells && m3.cells[x] == m2.cells[x]
    ensures Outside(m0, m3, Area(r.lo, w.hi, r.slo, w.shi))
  {
  }

  lemma {:induction false} ChainedSnoc(m: Memory, p: int, ts: Trees, r: Area, last: int, n: Memory, q: int, node: int,
                                       t: Tree, r': Area)
    requires Chained(m, p, ts, r, last) && Extended(m, n, r, last, q)
    requires r'.lo == r.lo && r'.slo == r.slo && r.shi <= r'.shi && q == r.hi < r'.hi && r.lo <= q && q != 0
    requires q in n.cells && n.cells[q] == ListCell(0, node)
    requires Holds(n, node, t, Area(q + LIST_SIZE, r'.hi, r'.slo, r'.shi))
    ensures Chained(n, if ts.Empty? then q else p, Snoc(ts, t), r', q)
    decreases ts
  {
    if ts.Empty? { return; }
    var c := m.cells[p];
    if ts.rest.Empty? {
      HoldsStays(m, c.node, ts.first, Area(p + LIST_SIZE, r.hi, r.slo, r.shi), n,
                 Area(p + LIST_SIZE, q, r'.slo, r'.shi));
      assert Chained(n, q, More(t, Empty), r', q);
    } else {
      LastInside(m, c.next, ts.rest, r, last);
      EarlierTree(m, p, ts, r, last, n, q, r');
      ChainedSnoc(m, c.next, ts.rest, r, last, n, q, node, t, r');
    }
  }

  /** The tree of an element before the last one stays. */
  lemma EarlierTree(m: Memory, p: int, ts: Trees, r: Area, last: int, n: Memory, q: int, r': Area)
    requires Chained(m, p, ts, r, last) && Extended(m, n, r, last, q) && ts.More? && ts.rest.More?
    requires r'.slo == r.slo && r.shi <= r'.shi
    ensures Holds(n, m.cells[p].node, ts.first, Area(p + LIST_SIZE, m.cells[p].next, r'.slo, r'.shi))
  {
    var c := m.cells[p];
    NextInside(m, p, ts, r, last);
    HoldsStays(m, c.node, ts.first, Area(p + LIST_SIZE, c.next, r.slo, r.shi), n,
               Area(p + LIST_SIZE, c.next, r'.slo, r'.shi));
  }

  lemma NextInside(m: Memory, p: int, ts: Trees, r: Area, last: int)
    requires Chained(m, p, ts, r, last) && ts.More? && ts.rest.More?
    ensures r.lo <= p && m.cells[p].next <= last && m.cells[p].next < r.hi
  {
  }

  /** Only memory in the area has changed. */
  predicate Outside(m: Memory, n: Memory, r: Area) {
    && (forall p :: p in m.cells && !(r.lo <= p < r.hi) ==> p in n.cells && n.cells[p] == m.cells[p])
    && (forall p :: p in m.chars && !(r.slo <= p < r.shi) ==> p in n.chars && n.chars[p] == m.chars[p])
  }
}

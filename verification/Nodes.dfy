/** Parse trees of dash and their copy in one block of memory (apps/dash/nodes.c): the shape of the nodes, the two
  sizes, and when memory holds a tree. */
module Nodes {

  // ----- trees

  /** A node pointer: null, or a node with its fields in the order in which they are copied. */
  datatype Tree = Null | Node(typ: nat, fields: Fields)

  datatype Fields = Done | Field(head: Value, tail: Fields)

  /** A field: a node, a list of nodes, a string or a number. */
  datatype Value = Sub(node: Tree) | List(nodes: Trees) | Str(text: string) | Num(n: int)

  datatype Trees = Empty | More(first: Tree, rest: Trees)

  datatype Kind = KSub | KList | KStr | KNum

  const NTYPES: int := 26
  const NFILE_FIRST: int := 16
  const NFILE_LAST: int := 20

  /** The fields of each node type, as copynode() handles them; expfname of the file nodes is not copied. */
  function Layout(typ: nat): seq<Kind> {
    if typ == 0 then [KSub, KSub, KSub, KNum]               // NCMD: redirect, args, assign, linno
    else if typ == 1 then [KList, KNum]                     // NPIPE: cmdlist, backgnd
    else if 2 <= typ <= 4 then [KSub, KSub, KNum]           // NREDIR, NBACKGND, NSUBSHELL: redirect, n, linno
    else if 5 <= typ <= 7 || typ == 9 || typ == 10 then [KSub, KSub] // NAND, NOR, NSEMI, NWHILE, NUNTIL: ch2, ch1
    else if typ == 8 then [KSub, KSub, KSub]                // NIF: elsepart, ifpart, test
    else if typ == 11 then [KStr, KSub, KSub, KNum]         // NFOR: var, body, args, linno
    else if typ == 12 then [KSub, KSub, KNum]               // NCASE: cases, expr, linno
    else if typ == 13 then [KSub, KSub, KSub]               // NCLIST: body, pattern, next
    else if typ == 14 then [KSub, KStr, KNum]               // NDEFUN: body, text, linno
    else if typ == 15 then [KList, KStr, KSub]              // NARG: backquote, text, next
    else if 16 <= typ <= 20 then [KSub, KNum, KSub]         // NTO..NAPPEND: fname, fd, next
    else if typ == 21 || typ == 22 then [KSub, KNum, KNum, KSub] // NTOFD, NFROMFD: vname, dupfd, fd, next
    else if typ == 23 || typ == 24 then [KSub, KNum, KSub]  // NHERE, NXHERE: doc, fd, next
    else [KSub]                                             // NNOT: com
  }

  predicate IsKind(v: Value, k: Kind) {
    match k
    case KSub => v.Sub?
    case KList => v.List?
    case KStr => v.Str?
    case KNum => v.Num?
  }

  predicate HasLayout(fs: Fields, ks: seq<Kind>) {
    match fs
    case Done => ks == []
    case Field(v, rest) => ks != [] && IsKind(v, ks[0]) && HasLayout(rest, ks[1..])
  }

  /** A tree that the parser can build: every node has the fields of its type, and strings have no zero byte. */
  predicate Shaped(t: Tree) {
    t.Null? || (t.typ < NTYPES && HasLayout(t.fields, Layout(t.typ)) && FieldsShaped(t.fields))
  }

  predicate FieldsShaped(fs: Fields) {
    fs.Done? || (ValueShaped(fs.head) && FieldsShaped(fs.tail))
  }

  predicate ValueShaped(v: Value) {
    match v
    case Sub(t) => Shaped(t)
    case List(ts) => ListShaped(ts)
    case Str(s) => forall i :: 0 <= i < |s| ==> s[i] != '\0'
    case Num(_) => true
  }

  predicate ListShaped(ts: Trees) {
    ts.Empty? || (Shaped(ts.first) && ListShaped(ts.rest))
  }

  // ----- sizes

  /** SHELL_ALIGN: up to a multiple of the size of a double. */
  function Align(n: nat): nat {
    (n + 7) / 8 * 8
  }

  /** Words of four bytes: the type, the copied fields, and expfname. */
  function NodeSize(typ: nat): (n: nat)
    ensures n > 0
  {
    Align(4 * (1 + |Layout(typ)| + if NFILE_FIRST <= typ <= NFILE_LAST then 1 else 0))
  }

  const LIST_SIZE: int := 8

  /** The sizes of the structures in nodes.h, of words of four bytes, in the order of the node types. */
  lemma NodeSizes()
    ensures NodeSize(0) == 24 && NodeSize(1) == 16
    ensures forall typ :: 2 <= typ <= 10 ==> NodeSize(typ) == 16
    ensures NodeSize(11) == 24 && forall typ :: 12 <= typ <= 15 ==> NodeSize(typ) == 16
    ensures forall typ :: 16 <= typ <= 22 ==> NodeSize(typ) == 24
    ensures NodeSize(23) == NodeSize(24) == 16 && NodeSize(25) == 8
  {
  }

  /** A node has room for its type and its fields, those of a file with expfname, and wastes less than 8 bytes. */
  lemma NodeRoom(typ: nat)
    ensures var words := 1 + |Layout(typ)| + if 16 <= typ <= 20 then 1 else 0;
            NodeSize(typ) % 8 == 0 && 4 * words <= NodeSize(typ) < 4 * words + 8
  {
  }

  /** What calcsize() adds to funcblocksize. */
  function BlockSize(t: Tree): nat {
    if t.Null? then 0 else NodeSize(t.typ) + FieldsBlock(t.fields)
  }

  function FieldsBlock(fs: Fields): nat {
    if fs.Done? then 0 else ValueBlock(fs.head) + FieldsBlock(fs.tail)
  }

  function ValueBlock(v: Value): nat {
    match v
    case Sub(t) => BlockSize(t)
    case List(ts) => ListBlock(ts)
    case Str(_) => 0
    case Num(_) => 0
  }

  function ListBlock(ts: Trees): nat {
    if ts.Empty? then 0 else LIST_SIZE + BlockSize(ts.first) + ListBlock(ts.rest)
  }

  /** What calcsize() adds to funcstringsize. */
  function StringSize(t: Tree): nat {
    if t.Null? then 0 else FieldsString(t.fields)
  }

  function FieldsString(fs: Fields): nat {
    if fs.Done? then 0 else ValueString(fs.head) + FieldsString(fs.tail)
  }

  function ValueString(v: Value): nat {
    match v
    case Sub(t) => StringSize(t)
    case List(ts) => ListString(ts)
    case Str(s) => |s| + 1
    case Num(_) => 0
  }

  function ListString(ts: Trees): nat {
    if ts.Empty? then 0 else StringSize(ts.first) + ListString(ts.rest)
  }

  // ----- memory

  /** A field of a structure in memory. */
  datatype Word = Ptr(p: int) | Int(n: int)

  /** A structure at an address: a node with its copied fields, or an element of a list. */
  datatype Cell = NodeCell(typ: nat, words: seq<Word>) | ListCell(next: int, node: int)

  datatype Memory = Memory(cells: map<int, Cell>, chars: map<int, char>)

  /** Structures at [lo, hi), strings at [slo, shi). */
  datatype Area = Area(lo: int, hi: int, slo: int, shi: int)

  /** The structure at p is in the area, and is c. */
  predicate CellAt(m: Memory, p: int, c: Cell, r: Area) {
    p != 0 && r.lo <= p < r.hi && p in m.cells && m.cells[p] == c
  }

  /** The string at p, with its zero byte, is in the area. */
  predicate StringAt(m: Memory, p: int, s: string, r: Area) {
    && r.slo <= p && p + |s| < r.shi
    && (forall q :: p <= q < p + |s| ==> q in m.chars && m.chars[q] == s[q - p])
    && p + |s| in m.chars && m.chars[p + |s|] == '\0'
  }

  /** Memory holds the tree at p, all of it in the area. */
  predicate Holds(m: Memory, p: int, t: Tree, r: Area)
    decreases t
  {
    match t
    case Null => p == 0
    case Node(typ, fields) =>
      && p in m.cells && m.cells[p].NodeCell? && CellAt(m, p, NodeCell(typ, m.cells[p].words), r)
      && HoldsFields(m, m.cells[p].words, fields, r)
  }

  predicate HoldsFields(m: Memory, ws: seq<Word>, fs: Fields, r: Area)
    decreases fs
  {
    match fs
    case Done => ws == []
    case Field(v, rest) => ws != [] && HoldsValue(m, ws[0], v, r) && HoldsFields(m, ws[1..], rest, r)
  }

  predicate HoldsValue(m: Memory, w: Word, v: Value, r: Area)
    decreases v
  {
    match v
    case Sub(t) => w.Ptr? && Holds(m, w.p, t, r)
    case List(ts) => w.Ptr? && HoldsList(m, w.p, ts, r)
    case Str(s) => w.Ptr? && StringAt(m, w.p, s, r)
    case Num(n) => w == Int(n)
  }

  predicate HoldsList(m: Memory, p: int, ts: Trees, r: Area)
    decreases ts
  {
    match ts
    case Empty => p == 0
    case More(t, rest) =>
      && p in m.cells && m.cells[p].ListCell? && CellAt(m, p, m.cells[p], r)
      && Holds(m, m.cells[p].node, t, r) && HoldsList(m, m.cells[p].next, rest, r)
  }

  // ----- a tree stays where it is when memory elsewhere changes

  /** The two memories agree on the area r, and q includes it. */
  predicate Agree(m: Memory, n: Memory, r: Area, q: Area) {
    && q.lo <= r.lo && r.hi <= q.hi && q.slo <= r.slo && r.shi <= q.shi
    && (forall p :: p in m.cells && r.lo <= p < r.hi ==> p in n.cells && n.cells[p] == m.cells[p])
    && (forall p :: p in m.chars && r.slo <= p < r.shi ==> p in n.chars && n.chars[p] == m.chars[p])
  }

  lemma {:induction false} HoldsStays(m: Memory, p: int, t: Tree, r: Area, n: Memory, q: Area)
    requires Holds(m, p, t, r) && Agree(m, n, r, q)
    ensures Holds(n, p, t, q)
    decreases t
  {
    match t
    case Null =>
    case Node(typ, fields) =>
      assert p in n.cells && n.cells[p] == m.cells[p];
      FieldsStay(m, m.cells[p].words, fields, r, n, q);
      assert CellAt(n, p, NodeCell(typ, n.cells[p].words), q) && HoldsFields(n, n.cells[p].words, fields, q);
  }

  lemma {:induction false} FieldsStay(m: Memory, ws: seq<Word>, fs: Fields, r: Area, n: Memory, q: Area)
    requires HoldsFields(m, ws, fs, r) && Agree(m, n, r, q)
    ensures HoldsFields(n, ws, fs, q)
    decreases fs
  {
    if fs.Field? {
      ValueStays(m, ws[0], fs.head, r, n, q);
      FieldsStay(m, ws[1..], fs.tail, r, n, q);
    }
  }

  lemma {:induction false} ValueStays(m: Memory, w: Word, v: Value, r: Area, n: Memory, q: Area)
    requires HoldsValue(m, w, v, r) && Agree(m, n, r, q)
    ensures HoldsValue(n, w, v, q)
    decreases v
  {
    match v
    case Sub(t) => HoldsStays(m, w.p, t, r, n, q);
    case List(ts) => ListStays(m, w.p, ts, r, n, q);
    case Str(s) =>
    case Num(_) =>
  }

  lemma {:induction false} ListStays(m: Memory, p: int, ts: Trees, r: Area, n: Memory, q: Area)
    requires HoldsList(m, p, ts, r) && Agree(m, n, r, q)
    ensures HoldsList(n, p, ts, q)
    decreases ts
  {
    if ts.More? {
      HoldsStays(m, m.cells[p].node, ts.first, r, n, q);
      ListStays(m, m.cells[p].next, ts.rest, r, n, q);
    }
  }

  /** Memory holds at most one tree at an address. */
  lemma {:induction false} HoldsUnique(m: Memory, p: int, t: Tree, u: Tree, r: Area)
    requires Holds(m, p, t, r) && Holds(m, p, u, r) && Shaped(t) && Shaped(u)
    ensures t == u
    decreases t
  {
    if t.Node? {
      FieldsUnique(m, m.cells[p].words, t.fields, u.fields, Layout(t.typ), r);
    }
  }

  lemma {:induction false} FieldsUnique(m: Memory, ws: seq<Word>, fs: Fields, gs: Fields, ks: seq<Kind>, r: Area)
    requires HoldsFields(m, ws, fs, r) && HoldsFields(m, ws, gs, r) && HasLayout(fs, ks) && HasLayout(gs, ks)
    requires FieldsShaped(fs) && FieldsShaped(gs)
    ensures fs == gs
    decreases fs
  {
    if fs.Field? {
      ValueUnique(m, ws[0], fs.head, gs.head, ks[0], r);
      FieldsUnique(m, ws[1..], fs.tail, gs.tail, ks[1..], r);
    }
  }

  lemma {:induction false} ValueUnique(m: Memory, w: Word, v: Value, x: Value, k: Kind, r: Area)
    requires HoldsValue(m, w, v, r) && HoldsValue(m, w, x, r) && IsKind(v, k) && IsKind(x, k) && ValueShaped(v)
      && ValueShaped(x)
    ensures v == x
    decreases v
  {
    match v
    case Sub(t) => HoldsUnique(m, w.p, t, x.node, r);
    case List(ts) => ListUnique(m, w.p, ts, x.nodes, r);
    case Str(s) => StringUnique(m, w.p, s, x.text, r);
    case Num(_) =>
  }

  lemma {:induction false} ListUnique(m: Memory, p: int, ts: Trees, us: Trees, r: Area)
    requires HoldsList(m, p, ts, r) && HoldsList(m, p, us, r) && ListShaped(ts) && ListShaped(us)
    ensures ts == us
    decreases ts
  {
    if ts.More? {
      HoldsUnique(m, m.cells[p].node, ts.first, us.first, r);
      ListUnique(m, m.cells[p].next, ts.rest, us.rest, r);
    }
  }

  /** A string ends at its first zero byte. */
  lemma StringLength(m: Memory, p: int, s: string, t: string, r: Area)
    requires StringAt(m, p, s, r) && StringAt(m, p, t, r) && ValueShaped(Str(t))
    ensures |t| <= |s|
  {
    var c := m.chars[p + |s|];
    assert forall q :: p <= q < p + |t| ==> m.chars[q] != '\0';
  }

  lemma StringUnique(m: Memory, p: int, s: string, t: string, r: Area)
    requires StringAt(m, p, s, r) && StringAt(m, p, t, r) && ValueShaped(Str(s)) && ValueShaped(Str(t))
    ensures s == t
  {
    StringLength(m, p, s, t, r);
    StringLength(m, p, t, s, r);
    forall i | 0 <= i < |s|
      ensures s[i] == t[i]
    {
      var c := m.chars[p + i];
    }
  }

  // ----- pieces

  /** The pieces lie end to end from a to b. */
  predicate Tile(pieces: seq<(int, int)>, a: int, b: int) {
    if pieces == [] then a == b
    else
      var last := pieces[|pieces| - 1];
      last.1 > 0 && last.0 + last.1 == b && Tile(pieces[..|pieces| - 1], a, last.0)
  }

  lemma TileMore(pieces: seq<(int, int)>, a: int, b: int, n: int)
    requires Tile(pieces, a, b) && n > 0
    ensures Tile(pieces + [(b, n)], a, b + n)
  {
    assert (pieces + [(b, n)])[..|pieces|] == pieces;
  }

  /** Such pieces stay between a and b and do not overlap. */
  lemma {:induction false} TileApart(pieces: seq<(int, int)>, a: int, b: int)
    requires Tile(pieces, a, b)
    ensures a <= b && forall i :: 0 <= i < |pieces| ==> a <= pieces[i].0 && pieces[i].0 + pieces[i].1 <= b
    ensures forall i, j :: 0 <= i < j < |pieces| ==> pieces[i].0 + pieces[i].1 <= pieces[j].0
    decreases |pieces|
  {
    if pieces != [] {
      var n := |pieces| - 1;
      TileApart(pieces[..n], a, pieces[n].0);
      assert forall i :: 0 <= i < n ==> pieces[..n][i] == pieces[i];
    }
  }
}

/** tmt.c as it runs: rows are objects reached through an array of pointers that the
    scrolling code rotates, and every handler changes the terminal in place. The ghost
    grid says what the rows hold; each method is tied to module TerminalModel by what
    it does to Model(). */
module Terminal {
  import opened Common
  import opened TerminalModel

  /** TMTLINE: one row, its cells stored inside the object. */
  class Line {
    var dirty: bool
    var chars: seq<Cell>

    constructor (dirty: bool, chars: seq<Cell>)
      ensures this.dirty == dirty && this.chars == chars
    {
      this.dirty, this.chars := dirty, chars;
    }

    ghost function Value(): Row
      reads this
    {
      Row(dirty, chars)
    }
  }

  /** The i-th object holds the i-th row. */
  ghost predicate Held(ls: seq<Line>, grid: seq<Row>)
    reads ls
  {
    |ls| == |grid| && forall i :: 0 <= i < |ls| ==> ls[i].Value() == grid[i]
  }

  ghost predicate Distinct<T>(s: seq<T>) {
    forall i, j :: 0 <= i < j < |s| ==> s[i] != s[j]
  }

  function TouchedRange(rows: seq<Row>, s: nat, e: nat): (t: seq<Row>)
    ensures |t| == |rows|
  {
    seq(|rows|, i requires 0 <= i < |rows| => if s <= i < e then rows[i].(dirty := true) else rows[i])
  }

  lemma TouchStep(rows: seq<Row>, s: nat, i: nat)
    requires s <= i < |rows|
    ensures TouchedRange(rows, s, i)[i] == rows[i]
    ensures TouchedRange(rows, s, i + 1) == TouchedRange(rows, s, i)[i := rows[i].(dirty := true)]
  {
  }

  lemma TouchNone(rows: seq<Row>, s: nat)
    ensures TouchedRange(rows, s, s) == rows
  {
  }

  function CleanedRows(rows: seq<Row>, n: nat): (s: seq<Row>)
    ensures |s| == |rows|
  {
    seq(|rows|, i requires 0 <= i < |rows| => if i < n then rows[i].(dirty := false) else rows[i])
  }

  lemma CleanStep(rows: seq<Row>, i: nat)
    requires i < |rows|
    ensures CleanedRows(rows, i)[i] == rows[i]
    ensures CleanedRows(rows, i + 1) == CleanedRows(rows, i)[i := rows[i].(dirty := false)]
  {
  }

  lemma CleanEnds(rows: seq<Row>)
    ensures CleanedRows(rows, 0) == rows
    ensures forall t: Term :: t.rows == rows ==> Clean(t).rows == CleanedRows(rows, |rows|)
  {
  }

  lemma FitIsHeld(ls: seq<Line>, rows: seq<Row>, h: nat, w: nat)
    requires |ls| == h
    requires forall i :: 0 <= i < h ==>
               ls[i].Value() == Row(true, FitCells(if i < |rows| then rows[i].chars else [], w))
    requires forall j, k :: 0 <= j < k < h ==> ls[j] != ls[k]
    ensures Held(ls, FitRows(rows, h, w)) && Distinct(ls)
  {
    hide FitCells;
  }

  lemma FitLaid(rows: seq<Row>, h: nat, w: nat)
    ensures forall i :: 0 <= i < h ==> |FitRows(rows, h, w)[i].chars| == w
    ensures TouchedRange(FitRows(rows, h, w), 0, h) == FitRows(rows, h, w)
  {
    assert forall i :: 0 <= i < h ==>
        FitRows(rows, h, w)[i] == Row(true, FitCells(if i < |rows| then rows[i].chars else [], w));
  }

  lemma ClearWhole(chars: seq<Cell>)
    ensures ClearCells(chars, 0, |chars|) == Blanks(|chars|)
  {
  }

  lemma ClearNone(t: Term, r: nat)
    ensures ClearRows(t, r, r) == t
  {
  }

  lemma ClearStep(t: Term, r: nat, i: nat)
    requires Sized(t) && r <= i < |t.rows|
    ensures var u := ClearRows(t, r, i);
      && |u.rows| == |t.rows| && |u.rows[i].chars| == u.ncol
      && ClearRows(t, r, i + 1)
         == u.(rows := u.rows[i := Row(true, ClearCells(u.rows[i].chars, 0, u.ncol))], dirty := true)
  {
    ClearWhole(t.rows[i].chars);
    assert ClearedRows(t.rows, r, i + 1, t.ncol) == ClearedRows(t.rows, r, i, t.ncol)[i := BlankRow(t.ncol)];
  }

  lemma ClearRest(t: Term, r: nat, i: nat, end: nat)
    requires r <= i && (if r < end then i <= end else i == r) && (i >= end || i >= |t.rows|)
    ensures ClearRows(t, r, i) == ClearRows(t, r, end)
  {
    assert ClearedRows(t.rows, r, i, t.ncol) == ClearedRows(t.rows, r, end, t.ncol);
  }

  lemma FirstIndex(codes: seq<int>, b: int, i: nat)
    requires i < |codes| && codes[i] == b && b !in codes[..i]
    ensures IndexOf(codes, b) == i
  {
  }

  /** The loop of tacs. */
  method LookUpAcs(acschars: AcsTable, b: Byte) returns (w: int)
    ensures w == Tacs(acschars, b)
  {
    for i := 0 to 31
      invariant b as int !in AcsCodes()[..i]
    {
      if AcsCodes()[i] == b as int {
        FirstIndex(AcsCodes(), b as int, i);
        return acschars[i];
      }
    }
    return b as int;
  }

  lemma InsertionSteps(t: Term, n: nat)
    requires Shape(t) && n == Min(P1(t, 0), t.ncol - t.curs.c - 1)
    ensures var c, w := t.curs.c, t.ncol;
      InsertCells(t) == SetRow(t, ClearCells(MovedCells(CursorRow(t), c + n, c, w - c - n - 1), c, n))
  {
  }

  lemma DeletionSteps(t: Term, n: nat)
    requires Shape(t) && n == Min(P1(t, 0), t.ncol - t.curs.c)
    ensures var c, w := t.curs.c, t.ncol;
      DeleteCells(t) == SetRow(t, ClearCells(MovedCells(CursorRow(t), c, c + n, w - c - n), w - n, w))
  {
    hide Shape;
    var chars := CursorRow(t);
    assert ClearCells(MovedCells(chars, t.curs.c, t.curs.c + n, t.ncol - t.curs.c - n), t.ncol - n, t.ncol)
        == DeletedCells(chars, t.curs.c, n);
  }

  /** The elements r to r+n-1 moved to the end. */
  function Rotated<T>(s: seq<T>, r: nat, n: nat): (s': seq<T>)
    requires r + n <= |s|
    ensures |s'| == |s|
  {
    s[..r] + s[r + n..] + s[r..r + n]
  }

  /** Where element i was before. */
  function RotatedFrom(size: nat, r: nat, n: nat, i: nat): (k: nat)
    requires r + n <= size && i < size
    ensures k < size
  {
    if i < r then i else if i < size - n then i + n else r + (i - (size - n))
  }

  lemma RotatedAt<T>(s: seq<T>, r: nat, n: nat, i: nat)
    requires r + n <= |s| && i < |s|
    ensures Rotated(s, r, n)[i] == s[RotatedFrom(|s|, r, n, i)]
  {
  }

  lemma RotatedSame<T>(s: seq<T>, r: nat, n: nat)
    requires r + n <= |s|
    ensures forall x :: x in Rotated(s, r, n) <==> x in s
  {
    assert s == s[..r] + s[r..r + n] + s[r + n..];
  }

  lemma RotationHeld(ls: seq<Line>, grid: seq<Row>, r: nat, n: nat)
    requires Held(ls, grid) && Distinct(ls) && r + n <= |ls|
    ensures Held(Rotated(ls, r, n), Rotated(grid, r, n)) && Distinct(Rotated(ls, r, n))
    ensures forall l :: l in Rotated(ls, r, n) <==> l in ls
  {
    hide Rotated;
    RotatedSame(ls, r, n);
    forall i | 0 <= i < |ls|
      ensures var k := RotatedFrom(|ls|, r, n, i); Rotated(ls, r, n)[i] == ls[k] && Rotated(grid, r, n)[i] == grid[k]
    {
      RotatedAt(ls, r, n, i);
      RotatedAt(grid, r, n, i);
    }
  }

  lemma RotatedIsSized(t: Term, r: nat, n: nat)
    requires Sized(t) && r + n <= |t.rows|
    ensures Sized(t.(rows := Rotated(t.rows, r, n)))
  {
    hide Rotated;
    forall i | 0 <= i < |t.rows|
      ensures |Rotated(t.rows, r, n)[i].chars| == t.ncol
    {
      RotatedAt(t.rows, r, n, i);
    }
  }

  lemma ScrolledRows(rows: seq<Row>, r: nat, n: nat, ncol: nat)
    requires r + n < |rows|
    ensures rows[..r] + Touched(rows[r + n..]) + BlankRows(n, ncol)
         == TouchedRange(ClearedRows(Rotated(rows, r, n), |rows| - n, |rows|, ncol), r, |rows|)
  {
    var scrolled := rows[..r] + Touched(rows[r + n..]) + BlankRows(n, ncol);
    var steps := TouchedRange(ClearedRows(Rotated(rows, r, n), |rows| - n, |rows|, ncol), r, |rows|);
    forall i | 0 <= i < |rows|
      ensures scrolled[i] == steps[i]
    {
      RotatedAt(rows, r, n, i);
      hide Rotated;
    }
  }

  lemma ScrollUpSteps(t: Term, r: nat, count: nat, n: nat)
    requires Shape(t) && r < |t.rows| && n == Min(count, |t.rows| - 1 - r)
    ensures Sized(t.(rows := Rotated(t.rows, r, n)))
    ensures ScrollUp(t, r, count) ==
            if n == 0 then t
            else
              var rows := ClearedRows(Rotated(t.rows, r, n), |t.rows| - n, |t.rows|, t.ncol);
              t.(rows := TouchedRange(rows, r, |t.rows|), dirty := true)
  {
    assert Sized(t);
    hide *;
    RotatedIsSized(t, r, n);
    ScrollUpIs(t, r, count, n);
    ScrolledRows(t.rows, r, n, t.ncol);
  }

  /** The last n elements moved to r. */
  function RotatedBack<T>(s: seq<T>, r: nat, n: nat): (s': seq<T>)
    requires r + n <= |s|
    ensures |s'| == |s|
  {
    s[..r] + s[|s| - n..] + s[r..|s| - n]
  }

  lemma BackIsRotated<T>(s: seq<T>, r: nat, n: nat)
    requires r + n <= |s|
    ensures RotatedBack(s, r, n) == Rotated(s, r, |s| - n - r)
  {
  }

  lemma RotationBackHeld(ls: seq<Line>, grid: seq<Row>, r: nat, n: nat)
    requires Held(ls, grid) && Distinct(ls) && r + n <= |ls|
    ensures Held(RotatedBack(ls, r, n), RotatedBack(grid, r, n)) && Distinct(RotatedBack(ls, r, n))
    ensures forall l :: l in RotatedBack(ls, r, n) <==> l in ls
  {
    hide Rotated, RotatedBack;
    BackIsRotated(ls, r, n);
    BackIsRotated(grid, r, n);
    RotationHeld(ls, grid, r, |ls| - n - r);
  }

  lemma ScrolledDownRows(rows: seq<Row>, r: nat, n: nat, ncol: nat)
    requires r + n < |rows|
    ensures rows[..r] + BlankRows(n, ncol) + Touched(rows[r..|rows| - n])
         == TouchedRange(ClearedRows(RotatedBack(rows, r, n), r, r + n, ncol), r, |rows|)
  {
    var scrolled := rows[..r] + BlankRows(n, ncol) + Touched(rows[r..|rows| - n]);
    var steps := TouchedRange(ClearedRows(RotatedBack(rows, r, n), r, r + n, ncol), r, |rows|);
    forall i | 0 <= i < |rows|
      ensures scrolled[i] == steps[i]
    {
    }
  }

  lemma ScrollDownSteps(t: Term, r: nat, count: nat, n: nat)
    requires Shape(t) && r < |t.rows| && n == Min(count, |t.rows| - 1 - r)
    ensures Sized(t.(rows := RotatedBack(t.rows, r, n)))
    ensures ScrollDown(t, r, count) ==
            if n == 0 then t
            else t.(rows := TouchedRange(ClearedRows(RotatedBack(t.rows, r, n), r, r + n, t.ncol), r, |t.rows|),
                    dirty := true)
  {
    assert Sized(t);
    hide *;
    RotatedIsSized(t, r, |t.rows| - n - r);
    BackIsRotated(t.rows, r, n);
    ScrollDownIs(t, r, count, n);
    ScrolledDownRows(t.rows, r, n, t.ncol);
  }

  function Spliced<T>(s: seq<T>, at: nat, src: seq<T>): seq<T>
    requires at + |src| <= |s|
  {
    s[..at] + src + s[at + |src|..]
  }

  /** memcpy and memmove over the row pointers. */
  method MovePointers(lines: array<Line>, at: nat, src: seq<Line>)
    requires at + |src| <= lines.Length
    modifies lines
    ensures lines[..] == Spliced(old(lines[..]), at, src)
  {
    forall i | 0 <= i < |src| {
      lines[at + i] := src[i];
    }
  }

  lemma RotatedByCopies<T>(s: seq<T>, r: nat, n: nat)
    requires r + n < |s|
    ensures Spliced(Spliced(s, r, s[r + n..]), |s| - n, s[r..r + n]) == Rotated(s, r, n)
  {
    var moved := Spliced(s, r, s[r + n..]);
    assert moved[..|s| - n] == s[..r] + s[r + n..];
  }

  /** In scrup the pointers r to r+n-1 go to the end. */
  method RotatePointers(lines: array<Line>, r: nat, n: nat)
    requires r + n < lines.Length
    modifies lines
    ensures lines[..] == Rotated(old(lines[..]), r, n)
  {
    RotatedByCopies(lines[..], r, n);
    hide Rotated, Spliced;
    var ls := lines[..];
    var buf := ls[r..r + n];
    MovePointers(lines, r, ls[r + n..]);
    MovePointers(lines, lines.Length - n, buf);
  }

  lemma RotatedBackByCopies<T>(s: seq<T>, r: nat, k: nat)
    requires r < k <= |s|
    ensures Spliced(Spliced(s, r + |s| - k, s[r..k]), r, s[k..]) == RotatedBack(s, r, |s| - k)
  {
    var moved := Spliced(s, r + |s| - k, s[r..k]);
    assert moved[..r] == s[..r] && moved[r + |s| - k..] == s[r..k];
  }

  /** In scrdn the last n pointers go to r. */
  method RotatePointersBack(lines: array<Line>, r: nat, n: nat)
    requires r + n < lines.Length
    modifies lines
    ensures lines[..] == RotatedBack(old(lines[..]), r, n)
  {
    hide RotatedBack, Spliced;
    var ls, k := lines[..], lines.Length - n;
    var buf := ls[k..];
    MovePointers(lines, r + n, ls[r..k]);
    MovePointers(lines, r, buf);
    RotatedBackByCopies(ls, r, k);
  }

  class Tmt {
    const loc: Locale
    var curs: Point
    var oldcurs: Point
    var attrs: Attrs
    var oldattrs: Attrs
    var dirty: bool
    var acs: bool
    var decdraw: bool
    var ignored: bool
    var nline: Size
    var ncol: Size
    var lines: array<Line>
    var tabs: Line
    var ms: int
    var nmb: nat
    const mb: array<Byte>
    const pars: array<Size>
    var npar: nat
    var arg: Size
    var state: Mode
    ghost var grid: seq<Row>
    ghost var Repr: set<object>

    /** The rows are distinct objects, none of them the tab stops, and hold the grid. */
    ghost predicate Valid()
      reads this, Repr
      ensures Valid() ==> this in Repr
    {
      && {this, lines, tabs, mb, pars} <= Repr
      && lines.Length == nline
      && (forall i :: 0 <= i < nline ==> lines[i] in Repr)
      && Held(lines[..], grid) && Distinct(lines[..]) && tabs !in lines[..]
      && mb.Length == 101 && nmb <= 100 && pars.Length == 8
    }

    ghost function Model(): Term
      requires Valid()
      reads Repr
    {
      Term(curs, oldcurs, attrs, oldattrs, dirty, acs, decdraw, ignored, ncol, grid, tabs.Value(),
           ms, mb[..nmb], pars[..], npar, arg, state)
    }

    /** The calloc of tmt_open: no rows and no columns yet. */
    constructor (loc: Locale)
      ensures Valid() && fresh(Repr) && this.loc == loc && nline == 0 && |tabs.chars| == 0
      ensures Model() == Term(Point(0, 0), Point(0, 0), DefAttrs(), DefAttrs(), false, false, false, false,
                              0, [], Row(false, []), 0, [], NoPars(), 0, 0, Ground)
    {
      this.loc := loc;
      curs, oldcurs := Point(0, 0), Point(0, 0);
      attrs, oldattrs := DefAttrs(), DefAttrs();
      dirty, acs, decdraw, ignored := false, false, false, false;
      nline, ncol := 0, 0;
      lines := new Line[0];
      tabs := new Line(false, []);
      ms, nmb, npar, arg, state := 0, 0, 0, 0, Ground;
      mb := new Byte[101];
      pars := new Size[8](_ => 0);
      grid := [];
      new;
      Repr := {this, lines, tabs, mb, pars};
      assert pars[..] == NoPars();
    }

    /** clearline */
    method ClearLine(l: Line, s: nat, e: nat)
      requires |l.chars| == ncol
      modifies `dirty, l
      ensures dirty && l.dirty && l.chars == ClearCells(old(l.chars), s, e)
    {
      l.dirty := true;
      dirty := true;
      ghost var before := l.chars;
      var i := s;
      while i < e && i < ncol
        invariant s <= i && |l.chars| == ncol && l.dirty && dirty
        invariant if s < e then i <= e else i == s
        invariant l.chars == ClearCells(before, s, i)
      {
        l.chars := l.chars[i := BlankCell()];
        i := i + 1;
      }
      assert l.chars == ClearCells(before, s, e);
    }

    /** clearline on the i-th row. */
    method ClearScreenLine(i: nat, s: nat, e: nat)
      requires Valid() && i < nline && |grid[i].chars| == ncol
      modifies Repr
      ensures Valid() && Repr == old(Repr) && nline == old(nline)
      ensures Model() == old(Model()).(
        rows := old(grid)[i := Row(true, ClearCells(old(grid)[i].chars, s, e))], dirty := true)
    {
      hide ClearCells;
      ClearLine(lines[i], s, e);
      grid := grid[i := lines[i].Value()];
    }

    /** clearlines; r + n wraps as size_t does. */
    method ClearLines(r: Size, n: Size)
      requires Valid() && Sized(Model())
      modifies Repr
      ensures Valid() && Repr == old(Repr) && nline == old(nline)
      ensures Model() == ClearRows(old(Model()), r, Plus(r, n))
    {
      ghost var t := Model();
      assert |t.rows| == nline;
      var i: nat := r;
      var end := Plus(r, n);
      ClearNone(t, r);
      hide ClearRows, Valid, Plus, Sized;
      while i < end && i < nline
        invariant r <= i && if r < end then i <= end else i == r
        invariant i <= nline || i == r
        invariant Valid() && Repr == old(Repr) && nline == old(nline) == |t.rows|
        invariant Model() == ClearRows(t, r, i)
      {
        ClearStep(t, r, i);
        ClearScreenLine(i, 0, ncol);
        i := i + 1;
      }
      ClearRest(t, r, i, end);
    }

    method DirtyLine(i: nat)
      requires Valid() && i < nline
      modifies Repr
      ensures Valid() && Repr == old(Repr) && nline == old(nline)
      ensures Model() == old(Model()).(rows := old(grid)[i := old(grid)[i].(dirty := true)])
    {
      lines[i].dirty := true;
      grid := grid[i := lines[i].Value()];
    }

    /** dirtylines */
    method DirtyLines(s: nat, e: nat)
      requires Valid() && s <= e <= nline
      modifies Repr
      ensures Valid() && Repr == old(Repr) && nline == old(nline)
      ensures Model() == old(Model()).(rows := TouchedRange(old(grid), s, e), dirty := true)
    {
      hide TouchedRange, Distinct;
      ghost var t := Model();
      dirty := true;
      TouchNone(grid, s);
      for i := s to e
        invariant Valid() && Repr == old(Repr) && nline == old(nline)
        invariant Model() == t.(rows := TouchedRange(t.rows, s, i), dirty := true)
      {
        DirtyLine(i);
        TouchStep(t.rows, s, i);
      }
    }

    /** scrup: the row pointers rotate, and the rows that come round are cleared. */
    method ScrUp(r: Size, count: Size)
      requires Valid() && Shape(Model()) && r < nline
      modifies Repr
      ensures Valid() && Repr == old(Repr) && nline == old(nline)
      ensures Model() == ScrollUp(old(Model()), r, count)
    {
      hide ScrollUp, ScrollDown, ClearedRows, TouchedRange, Rotated, RotatedBack, Shape, Sized;
      assert |Model().rows| == nline;
      hide Valid;
      var n := Min(count, nline - 1 - r);
      ScrollUpSteps(Model(), r, count, n);
      if n != 0 {
        RotateUp(r, n);
        ClearAndMark(nline - n, n, r);
      }
    }

    /** The last two calls of scrup and scrdn. */
    method ClearAndMark(from: Size, n: Size, r: Size)
      requires Valid() && Sized(Model()) && n != 0 && from + n <= nline && r <= nline
      modifies Repr
      ensures Valid() && Repr == old(Repr) && nline == old(nline)
      ensures Model() == old(Model()).(
        rows := TouchedRange(ClearedRows(old(grid), from, from + n, old(ncol)), r, old(nline)), dirty := true)
    {
      hide ClearedRows, TouchedRange, Valid, Sized;
      ClearLines(from, n);
      DirtyLines(r, nline);
    }

    /** The row pointers of scrup, and the grid with them. */
    method RotateUp(r: nat, n: nat)
      requires Valid() && r + n < nline
      modifies lines, `grid
      ensures Valid() && Model() == old(Model()).(rows := Rotated(old(grid), r, n))
    {
      hide Rotated;
      ghost var ls := lines[..];
      RotatePointers(lines, r, n);
      grid := Rotated(grid, r, n);
      RotationHeld(ls, old(grid), r, n);
      assert forall i :: 0 <= i < nline ==> lines[i] == lines[..][i] && lines[..][i] in ls;
    }

    /** The row pointers of scrdn, and the grid with them. */
    method RotateDown(r: nat, n: nat)
      requires Valid() && r + n < nline
      modifies lines, `grid
      ensures Valid() && Model() == old(Model()).(rows := RotatedBack(old(grid), r, n))
    {
      hide RotatedBack;
      ghost var ls := lines[..];
      RotatePointersBack(lines, r, n);
      grid := RotatedBack(grid, r, n);
      RotationBackHeld(ls, old(grid), r, n);
      assert forall i :: 0 <= i < nline ==> lines[i] == lines[..][i] && lines[..][i] in ls;
    }

    /** scrdn: the other way round. */
    method ScrDn(r: Size, count: Size)
      requires Valid() && Shape(Model()) && r < nline
      modifies Repr
      ensures Valid() && Repr == old(Repr) && nline == old(nline)
      ensures Model() == ScrollDown(old(Model()), r, count)
    {
      hide ScrollUp, ScrollDown, ClearedRows, TouchedRange, Rotated, RotatedBack, Shape, Sized;
      assert |Model().rows| == nline;
      hide Valid;
      var n := Min(count, nline - 1 - r);
      ScrollDownSteps(Model(), r, count, n);
      if n != 0 {
        RotateDown(r, n);
        ClearAndMark(r, n, r);
      }
    }

    // ----- editing one row -----

    /** memmove within the cells of the i-th row. */
    method MoveCells(i: nat, dst: nat, src: nat, n: nat)
      requires Valid() && i < nline && dst + n <= |grid[i].chars| && src + n <= |grid[i].chars|
      modifies Repr
      ensures Valid() && Repr == old(Repr) && nline == old(nline)
      ensures Model() == old(Model()).(
        rows := old(grid)[i := old(grid)[i].(chars := MovedCells(old(grid)[i].chars, dst, src, n))])
    {
      hide MovedCells;
      lines[i].chars := MovedCells(lines[i].chars, dst, src, n);
      grid := grid[i := lines[i].Value()];
    }

    /** ich */
    method Ich()
      requires Valid() && Shape(Model())
      modifies Repr
      ensures Valid() && Repr == old(Repr) && nline == old(nline)
      ensures Model() == InsertCells(old(Model()))
    {
      var n := if pars[0] != 0 then pars[0] else 1;
      if n > ncol - curs.c - 1 {
        n := ncol - curs.c - 1;
      }
      assert n == Min(P1(Model(), 0), ncol - curs.c - 1);
      hide MovedCells, ClearCells, InsertCells, Valid, Shape, P1, SetRow, CursorRow;
      InsertionSteps(Model(), n);
      MoveAndClear(curs.c + n, curs.c, ncol - curs.c - n - 1, curs.c, n);
    }

    /** A memmove within the cursor's row and a clearline on it. */
    method MoveAndClear(dst: nat, src: nat, n: nat, s: nat, e: nat)
      requires Valid() && Shape(Model()) && dst + n <= ncol && src + n <= ncol
      modifies Repr
      ensures Valid() && Repr == old(Repr) && nline == old(nline)
      ensures Model() == SetRow(old(Model()), ClearCells(MovedCells(CursorRow(old(Model())), dst, src, n), s, e))
    {
      assert curs.r < nline && |grid[curs.r].chars| == ncol;
      hide MovedCells, ClearCells, Held, Distinct;
      MoveCells(curs.r, dst, src, n);
      ClearScreenLine(curs.r, s, e);
    }

    /** dch */
    method Dch()
      requires Valid() && Shape(Model())
      modifies Repr
      ensures Valid() && Repr == old(Repr) && nline == old(nline)
      ensures Model() == DeleteCells(old(Model()))
    {
      var n := if pars[0] != 0 then pars[0] else 1;
      if n > ncol - curs.c {
        n := ncol - curs.c;
      }
      assert n == Min(P1(Model(), 0), ncol - curs.c);
      hide MovedCells, ClearCells, DeleteCells, Valid, Shape, P1, SetRow, CursorRow;
      DeletionSteps(Model(), n);
      MoveAndClear(curs.c, curs.c + n, ncol - curs.c - n, ncol - n, ncol);
    }

    /** clearline on the cursor's row. */
    method ClearCursorLine(s: nat, e: nat)
      requires Valid() && Shape(Model())
      modifies Repr
      ensures Valid() && Repr == old(Repr) && nline == old(nline) && Shape(Model())
      ensures Model() == ClearAtCursor(old(Model()), s, e)
    {
      hide ClearCells;
      ClearScreenLine(curs.r, s, e);
    }

    /** ed */
    method Ed()
      requires Valid() && Shape(Model())
      modifies Repr
      ensures Valid() && Repr == old(Repr) && nline == old(nline)
      ensures Model() == EraseInDisplay(old(Model()))
    {
      assert |Model().rows| == nline && curs.r < nline;
      hide ClearRows, ClearAtCursor, Valid;
      var b: Size := 0;
      var e: Size := nline;
      if pars[0] == 0 {
        b := curs.r + 1;
        ClearCursorLine(curs.c, ncol);
      } else if pars[0] == 1 {
        e := Minus(curs.r, 1);
        ClearCursorLine(0, curs.c);
      } else if pars[0] != 2 {
        return;
      }
      ClearLines(b, Minus(e, b));
    }

    /** el */
    method El()
      requires Valid() && Shape(Model())
      modifies Repr
      ensures Valid() && Repr == old(Repr) && nline == old(nline)
      ensures Model() == EraseInLine(old(Model()))
    {
      hide ClearAtCursor;
      if pars[0] == 0 {
        ClearCursorLine(curs.c, ncol);
      } else if pars[0] == 1 {
        ClearCursorLine(0, Min(curs.c + 1, ncol - 1));
      } else if pars[0] == 2 {
        ClearCursorLine(0, ncol);
      }
    }

    /** sgr */
    method Sgr()
      requires Valid() && Shape(Model())
      modifies Repr
      ensures Valid() && Repr == old(Repr) && nline == old(nline)
      ensures Model() == SelectGraphics(old(Model()))
    {
      assert Model().npar == npar <= |Model().pars| == pars.Length;
      hide SgrOne, Valid;
      ghost var t := Model();
      for i := 0 to npar
        invariant Valid() && Repr == old(Repr) && nline == old(nline)
        invariant (attrs, acs) == SgrAll(t.attrs, t.acs, t.pars[..i])
        invariant Model() == t.(attrs := attrs, acs := acs)
      {
        assert t.pars[..i + 1][..i] == t.pars[..i];
        var (a, s) := SgrOne(attrs, acs, pars[i]);
        SetAttrs(a, s);
      }
    }

    method SetAttrs(a: Attrs, s: bool)
      requires Valid()
      modifies this`attrs, this`acs
      ensures attrs == a && acs == s
      ensures Valid() && Model() == old(Model()).(attrs := a, acs := s)
    {
      hide Held, Distinct;
      attrs, acs := a, s;
    }

    // ----- writing -----

    /** writecharatcurs */
    method WriteCharAtCurs(w: int)
      requires Valid() && Shape(Model())
      modifies Repr
      ensures Valid() && Repr == old(Repr) && nline == old(nline)
      ensures Model() == Put(old(Model()), w)
    {
      SetCell(w);
      if curs.c < ncol - 1 {
        curs := Point(curs.r, curs.c + 1);
      } else {
        curs := Point(curs.r, 0);
        if curs.r + 1 >= nline {
          ScrUp(0, 1);
        } else {
          curs := Point(curs.r + 1, 0);
        }
      }
    }

    method SetCell(w: int)
      requires Valid() && Shape(Model())
      modifies Repr
      ensures Valid() && Repr == old(Repr) && nline == old(nline)
      ensures Model() == SetRow(old(Model()), CursorRow(old(Model()))[old(curs).c := Cell(w, old(attrs))])
    {
      var l := lines[curs.r];
      l.chars := l.chars[curs.c := Cell(w, attrs)];
      l.dirty := true;
      dirty := true;
      grid := grid[curs.r := l.Value()];
    }

    /** rep */
    method Rep()
      requires Valid() && Shape(Model())
      modifies Repr
      ensures Valid() && Repr == old(Repr) && nline == old(nline)
      ensures Model() == Repeat(old(Model()))
    {
      hide Put;
      if curs.c == 0 {
        return;
      }
      var w := lines[curs.r].chars[curs.c - 1].c;
      var n := if pars[0] != 0 then pars[0] else 1;
      ghost var t := Model();
      for i := 0 to n
        invariant Valid() && Repr == old(Repr) && nline == old(nline)
        invariant Shape(Model()) && PutMany(t, w, n) == PutMany(Model(), w, n - i)
      {
        WriteCharAtCurs(w);
      }
    }

    // ----- moving the cursor -----

    /** The loop of the tab and CHT actions. */
    method TabForward() returns (c: Size)
      requires Valid() && Shape(Model())
      ensures c == NextTab(tabs.chars, curs.c)
    {
      c := curs.c + 1;
      while c < ncol - 1 && tabs.chars[c].c != STAR
        invariant curs.c < c <= ncol
        invariant NextTab(tabs.chars, curs.c)
          == if c < ncol - 1 && tabs.chars[c].c != STAR then NextTab(tabs.chars, c) else c
      {
        c := c + 1;
      }
    }

    /** The loop of the CBT action. */
    method TabBackward() returns (c: Size)
      requires Valid() && Shape(Model())
      ensures c == PrevTab(tabs.chars, curs.c)
    {
      c := curs.c;
      while c > 0
        invariant 0 <= c <= curs.c
        invariant PrevTab(tabs.chars, curs.c) == PrevTab(tabs.chars, c)
      {
        c := c - 1;
        if tabs.chars[c].c == STAR {
          return;
        }
      }
    }

    /** fixcursor */
    method FixCurs()
      requires Valid() && Sized(Model())
      modifies `curs
      ensures Valid() && Model() == FixCursor(old(Model()))
    {
      curs := Point(Min(curs.r, nline - 1), Min(curs.c, ncol - 1));
    }

    /** The cursor computed by lines 296-305 and 314. */
    method CursorTarget(b: Byte) returns (p: Point)
      requires Valid() && Shape(Model())
      ensures p == Target(Model(), b)
    {
      assert |Model().rows| == nline;
      hide Valid, Plus, Minus, NextTab, PrevTab;
      var n: Size := if pars[0] != 0 then pars[0] else 1;
      var m: Size := if pars[1] != 0 then pars[1] else 1;
      var r: Size, c: Size := curs.r, curs.c;
      match b {
        case 0x41 => r := Minus(r, n);
        case 0x42 => r := Min(Plus(r, n), nline - 1);
        case 0x43 => c := Min(Plus(c, n), ncol - 1);
        case 0x44 => c := Min(Minus(c, n), c);
        case 0x45 => c := 0; r := Min(Plus(r, n), nline - 1);
        case 0x46 => c := 0; r := Minus(r, n);
        case 0x47 => c := Min(n - 1, ncol - 1);
        case 0x64 => r := Min(n - 1, nline - 1);
        case 0x48 => r := n - 1; c := m - 1;
        case 0x66 => r := n - 1; c := m - 1;
        case 0x49 => c := TabForward();
        case 0x5a => c := TabBackward();
        case _ =>
      }
      p := Point(r, c);
    }

    method MoveCursor(b: Byte)
      requires Valid() && Shape(Model())
      modifies `curs, `oldcurs, `attrs, `oldattrs
      ensures Valid() && Model() == MoveAction(old(Model()), b)
    {
      hide Valid, Target;
      if b == 0x73 {
        SaveCursor();
      } else if b == 0x75 {
        RestoreCursor();
      } else {
        var p := CursorTarget(b);
        SetCursor(p);
      }
    }

    // ----- the parser -----

    /** The memset of resetparser. */
    method ZeroPars()
      requires Valid()
      modifies pars
      ensures Valid() && Model() == old(Model()).(pars := NoPars())
    {
      hide Distinct;
      forall i | 0 <= i < 8 {
        pars[i] := 0;
      }
      assert lines[..] == old(lines[..]);
      assert pars[..] == NoPars();
    }

    /** resetparser */
    method ResetPars()
      requires Valid()
      modifies this, pars
      ensures Valid() && Repr == old(Repr) && nline == old(nline)
      ensures Model() == ResetParser(old(Model()))
    {
      hide Valid, NoPars;
      ZeroPars();
      RestartParser();
    }

    method RestartParser()
      requires Valid()
      modifies this`state, this`npar, this`arg, this`ignored
      ensures Valid() && Model() == old(Model()).(state := Ground, npar := 0, arg := 0, ignored := false)
    {
      hide Held, Distinct;
      ghost var t := Model();
      state, npar, arg, ignored := Ground, 0, 0, false;
      assert lines[..] == old(lines[..]) && pars[..] == t.pars && mb[..nmb] == t.mb;
    }

    /** consumearg */
    method ConsumeArgument()
      requires Valid() && Shape(Model())
      modifies this, pars
      ensures Valid() && Repr == old(Repr) && nline == old(nline)
      ensures Model() == ConsumeArg(old(Model()))
    {
      if npar < 8 {
        pars[npar] := arg;
        npar := npar + 1;
      }
      arg := 0;
    }

    /** tmt_reset */
    method TmtReset()
      requires Valid() && Sized(Model())
      modifies Repr
      ensures Valid() && Repr == old(Repr) && nline == old(nline)
      ensures Model() == Reset(old(Model()))
    {
      hide ClearRows;
      SetDefaults();
      ClearLines(0, nline);
    }

    /** The part of tmt_reset before clearlines. */
    method SetDefaults()
      requires Valid() && Sized(Model())
      modifies this, pars
      ensures Valid() && Repr == old(Repr) && nline == old(nline) && Sized(Model())
      ensures Model() == ResetParser(old(Model()).(
        curs := Point(0, 0), oldcurs := Point(0, 0), acs := false, attrs := DefAttrs(), oldattrs := DefAttrs(),
        ms := 0))
    {
      hide Valid, NoPars;
      ResetPars();
      GoHome();
    }

    method GoHome()
      requires Valid()
      modifies this`curs, this`oldcurs, this`acs, this`attrs, this`oldattrs, this`ms
      ensures Valid() && Model() == old(Model()).(
        curs := Point(0, 0), oldcurs := Point(0, 0), acs := false, attrs := DefAttrs(), oldattrs := DefAttrs(), ms := 0)
    {
      hide Held, Distinct, DefAttrs;
      curs, oldcurs, acs, attrs, oldattrs, ms := Point(0, 0), Point(0, 0), false, DefAttrs(), DefAttrs(), 0;
    }

    /** The actions of lines 275-279. */
    method GroundAct(b: Byte)
      requires Valid() && Shape(Model())
      modifies Repr
      ensures Valid() && Repr == old(Repr) && nline == old(nline)
      ensures Model() == GroundAction(old(Model()), b)
    {
      assert |Model().rows| == nline;
      hide Distinct, Held, NextTab, ScrollUp;
      if b == 0x08 {
        if curs.c > 0 {
          curs := Point(curs.r, curs.c - 1);
        }
      } else if b == 0x09 {
        var c := TabForward();
        curs := Point(curs.r, c);
      } else if b == 0x0a {
        if curs.r < nline - 1 {
          curs := Point(curs.r + 1, curs.c);
        } else {
          ScrUp(0, 1);
        }
      } else if b == 0x0d {
        curs := Point(curs.r, 0);
      }
    }

    /** The actions of lines 282-284 and 289-290. */
    method EscapeAct(b: Byte)
      requires Valid() && Shape(Model())
      modifies Repr
      ensures Valid() && Repr == old(Repr) && nline == old(nline)
      ensures Model() == EscapeAction(old(Model()), b)
    {
      assert |Model().rows| == nline;
      hide Reset, Valid;
      match b {
        case 0x48 => SetTab();
        case 0x37 => SaveCursor();
        case 0x38 => RestoreCursor();
        case 0x63 => TmtReset();
        case 0x4d =>
          if curs.r > 0 {
            SetCursor(Point(curs.r - 1, curs.c));
          }
        case _ =>
      }
    }

    method SetTab()
      requires Valid() && Shape(Model())
      modifies Repr
      ensures Valid() && Repr == old(Repr) && nline == old(nline)
      ensures var stops, c := old(Model().tabs.chars), old(curs.c);
        Model() == old(Model()).(tabs := old(Model().tabs).(chars := stops[c := stops[c].(c := STAR)]))
    {
      tabs.chars := tabs.chars[curs.c := tabs.chars[curs.c].(c := STAR)];
    }

    method SetCursor(p: Point)
      requires Valid()
      modifies this`curs
      ensures curs == p && Valid() && Model() == old(Model()).(curs := p)
    {
      hide Held, Distinct;
      curs := p;
    }

    method SaveCursor()
      requires Valid()
      modifies this`oldcurs, this`oldattrs
      ensures Valid() && Model() == old(Model()).(oldcurs := curs, oldattrs := attrs)
    {
      hide Held, Distinct;
      oldcurs, oldattrs := curs, attrs;
    }

    method RestoreCursor()
      requires Valid()
      modifies this`curs, this`attrs
      ensures Valid() && Model() == old(Model()).(curs := oldcurs, attrs := oldattrs)
    {
      hide Held, Distinct;
      curs, attrs := oldcurs, oldattrs;
    }

    /** The actions of lines 306-313, 315, 317-318 and 325. */
    method EditAct(b: Byte)
      requires Valid() && Shape(Model())
      modifies Repr
      ensures Valid() && Repr == old(Repr) && nline == old(nline)
      ensures Model() == EditAction(old(Model()), b)
    {
      hide EraseInDisplay, EraseInLine, ScrollUp, ScrollDown, DeleteCells, InsertCells, Repeat, SelectGraphics,
        ClearAtCursor, Plus;
      var n: Size := if pars[0] != 0 then pars[0] else 1;
      assert |Model().rows| == nline;
      hide Held, Distinct;
      match b {
        case 0x4a => Ed();
        case 0x4b => El();
        case 0x4c => ScrDn(curs.r, n);
        case 0x4d => ScrUp(curs.r, n);
        case 0x50 => Dch();
        case 0x53 => ScrUp(0, n);
        case 0x54 => ScrDn(0, n);
        case 0x58 => ClearCursorLine(curs.c, Plus(n, curs.c));
        case 0x62 => Rep();
        case 0x67 =>
          if pars[0] == 3 {
            ClearTabs();
          }
        case 0x6d => Sgr();
        case 0x40 => Ich();
        case _ =>
      }
    }

    method ClearTabs()
      requires Valid() && Shape(Model())
      modifies Repr
      ensures Valid() && Repr == old(Repr) && nline == old(nline)
      ensures Model() == old(Model()).(tabs := BlankRow(old(ncol)), dirty := true)
    {
      ClearWhole(tabs.chars);
      hide ClearCells;
      ClearLine(tabs, 0, ncol);
    }

    /** The action of a completed sequence. */
    method Perform(b: Byte)
      requires Valid() && Shape(Model())
      modifies Repr
      ensures Valid() && Repr == old(Repr) && nline == old(nline)
      ensures Model() == Act(old(Model()), b) && Sized(Model())
    {
      hide GroundAction, EscapeAction, MoveAction, EditAction, Shape, Held, Distinct;
      ghost var t := Model();
      if state == Ground {
        GroundAct(b);
      } else if state == Escape {
        EscapeAct(b);
      } else if state == Charset {
        decdraw := b != 0x42;
      } else if IsMove(b) {
        MoveCursor(b);
      } else {
        EditAct(b);
      }
      assert Model() == Act(t, b);
      assert Sized(Act(t, b));
    }

    /** The DO macro of line 273. */
    method CompleteSequence(b: Byte)
      requires Valid() && Shape(Model())
      modifies Repr
      ensures Valid() && Repr == old(Repr) && nline == old(nline)
      ensures Model() == Complete(old(Model()), b)
    {
      hide Act, ConsumeArg, FixCursor, ResetParser, Held, Distinct, Sized;
      ConsumeArgument();
      if !ignored {
        Perform(b);
      }
      FixCurs();
      ResetPars();
    }

    /** handlechar */
    method HandleChar(b: Byte) returns (taken: bool)
      requires Valid() && Inv(Model())
      modifies Repr
      ensures Valid() && Repr == old(Repr) && nline == old(nline)
      ensures taken == Takes(old(state), b)
      ensures Model() == if taken then Handle(old(Model()), b) else ResetParser(old(Model()))
    {
      assert Shape(Model()) && pars in Repr;
      hide Complete, ResetParser, ConsumeArg, NextArg, Inv, Valid, Shape;
      taken := Takes(state, b);
      if !taken {
        ResetPars();
        return;
      }
      match state {
        case Ground =>
          if b == 0x1b {
            SetState(Escape, ignored);
          } else {
            CompleteSequence(b);
          }
        case Escape => HandleEscape(b);
        case Charset => CompleteSequence(b);
        case Arguments => HandleArgument(b);
      }
    }

    /** Lines 281-291, after ESC. */
    method HandleEscape(b: Byte)
      requires Valid() && Inv(Model()) && state == Escape && Takes(state, b)
      modifies Repr
      ensures Valid() && Repr == old(Repr) && nline == old(nline)
      ensures Model() == Handle(old(Model()), b)
    {
      assert Shape(Model());
      hide Complete, ConsumeArg, NextArg, Inv, Valid, Shape, Takes;
      if b == 0x1b || b == 0x00 {
        SetState(Escape, ignored);
      } else if b in {0x2a, 0x2b, 0x29} {
        SetState(Arguments, true);
      } else if b == 0x28 {
        SetState(Charset, ignored);
      } else if b == 0x5b {
        SetState(Arguments, ignored);
      } else {
        CompleteSequence(b);
      }
    }

    /** Lines 292-325, within the arguments. */
    method HandleArgument(b: Byte)
      requires Valid() && Inv(Model()) && state == Arguments && Takes(state, b)
      modifies Repr
      ensures Valid() && Repr == old(Repr) && nline == old(nline)
      ensures Model() == Handle(old(Model()), b)
    {
      assert Shape(Model()) && pars in Repr;
      hide Complete, ConsumeArg, NextArg, Inv, Valid, Shape, Takes;
      if b == 0x1b || b == 0x00 {
        SetState(Escape, ignored);
      } else if b == 0x3b {
        ConsumeArgument();
      } else if b == 0x3f {
      } else if IsDigit(b) {
        SetArg(NextArg(arg, b));
      } else {
        CompleteSequence(b);
      }
    }

    method SetState(mode: Mode, ignore: bool)
      requires Valid()
      modifies this`state, this`ignored
      ensures Valid() && Model() == old(Model()).(state := mode, ignored := ignore)
    {
      hide Held, Distinct;
      state, ignored := mode, ignore;
    }

    method SetArg(n: Size)
      requires Valid()
      modifies this`arg
      ensures Valid() && Model() == old(Model()).(arg := n)
    {
      hide Held, Distinct;
      arg := n;
    }

    // ----- text -----

    /** testmbchar */
    method TestMbChar() returns (d: Decoded)
      requires Valid() && Shape(Model())
      ensures d == Pending(loc, Model())
    {
      d := if nmb == 0 then Partial(ms) else loc.decode(ms, mb[..nmb]);
    }

    /** getmbchar, and the write of its result. */
    method WriteMbChar()
      requires Valid() && Inv(Model())
      modifies Repr
      ensures Valid() && Repr == old(Repr) && nline == old(nline)
      ensures Model() == PutPending(loc, old(Model()))
    {
      hide Put, Held, Distinct;
      var d := loc.decode(ms, mb[..nmb]);
      ms, nmb := d.ms, 0;
      assert mb[..nmb] == [];
      WriteCharAtCurs(if d.Whole? then d.c else INVALID_CHAR);
    }

    method AppendMb(b: Byte)
      requires Valid() && nmb < 100
      modifies `nmb, mb
      ensures Valid() && Model() == old(Model()).(mb := old(Model()).mb + [b])
    {
      hide Held, Distinct;
      mb[nmb] := b;
      nmb := nmb + 1;
      assert lines[..] == old(lines[..]) && pars[..] == old(pars[..]);
      assert mb[..nmb] == old(mb[..nmb]) + [b];
    }

    /** The branches of tmt_write after handlechar, lines 473-487. */
    method WriteText(b: Byte)
      requires Valid() && Inv(Model())
      modifies Repr
      ensures Valid() && Repr == old(Repr) && nline == old(nline)
      ensures Model() == Text(loc, old(Model()), b)
    {
      hide Put, PutPending, Tacs, DecChar, Pending;
      if acs {
        var w := LookUpAcs(loc.acschars, b);
        WriteCharAtCurs(w);
      } else if decdraw {
        WriteCharAtCurs(DecChar(b));
      } else if nmb >= 100 {
        WriteMbChar();
      } else {
        CollectMb(b);
      }
    }

    /** The last branch, lines 480-487. */
    method CollectMb(b: Byte)
      requires Valid() && Inv(Model()) && !acs && !decdraw && nmb < 100
      modifies Repr
      ensures Valid() && Repr == old(Repr) && nline == old(nline)
      ensures Model() == Text(loc, old(Model()), b)
    {
      hide Put, PutPending, Tacs, DecChar, Pending, Held, Distinct;
      var d := TestMbChar();
      if d.Bad? {
        WriteMbChar();
      } else if d.Partial? {
        AppendMb(b);
      }
      d := TestMbChar();
      if d.Whole? {
        WriteMbChar();
      }
    }

    /** tmt_write */
    method TmtWrite(s: seq<Byte>)
      requires Valid() && Inv(Model())
      modifies Repr
      ensures Valid() && Repr == old(Repr) && nline == old(nline)
      ensures Model() == Write(loc, old(Model()), s) && Inv(Model())
    {
      hide Feed, Inv;
      ghost var t := Model();
      assert s[..0] == [];
      for p := 0 to |s|
        invariant Valid() && Repr == old(Repr) && nline == old(nline) && Inv(Model())
        invariant Model() == Write(loc, t, s[..p])
      {
        assert s[..p + 1][..p] == s[..p];
        WriteByte(s[p]);
      }
      assert s[..|s|] == s;
    }

    /** The body of the loop of tmt_write. */
    method WriteByte(b: Byte)
      requires Valid() && Inv(Model())
      modifies Repr
      ensures Valid() && Repr == old(Repr) && nline == old(nline)
      ensures Model() == Feed(loc, old(Model()), b)
    {
      hide Handle, ResetParser, Text, Takes;
      assert Shape(Model());
      hide Shape;
      var taken := HandleChar(b);
      if !taken {
        WriteText(b);
      }
    }

    // ----- cleaning and resizing -----

    /** tmt_clean */
    method TmtClean()
      requires Valid()
      modifies Repr
      ensures Valid() && Repr == old(Repr) && nline == old(nline)
      ensures Model() == Clean(old(Model()))
    {
      assert nline == |grid|;
      hide CleanedRows, Valid;
      ghost var t := Model();
      CleanEnds(grid);
      for i := 0 to nline
        invariant Valid() && Repr == old(Repr) && nline == old(nline)
        invariant Model() == t.(rows := CleanedRows(t.rows, i), dirty := t.dirty && i == 0)
      {
        CleanScreen();
        CleanLine(i);
        CleanStep(t.rows, i);
      }
    }

    method CleanScreen()
      requires Valid()
      modifies this`dirty
      ensures Valid() && Model() == old(Model()).(dirty := false)
    {
      hide Held, Distinct;
      dirty := false;
    }

    method CleanLine(i: nat)
      requires Valid() && i < nline
      modifies Repr
      ensures Valid() && Repr == old(Repr) && nline == old(nline)
      ensures Model() == old(Model()).(rows := old(grid)[i := old(grid)[i].(dirty := false)])
    {
      lines[i].dirty := false;
      grid := grid[i := lines[i].Value()];
    }

    /** allocline: the row o, if any, moved to an object of n cells; realloc leaves the
        added cells undefined, and clearline blanks everything from column pc on. */
    method AllocLine(o: Line?, n: Size, pc: nat) returns (l: Line)
      requires ncol == n && pc <= if o == null then 0 else |o.chars|
      modifies `dirty
      ensures fresh(l) && dirty
      ensures l.Value() == Row(true, FitCells(if o == null then [] else old(o.chars)[..pc], n))
    {
      var junk: Cell := *;
      var before := if o == null then [] else o.chars;
      var chars := seq(n, i requires 0 <= i < n => if i < |before| then before[i] else junk);
      l := new Line(false, chars);
      ClearLine(l, pc, n);
      assert l.chars == FitCells(before[..pc], n);
    }

    /** The row loop of tmt_resize, into the reallocated pointer array. */
    method AllocRows(h: Size, w: Size, pc: Size) returns (rows: array<Line>, ghost added: set<object>)
      requires Valid() && ncol == w
      requires forall i :: 0 <= i < nline ==> |grid[i].chars| == pc
      modifies `dirty
      ensures Valid() && rows.Length == h
      ensures fresh(added) && rows in added && forall i :: 0 <= i < h ==> rows[i] in added
      ensures Held(rows[..], FitRows(grid, h, w)) && Distinct(rows[..])
      ensures Model() == old(Model()).(dirty := dirty)
    {
      assert nline == |grid|;
      hide FitCells, Held, Distinct;
      var unset := tabs;
      rows := new Line[h](_ => unset);
      added := {rows};
      ghost var ls: seq<Line> := [];
      for i := 0 to h
        invariant Valid() && rows.Length == h && |ls| == i && rows[..i] == ls
        invariant fresh(added) && rows in added && forall k :: 0 <= k < i ==> ls[k] in added
        invariant forall k :: 0 <= k < i ==>
          ls[k].Value() == Row(true, FitCells(if k < nline then grid[k].chars else [], w))
        invariant forall j, k :: 0 <= j < k < i ==> ls[j] != ls[k]
      {
        var nl := AllocRow(i, w, pc);
        rows[i] := nl;
        ls, added := ls + [nl], added + {nl};
      }
      FitIsHeld(ls, grid, h, w);
      assert rows[..] == ls && forall i :: 0 <= i < h ==> rows[i] == rows[..][i];
    }

    method AllocRow(i: nat, w: Size, pc: Size) returns (nl: Line)
      requires Valid() && ncol == w && (i < nline ==> |grid[i].chars| == pc)
      modifies `dirty
      ensures Valid() && fresh(nl) && nl.Value() == Row(true, FitCells(if i < nline then grid[i].chars else [], w))
    {
      hide FitCells, Distinct;
      if i >= nline {
        nl := AllocLine(null, w, 0);
      } else {
        assert lines[i].chars == grid[i].chars && grid[i].chars[..pc] == grid[i].chars;
        nl := AllocLine(lines[i], w, pc);
      }
    }

    /** The tab-stop part of tmt_resize. */
    method AllocTabs(w: Size) returns (l: Line)
      requires Valid() && ncol == w >= 2
      modifies `dirty
      ensures Valid() && fresh(l) && dirty && l.Value() == Row(true, DefaultTabs(w))
    {
      l := AllocLine(tabs, w, 0);
      assert forall k :: 0 <= k < w ==> l.chars[k] == BlankCell();
      l.chars := l.chars[0 := l.chars[0].(c := STAR)];
      l.chars := l.chars[w - 1 := l.chars[w - 1].(c := STAR)];
      for i := 0 to w
        invariant Valid() && dirty && l.dirty && |l.chars| == w
        invariant forall k :: 0 <= k < w ==>
          l.chars[k] == Cell(if (k % 8 == 0 && (k < i || k == 0)) || k == w - 1 then STAR else SPACE, DefAttrs())
      {
        if i % 8 == 0 {
          l.chars := l.chars[i := l.chars[i].(c := STAR)];
        }
      }
      assert l.chars == DefaultTabs(w);
    }

    /** tmt_resize */
    method TmtResize(h: Size, w: Size) returns (ok: bool)
      requires Valid() && Laid(Model())
      modifies Repr
      ensures Valid() && fresh(Repr - old(Repr))
      ensures ok == (h >= 2 && w >= 2)
      ensures Model() == if ok then Resize(old(Model()), h, w) else old(Model())
    {
      ok := h >= 2 && w >= 2;
      if ok {
        hide FitRows, DefaultTabs, TouchedRange;
        FitLaid(grid, h, w);
        Reallocate(h, w);
        FixCurs();
        DirtyLines(0, nline);
      }
    }

    method Reallocate(h: Size, w: Size)
      requires Valid() && Laid(Model()) && h >= 2 && w >= 2
      modifies Repr
      ensures Valid() && fresh(Repr - old(Repr)) && nline == h
      ensures Model() == old(Model()).(
        rows := FitRows(old(grid), h, w), ncol := w, tabs := Row(true, DefaultTabs(w)), dirty := true)
    {
      hide FitRows, DefaultTabs, Held, Distinct;
      var rows, stops, added := AllocParts(h, w);
      assert stops !in lines[..];
      hide Valid;
      InstallTabs(stops);
      InstallRows(rows, FitRows(grid, h, w), added);
    }

    method AllocParts(h: Size, w: Size) returns (rows: array<Line>, stops: Line, ghost added: set<object>)
      requires Valid() && Laid(Model()) && h >= 2 && w >= 2
      modifies `ncol, `dirty
      ensures Valid() && Model() == old(Model()).(ncol := w, dirty := true)
      ensures rows.Length == h && Held(rows[..], FitRows(grid, h, w)) && Distinct(rows[..])
      ensures fresh(added) && rows in added && forall i :: 0 <= i < h ==> rows[i] in added
      ensures fresh(stops) && stops !in rows[..] && stops.Value() == Row(true, DefaultTabs(w))
    {
      assert nline == |grid|;
      hide FitRows, DefaultTabs, Held, Distinct, Valid;
      var pc := ncol;
      SetWidth(w);
      rows, added := AllocRows(h, w, pc);
      stops := AllocTabs(w);
    }

    method SetWidth(w: Size)
      requires Valid()
      modifies `ncol
      ensures ncol == w && Valid() && Model() == old(Model()).(ncol := w)
    {
      hide Held, Distinct;
      ncol := w;
    }

    method InstallTabs(stops: Line)
      requires Valid() && stops !in lines[..]
      modifies `tabs, `Repr
      ensures Valid() && Repr == old(Repr) + {stops} && tabs == stops
      ensures Model() == old(Model()).(tabs := stops.Value())
    {
      hide Held, Distinct;
      tabs, Repr := stops, Repr + {stops};
    }

    method InstallRows(rows: array<Line>, ghost newGrid: seq<Row>, ghost added: set<object>)
      requires Valid() && rows.Length < 0x1_0000_0000_0000_0000 && |newGrid| == rows.Length
      requires Held(rows[..], newGrid) && Distinct(rows[..]) && tabs !in rows[..]
      requires rows in added && forall i :: 0 <= i < rows.Length ==> rows[i] in added
      modifies `lines, `nline, `grid, `Repr
      ensures Valid() && nline == rows.Length && Repr == old(Repr) + added
      ensures Model() == old(Model()).(rows := newGrid)
    {
      hide Held, Distinct;
      ghost var t := Model();
      lines, nline, grid, Repr := rows, rows.Length, newGrid, Repr + added;
      assert lines[..] == old(rows[..]) && pars[..] == t.pars && mb[..nmb] == t.mb;
    }

    /** tmt_open */
    static method Open(h: Size, w: Size, loc: Locale) returns (vt: Tmt?)
      ensures (vt == null) == (h < 2 || w < 2)
      ensures vt != null ==> vt.Valid() && fresh(vt.Repr) && vt.loc == loc && vt.Model() == Opened(h, w)
    {
      if h < 2 || w < 2 {
        return null;
      }
      vt := new Tmt(loc);
      var ok := vt.TmtResize(h, w);
    }
  }
}

/** What each control sequence of tmt.c does to the cursor, the cells and the tab stops, cell
    by cell, from the bytes that are sent. */
module TerminalEffects {
  import opened Common
  import opened TerminalModel
  import opened TerminalSequences
  import TerminalTape

  // ----- cursor motion -----

  /** A parameter of 0 counts as 1. */
  function Count(n: Size): Size { if n == 0 then 1 else n }

  /** The terminal when the final byte comes. */
  function Ready(t: Term, ps: seq<Size>): (u: Term)
    ensures Shape(t) ==> Inv(u)
  {
    Reading(t, if ps == [] then [0] else ps, 0)
  }

  lemma ReadyHas(t: Term, ps: seq<Size>)
    ensures var u := Ready(t, ps);
      && u.pars[0] == (if ps == [] then 0 else ps[0]) && u.pars[1] == (if |ps| < 2 then 0 else ps[1])
      && u.curs == t.curs && u.oldcurs == t.oldcurs && u.attrs == t.attrs && u.oldattrs == t.oldattrs
      && u.rows == t.rows && u.ncol == t.ncol && u.tabs == t.tabs && u.dirty == t.dirty
  {
  }

  /** Everything but the cursor is as it was. */
  lemma MotionDelivers(loc: Locale, t: Term, ps: seq<Size>, b: Byte)
    requires Inv(t) && t.state == Ground && IsMove(b) && b != 0x73 && b != 0x75
    ensures var p := Target(Ready(t, ps), b);
      Write(loc, t, Csi(ps, b)) == t.(curs := Point(Min(p.r, |t.rows| - 1), Min(p.c, t.ncol - 1)))
  {
    hide Write, Csi, Target;
    SequenceDelivers(loc, t, ps, b);
  }

  /** CUF: forward, as far as the last column; a sum that does not fit a size_t wraps. */
  lemma CursorForwardLands(loc: Locale, t: Term, n: Size)
    requires Inv(t) && t.state == Ground
    ensures var sum := t.curs.c + Count(n);
      Write(loc, t, Csi([n], 0x43))
        == t.(curs := Point(t.curs.r, Min(if sum < 0x1_0000_0000_0000_0000 then sum else sum - 0x1_0000_0000_0000_0000,
                                          t.ncol - 1)))
  {
    hide Write, Csi, Ready;
    MotionDelivers(loc, t, [n], 0x43);
    ReadyHas(t, [n]);
  }

  /** CNL and CPL: as down and up, and to the first column. */
  lemma LineMotions(loc: Locale, t: Term, n: Size)
    requires Inv(t) && t.state == Ground
    ensures var down, up := Write(loc, t, Csi([n], 0x42)).curs.r, Write(loc, t, Csi([n], 0x41)).curs.r;
      && Write(loc, t, Csi([n], 0x45)) == t.(curs := Point(down, 0))
      && Write(loc, t, Csi([n], 0x46)) == t.(curs := Point(up, 0))
  {
    hide Write, Csi, Ready;
    MotionDelivers(loc, t, [n], 0x41);
    MotionDelivers(loc, t, [n], 0x42);
    MotionDelivers(loc, t, [n], 0x45);
    MotionDelivers(loc, t, [n], 0x46);
  }

  /** CHA and VPA: to a column, to a row, counted from 1 and clipped. HVP is CUP. */
  lemma AbsoluteMotions(loc: Locale, t: Term, n: Size, m: Size)
    requires Inv(t) && t.state == Ground
    ensures Write(loc, t, Csi([n], 0x47)) == t.(curs := Point(t.curs.r, Min(Count(n) - 1, t.ncol - 1)))
    ensures Write(loc, t, Csi([n], 0x64)) == t.(curs := Point(Min(Count(n) - 1, |t.rows| - 1), t.curs.c))
    ensures Write(loc, t, Csi([n, m], 0x66)) == Write(loc, t, Csi([n, m], 0x48))
  {
    hide Write, Csi, Ready;
    MotionDelivers(loc, t, [n], 0x47);
    MotionDelivers(loc, t, [n], 0x64);
    MotionDelivers(loc, t, [n, m], 0x66);
    MotionDelivers(loc, t, [n, m], 0x48);
    ReadyHas(t, [n]);
  }

  /** The first stop right of c, or the last column. */
  predicate IsNextStop(tabs: seq<Cell>, c: nat, j: nat) {
    && c < |tabs| && j < |tabs| && (j > c || j == |tabs| - 1)
    && (tabs[j].c == 0x2a || j == |tabs| - 1) && forall k :: c < k < j ==> tabs[k].c != 0x2a
  }

  /** The first stop left of c, or the first column. */
  predicate IsStopBefore(tabs: seq<Cell>, c: nat, j: nat) {
    && c < |tabs| && j <= c && (j < c || j == 0)
    && (tabs[j].c == 0x2a || j == 0) && forall k :: j < k < c ==> tabs[k].c != 0x2a
  }

  lemma {:induction false} NextTabIs(tabs: seq<Cell>, c: nat)
    requires c < |tabs|
    ensures IsNextStop(tabs, c, Min(NextTab(tabs, c), |tabs| - 1))
    decreases |tabs| - c
  {
    if c + 1 < |tabs| - 1 && tabs[c + 1].c != STAR {
      NextTabIs(tabs, c + 1);
    }
  }

  lemma {:induction false} PrevTabIs(tabs: seq<Cell>, c: nat)
    requires c < |tabs|
    ensures IsStopBefore(tabs, c, PrevTab(tabs, c))
    decreases c
  {
    if c > 0 && tabs[c - 1].c != STAR {
      PrevTabIs(tabs, c - 1);
    }
  }

  /** CHT and CBT, whatever the stops. */
  lemma TabMotions(loc: Locale, t: Term, n: Size)
    requires Inv(t) && t.state == Ground
    ensures var u := Write(loc, t, Csi([n], 0x49));
      u == t.(curs := Point(t.curs.r, u.curs.c)) && IsNextStop(t.tabs.chars, t.curs.c, u.curs.c)
    ensures var u := Write(loc, t, Csi([n], 0x5a));
      u == t.(curs := Point(t.curs.r, u.curs.c)) && IsStopBefore(t.tabs.chars, t.curs.c, u.curs.c)
  {
    hide Write, Csi, Ready, IsNextStop, IsStopBefore, NextTab, PrevTab;
    MotionDelivers(loc, t, [n], 0x49);
    MotionDelivers(loc, t, [n], 0x5a);
    ReadyHas(t, [n]);
    NextTabIs(t.tabs.chars, t.curs.c);
    PrevTabIs(t.tabs.chars, t.curs.c);
  }

  // ----- the saved cursor -----

  /** CSI s keeps the cursor and the attributes, and CSI u brings them back. */
  lemma CursorIsSaved(loc: Locale, t: Term)
    requires Inv(t) && t.state == Ground
    ensures Write(loc, t, Csi([], 0x73)) == t.(oldcurs := t.curs, oldattrs := t.attrs)
    ensures Write(loc, t, Csi([], 0x75))
         == t.(curs := Point(Min(t.oldcurs.r, |t.rows| - 1), Min(t.oldcurs.c, t.ncol - 1)), attrs := t.oldattrs)
  {
    hide Write, Csi;
    SequenceDelivers(loc, t, [], 0x73);
    SequenceDelivers(loc, t, [], 0x75);
  }

  lemma EscapeDelivers(loc: Locale, t: Term, b: Byte)
    requires Inv(t) && t.state == Ground && EndsEscape(b)
    ensures var u := t.(state := Escape, pars := Reading(t, [0], 0).pars, npar := 1);
      Shape(u) && Write(loc, t, [0x1b, b]) == ResetParser(FixCursor(EscapeAction(u, b)))
  {
    hide EscapeAction, ResetParser, FixCursor;
    var t1 := t.(state := Escape);
    WriteOne(loc, t, 0x1b);
    WriteSnoc(loc, t, [0x1b], b);
    assert [0x1b, b] == [0x1b] + [b];
    assert Feed(loc, t, 0x1b) == t1;
    assert Feed(loc, t1, b) == Complete(t1, b);
    assert ConsumeArg(t1).pars == Reading(t, [0], 0).pars;
  }

  /** ESC 7, ESC 8, ESC M (one row up, without a scroll) and ESC H (one tab stop more). */
  lemma EscapesAre(loc: Locale, t: Term)
    requires Inv(t) && t.state == Ground
    ensures Write(loc, t, [0x1b, 0x37]) == t.(oldcurs := t.curs, oldattrs := t.attrs)
    ensures Write(loc, t, [0x1b, 0x38]) == Write(loc, t, Csi([], 0x75))
    ensures Write(loc, t, [0x1b, 0x4d]) == t.(curs := Point(if t.curs.r == 0 then 0 else t.curs.r - 1, t.curs.c))
    ensures var u := Write(loc, t, [0x1b, 0x48]);
      && u == t.(tabs := u.tabs) && u.tabs.dirty == t.tabs.dirty && |u.tabs.chars| == t.ncol
      && forall j :: 0 <= j < t.ncol ==>
           u.tabs.chars[j] == if j == t.curs.c then t.tabs.chars[j].(c := 0x2a) else t.tabs.chars[j]
  {
    hide Write, Csi;
    CursorIsSaved(loc, t);
    EscapeDelivers(loc, t, 0x37);
    EscapeDelivers(loc, t, 0x38);
    EscapeDelivers(loc, t, 0x4d);
    EscapeDelivers(loc, t, 0x48);
  }

  // ----- cells -----

  /** A space without attributes, in the default colors. */
  function Empty(): Cell {
    Cell(0x20, Attrs(false, false, false, false, false, false, Default, Default))
  }

  /** Only cells changed, and the marks that say so. */
  predicate OnlyCells(t: Term, u: Term) { u == t.(rows := u.rows, dirty := u.dirty) && |u.rows| == |t.rows| }

  /** In row r the columns from a on and below z are empty now, and the row is marked; all
      else is as it was. */
  predicate Emptied(was: seq<Row>, now: seq<Row>, r: nat, a: nat, z: nat)
    requires |now| == |was|
  {
    && r < |was| && now[r].dirty && |now[r].chars| == |was[r].chars|
    && (forall j :: 0 <= j < |was[r].chars| ==>
          now[r].chars[j] == if a <= j < z then Empty() else was[r].chars[j])
    && forall i :: 0 <= i < |was| && i != r ==> now[i] == was[i]
  }

  lemma CellsCleared(chars: seq<Cell>, a: nat, z: nat)
    ensures forall j :: 0 <= j < |chars| ==> ClearCells(chars, a, z)[j] == if a <= j < z then Empty() else chars[j]
  {
    assert BlankCell() == Empty();
  }

  lemma ClearedAtCursor(t: Term, a: nat, z: nat)
    requires Shape(t)
    ensures var u := ClearAtCursor(t, a, z); OnlyCells(t, u) && Emptied(t.rows, u.rows, t.curs.r, a, z)
  {
    var u := ClearAtCursor(t, a, z);
    var chars := t.rows[t.curs.r].chars;
    var row := ClearCells(chars, a, z);
    assert |chars| == t.ncol && CursorRow(t) == chars;
    assert u == t.(rows := t.rows[t.curs.r := Row(true, row)], dirty := true);
    CellsCleared(chars, a, z);
  }

  lemma Rested(t: Term, ps: seq<Size>, v: Term)
    requires Inv(t) && t.state == Ground && OnlyCells(Ready(t, ps), v) && Sized(v)
    ensures ResetParser(FixCursor(v)) == t.(rows := v.rows, dirty := v.dirty)
  {
  }

  /** An editing sequence changes what its action changes, and nothing else. */
  lemma EditDelivers(loc: Locale, t: Term, ps: seq<Size>, b: Byte)
    requires Inv(t) && t.state == Ground && IsEdit(b)
    ensures Shape(Ready(t, ps))
    ensures var v := EditAction(Ready(t, ps), b);
      OnlyCells(Ready(t, ps), v) ==> Write(loc, t, Csi(ps, b)) == t.(rows := v.rows, dirty := v.dirty)
  {
    hide Write, Csi, EditAction;
    SequenceDelivers(loc, t, ps, b);
    if OnlyCells(Ready(t, ps), EditAction(Ready(t, ps), b)) {
      Rested(t, ps, EditAction(Ready(t, ps), b));
    }
  }

  /** EL: to the end of the line, to the cursor but sparing the last column, or all of it. */
  lemma LineIsErased(loc: Locale, t: Term, n: Size)
    requires Inv(t) && t.state == Ground
    ensures var u, r, c, w := Write(loc, t, Csi([n], 0x4b)), t.curs.r, t.curs.c, t.ncol;
      OnlyCells(t, u)
      && if n == 0 then Emptied(t.rows, u.rows, r, c, w)
         else if n == 1 then Emptied(t.rows, u.rows, r, 0, Min(c + 1, w - 1))
         else if n == 2 then Emptied(t.rows, u.rows, r, 0, w)
         else u == t
  {
    hide Write, Csi, Ready, ClearAtCursor, Emptied;
    EditDelivers(loc, t, [n], 0x4b);
    ReadyHas(t, [n]);
    var r := Ready(t, [n]);
    ClearedAtCursor(r, t.curs.c, t.ncol);
    ClearedAtCursor(r, 0, Min(t.curs.c + 1, t.ncol - 1));
    ClearedAtCursor(r, 0, t.ncol);
  }

  /** ECH: n cells from the cursor on, none if their end wraps. */
  lemma CharactersAreErased(loc: Locale, t: Term, n: Size)
    requires Inv(t) && t.state == Ground
    ensures var u := Write(loc, t, Csi([n], 0x58));
      OnlyCells(t, u) && Emptied(t.rows, u.rows, t.curs.r, t.curs.c, (Count(n) + t.curs.c) % 0x1_0000_0000_0000_0000)
  {
    hide Write, Csi, Ready, ClearAtCursor, Emptied;
    EditDelivers(loc, t, [n], 0x58);
    ReadyHas(t, [n]);
    ClearedAtCursor(Ready(t, [n]), t.curs.c, Plus(Count(n), t.curs.c));
  }

  /** Row by row: those from a on and below z are empty and marked, and all else is as it was. */
  predicate EmptiedRows(was: seq<Row>, now: seq<Row>, a: nat, z: nat)
    requires |now| == |was|
  {
    && (forall i :: 0 <= i < |was| ==> |now[i].chars| == |was[i].chars|)
    && (forall i, j :: 0 <= i < |was| && 0 <= j < |was[i].chars| ==>
          now[i].chars[j] == if a <= i < z then Empty() else was[i].chars[j])
    && forall i :: 0 <= i < |was| ==> if a <= i < z then now[i].dirty else now[i] == was[i]
  }

  lemma RowsAreCleared(t: Term, a: nat, z: nat)
    requires Shape(t)
    ensures var u := ClearRows(t, a, z); OnlyCells(t, u) && EmptiedRows(t.rows, u.rows, a, z)
  {
    var u := ClearRows(t, a, z);
    assert forall i :: 0 <= i < |t.rows| ==> u.rows[i] == if a <= i < z then BlankRow(t.ncol) else t.rows[i];
  }

  /** What ED empties: to the end of the screen, or all of it; and to the cursor as it is
      coded: the cells left of it, and the rows above but the nearest one, or every row if
      the cursor is in the first. */
  predicate IsErased(at: Point, n: Size, i: nat, j: nat) {
    if n == 0 then i > at.r || (i == at.r && j >= at.c)
    else if n == 1 then (i == at.r && j < at.c) || i < at.r - 1 || at.r == 0
    else n == 2
  }

  predicate Erased(was: seq<Row>, now: seq<Row>, at: Point, n: Size) {
    && |now| == |was| && (forall i :: 0 <= i < |was| ==> |now[i].chars| == |was[i].chars|)
    && forall i, j :: 0 <= i < |was| && 0 <= j < |was[i].chars| ==>
         now[i].chars[j] == if IsErased(at, n, i, j) then Empty() else was[i].chars[j]
  }

  lemma TwoErasures(was: seq<Row>, mid: seq<Row>, now: seq<Row>, at: Point, w: Size)
    requires |was| == |mid| == |now| < 0x1_0000_0000_0000_0000 && at.r < |was|
    requires forall i :: 0 <= i < |was| ==> |was[i].chars| == w
    ensures Emptied(was, mid, at.r, at.c, w) && EmptiedRows(mid, now, at.r + 1, |was|) ==> Erased(was, now, at, 0)
    ensures Emptied(was, mid, at.r, 0, at.c) && EmptiedRows(mid, now, 0, Minus(at.r, 1)) ==> Erased(was, now, at, 1)
    ensures EmptiedRows(was, now, 0, |was|) ==> Erased(was, now, at, 2)
  {
    hide Empty;
  }

  lemma NothingErased(rows: seq<Row>, at: Point, n: Size)
    requires n > 2
    ensures Erased(rows, rows, at, n)
  {
  }

  lemma DisplayIsErased(loc: Locale, t: Term, n: Size)
    requires Inv(t) && t.state == Ground
    ensures var u := Write(loc, t, Csi([n], 0x4a));
      OnlyCells(t, u) && Erased(t.rows, u.rows, t.curs, n) && (n > 2 ==> u == t)
  {
    hide Write, Csi, Ready, ClearAtCursor, ClearRows, Erased, Emptied, EmptiedRows;
    EditDelivers(loc, t, [n], 0x4a);
    ReadyHas(t, [n]);
    var v, u := Ready(t, [n]), Write(loc, t, Csi([n], 0x4a));
    if n == 0 {
      ClearedAtCursor(v, t.curs.c, t.ncol);
      RowsAreCleared(ClearAtCursor(v, t.curs.c, t.ncol), t.curs.r + 1, |t.rows|);
      TwoErasures(t.rows, ClearAtCursor(v, t.curs.c, t.ncol).rows, u.rows, t.curs, t.ncol);
    } else if n == 1 {
      ClearedAtCursor(v, 0, t.curs.c);
      RowsAreCleared(ClearAtCursor(v, 0, t.curs.c), 0, Minus(t.curs.r, 1));
      TwoErasures(t.rows, ClearAtCursor(v, 0, t.curs.c).rows, u.rows, t.curs, t.ncol);
    } else if n == 2 {
      RowsAreCleared(v, 0, |t.rows|);
      TwoErasures(t.rows, t.rows, u.rows, t.curs, t.ncol);
    } else {
      NothingErased(t.rows, t.curs, n);
    }
  }

  function Empties(n: nat): (s: seq<Cell>)
    ensures |s| == n
  {
    seq(n, _ => Empty())
  }

  lemma BlanksAreEmpties(n: nat)
    ensures Blanks(n) == Empties(n)
  {
    assert BlankCell() == Empty();
  }

  /** From row r on the rows have moved k down: row i now is row i - k was, and the k rows at
      r are empty. */
  predicate MovedDown(was: seq<Row>, now: seq<Row>, r: nat, k: nat, w: nat)
    requires |now| == |was| && r + k <= |was|
  {
    && (forall i :: 0 <= i < r ==> now[i] == was[i])
    && (forall i :: r <= i < r + k ==> now[i].chars == Empties(w))
    && (forall i :: r + k <= i < |was| ==> now[i].chars == was[i - k].chars)
  }

  /** The same upwards: the k rows at r are gone, and the last k are empty. */
  predicate MovedUp(was: seq<Row>, now: seq<Row>, r: nat, k: nat, w: nat)
    requires |now| == |was| && r + k <= |was|
  {
    && (forall i :: 0 <= i < r ==> now[i] == was[i])
    && (forall i :: r <= i < |was| - k ==> now[i].chars == was[i + k].chars)
    && (forall i :: |was| - k <= i < |was| ==> now[i].chars == Empties(w))
  }

  /** At most all rows but one are moved from row r on. */
  function Moved(t: Term, r: nat, n: Size): nat
    requires r < |t.rows|
  {
    Min(Count(n), |t.rows| - 1 - r)
  }

  lemma ScrolledDown(t: Term, r: nat, n: Size)
    requires Shape(t) && r < |t.rows|
    ensures var u := ScrollDown(t, r, Count(n)); OnlyCells(t, u) && MovedDown(t.rows, u.rows, r, Moved(t, r, n), t.ncol)
  {
    BlanksAreEmpties(t.ncol);
    hide Blanks, Empties;
    var k, u := Moved(t, r, n), ScrollDown(t, r, Count(n));
    ScrollDownIs(t, r, Count(n), k);
    hide ScrollDown;
    assert k > 0 ==> u.rows == t.rows[..r] + BlankRows(k, t.ncol) + Touched(t.rows[r..|t.rows| - k]);
  }

  lemma ScrolledUp(t: Term, r: nat, n: Size)
    requires Shape(t) && r < |t.rows|
    ensures var u := ScrollUp(t, r, Count(n)); OnlyCells(t, u) && MovedUp(t.rows, u.rows, r, Moved(t, r, n), t.ncol)
  {
    BlanksAreEmpties(t.ncol);
    hide Blanks, Empties;
    var k, u := Moved(t, r, n), ScrollUp(t, r, Count(n));
    ScrollUpIs(t, r, Count(n), k);
    hide ScrollUp;
    assert k > 0 ==> u.rows == t.rows[..r] + Touched(t.rows[r + k..]) + BlankRows(k, t.ncol);
  }

  /** IL at the cursor's row, SD from the first row. */
  lemma LinesMoveDown(loc: Locale, t: Term, n: Size)
    requires Inv(t) && t.state == Ground
    ensures var u := Write(loc, t, Csi([n], 0x4c));
      OnlyCells(t, u) && MovedDown(t.rows, u.rows, t.curs.r, Moved(t, t.curs.r, n), t.ncol)
    ensures var u := Write(loc, t, Csi([n], 0x54));
      OnlyCells(t, u) && MovedDown(t.rows, u.rows, 0, Moved(t, 0, n), t.ncol)
  {
    hide Write, Csi, Ready, MovedDown, ScrollDown;
    ReadyHas(t, [n]);
    EditDelivers(loc, t, [n], 0x4c);
    ScrolledDown(Ready(t, [n]), t.curs.r, n);
    EditDelivers(loc, t, [n], 0x54);
    ScrolledDown(Ready(t, [n]), 0, n);
  }

  /** DL at the cursor's row, SU from the first row. */
  lemma LinesMoveUp(loc: Locale, t: Term, n: Size)
    requires Inv(t) && t.state == Ground
    ensures var u := Write(loc, t, Csi([n], 0x4d));
      OnlyCells(t, u) && MovedUp(t.rows, u.rows, t.curs.r, Moved(t, t.curs.r, n), t.ncol)
    ensures var u := Write(loc, t, Csi([n], 0x53));
      OnlyCells(t, u) && MovedUp(t.rows, u.rows, 0, Moved(t, 0, n), t.ncol)
  {
    hide Write, Csi, Ready, MovedUp, ScrollUp;
    ReadyHas(t, [n]);
    EditDelivers(loc, t, [n], 0x4d);
    ScrolledUp(Ready(t, [n]), t.curs.r, n);
    EditDelivers(loc, t, [n], 0x53);
    ScrolledUp(Ready(t, [n]), 0, n);
  }

  /** Only the cursor's row changed, to this. */
  predicate RowIs(t: Term, u: Term, chars: seq<Cell>) {
    && OnlyCells(t, u) && t.curs.r < |t.rows| && u.rows[t.curs.r].chars == chars
    && forall i :: 0 <= i < |t.rows| && i != t.curs.r ==> u.rows[i] == t.rows[i]
  }

  /** ICH as it is coded moves the cells from the cursor on right but for the last column, and
      empties those from the cursor to column n. */
  predicate Inserted(was: seq<Cell>, now: seq<Cell>, c: nat, k: nat)
    requires c + k < |was|
  {
    |now| == |was| && forall j :: 0 <= j < |was| ==>
      now[j] == if c <= j < k then Empty() else if j < c + k || j == |was| - 1 then was[j] else was[j - k]
  }

  /** DCH: the cells right of the deleted ones move left, and empty ones follow. */
  lemma CellsAreDeleted(loc: Locale, t: Term, n: Size)
    requires Inv(t) && t.state == Ground
    ensures var c, w, chars := t.curs.c, t.ncol, t.rows[t.curs.r].chars;
      var k := Min(Count(n), w - c);
      |chars| == w && RowIs(t, Write(loc, t, Csi([n], 0x50)), chars[..c] + chars[c + k..] + Empties(k))
  {
    hide Write, Csi, Ready, Blanks, Empties;
    ReadyHas(t, [n]);
    EditDelivers(loc, t, [n], 0x50);
    BlanksAreEmpties(Min(Count(n), t.ncol - t.curs.c));
  }

  lemma InsertedIs(chars: seq<Cell>, c: nat, k: nat)
    requires c + k < |chars|
    ensures Inserted(chars, InsertedCells(chars, c, k), c, k)
  {
    CellsCleared(MovedCells(chars, c + k, c, |chars| - c - k - 1), c, k);
    hide ClearCells;
  }

  lemma CellsAreInserted(loc: Locale, t: Term, n: Size)
    requires Inv(t) && t.state == Ground
    ensures var c, w, chars := t.curs.c, t.ncol, t.rows[t.curs.r].chars;
      var k, u := Min(Count(n), w - c - 1), Write(loc, t, Csi([n], 0x40));
      && |chars| == w && OnlyCells(t, u) && RowIs(t, u, u.rows[t.curs.r].chars)
      && Inserted(chars, u.rows[t.curs.r].chars, c, k)
  {
    hide Write, Csi, Ready, InsertedCells, Inserted;
    ReadyHas(t, [n]);
    EditDelivers(loc, t, [n], 0x40);
    InsertedIs(t.rows[t.curs.r].chars, t.curs.c, Min(Count(n), t.ncol - t.curs.c - 1));
  }

  // ----- tab stops, character sets, and what changes nothing -----

  lemma OtherDelivers(loc: Locale, t: Term, ps: seq<Size>, b: Byte)
    requires Inv(t) && t.state == Ground && EndsArguments(b) && !IsMove(b)
    ensures var v := EditAction(Ready(t, ps), b);
      v == Ready(t, ps).(tabs := v.tabs, dirty := v.dirty) ==>
        Write(loc, t, Csi(ps, b)) == t.(tabs := v.tabs, dirty := v.dirty)
  {
    hide Write, Csi, EditAction;
    SequenceDelivers(loc, t, ps, b);
  }

  /** TBC 3 takes every stop away, and any other TBC none. */
  lemma TabsAreCleared(loc: Locale, t: Term, n: Size)
    requires Inv(t) && t.state == Ground
    ensures var u := Write(loc, t, Csi([n], 0x67));
      u == t.(tabs := u.tabs, dirty := u.dirty)
      && if n == 3 then u.tabs.chars == Empties(t.ncol) && u.dirty else u == t
  {
    hide Write, Csi, Ready, Empties, Blanks;
    ReadyHas(t, [n]);
    OtherDelivers(loc, t, [n], 0x67);
    BlanksAreEmpties(t.ncol);
  }

  /** DA, DSR, SM, RM and MC only answer or call back. */
  lemma ReportsChangeNothing(loc: Locale, t: Term, ps: seq<Size>, b: Byte)
    requires Inv(t) && t.state == Ground && b in {0x63, 0x6e, 0x68, 0x6c, 0x69}
    ensures Write(loc, t, Csi(ps, b)) == t
  {
    hide Write, Csi, Ready;
    ReadyHas(t, ps);
    OtherDelivers(loc, t, ps, b);
  }

  /** The DEC special graphics, byte by byte: ` to ~ and the underscore. */
  function Glyph(b: Byte): int {
    match b
    case 0x5f => 0x20          // blank
    case 0x60 => 0x25c6        // diamond
    case 0x61 => 0x2592        // checker board
    case 0x62 => 0x09 case 0x63 => 0x0c case 0x64 => 0x0d case 0x65 => 0x0a
    case 0x66 => 0xb0          // degree
    case 0x67 => 0xb1          // plus or minus
    case 0x68 => 0x0a case 0x69 => 0x0b
    case 0x6a => 0x2518        // corners: lower right,
    case 0x6b => 0x2510        // upper right,
    case 0x6c => 0x250c        // upper left,
    case 0x6d => 0x2514        // lower left
    case 0x6e => 0x253c        // crossing
    case 0x6f => 0x23ba case 0x70 => 0x23bb case 0x71 => 0x2500 case 0x72 => 0x23bc case 0x73 => 0x23bd  // scan lines
    case 0x74 => 0x251c        // tees: left,
    case 0x75 => 0x2524        // right,
    case 0x76 => 0x2534        // bottom,
    case 0x77 => 0x252c        // top
    case 0x78 => 0x2502        // vertical line
    case 0x79 => 0x2264 case 0x7a => 0x2265  // at most, at least
    case 0x7b => 0x3c0         // pi
    case 0x7c => 0x2260        // not equal
    case 0x7d => 0xa3          // pound
    case 0x7e => 0x2022        // bullet
    case _ => b as int
  }

  lemma GlyphIs(b: Byte)
    ensures DecChar(b) == Glyph(b)
  {
  }

  lemma CharsetDelivers(loc: Locale, t: Term, b: Byte)
    requires Inv(t) && t.state == Ground && (b == 0x30 || b == 0x42 || b == 0x00)
    ensures Write(loc, t, [0x1b, 0x28, b]) == t.(decdraw := b != 0x42)
  {
    hide NextArg;
    var t1, t2 := t.(state := Escape), t.(state := Charset);
    WriteOne(loc, t, 0x1b);
    WriteSnoc(loc, t, [0x1b], 0x28);
    assert [0x1b, 0x28] == [0x1b] + [0x28];
    WriteSnoc(loc, t, [0x1b, 0x28], b);
    assert [0x1b, 0x28, b] == [0x1b, 0x28] + [b];
    hide Write;
    assert Feed(loc, t, 0x1b) == t1;
    assert Feed(loc, t1, 0x28) == t2;
    assert Feed(loc, t2, b) == Complete(t2, b);
  }

  /** Not one of the control bytes that act in the ground state. */
  predicate IsText(b: Byte) { b !in {0x00, 0x07, 0x08, 0x09, 0x0a, 0x0d, 0x1b} }

  /** In the ground state such a byte is text. */
  lemma TextOf(loc: Locale, t: Term, b: Byte)
    requires Inv(t) && t.state == Ground && IsText(b)
    ensures Feed(loc, t, b) == Text(loc, t, b)
  {
    hide Text, Shape;
    assert ResetParser(t) == t;
  }

  /** ESC ( 0 turns line drawing on, as ESC ( and a NUL byte do, and ESC ( B off, and while it is on a printable byte is
      written as its glyph. */
  lemma LinesAreDrawn(loc: Locale, t: Term, b: Byte)
    requires Inv(t) && t.state == Ground && 0x20 <= b <= 0x7e
    ensures Write(loc, t, [0x1b, 0x28, 0x30]) == Write(loc, t, [0x1b, 0x28, 0x00]) == t.(decdraw := true)
    ensures Write(loc, t, [0x1b, 0x28, 0x42]) == t.(decdraw := false)
    ensures t.decdraw && !t.acs ==> Write(loc, t, [b]) == Put(t, Glyph(b))
  {
    CharsetDelivers(loc, t, 0x30);
    CharsetDelivers(loc, t, 0x42);
    CharsetDelivers(loc, t, 0x00);
    GlyphIs(b);
    hide Write, Put, DecChar, Glyph, Tacs;
    WriteOne(loc, t, b);
    if t.decdraw && !t.acs {
      TextOf(loc, t, b);
    }
  }

  /** The place of a byte in the alternate set, by the codes the terminfo entry uses. */
  function AcsPlace(b: Byte): Option<nat> {
    match b
    case 16 => Some(0) case 17 => Some(1) case 24 => Some(2) case 25 => Some(3) case 219 => Some(4)
    case 4 => Some(5) case 177 => Some(6) case 248 => Some(7) case 241 => Some(8) case 176 => Some(9)
    case 217 => Some(10) case 191 => Some(11) case 218 => Some(12) case 192 => Some(13) case 197 => Some(14)
    case 126 => Some(15) case 196 => Some(16) case 95 => Some(19) case 195 => Some(20) case 180 => Some(21)
    case 193 => Some(22) case 194 => Some(23) case 179 => Some(24) case 243 => Some(25) case 242 => Some(26)
    case 227 => Some(27) case 216 => Some(28) case 156 => Some(29) case 254 => Some(30)
    case _ => None
  }

  lemma CodesAre()
    ensures var a := AcsCodes();
      && |a| == 31 && a[0] == 16 && a[1] == 17 && a[2] == 24 && a[3] == 25 && a[4] == 219 && a[5] == 4
      && a[6] == 177 && a[7] == 248 && a[8] == 241 && a[9] == 176 && a[10] == 217 && a[11] == 191
      && a[12] == 218 && a[13] == 192 && a[14] == 197 && a[15] == 126 && a[16] == 196 && a[17] == 196
      && a[18] == 196 && a[19] == 95 && a[20] == 195 && a[21] == 180 && a[22] == 193 && a[23] == 194
      && a[24] == 179 && a[25] == 243 && a[26] == 242 && a[27] == 227 && a[28] == 216 && a[29] == 156
      && a[30] == 254
  {
  }

  /** A byte of the alternate set is written as the glyph at its place, any other as itself. */
  lemma PlaceIs(acschars: AcsTable, b: Byte)
    ensures Tacs(acschars, b)
         == match AcsPlace(b) case Some(i) => if i < 31 then acschars[i] else 0 case None => b as int
  {
    CodesAre();
    hide AcsCodes, IndexOf;
  }

  /** The alternate character set, for any byte that is not a control. */
  lemma AlternateSetIsUsed(loc: Locale, t: Term, b: Byte)
    requires Inv(t) && t.state == Ground && t.acs && IsText(b)
    ensures Write(loc, t, [b])
         == Put(t, match AcsPlace(b) case Some(i) => if i < 31 then loc.acschars[i] else 0 case None => b as int)
  {
    hide Write, Put, Tacs, AcsPlace, DecChar;
    WriteOne(loc, t, b);
    TextOf(loc, t, b);
    PlaceIs(loc.acschars, b);
  }

  // ----- multibyte characters -----

  /** Ready for a new character from the stream. */
  ghost predicate Decoding(t: Term) {
    Inv(t) && t.state == Ground && !t.acs && !t.decdraw && t.mb == []
  }

  lemma PartialByte(loc: Locale, t: Term, b: Byte)
    requires Inv(t) && t.state == Ground && !t.acs && !t.decdraw && |t.mb| < 100 && IsText(b)
    requires t.mb != [] ==> loc.decode(t.ms, t.mb).Partial?
    ensures Feed(loc, t, b)
         == if loc.decode(t.ms, t.mb + [b]).Whole? then PutPending(loc, t.(mb := t.mb + [b])) else t.(mb := t.mb + [b])
  {
    TextOf(loc, t, b);
    hide PutPending, Feed, Put, Tacs, DecChar;
  }

  /** No beginning of s, and not s itself, is a whole character yet. */
  ghost predicate Unfinished(loc: Locale, ms: int, s: seq<Byte>) {
    && (forall i :: 0 <= i < |s| ==> IsText(s[i]))
    && forall k :: 1 <= k <= |s| ==> loc.decode(ms, s[..k]).Partial?
  }

  lemma UnfinishedFront(loc: Locale, ms: int, s: seq<Byte>, b: Byte)
    requires Unfinished(loc, ms, s + [b])
    ensures Unfinished(loc, ms, s) && IsText(b) && loc.decode(ms, s + [b]).Partial?
    ensures s != [] ==> loc.decode(ms, s).Partial?
  {
    hide IsText;
    var all := s + [b];
    assert all[|s|] == b && all[..|all|] == all && s[..|s|] == s;
    forall k | 1 <= k <= |s|
      ensures loc.decode(ms, s[..k]).Partial?
    {
      assert all[..k] == s[..k];
    }
    forall i | 0 <= i < |s|
      ensures IsText(s[i])
    {
      assert all[i] == s[i];
    }
  }

  lemma {:induction false} BytesWait(loc: Locale, t: Term, s: seq<Byte>)
    requires Decoding(t) && |s| < 100 && Unfinished(loc, t.ms, s)
    ensures Write(loc, t, s) == t.(mb := s) && Inv(t.(mb := s))
  {
    hide Feed, IsText, Unfinished, PutPending;
    if s != [] {
      var front, b := s[..|s| - 1], s[|s| - 1];
      assert s == front + [b];
      UnfinishedFront(loc, t.ms, front, b);
      BytesWait(loc, t, front);
      PartialByte(loc, t.(mb := front), b);
    }
  }

  /** However many bytes a character has, it is one cell once it is whole. */
  lemma CharacterIsDecoded(loc: Locale, t: Term, s: seq<Byte>, c: int, ms: int)
    requires Decoding(t) && 1 <= |s| <= 100 && Unfinished(loc, t.ms, s[..|s| - 1]) && IsText(s[|s| - 1])
    requires loc.decode(t.ms, s) == Whole(c, ms)
    ensures Write(loc, t, s) == Put(t.(ms := ms), c)
  {
    hide Feed, IsText, Put, Write;
    var n := |s| - 1;
    BytesWait(loc, t, s[..n]);
    WriteSnoc(loc, t, s[..n], s[n]);
    assert s[..n] + [s[n]] == s && s[..n][..n] == s[..n];
    var t1 := t.(mb := s[..n]);
    PartialByte(loc, t1, s[n]);
    assert t1.(mb := s).(ms := ms, mb := []) == t.(ms := ms);
  }

  /** A byte that does not decode shows as U+FFFD when the next one comes, and that one is
      lost with it. */
  lemma ByteAfterBadIsLost(loc: Locale, t: Term, b: Byte, x: Byte)
    requires Decoding(t) && IsText(b) && IsText(x) && loc.decode(t.ms, [b]).Bad?
    ensures Write(loc, t, [b, x]) == Put(t.(ms := loc.decode(t.ms, [b]).ms), 0xfffd)
  {
    var t1 := t.(mb := [b]);
    WriteOne(loc, t, b);
    WriteSnoc(loc, t, [b], x);
    assert [b, x] == [b] + [x];
    assert [] + [b] == [b];
    PartialByte(loc, t, b);
    TextOf(loc, t1, x);
    hide Feed, Write, Put, Tacs, DecChar, IsText;
    assert t1.(ms := loc.decode(t.ms, [b]).ms, mb := []) == t.(ms := loc.decode(t.ms, [b]).ms);
  }

  // ----- the whole screen -----

  /** All cells are empty and all rows marked; the cursor is home, there and saved, without
      attributes; no switch is left of SGR, and the parser is at rest. */
  ghost predicate FreshScreen(t: Term) {
    && (forall i :: 0 <= i < |t.rows| ==> t.rows[i] == Row(true, Empties(t.ncol))) && t.dirty
    && t.curs == Point(0, 0) == t.oldcurs && t.attrs == Empty().a == t.oldattrs && !t.acs && t.ms == 0
    && t.state == Ground && t.arg == 0 && t.npar == 0 && t.pars == [0, 0, 0, 0, 0, 0, 0, 0] && !t.ignored
  }

  /** tmt_reset keeps the size and the tab stops; but it also leaves line drawing on, and
      the bytes of an unfinished character waiting. */
  lemma ResetClears(t: Term)
    requires Sized(t)
    ensures var u := Reset(t);
      && FreshScreen(u) && |u.rows| == |t.rows| && u.ncol == t.ncol && u.tabs == t.tabs
      && u.decdraw == t.decdraw && u.mb == t.mb
  {
    BlanksAreEmpties(t.ncol);
    hide Blanks, Empties;
    var rows := ClearedRows(t.rows, 0, |t.rows|, t.ncol);
    assert forall i :: 0 <= i < |t.rows| ==> rows[i] == BlankRow(t.ncol);
    assert Reset(t).rows == rows;
  }

  /** What tmt_open returns. */
  lemma OpenedIsClear(h: Size, w: Size)
    requires h >= 2 && w >= 2
    ensures var u := Opened(h, w);
      && FreshScreen(u) && |u.rows| == h && u.ncol == w && !u.decdraw && u.mb == [] && |u.tabs.chars| == w
      && forall j :: 0 <= j < w ==> (u.tabs.chars[j].c == 0x2a <==> j % 8 == 0 || j == w - 1)
  {
    var u := Opened(h, w);
    forall i | 0 <= i < h
      ensures u.rows[i] == Row(true, Empties(w))
    {
      BlanksAreEmpties(w);
      assert u.rows[i].chars == FitCells([], w) == Blanks(w);
    }
  }

  // ----- what the parser does not know, and what it skips -----

  function Ch(b: Byte): char { b as int as char }

  /** The bytes each state takes: those of the tests, and NUL. */
  lemma BytesTaken(b: Byte)
    ensures Takes(Ground, b) <==> b in {0x00, 0x07, 0x08, 0x09, 0x0a, 0x0d, 0x1b}
    ensures Takes(Escape, b) <==> b == 0x00 || b == 0x1b || Ch(b) in "H78+*)(cM["
    ensures Takes(Charset, b) <==> b == 0x00 || Ch(b) in "0B"
    ensures Takes(Arguments, b) <==>
              b == 0x00 || b == 0x1b || Ch(b) in ";?0123456789"
              || Ch(b) in "ABCDEFGdHfIJKLM" || Ch(b) in "PSTXZbcgmnhilsu@"
  {
  }

  /** Only the parser is between two bytes of a sequence. */
  predicate OnlyParser(t: Term, u: Term) {
    u == t.(state := u.state, pars := u.pars, npar := u.npar, arg := u.arg, ignored := u.ignored)
  }

  lemma ParametersAreRead(loc: Locale, t: Term, ps: seq<Size>)
    requires Inv(t) && t.state == Ground
    ensures var u := Write(loc, t, [0x1b, 0x5b] + Params(ps)); OnlyParser(t, u) && u.state == Arguments
  {
    hide Write, Params;
    IntroducerIsRead(loc, t);
    WriteAppend(loc, t, [0x1b, 0x5b], Params(ps));
    if ps == [] {
      NoParams();
      assert [0x1b, 0x5b] + [] == [0x1b, 0x5b];
    } else {
      ParamsAreRead(loc, t, ps);
    }
  }

  lemma EscapeOpens(loc: Locale, t: Term)
    requires Inv(t) && t.state == Ground
    ensures Write(loc, t, [0x1b]) == t.(state := Escape) && Write(loc, t, [0x1b, 0x28]) == t.(state := Charset)
  {
    hide Write, Shape;
    WriteOne(loc, t, 0x1b);
    WriteSnoc(loc, t, [0x1b], 0x28);
    assert [0x1b, 0x28] == [0x1b] + [0x28];
    assert Feed(loc, t, 0x1b) == t.(state := Escape);
    assert Feed(loc, t.(state := Escape), 0x28) == t.(state := Charset);
  }
  lemma RefusedIsText(loc: Locale, t: Term, u: Term, b: Byte)
    requires Inv(t) && t.state == Ground && Inv(u) && OnlyParser(t, u) && !Takes(u.state, b)
    ensures Feed(loc, u, b) == Text(loc, t, b)
  {
    hide Takes, Text, Handle, Shape;
    assert ResetParser(u) == t;
  }

  /** A sequence whose last byte is not known is dropped, and that byte is taken as text. */
  lemma UnknownFinalIsText(loc: Locale, t: Term, ps: seq<Size>, b: Byte)
    requires Inv(t) && t.state == Ground && IsText(b)
    ensures !Takes(Arguments, b) ==> Write(loc, t, Csi(ps, b)) == Write(loc, t, [b])
    ensures !Takes(Escape, b) ==> Write(loc, t, [0x1b, b]) == Write(loc, t, [b])
    ensures !Takes(Charset, b) ==> Write(loc, t, [0x1b, 0x28, b]) == Write(loc, t, [b])
  {
    hide Write, Reading, Feed, Params, IsText, Text, Takes, Handle;
    TextOf(loc, t, b);
    WriteOne(loc, t, b);
    if !Takes(Arguments, b) {
      ParametersAreRead(loc, t, ps);
      WriteSnoc(loc, t, [0x1b, 0x5b] + Params(ps), b);
      RefusedIsText(loc, t, Write(loc, t, [0x1b, 0x5b] + Params(ps)), b);
    }
    EscapeOpens(loc, t);
    if !Takes(Escape, b) {
      WriteSnoc(loc, t, [0x1b], b);
      assert [0x1b, b] == [0x1b] + [b];
      RefusedIsText(loc, t, t.(state := Escape), b);
    }
    if !Takes(Charset, b) {
      WriteSnoc(loc, t, [0x1b, 0x28], b);
      assert [0x1b, 0x28, b] == [0x1b, 0x28] + [b];
      RefusedIsText(loc, t, t.(state := Charset), b);
    }
  }

  /** In the parameters a question mark is skipped; an escape byte, or a NUL byte, opens
      another sequence, which takes the parameters over. */
  lemma InsideParameters(loc: Locale, u: Term)
    requires Inv(u) && u.state == Arguments
    ensures Write(loc, u, [0x3f]) == u
    ensures Write(loc, u, [0x1b]) == Write(loc, u, [0x00]) == u.(state := Escape)
  {
    hide Write, Shape;
    WriteOne(loc, u, 0x3f);
    WriteOne(loc, u, 0x1b);
    WriteOne(loc, u, 0x00);
  }

  /** Another escape byte, or a NUL byte, leaves the parser behind ESC. */
  lemma EscapeIsKept(loc: Locale, u: Term)
    requires Inv(u) && u.state == Escape
    ensures Write(loc, u, [0x1b]) == Write(loc, u, [0x00]) == u
  {
    hide Write, Shape;
    WriteOne(loc, u, 0x1b);
    WriteOne(loc, u, 0x00);
  }

  /** BEL only calls back, and a NUL byte does nothing. */
  lemma BellChangesNothing(loc: Locale, t: Term)
    requires Inv(t) && t.state == Ground
    ensures Write(loc, t, [0x07]) == t == Write(loc, t, [0x00])
  {
    hide Write;
    WriteOne(loc, t, 0x07);
    WriteOne(loc, t, 0x00);
    assert Complete(t, 0x07) == t == Complete(t, 0x00) by { assert NoPars()[0 := 0] == NoPars(); }
  }

  lemma DigitIsSkipped(loc: Locale, u: Term, b: Byte) returns (arg: Size)
    requires Inv(u) && u.state == Arguments && IsDigit(b)
    ensures Feed(loc, u, b) == u.(arg := arg)
  {
    hide NextArg, Shape;
    arg := NextArg(u.arg, b);
  }

  lemma {:induction false} DigitsAreSkipped(loc: Locale, t: Term, ds: seq<Byte>) returns (arg: Size)
    requires Inv(t) && t.state == Ground && forall i :: 0 <= i < |ds| ==> IsDigit(ds[i])
    ensures Inv(t.(state := Arguments, ignored := true))
    ensures Write(loc, t.(state := Arguments, ignored := true), ds)
         == t.(state := Arguments, ignored := true, arg := arg)
  {
    hide Feed, IsDigit;
    if ds == [] {
      arg := 0;
    } else {
      var n := |ds| - 1;
      var was := DigitsAreSkipped(loc, t, ds[..n]);
      arg := DigitIsSkipped(loc, t.(state := Arguments, ignored := true, arg := was), ds[n]);
    }
  }

  lemma IgnoredEnds(loc: Locale, t: Term, arg: Size, b: Byte)
    requires Inv(t) && t.state == Ground && EndsArguments(b)
    ensures Inv(t.(state := Arguments, ignored := true, arg := arg))
    ensures Feed(loc, t.(state := Arguments, ignored := true, arg := arg), b) == t
  {
    hide Act, NextArg, Text;
    var u := t.(state := Arguments, ignored := true, arg := arg);
    assert Feed(loc, u, b) == Complete(u, b);
  }

  /** ESC ) and ESC * and ESC + are not known. They swallow what follows up to the first
      byte that could end a control sequence, as the H of Hello after ESC ) 0. */
  lemma DesignationSwallows(loc: Locale, t: Term, x: Byte, ds: seq<Byte>, b: Byte)
    requires Inv(t) && t.state == Ground && x in {0x29, 0x2a, 0x2b} && EndsArguments(b)
    requires forall i :: 0 <= i < |ds| ==> IsDigit(ds[i])
    ensures Write(loc, t, [0x1b, x] + ds + [b]) == t
  {
    hide Write, IsDigit, EndsArguments;
    var u := t.(state := Arguments, ignored := true);
    EscapeOpens(loc, t);
    WriteSnoc(loc, t, [0x1b], x);
    assert [0x1b, x] == [0x1b] + [x];
    assert Feed(loc, t.(state := Escape), x) == u by { hide Shape; }
    WriteAppend(loc, t, [0x1b, x], ds);
    var arg := DigitsAreSkipped(loc, t, ds);
    WriteSnoc(loc, t, [0x1b, x] + ds, b);
    IgnoredEnds(loc, t, arg, b);
  }

  // ----- repetition -----

  lemma PutStaysPlain(t: Term, w: int)
    requires TerminalTape.Plain(t)
    ensures TerminalTape.Plain(Put(t, w))
  {
    TerminalTape.PutCells(t, w);
    hide Put;
  }

  lemma ScrollReady(t: Term, ps: seq<Size>)
    requires Shape(t)
    ensures ScrollUp(Ready(t, ps), 0, 1) == Ready(ScrollUp(t, 0, 1), ps)
  {
    assert |t.rows| >= 2;
    hide Shape, Touched, BlankRows, ScrollUp;
    ScrollUpIs(t, 0, 1, Min(1, |t.rows| - 1));
    ScrollUpIs(Ready(t, ps), 0, 1, Min(1, |t.rows| - 1));
  }

  lemma PutReady(t: Term, ps: seq<Size>, w: int)
    requires Shape(t)
    ensures Put(Ready(t, ps), w) == Ready(Put(t, w), ps)
  {
    hide ScrollUp;
    ScrollReady(At(SetRow(t, CursorRow(t)[t.curs.c := Cell(w, t.attrs)]), t.curs.r, 0), ps);
    hide Shape;
  }

  lemma {:induction false} PutManyReady(t: Term, ps: seq<Size>, w: int, n: nat)
    requires Shape(t)
    ensures PutMany(Ready(t, ps), w, n) == Ready(PutMany(t, w, n), ps)
    decreases n
  {
    hide Put, Ready, Shape;
    if n > 0 {
      PutReady(t, ps, w);
      PutManyReady(Put(t, w), ps, w, n - 1);
    }
  }

  lemma ReadyRests(t: Term, ps: seq<Size>)
    requires Inv(t) && t.state == Ground
    ensures ResetParser(FixCursor(Ready(t, ps))) == t
  {
  }

  lemma {:induction false} PutManyPrints(loc: Locale, t: Term, b: Byte, n: nat)
    requires TerminalTape.AsciiLocale(loc) && TerminalTape.Plain(t) && TerminalTape.IsPrintable(b)
    ensures TerminalTape.Plain(PutMany(t, b as int, n)) && PutMany(t, b as int, n) == Write(loc, t, seq(n, _ => b))
    decreases n
  {
    hide Put, Feed, TerminalTape.AsciiLocale;
    if n > 0 {
      TerminalTape.PrintableIsPut(loc, t, b);
      PutStaysPlain(t, b as int);
      PutManyPrints(loc, Put(t, b as int), b, n - 1);
      WriteOne(loc, t, b);
      WriteAppend(loc, t, [b], seq(n - 1, _ => b));
      assert seq(n, _ => b) == [b] + seq(n - 1, _ => b);
    }
  }

  lemma RepeatDelivers(loc: Locale, t: Term, n: Size)
    requires Inv(t) && t.state == Ground
    ensures Shape(Ready(t, [n])) && Write(loc, t, Csi([n], 0x62)) == ResetParser(FixCursor(Repeat(Ready(t, [n]))))
  {
    hide Write, Csi, Repeat, ResetParser, FixCursor;
    SequenceDelivers(loc, t, [n], 0x62);
  }

  /** REP: the character left of the cursor as many times as if it had been sent again. */
  lemma CharacterIsRepeated(loc: Locale, t: Term, n: Size, b: Byte)
    requires TerminalTape.AsciiLocale(loc) && TerminalTape.Plain(t) && TerminalTape.IsPrintable(b)
    requires t.curs.c > 0 ==> t.rows[t.curs.r].chars[t.curs.c - 1].c == b as int
    ensures Write(loc, t, Csi([n], 0x62)) == if t.curs.c == 0 then t else Write(loc, t, seq(Count(n), _ => b))
  {
    hide Write, Csi, Ready, PutMany;
    ReadyHas(t, [n]);
    RepeatDelivers(loc, t, n);
    if t.curs.c > 0 {
      PutManyReady(t, [n], b as int, Count(n));
      PutManyPrints(loc, t, b, Count(n));
      ReadyRests(PutMany(t, b as int, Count(n)), [n]);
    } else {
      ReadyRests(t, [n]);
    }
  }
}

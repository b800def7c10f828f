/** What every run of the terminal keeps: the screen invariant, and damage flags from
    which a viewer can tell every row that changed since it last looked. */
module TerminalRuns {
  import opened Common
  import opened TerminalModel

  lemma CallsKeepInv(t: Term, call: Call)
    requires Inv(t)
    ensures Inv(Clean(t))
    ensures call.SetSize? && call.h >= 2 && call.w >= 2 ==> Inv(Resize(t, call.h, call.w))
  {
    assert forall i :: 0 <= i < |t.rows| ==> Clean(t).rows[i] == t.rows[i].(dirty := false);
  }

  datatype Call = Bytes(s: seq<Byte>) | SetSize(h: Size, w: Size) | Cleaned | HardReset

  /** One call of the public interface. tmt_resize refuses sizes below 2 by 2. */
  function Step(loc: Locale, t: Term, call: Call): (t': Term)
    requires Inv(t)
    ensures Inv(t')
  {
    hide Write, Resize, Reset, Clean;
    CallsKeepInv(t, call);
    match call
    case Bytes(s) => Write(loc, t, s)
    case SetSize(h, w) => if h >= 2 && w >= 2 then Resize(t, h, w) else t
    case Cleaned => Clean(t)
    case HardReset => Reset(t)
  }

  function Run(loc: Locale, t: Term, calls: seq<Call>): (t': Term)
    requires Inv(t)
    ensures Inv(t')
  {
    hide Step;
    if calls == [] then t else Step(loc, Run(loc, t, calls[..|calls| - 1]), calls[|calls| - 1])
  }

  /** The invariant spelled out for every reachable terminal: the grid stays rectangular
      with at least two rows and columns, the cursor is on it, the parser's counters are
      in bounds, and the ground state holds nothing of an earlier sequence. */
  lemma ReachableIsSafe(loc: Locale, h: Size, w: Size, calls: seq<Call>)
    requires h >= 2 && w >= 2
    ensures var t := Run(loc, Opened(h, w), calls);
            && |t.rows| >= 2 && t.ncol >= 2 && t.curs.r < |t.rows| && t.curs.c < t.ncol
            && (forall i :: 0 <= i < |t.rows| ==> |t.rows[i].chars| == t.ncol)
            && t.npar <= 8 && |t.mb| <= 100
            && (t.state == Ground ==> t.pars == NoPars() && t.npar == 0 && t.arg == 0 && !t.ignored)
  {
    hide Run, Opened;
    assert Inv(Run(loc, Opened(h, w), calls));
  }

  // ----- damage -----

  /** A dirty row is announced by the screen's own flag. */
  ghost predicate Announced(t: Term) {
    forall i :: 0 <= i < |t.rows| && t.rows[i].dirty ==> t.dirty
  }

  /** From t to t' only rows that carry the dirty flag have changed, and the screen's own
      flag stays off only if it was off and no row came or went. */
  ghost predicate Marks(t: Term, t': Term) {
    && (t'.dirty || (!t.dirty && |t'.rows| == |t.rows|))
    && (forall i :: 0 <= i < |t'.rows| && !t'.rows[i].dirty ==> i < |t.rows| && t'.rows[i] == t.rows[i])
    && (Announced(t) ==> Announced(t'))
  }

  lemma MarksTransitive(t: Term, u: Term, v: Term)
    requires Marks(t, u) && Marks(u, v)
    ensures Marks(t, v)
  {
  }

  lemma SetRowMarks(t: Term, chars: seq<Cell>)
    requires Shape(t) && |chars| == t.ncol
    ensures Marks(t, SetRow(t, chars))
  {
  }

  lemma ClearRowsMarks(t: Term, from: nat, upto: nat)
    ensures Marks(t, ClearRows(t, from, upto))
  {
    var t' := ClearRows(t, from, upto);
    assert forall i :: 0 <= i < |t'.rows| ==> t'.rows[i] == if from <= i < upto then BlankRow(t.ncol) else t.rows[i];
  }

  lemma ScrollUpMarks(t: Term, r: nat, n: nat)
    requires Shape(t) && r < |t.rows|
    ensures Marks(t, ScrollUp(t, r, n))
  {
  }

  lemma ScrollDownMarks(t: Term, r: nat, n: nat)
    requires Shape(t) && r < |t.rows|
    ensures Marks(t, ScrollDown(t, r, n))
  {
  }

  lemma SameRowsMark(t: Term, t': Term)
    ensures t'.rows == t.rows && (t.dirty ==> t'.dirty) ==> Marks(t, t')
  {
  }

  lemma PutMarks(t: Term, w: int)
    requires Shape(t)
    ensures Marks(t, Put(t, w))
  {
    hide ScrollUp, Marks, CursorRow;
    var t1 := SetRow(t, CursorRow(t)[t.curs.c := Cell(w, t.attrs)]);
    SetRowMarks(t, CursorRow(t)[t.curs.c := Cell(w, t.attrs)]);
    SameRowsMark(t1, Put(t, w));
    var t2 := At(t1, t.curs.r, 0);
    SameRowsMark(t1, t2);
    ScrollUpMarks(t2, 0, 1);
    MarksTransitive(t1, t2, ScrollUp(t2, 0, 1));
    MarksTransitive(t, t1, Put(t, w));
  }

  lemma {:induction false} PutManyMarks(t: Term, w: int, n: nat)
    requires Shape(t)
    ensures Marks(t, PutMany(t, w, n))
    decreases n
  {
    hide Put, Marks;
    if n == 0 {
      SameRowsMark(t, t);
    } else {
      PutMarks(t, w);
      PutManyMarks(Put(t, w), w, n - 1);
      MarksTransitive(t, Put(t, w), PutMany(t, w, n));
    }
  }

  lemma ResetMarks(t: Term)
    requires Sized(t)
    ensures Marks(t, Reset(t))
  {
    hide Marks, ClearRows;
    var home := Point(0, 0);
    var t1 := ResetParser(t.(curs := home, oldcurs := home, acs := false,
                             attrs := DefAttrs(), oldattrs := DefAttrs(), ms := 0));
    SameRowsMark(t, t1);
    ClearRowsMarks(t1, 0, |t.rows|);
    MarksTransitive(t, t1, Reset(t));
  }

  lemma EraseMarks(t: Term)
    requires Shape(t)
    ensures Marks(t, EraseInDisplay(t)) && Marks(t, EraseInLine(t))
  {
    hide Marks, SetRow, ClearRows, ClearCells, CursorRow;
    SameRowsMark(t, t);
    SetRowMarks(t, ClearCells(CursorRow(t), t.curs.c, t.ncol));
    SetRowMarks(t, ClearCells(CursorRow(t), 0, t.curs.c));
    SetRowMarks(t, ClearCells(CursorRow(t), 0, Min(t.curs.c + 1, t.ncol - 1)));
    SetRowMarks(t, ClearCells(CursorRow(t), 0, t.ncol));
    ClearRowsMarks(t, 0, |t.rows|);
    var below := ClearAtCursor(t, t.curs.c, t.ncol);
    ClearRowsMarks(below, t.curs.r + 1, |t.rows|);
    MarksTransitive(t, below, ClearRows(below, t.curs.r + 1, |t.rows|));
    var above := ClearAtCursor(t, 0, t.curs.c);
    ClearRowsMarks(above, 0, Minus(t.curs.r, 1));
    MarksTransitive(t, above, ClearRows(above, 0, Minus(t.curs.r, 1)));
  }

  lemma EditMarks(t: Term, b: Byte)
    requires Shape(t)
    ensures Marks(t, EditAction(t, b))
  {
    hide Marks, SetRow, EraseInDisplay, EraseInLine, ScrollUp, ScrollDown, PutMany, SgrAll, ClearCells,
      InsertedCells, DeletedCells, CursorRow, Plus;
    SameRowsMark(t, EditAction(t, b));
    match b
    case 0x4a => EraseMarks(t);
    case 0x4b => EraseMarks(t);
    case 0x4c => ScrollDownMarks(t, t.curs.r, P1(t, 0));
    case 0x4d => ScrollUpMarks(t, t.curs.r, P1(t, 0));
    case 0x50 => SetRowMarks(t, DeletedCells(CursorRow(t), t.curs.c, Min(P1(t, 0), t.ncol - t.curs.c)));
    case 0x53 => ScrollUpMarks(t, 0, P1(t, 0));
    case 0x54 => ScrollDownMarks(t, 0, P1(t, 0));
    case 0x58 => SetRowMarks(t, ClearCells(CursorRow(t), t.curs.c, Plus(P1(t, 0), t.curs.c)));
    case 0x62 =>
      if t.curs.c > 0 {
        PutManyMarks(t, CursorRow(t)[t.curs.c - 1].c, P1(t, 0));
      }
    case 0x40 => SetRowMarks(t, InsertedCells(CursorRow(t), t.curs.c, Min(P1(t, 0), t.ncol - t.curs.c - 1)));
    case _ =>
  }

  lemma ActMarks(t: Term, b: Byte)
    requires Shape(t)
    ensures Marks(t, Act(t, b))
  {
    hide Marks, EditAction, Target, Reset, ScrollUp, NextTab;
    SameRowsMark(t, Act(t, b));
    match t.state
    case Ground => ScrollUpMarks(t, 0, 1);
    case Escape => ResetMarks(t);
    case Charset =>
    case Arguments => EditMarks(t, b);
  }

  lemma CompleteMarks(t: Term, b: Byte)
    requires Shape(t)
    ensures Marks(t, Complete(t, b))
  {
    hide Marks, Act;
    var t1 := ConsumeArg(t);
    SameRowsMark(t, t1);
    SameRowsMark(t1, t1);
    ActMarks(t1, b);
    var t2 := if t1.ignored then t1 else Act(t1, b);
    SameRowsMark(t2, Complete(t, b));
    MarksTransitive(t, t1, t2);
    MarksTransitive(t, t2, Complete(t, b));
  }

  lemma PutPendingMarks(loc: Locale, t: Term)
    requires Inv(t)
    ensures Marks(t, PutPending(loc, t))
  {
    hide Marks, Put;
    var d := loc.decode(t.ms, t.mb);
    var t1 := t.(ms := d.ms, mb := []);
    SameRowsMark(t, t1);
    PutMarks(t1, if d.Whole? then d.c else INVALID_CHAR);
    MarksTransitive(t, t1, PutPending(loc, t));
  }

  lemma TextMarks(loc: Locale, t: Term, b: Byte)
    requires Inv(t)
    ensures Marks(t, Text(loc, t, b))
  {
    hide Marks, Put, PutPending, Pending, Tacs, DecChar;
    PutMarks(t, Tacs(loc.acschars, b));
    PutMarks(t, DecChar(b));
    PutPendingMarks(loc, t);
    if !t.acs && !t.decdraw && |t.mb| < 100 {
      var d := Pending(loc, t);
      var t1 := if d.Bad? then PutPending(loc, t) else if d.Partial? then t.(mb := t.mb + [b]) else t;
      SameRowsMark(t, t1);
      PutPendingMarks(loc, t1);
      MarksTransitive(t, t1, PutPending(loc, t1));
    }
  }

  lemma HandleMarks(t: Term, b: Byte)
    requires Inv(t) && Takes(t.state, b)
    ensures Marks(t, Handle(t, b))
  {
    hide Marks, Complete, NextArg;
    CompleteMarks(t, b);
    SameRowsMark(t, Handle(t, b));
  }

  lemma RestartMarks(t: Term)
    requires Inv(t)
    ensures Inv(ResetParser(t)) && Marks(t, ResetParser(t))
  {
    hide Marks;
    SameRowsMark(t, ResetParser(t));
  }

  lemma FeedMarks(loc: Locale, t: Term, b: Byte)
    requires Inv(t)
    ensures Marks(t, Feed(loc, t, b))
  {
    hide Marks, Handle, Text, Inv, Takes;
    if Takes(t.state, b) {
      HandleMarks(t, b);
    } else {
      RestartMarks(t);
      TextMarks(loc, ResetParser(t), b);
      MarksTransitive(t, ResetParser(t), Text(loc, ResetParser(t), b));
    }
  }

  lemma {:induction false} WriteMarks(loc: Locale, t: Term, s: seq<Byte>)
    requires Inv(t)
    ensures Marks(t, Write(loc, t, s))
  {
    hide Marks, Feed, Inv;
    if s == [] {
      SameRowsMark(t, t);
    } else {
      var u := Write(loc, t, s[..|s| - 1]);
      WriteMarks(loc, t, s[..|s| - 1]);
      FeedMarks(loc, u, s[|s| - 1]);
      MarksTransitive(t, u, Write(loc, t, s));
    }
  }

  function Cells(t: Term): seq<seq<Cell>> {
    seq(|t.rows|, i requires 0 <= i < |t.rows| => t.rows[i].chars)
  }

  /** The cells a viewer saw at the last tmt_clean of the run. */
  function LastSeen(loc: Locale, t: Term, calls: seq<Call>): seq<seq<Cell>>
    requires Inv(t)
  {
    if calls == [] then []
    else if calls[|calls| - 1].Cleaned? then Cells(Run(loc, t, calls[..|calls| - 1]))
    else LastSeen(loc, t, calls[..|calls| - 1])
  }

  ghost predicate Covered(seen: seq<seq<Cell>>, t: Term) {
    && (forall i :: 0 <= i < |t.rows| && !t.rows[i].dirty ==> i < |seen| && t.rows[i].chars == seen[i])
    && Announced(t)
    && (t.dirty || |seen| == |t.rows|)
  }

  lemma CoveredByMarks(seen: seq<seq<Cell>>, t: Term, t': Term)
    requires Covered(seen, t) && Marks(t, t')
    ensures Covered(seen, t')
  {
  }

  lemma ResizeMarks(t: Term, h: Size, w: Size)
    requires h >= 2 && w >= 2 && Laid(t)
    ensures Marks(t, Resize(t, h, w))
  {
    var t' := Resize(t, h, w);
    assert forall i :: 0 <= i < h ==>
        t'.rows[i] == Row(true, FitCells(if i < |t.rows| then t.rows[i].chars else [], w));
  }

  /** tmt_clean takes every mark off and does nothing else. */
  lemma CleanClears(t: Term)
    requires Inv(t)
    ensures var u := Clean(t);
      && u == t.(rows := u.rows, dirty := false) && Cells(u) == Cells(t)
      && forall i :: 0 <= i < |u.rows| ==> !u.rows[i].dirty
  {
    assert forall i :: 0 <= i < |t.rows| ==> Clean(t).rows[i] == t.rows[i].(dirty := false);
  }

  lemma CleanCovers(t: Term)
    requires Inv(t)
    ensures Covered(Cells(t), Clean(t))
  {
    var t' := Clean(t);
    assert forall i :: 0 <= i < |t.rows| ==> t'.rows[i] == t.rows[i].(dirty := false) && Cells(t)[i] == t.rows[i].chars;
  }

  lemma InvIsLaid(t: Term)
    requires Inv(t)
    ensures Laid(t) && Sized(t)
  {
  }

  lemma OpenedIsDirty(h: Size, w: Size)
    requires h >= 2 && w >= 2
    ensures Covered([], Opened(h, w))
  {
    var t' := Opened(h, w);
    assert forall i :: 0 <= i < h ==> t'.rows[i] == Row(true, FitCells([], w));
  }

  /** Over every run, scrolls and resizes included: a row without the dirty flag shows
      what the same position showed at the last tmt_clean, and no row is dirty unless
      the screen is. */
  lemma {:induction false} DamageIsSound(loc: Locale, h: Size, w: Size, calls: seq<Call>)
    requires h >= 2 && w >= 2
    ensures Covered(LastSeen(loc, Opened(h, w), calls), Run(loc, Opened(h, w), calls))
  {
    hide Opened, Resize, Reset, Clean, Write, Marks, Covered, Cells, Inv;
    var t0 := Opened(h, w);
    if calls == [] {
      OpenedIsDirty(h, w);
    } else {
      var front, last := calls[..|calls| - 1], calls[|calls| - 1];
      var t := Run(loc, t0, front);
      DamageIsSound(loc, h, w, front);
      match last
      case Bytes(s) =>
        WriteMarks(loc, t, s);
        CoveredByMarks(LastSeen(loc, t0, front), t, Write(loc, t, s));
      case SetSize(h', w') =>
        if h' >= 2 && w' >= 2 {
          assert Laid(t) by { InvIsLaid(t); }
          ResizeMarks(t, h', w');
          CoveredByMarks(LastSeen(loc, t0, front), t, Resize(t, h', w'));
        }
      case Cleaned => CleanCovers(t);
      case HardReset =>
        assert Sized(t) by { InvIsLaid(t); }
        ResetMarks(t);
        CoveredByMarks(LastSeen(loc, t0, front), t, Reset(t));
    }
  }

  /** What a viewer relies on: with vt->dirty off, the screen is as it was at the last clean. */
  lemma QuietScreenUnchanged(loc: Locale, h: Size, w: Size, calls: seq<Call>)
    requires h >= 2 && w >= 2
    requires !Run(loc, Opened(h, w), calls).dirty
    ensures var seen := LastSeen(loc, Opened(h, w), calls);
            var now := Cells(Run(loc, Opened(h, w), calls));
            now == seen
  {
    hide Opened, LastSeen, Run;
    DamageIsSound(loc, h, w, calls);
    var t := Run(loc, Opened(h, w), calls);
    var seen := LastSeen(loc, Opened(h, w), calls);
    forall i | 0 <= i < |t.rows|
      ensures i < |seen| && Cells(t)[i] == seen[i]
    {
      assert !t.rows[i].dirty;
    }
  }

  // ----- resizing and scrolling -----

  /** tmt_resize keeps the common top-left rectangle, blanks the rest, and leaves the cursor on screen. */
  lemma ResizeKeepsTopLeft(t: Term, h: Size, w: Size, i: nat, j: nat)
    requires Inv(t) && h >= 2 && w >= 2 && i < h && j < w
    ensures var t' := Resize(t, h, w);
            && Inv(t') && |t'.rows| == h && t'.ncol == w
            && t'.rows[i].chars[j] == (if i < |t.rows| && j < t.ncol then t.rows[i].chars[j] else BlankCell())
            && t'.curs == Point(Min(t.curs.r, h - 1), Min(t.curs.c, w - 1))
  {
    CallsKeepInv(t, SetSize(h, w));
    var t' := Resize(t, h, w);
    assert t'.rows[i] == Row(true, FitCells(if i < |t.rows| then t.rows[i].chars else [], w));
  }

  lemma TouchedTwice(rows: seq<Row>)
    ensures Touched(Touched(rows)) == Touched(rows)
  {
  }

  lemma MovedBack(rows: seq<Row>, r: nat, k: nat, ncol: nat)
    requires r + k < |rows|
    ensures var up := rows[..r] + Touched(rows[r + k..]) + BlankRows(k, ncol);
      |up| == |rows| && up[..r] == rows[..r] && Touched(up[r..|up| - k]) == Touched(rows[r + k..])
  {
    hide BlankRows, Touched;
    TouchedTwice(rows[r + k..]);
    var up := rows[..r] + Touched(rows[r + k..]) + BlankRows(k, ncol);
    assert up[r..|up| - k] == Touched(rows[r + k..]);
  }

  /** Inserting lines where lines were deleted leaves just those lines blank: scrdn moves
      back every row that scrup moved. */
  lemma ScrollBack(t: Term, r: nat, n: nat)
    requires Shape(t) && r < |t.rows|
    ensures var k := Min(n, |t.rows| - 1 - r);
            ScrollDown(ScrollUp(t, r, n), r, n)
            == if k == 0 then t
               else t.(rows := t.rows[..r] + BlankRows(k, t.ncol) + Touched(t.rows[r + k..]), dirty := true)
  {
    hide BlankRows, Touched, ScrollUp, ScrollDown, Shape;
    var k := Min(n, |t.rows| - 1 - r);
    ScrollUpIs(t, r, n, k);
    if k > 0 {
      MovedBack(t.rows, r, k, t.ncol);
    }
    ScrollDownIs(ScrollUp(t, r, n), r, n, k);
  }
}

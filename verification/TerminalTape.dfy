/** Plain text on the terminal: the screen is a window on the end of an unbounded tape
    of rows. The tape never scrolls and never loses a row; lines 128-145, 275-279 and
    420-446 of tmt.c keep the window in step with it. */
module TerminalTape {
  import opened Common
  import opened TerminalModel
  import opened TerminalRuns

  datatype Tape = Tape(rows: seq<seq<Cell>>, r: nat, c: nat)

  predicate IsPrintable(b: Byte) { 0x20 <= b <= 0x7e }
  predicate IsPlain(b: Byte) { IsPrintable(b) || b in {0x08, 0x09, 0x0a, 0x0d} }
  predicate PlainText(s: seq<Byte>) { forall b :: b in s ==> IsPlain(b) }

  /** The locale decodes the printable ASCII bytes one at a time, from its initial state. */
  ghost predicate AsciiLocale(loc: Locale) {
    forall b: Byte :: IsPrintable(b) ==> loc.decode(0, [b]) == Whole(b as int, 0)
  }

  ghost predicate Wide(tape: Tape, w: nat) {
    tape.r < |tape.rows| && tape.c < w && forall i :: 0 <= i < |tape.rows| ==> |tape.rows[i]| == w
  }

  function NextRow(tape: Tape, w: nat): Tape {
    tape.(r := tape.r + 1, rows := if tape.r + 1 < |tape.rows| then tape.rows else tape.rows + [Blanks(w)])
  }

  /** One byte of plain text on a tape as wide as its row of tab stops. */
  function TapeByte(tape: Tape, stops: seq<Cell>, a: Attrs, b: Byte): (t': Tape)
    requires |stops| >= 2 && Wide(tape, |stops|) && IsPlain(b)
    ensures Wide(t', |stops|)
  {
    var w := |stops|;
    match b
    case 0x08 => if tape.c > 0 then tape.(c := tape.c - 1) else tape
    case 0x09 => tape.(c := Min(NextTab(stops, tape.c), w - 1))
    case 0x0a => NextRow(tape, w)
    case 0x0d => tape.(c := 0)
    case _ =>
      var t1 := tape.(rows := tape.rows[tape.r := tape.rows[tape.r][tape.c := Cell(b as int, a)]]);
      if tape.c < w - 1 then t1.(c := tape.c + 1) else NextRow(t1.(c := 0), w)
  }

  function TapeText(tape: Tape, stops: seq<Cell>, a: Attrs, s: seq<Byte>): (t': Tape)
    requires |stops| >= 2 && Wide(tape, |stops|) && PlainText(s)
    ensures Wide(t', |stops|)
  {
    hide TapeByte;
    if s == [] then tape
    else TapeByte(TapeText(tape, stops, a, s[..|s| - 1]), stops, a, s[|s| - 1])
  }

  /** The screen is the last rows of the tape, and the cursor is where the tape's is. */
  ghost predicate Shows(t: Term, tape: Tape) {
    var top := |tape.rows| - |t.rows|;
    && 0 <= top <= tape.r
    && t.curs.r == tape.r - top && t.curs.c == tape.c
    && Cells(t) == tape.rows[top..]
  }

  /** Ready for plain text: the parser at rest, no alternate character set, and no bytes
      waiting to be decoded. */
  ghost predicate Plain(t: Term) {
    Inv(t) && t.state == Ground && !t.acs && !t.decdraw && t.mb == [] && t.ms == 0
  }

  /** With the stops that tmt_resize sets, a tab goes to the next multiple of 8. */
  lemma {:induction false} NextDefaultTab(w: nat, c: nat)
    requires w >= 2 && c < w
    ensures Min(NextTab(DefaultTabs(w), c), w - 1) == Min((c / 8 + 1) * 8, w - 1)
    decreases w - c
  {
    var tabs := DefaultTabs(w);
    if c + 1 < w - 1 && tabs[c + 1].c != STAR {
      assert (c + 1) % 8 != 0;
      assert (c + 1) / 8 == c / 8;
      NextDefaultTab(w, c + 1);
    }
  }

  /** A printable byte goes straight through the decoder to the cell under the cursor. */
  lemma PrintableIsPut(loc: Locale, t: Term, b: Byte)
    requires AsciiLocale(loc) && Plain(t) && IsPrintable(b)
    ensures Feed(loc, t, b) == Put(t, b as int)
  {
    hide Put, Shape;
    assert ResetParser(t) == t;
    var t1 := t.(mb := [b]);
    assert t.mb + [b] == [b];
    assert Pending(loc, t1) == Whole(b as int, 0);
    assert t1.(ms := 0, mb := []) == t;
  }

  lemma SetRowCells(t: Term, chars: seq<Cell>)
    requires Shape(t) && |chars| == t.ncol
    ensures Cells(SetRow(t, chars)) == Cells(t)[t.curs.r := chars]
    ensures Cells(t)[t.curs.r] == CursorRow(t)
  {
  }

  lemma SameCells(t: Term, u: Term)
    ensures t.rows == u.rows ==> Cells(t) == Cells(u)
  {
  }

  lemma ScrollOneCells(t: Term)
    requires Shape(t)
    ensures Cells(ScrollUp(t, 0, 1)) == Cells(t)[1..] + [Blanks(t.ncol)]
    ensures ScrollUp(t, 0, 1) == t.(rows := ScrollUp(t, 0, 1).rows, dirty := true)
    ensures |ScrollUp(t, 0, 1).rows| == |t.rows|
  {
    var u := ScrollUp(t, 0, 1);
    assert u.rows == Touched(t.rows[1..]) + BlankRows(1, t.ncol);
    forall i | 0 <= i < |t.rows|
      ensures Cells(u)[i] == (Cells(t)[1..] + [Blanks(t.ncol)])[i]
    {
      if i < |t.rows| - 1 {
        assert u.rows[i] == Touched(t.rows[1..])[i];
      }
    }
  }

  /** What Put does to the cells, with the scroll spelled out. */
  lemma PutCells(t: Term, w: int)
    requires Shape(t)
    ensures var cells := Cells(t)[t.curs.r := Cells(t)[t.curs.r][t.curs.c := Cell(w, t.attrs)]];
            var wraps := t.curs.c == t.ncol - 1;
            Cells(Put(t, w)) == if wraps && t.curs.r == |t.rows| - 1 then cells[1..] + [Blanks(t.ncol)] else cells
    ensures Put(t, w).curs == if t.curs.c < t.ncol - 1 then Point(t.curs.r, t.curs.c + 1)
                              else Point(Min(t.curs.r + 1, |t.rows| - 1), 0)
    ensures Put(t, w) == t.(rows := Put(t, w).rows, curs := Put(t, w).curs, dirty := true)
  {
    hide ScrollUp;
    var row := CursorRow(t)[t.curs.c := Cell(w, t.attrs)];
    SetRowCells(t, row);
    var t2 := At(SetRow(t, row), t.curs.r, 0);
    SameCells(SetRow(t, row), t2);
    SameCells(SetRow(t, row), Put(t, w));
    ScrollOneCells(t2);
  }

  /** Line feed moves down, or scrolls by one row at the bottom. */
  lemma LineFeedCells(loc: Locale, t: Term)
    requires Plain(t)
    ensures var u := Feed(loc, t, 0x0a);
            && Plain(u) && u.tabs == t.tabs && u.attrs == t.attrs && |u.rows| == |t.rows| && u.ncol == t.ncol
            && u.curs == Point(Min(t.curs.r + 1, |t.rows| - 1), t.curs.c)
            && Cells(u) == if t.curs.r < |t.rows| - 1 then Cells(t) else Cells(t)[1..] + [Blanks(t.ncol)]
  {
    hide ScrollUp;
    var t1 := ConsumeArg(t);
    SameCells(t, t1);
    ScrollOneCells(t1);
    var u := Feed(loc, t, 0x0a);
    assert u == ResetParser(FixCursor(GroundAction(t1, 0x0a)));
    SameCells(GroundAction(t1, 0x0a), u);
  }

  /** BS, HT and CR only move the cursor within its row. */
  lemma SidewaysCells(loc: Locale, t: Term, b: Byte)
    requires Plain(t) && b in {0x08, 0x09, 0x0d}
    ensures var u := Feed(loc, t, b);
            && Plain(u) && u.tabs == t.tabs && u.attrs == t.attrs && u.rows == t.rows && u.ncol == t.ncol
            && u.curs == Point(t.curs.r, if b == 0x08 then (if t.curs.c > 0 then t.curs.c - 1 else 0)
                                         else if b == 0x0d then 0
                                         else Min(NextTab(t.tabs.chars, t.curs.c), t.ncol - 1))
  {
    hide NextTab, ScrollUp;
    var t1 := ConsumeArg(t);
    assert Feed(loc, t, b) == ResetParser(FixCursor(GroundAction(t1, b)));
  }

  lemma WindowMoves(rows: seq<seq<Cell>>, top: nat, r: nat, row: seq<Cell>, blanks: seq<Cell>)
    requires top <= r < |rows|
    ensures rows[r := row][top..] == rows[top..][r - top := row]
    ensures (rows[r := row] + [blanks])[top + 1..] == rows[top..][r - top := row][1..] + [blanks]
  {
    var rows' := rows[r := row];
    assert rows'[top..] == rows[top..][r - top := row];
    assert (rows' + [blanks])[top + 1..] == rows'[top..][1..] + [blanks];
  }

  /** A printed character on the tape, as its last h rows show it. */
  lemma PrintedOnTape(tape: Tape, stops: seq<Cell>, a: Attrs, b: Byte, h: nat)
    requires |stops| >= 2 && Wide(tape, |stops|) && IsPrintable(b) && |tape.rows| - h <= tape.r && h <= |tape.rows|
    ensures var top, w := |tape.rows| - h, |stops|;
            var cells := tape.rows[top..];
            var put := cells[tape.r - top := cells[tape.r - top][tape.c := Cell(b as int, a)]];
            var tape', scrolls := TapeByte(tape, stops, a, b), tape.c == w - 1 && tape.r == |tape.rows| - 1;
            && |tape'.rows| == (if scrolls then |tape.rows| + 1 else |tape.rows|)
            && tape'.rows[|tape'.rows| - h..] == (if scrolls then put[1..] + [Blanks(w)] else put)
            && tape'.r == (if tape.c == w - 1 then tape.r + 1 else tape.r)
            && tape'.c == (if tape.c == w - 1 then 0 else tape.c + 1)
  {
    WindowMoves(tape.rows, |tape.rows| - h, tape.r, tape.rows[tape.r][tape.c := Cell(b as int, a)], Blanks(|stops|));
  }

  lemma PrintedKeepsShowing(loc: Locale, t: Term, tape: Tape, b: Byte)
    requires AsciiLocale(loc) && Plain(t) && IsPrintable(b)
    requires Wide(tape, t.ncol) && Shows(t, tape)
    ensures var u := Feed(loc, t, b);
            && Plain(u) && u.tabs == t.tabs && u.attrs == t.attrs && |u.rows| == |t.rows| && u.ncol == t.ncol
            && Shows(u, TapeByte(tape, t.tabs.chars, t.attrs, b))
  {
    hide Feed, Put, NextTab, TapeByte;
    PrintableIsPut(loc, t, b);
    PutCells(t, b as int);
    PrintedOnTape(tape, t.tabs.chars, t.attrs, b, |t.rows|);
  }

  lemma ByteKeepsShowing(loc: Locale, t: Term, tape: Tape, b: Byte)
    requires AsciiLocale(loc) && Plain(t) && IsPlain(b)
    requires Wide(tape, t.ncol) && Shows(t, tape)
    ensures var u := Feed(loc, t, b);
            && Plain(u) && u.tabs == t.tabs && u.attrs == t.attrs && |u.rows| == |t.rows| && u.ncol == t.ncol
            && Shows(u, TapeByte(tape, t.tabs.chars, t.attrs, b))
  {
    hide Feed, Put, NextTab;
    var top := |tape.rows| - |t.rows|;
    if IsPrintable(b) {
      PrintedKeepsShowing(loc, t, tape, b);
    } else if b == 0x0a {
      LineFeedCells(loc, t);
      assert (tape.rows + [Blanks(t.ncol)])[top + 1..] == tape.rows[top..][1..] + [Blanks(t.ncol)];
    } else {
      SidewaysCells(loc, t, b);
      SameCells(t, Feed(loc, t, b));
    }
  }

  /** The main result: whatever plain text is written, the screen stays the window on the
      end of the tape, and the cursor stays the tape's. */
  lemma {:induction false} ScreenShowsTape(loc: Locale, t: Term, tape: Tape, s: seq<Byte>)
    requires AsciiLocale(loc) && Plain(t) && PlainText(s)
    requires Wide(tape, t.ncol) && Shows(t, tape)
    ensures var u := Write(loc, t, s);
            && Plain(u) && u.tabs == t.tabs && u.attrs == t.attrs && |u.rows| == |t.rows| && u.ncol == t.ncol
            && Shows(u, TapeText(tape, t.tabs.chars, t.attrs, s))
  {
    hide Feed, TapeByte, Shows, Wide, AsciiLocale;
    if s != [] {
      var front := s[..|s| - 1];
      ScreenShowsTape(loc, t, tape, front);
      ByteKeepsShowing(loc, Write(loc, t, front), TapeText(tape, t.tabs.chars, t.attrs, front), s[|s| - 1]);
    }
  }

  function BlankTape(h: nat, w: nat): Tape {
    Tape(seq(h, _ => Blanks(w)), 0, 0)
  }

  /** From a newly opened terminal, the screen is the last h rows of the text's tape. */
  lemma OpenedShowsLastRows(loc: Locale, h: Size, w: Size, s: seq<Byte>)
    requires AsciiLocale(loc) && h >= 2 && w >= 2 && PlainText(s)
    ensures var u := Write(loc, Opened(h, w), s);
            var tape := TapeText(BlankTape(h, w), DefaultTabs(w), DefAttrs(), s);
            && Inv(u) && |u.rows| == h && u.ncol == w
            && |tape.rows| >= h && Cells(u) == tape.rows[|tape.rows| - h..]
            && u.curs.r == tape.r - (|tape.rows| - h) && u.curs.c == tape.c
  {
    hide Write, TapeText;
    var t := Opened(h, w);
    forall i | 0 <= i < h
      ensures Cells(t)[i] == BlankTape(h, w).rows[i]
    {
      assert t.rows[i] == Row(true, FitCells([], w));
      assert FitCells([], w) == Blanks(w);
    }
    ScreenShowsTape(loc, t, BlankTape(h, w), s);
  }

  /** From a reset terminal too, whatever its tab stops have become; tmt_reset turns neither
      line drawing off nor drops bytes that wait to be decoded. */
  lemma ResetShowsLastRows(loc: Locale, t: Term, s: seq<Byte>)
    requires AsciiLocale(loc) && Inv(t) && !t.decdraw && t.mb == [] && PlainText(s)
    ensures var u := Write(loc, Reset(t), s);
            var h, tape := |t.rows|, TapeText(BlankTape(|t.rows|, t.ncol), t.tabs.chars, DefAttrs(), s);
            && |tape.rows| >= h && Cells(u) == tape.rows[|tape.rows| - h..]
            && u.curs.r == tape.r - (|tape.rows| - h) && u.curs.c == tape.c
  {
    hide Write, TapeText;
    var t0 := Reset(t);
    forall i | 0 <= i < |t.rows|
      ensures Cells(t0)[i] == BlankTape(|t.rows|, t.ncol).rows[i]
    {
      assert t0.rows[i] == BlankRow(t.ncol);
    }
    ScreenShowsTape(loc, t0, BlankTape(|t.rows|, t.ncol), s);
  }

  /** Rows above the cursor are history: no plain text changes them. */
  lemma {:induction false} HistoryIsKept(tape: Tape, stops: seq<Cell>, a: Attrs, s: seq<Byte>)
    requires |stops| >= 2 && Wide(tape, |stops|) && PlainText(s)
    ensures var u := TapeText(tape, stops, a, s);
            tape.r <= u.r && tape.rows[..tape.r] == u.rows[..tape.r]
  {
    if s != [] {
      HistoryIsKept(tape, stops, a, s[..|s| - 1]);
    }
  }

  // ----- the tape holds the text -----

  function CellsOf(s: seq<Byte>, a: Attrs): seq<Cell> {
    seq(|s|, i requires 0 <= i < |s| => Cell(s[i] as int, a))
  }

  /** Everything on the tape before the cursor, row after row. */
  function BeforeCursor(tape: Tape): seq<Cell>
    requires tape.r < |tape.rows| && tape.c <= |tape.rows[tape.r]|
  {
    Concat(tape.rows[..tape.r]) + tape.rows[tape.r][..tape.c]
  }

  lemma PrintOneAppends(tape: Tape, stops: seq<Cell>, a: Attrs, b: Byte)
    requires |stops| >= 2 && Wide(tape, |stops|) && IsPrintable(b)
    ensures BeforeCursor(TapeByte(tape, stops, a, b)) == BeforeCursor(tape) + [Cell(b as int, a)]
  {
    var row := tape.rows[tape.r][tape.c := Cell(b as int, a)];
    var rows := tape.rows[tape.r := row];
    assert row[..tape.c + 1] == tape.rows[tape.r][..tape.c] + [Cell(b as int, a)];
    assert rows[..tape.r] == tape.rows[..tape.r];
    if tape.c == |stops| - 1 {
      var u := TapeByte(tape, stops, a, b);
      assert u.rows[..u.r] == rows[..tape.r] + [row];
      assert (rows[..tape.r] + [row])[..tape.r] == rows[..tape.r];
      assert row == row[..tape.c + 1];
    }
  }

  /** Printable text appends to what lies before the cursor, across any number of row
      ends: nothing is lost, reordered or overwritten on the way down the tape. */
  lemma {:induction false} PrintingAppends(tape: Tape, stops: seq<Cell>, a: Attrs, s: seq<Byte>)
    requires |stops| >= 2 && Wide(tape, |stops|)
    requires forall b :: b in s ==> IsPrintable(b)
    ensures BeforeCursor(TapeText(tape, stops, a, s)) == BeforeCursor(tape) + CellsOf(s, a)
  {
    hide Wide, TapeByte;
    if s == [] {
      assert CellsOf(s, a) == [];
    } else {
      var front, b := s[..|s| - 1], s[|s| - 1];
      PrintingAppends(tape, stops, a, front);
      PrintOneAppends(TapeText(tape, stops, a, front), stops, a, b);
      assert CellsOf(s, a) == CellsOf(front, a) + [Cell(b as int, a)];
    }
  }
}

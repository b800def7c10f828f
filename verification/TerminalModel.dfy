/** The terminal of tmt.c as a value: a grid of rows, a cursor, the escape-sequence
    parser, and what each byte does to them. Rows are plain sequences here; the array
    of row pointers that the program rotates is in module Terminal. */
module TerminalModel {
  import opened Common

  type Size = x: int | 0 <= x < 0x1_0000_0000_0000_0000   // size_t

  datatype Color = Default | Black | Red | Green | Yellow | Blue | Magenta | Cyan | White

  datatype Attrs = Attrs(bold: bool, dim: bool, underline: bool, blink: bool, reverse: bool, invisible: bool,
                         fg: Color, bg: Color)

  datatype Cell = Cell(c: int, a: Attrs)
  datatype Row = Row(dirty: bool, chars: seq<Cell>)
  datatype Point = Point(r: Size, c: Size)
  datatype Mode = Ground | Escape | Arguments | Charset   // S_NUL, S_ESC, S_ARG, S_SCS

  /** What mbrtowc reports about the pending bytes, with the conversion state it leaves. */
  datatype Decoded = Bad(ms: int) | Partial(ms: int) | Whole(c: int, ms: int)

  type AcsTable = s: seq<int> | |s| == 31 witness seq(31, _ => 0)

  /** The parts of the environment a terminal is opened with: the alternate character
      set, and the locale's multibyte decoder. */
  datatype Locale = Locale(acschars: AcsTable, decode: (int, seq<Byte>) -> Decoded)

  datatype Term = Term(
    curs: Point, oldcurs: Point, attrs: Attrs, oldattrs: Attrs,
    dirty: bool, acs: bool, decdraw: bool, ignored: bool,
    ncol: Size, rows: seq<Row>, tabs: Row,
    ms: int, mb: seq<Byte>,
    pars: seq<Size>, npar: nat, arg: Size, state: Mode)

  const INVALID_CHAR := 0xfffd
  const STAR := 0x2a
  const SPACE := 0x20

  function DefAttrs(): Attrs {
    Attrs(false, false, false, false, false, false, Default, Default)
  }

  function BlankCell(): Cell { Cell(SPACE, DefAttrs()) }

  function Blanks(n: nat): (s: seq<Cell>)
    ensures |s| == n
  {
    seq(n, _ => BlankCell())
  }

  /** Every row and the tab stops are ncol wide, and the parser's buffers are in bounds. */
  ghost predicate Laid(t: Term) {
    && (forall i :: 0 <= i < |t.rows| ==> |t.rows[i].chars| == t.ncol)
    && |t.tabs.chars| == t.ncol
    && |t.pars| == 8 && t.npar <= 8 && |t.mb| <= 100
  }

  ghost predicate Sized(t: Term) {
    2 <= |t.rows| < 0x1_0000_0000_0000_0000 && 2 <= t.ncol && Laid(t)
  }

  ghost predicate OnScreen(t: Term) {
    t.curs.r < |t.rows| && t.curs.c < t.ncol
  }

  ghost predicate Shape(t: Term) {
    Sized(t) && OnScreen(t)
  }

  function NoPars(): seq<Size> { [0, 0, 0, 0, 0, 0, 0, 0] }

  /** No parameter, argument or ignore mark is left over from an earlier sequence. */
  ghost predicate Cleared(t: Term) {
    t.pars == NoPars() && t.npar == 0 && t.arg == 0 && !t.ignored
  }

  /** What holds of the terminal between any two bytes. */
  ghost predicate Inv(t: Term) {
    Shape(t) && (t.state == Ground ==> Cleared(t))
  }

  // ----- size_t arithmetic -----

  function Plus(x: Size, y: Size): Size {
    if x + y < 0x1_0000_0000_0000_0000 then x + y else x + y - 0x1_0000_0000_0000_0000
  }

  function Minus(x: Size, y: Size): Size {
    if y <= x then x - y else x - y + 0x1_0000_0000_0000_0000
  }

  function Min(x: int, y: int): int { if x < y then x else y }

  // ----- rows -----

  /** Columns s up to e blanked, as far as the row reaches. */
  function ClearCells(chars: seq<Cell>, s: nat, e: nat): (r: seq<Cell>)
    ensures |r| == |chars|
  {
    seq(|chars|, i requires 0 <= i < |chars| => if s <= i < e then BlankCell() else chars[i])
  }

  function BlankRow(ncol: nat): Row { Row(true, Blanks(ncol)) }

  /** Rows from up to upto blanked, as far as the screen reaches. */
  function ClearedRows(rows: seq<Row>, from: nat, upto: nat, ncol: nat): (s: seq<Row>)
    ensures |s| == |rows|
  {
    seq(|rows|, i requires 0 <= i < |rows| => if from <= i < upto then BlankRow(ncol) else rows[i])
  }

  function ClearRows(t: Term, from: nat, upto: nat): (t': Term)
    ensures Shape(t) ==> Shape(t')
    ensures Sized(t) ==> Sized(t')
  {
    var rows := ClearedRows(t.rows, from, upto, t.ncol);
    assert forall i :: 0 <= i < |rows| ==> rows[i] == if from <= i < upto then BlankRow(t.ncol) else t.rows[i];
    t.(rows := rows, dirty := t.dirty || from < Min(upto, |t.rows|))
  }

  /** The row under the cursor replaced, and marked as changed. */
  function SetRow(t: Term, chars: seq<Cell>): (t': Term)
    requires Shape(t) && |chars| == t.ncol
    ensures Shape(t')
  {
    t.(rows := t.rows[t.curs.r := Row(true, chars)], dirty := true)
  }

  function CursorRow(t: Term): (chars: seq<Cell>)
    requires Shape(t)
    ensures |chars| == t.ncol
  {
    t.rows[t.curs.r].chars
  }

  /** The cursor's row blanked from column s up to column e. */
  function ClearAtCursor(t: Term, s: nat, e: nat): (t': Term)
    requires Shape(t)
    ensures Shape(t')
  {
    SetRow(t, ClearCells(CursorRow(t), s, e))
  }

  function Touched(rows: seq<Row>): (s: seq<Row>)
    ensures |s| == |rows|
  {
    seq(|rows|, i requires 0 <= i < |rows| => rows[i].(dirty := true))
  }

  function BlankRows(n: nat, ncol: nat): (s: seq<Row>)
    ensures |s| == n
  {
    seq(n, _ => BlankRow(ncol))
  }

  /** Rows r to r+n-1 deleted, blank rows added at the bottom. */
  function ScrollUp(t: Term, r: nat, n: nat): (t': Term)
    requires Shape(t) && r < |t.rows|
    ensures Shape(t')
  {
    var k := Min(n, |t.rows| - 1 - r);
    if k == 0 then t
    else t.(rows := t.rows[..r] + Touched(t.rows[r + k..]) + BlankRows(k, t.ncol), dirty := true)
  }

  /** Blank rows inserted at r, the bottom rows pushed off. */
  function ScrollDown(t: Term, r: nat, n: nat): (t': Term)
    requires Shape(t) && r < |t.rows|
    ensures Shape(t')
  {
    var k := Min(n, |t.rows| - 1 - r);
    if k == 0 then t
    else t.(rows := t.rows[..r] + BlankRows(k, t.ncol) + Touched(t.rows[r..|t.rows| - k]), dirty := true)
  }

  lemma ScrollUpIs(t: Term, r: nat, count: nat, n: nat)
    requires Shape(t) && r < |t.rows| && n == Min(count, |t.rows| - 1 - r)
    ensures ScrollUp(t, r, count) ==
            if n == 0 then t
            else t.(rows := t.rows[..r] + Touched(t.rows[r + n..]) + BlankRows(n, t.ncol), dirty := true)
  {
    hide Shape, Touched, BlankRows;
  }

  lemma ScrollDownIs(t: Term, r: nat, count: nat, n: nat)
    requires Shape(t) && r < |t.rows| && n == Min(count, |t.rows| - 1 - r)
    ensures ScrollDown(t, r, count) ==
            if n == 0 then t
            else t.(rows := t.rows[..r] + BlankRows(n, t.ncol) + Touched(t.rows[r..|t.rows| - n]), dirty := true)
  {
    hide Shape, Touched, BlankRows;
  }

  // ----- handlers -----

  function P1(t: Term, x: nat): Size
    requires x < |t.pars|
  {
    if t.pars[x] != 0 then t.pars[x] else 1
  }

  function EraseInDisplay(t: Term): (t': Term)
    requires Shape(t)
    ensures Shape(t')
  {
    match t.pars[0]
    case 0 => ClearRows(ClearAtCursor(t, t.curs.c, t.ncol), t.curs.r + 1, |t.rows|)
    case 1 => ClearRows(ClearAtCursor(t, 0, t.curs.c), 0, Minus(t.curs.r, 1))
    case 2 => ClearRows(t, 0, |t.rows|)
    case _ => t
  }

  function EraseInLine(t: Term): (t': Term)
    requires Shape(t)
    ensures Shape(t')
  {
    match t.pars[0]
    case 0 => ClearAtCursor(t, t.curs.c, t.ncol)
    case 1 => ClearAtCursor(t, 0, Min(t.curs.c + 1, t.ncol - 1))
    case 2 => ClearAtCursor(t, 0, t.ncol)
    case _ => t
  }

  /** memmove within a row: n cells from src now also at dst. */
  function MovedCells(chars: seq<Cell>, dst: nat, src: nat, n: nat): (r: seq<Cell>)
    requires dst + n <= |chars| && src + n <= |chars|
    ensures |r| == |chars|
  {
    chars[..dst] + chars[src..src + n] + chars[dst + n..]
  }

  /** n blank cells pushed in at column c as ich writes it: the last column never
      changes, and the blanked span ends at column n, not at column c + n. */
  function InsertedCells(chars: seq<Cell>, c: nat, n: nat): (r: seq<Cell>)
    requires c + n < |chars|
    ensures |r| == |chars|
  {
    ClearCells(MovedCells(chars, c + n, c, |chars| - c - n - 1), c, n)
  }

  function InsertCells(t: Term): (t': Term)
    requires Shape(t)
    ensures Shape(t')
  {
    SetRow(t, InsertedCells(CursorRow(t), t.curs.c, Min(P1(t, 0), t.ncol - t.curs.c - 1)))
  }

  /** n cells deleted at column c, blanks added at the end of the row. */
  function DeletedCells(chars: seq<Cell>, c: nat, n: nat): (r: seq<Cell>)
    requires c + n <= |chars|
    ensures |r| == |chars|
  {
    chars[..c] + chars[c + n..] + Blanks(n)
  }

  function DeleteCells(t: Term): (t': Term)
    requires Shape(t)
    ensures Shape(t')
  {
    SetRow(t, DeletedCells(CursorRow(t), t.curs.c, Min(P1(t, 0), t.ncol - t.curs.c)))
  }

  function ColorOf(p: Size): Color
    requires 30 <= p <= 37 || 40 <= p <= 47
  {
    match p % 10
    case 0 => Black case 1 => Red case 2 => Green case 3 => Yellow
    case 4 => Blue case 5 => Magenta case 6 => Cyan case _ => White
  }

  /** One SGR parameter: the new attributes and the alternate-character-set switch. */
  function SgrOne(a: Attrs, acs: bool, p: Size): (Attrs, bool) {
    if p == 0 then (DefAttrs(), acs)
    else if p == 1 || p == 22 then (a.(bold := p < 20), acs)
    else if p == 2 || p == 23 then (a.(dim := p < 20), acs)
    else if p == 4 || p == 24 then (a.(underline := p < 20), acs)
    else if p == 5 || p == 25 then (a.(blink := p < 20), acs)
    else if p == 7 || p == 27 then (a.(reverse := p < 20), acs)
    else if p == 8 || p == 28 then (a.(invisible := p < 20), acs)
    else if p == 10 || p == 11 then (a, p > 10)
    else if 30 <= p <= 37 then (a.(fg := ColorOf(p)), acs)
    else if 40 <= p <= 47 then (a.(bg := ColorOf(p)), acs)
    else if p == 39 then (a.(fg := Default), acs)
    else if p == 49 then (a.(bg := Default), acs)
    else (a, acs)
  }

  function SgrAll(a: Attrs, acs: bool, ps: seq<Size>): (Attrs, bool) {
    if ps == [] then (a, acs)
    else
      var (a', acs') := SgrAll(a, acs, ps[..|ps| - 1]);
      SgrOne(a', acs', ps[|ps| - 1])
  }

  function SelectGraphics(t: Term): (t': Term)
    requires Shape(t)
    ensures Shape(t')
  {
    var (a, acs) := SgrAll(t.attrs, t.acs, t.pars[..t.npar]);
    t.(attrs := a, acs := acs)
  }

  /** One character written at the cursor, which then moves on and may scroll. */
  function Put(t: Term, w: int): (t': Term)
    requires Shape(t)
    ensures Shape(t') && (Inv(t) ==> Inv(t'))
  {
    var t1 := SetRow(t, CursorRow(t)[t.curs.c := Cell(w, t.attrs)]);
    if t.curs.c < t.ncol - 1 then At(t1, t.curs.r, t.curs.c + 1)
    else if t.curs.r + 1 < |t.rows| then At(t1, t.curs.r + 1, 0)
    else ScrollUp(At(t1, t.curs.r, 0), 0, 1)
  }

  function PutMany(t: Term, w: int, n: nat): (t': Term)
    requires Shape(t)
    ensures Shape(t')
    decreases n
  {
    if n == 0 then t else PutMany(Put(t, w), w, n - 1)
  }

  function Repeat(t: Term): (t': Term)
    requires Shape(t)
    ensures Shape(t')
  {
    if t.curs.c == 0 then t else PutMany(t, CursorRow(t)[t.curs.c - 1].c, P1(t, 0))
  }

  /** The column the cursor reaches when it tabs forward from column c. */
  function NextTab(tabs: seq<Cell>, c: nat): (c': nat)
    requires c < |tabs|
    ensures c < c' <= |tabs|
    decreases |tabs| - c
  {
    if c + 1 < |tabs| - 1 && tabs[c + 1].c != STAR then NextTab(tabs, c + 1) else c + 1
  }

  function PrevTab(tabs: seq<Cell>, c: nat): (c': nat)
    requires c < |tabs|
    ensures c' <= c
  {
    if c == 0 then 0
    else if tabs[c - 1].c != STAR then PrevTab(tabs, c - 1)
    else c - 1
  }

  function ResetParser(t: Term): (t': Term)
    ensures Shape(t) ==> Inv(t')
  {
    t.(pars := NoPars(), npar := 0, arg := 0, ignored := false, state := Ground)
  }

  function ConsumeArg(t: Term): (t': Term)
    requires Shape(t)
    ensures Shape(t')
  {
    if t.npar < 8 then t.(pars := t.pars[t.npar := t.arg], npar := t.npar + 1, arg := 0)
    else t.(arg := 0)
  }

  function FixCursor(t: Term): (t': Term)
    requires Sized(t)
    ensures Shape(t')
  {
    At(t, Min(t.curs.r, |t.rows| - 1), Min(t.curs.c, t.ncol - 1))
  }

  function Reset(t: Term): (t': Term)
    requires Sized(t)
    ensures Inv(t')
  {
    var home := Point(0, 0);
    ClearRows(ResetParser(t.(curs := home, oldcurs := home, acs := false,
                             attrs := DefAttrs(), oldattrs := DefAttrs(), ms := 0)),
              0, |t.rows|)
  }

  /** A row cut or filled with blanks to n columns. */
  function FitCells(chars: seq<Cell>, n: nat): (r: seq<Cell>)
    ensures |r| == n
  {
    seq(n, i requires 0 <= i < n => if i < |chars| then chars[i] else BlankCell())
  }

  /** Tab stops at every eighth column and at the last. */
  function DefaultTabs(n: nat): (r: seq<Cell>)
    ensures |r| == n
  {
    seq(n, i requires 0 <= i < n => Cell(if i % 8 == 0 || i == n - 1 then STAR else SPACE, DefAttrs()))
  }

  /** The common top-left rectangle kept, everything else blank, every row marked. */
  function FitRows(rows: seq<Row>, nline: nat, ncol: nat): (s: seq<Row>)
    ensures |s| == nline
  {
    seq(nline, i requires 0 <= i < nline => Row(true, FitCells(if i < |rows| then rows[i].chars else [], ncol)))
  }

  lemma RowsFit(rows: seq<Row>, nline: nat, ncol: nat)
    ensures forall i :: 0 <= i < nline ==> |FitRows(rows, nline, ncol)[i].chars| == ncol
  {
    var fit := FitRows(rows, nline, ncol);
    assert forall i :: 0 <= i < nline ==> fit[i] == Row(true, FitCells(if i < |rows| then rows[i].chars else [], ncol));
  }

  function Resize(t: Term, nline: Size, ncol: Size): (t': Term)
    requires 2 <= nline && 2 <= ncol && Laid(t)
    ensures Shape(t')
  {
    var rows := FitRows(t.rows, nline, ncol);
    RowsFit(t.rows, nline, ncol);
    FixCursor(t.(rows := rows, ncol := ncol, tabs := Row(true, DefaultTabs(ncol)), dirty := true))
  }

  /** The terminal tmt_open returns. */
  function Opened(nline: Size, ncol: Size): (t: Term)
    requires 2 <= nline && 2 <= ncol
    ensures Inv(t)
  {
    Resize(Term(Point(0, 0), Point(0, 0), DefAttrs(), DefAttrs(), false, false, false, false,
                0, [], Row(false, []), 0, [], NoPars(), 0, 0, Ground), nline, ncol)
  }

  /** tmt_clean */
  function Clean(t: Term): (t': Term) {
    t.(rows := seq(|t.rows|, i requires 0 <= i < |t.rows| => t.rows[i].(dirty := false)),
       dirty := t.dirty && t.rows == [])
  }

  // ----- the parser's actions -----

  function At(t: Term, r: Size, c: Size): Term { t.(curs := Point(r, c)) }

  function GroundAction(t: Term, b: Byte): (t': Term)
    requires Shape(t)
    ensures Sized(t')
  {
    hide NextTab, ScrollUp;
    var r, c := t.curs.r, t.curs.c;
    match b
    case 0x08 => if c > 0 then At(t, r, c - 1) else t
    case 0x09 => At(t, r, NextTab(t.tabs.chars, c))
    case 0x0a => if r < |t.rows| - 1 then At(t, r + 1, c) else ScrollUp(t, 0, 1)
    case 0x0d => At(t, r, 0)
    case _ => t
  }

  function EscapeAction(t: Term, b: Byte): (t': Term)
    requires Shape(t)
    ensures Sized(t')
  {
    match b
    case 0x48 /* H */ => t.(tabs := t.tabs.(chars := t.tabs.chars[t.curs.c := t.tabs.chars[t.curs.c].(c := STAR)]))
    case 0x37 /* 7 */ => t.(oldcurs := t.curs, oldattrs := t.attrs)
    case 0x38 /* 8 */ => t.(curs := t.oldcurs, attrs := t.oldattrs)
    case 0x63 /* c */ => Reset(t)
    case 0x4d /* M */ => if t.curs.r > 0 then At(t, t.curs.r - 1, t.curs.c) else t
    case _ => t
  }

  /** Where a cursor sequence sends the cursor, before it is brought back on screen. */
  function Target(t: Term, b: Byte): Point
    requires Shape(t)
  {
    hide NextTab, PrevTab;
    var r, c, h, w := t.curs.r, t.curs.c, |t.rows|, t.ncol;
    var p, q := P1(t, 0), P1(t, 1);
    match b
    case 0x41 /* A */ => Point(Minus(r, p), c)
    case 0x42 /* B */ => Point(Min(Plus(r, p), h - 1), c)
    case 0x43 /* C */ => Point(r, Min(Plus(c, p), w - 1))
    case 0x44 /* D */ => Point(r, Min(Minus(c, p), c))
    case 0x45 /* E */ => Point(Min(Plus(r, p), h - 1), 0)
    case 0x46 /* F */ => Point(Minus(r, p), 0)
    case 0x47 /* G */ => Point(r, Min(p - 1, w - 1))
    case 0x64 /* d */ => Point(Min(p - 1, h - 1), c)
    case 0x48 /* H */ => Point(p - 1, q - 1)
    case 0x66 /* f */ => Point(p - 1, q - 1)
    case 0x49 /* I */ => Point(r, NextTab(t.tabs.chars, c))
    case 0x5a /* Z */ => Point(r, PrevTab(t.tabs.chars, c))
    case _ => t.curs
  }

  /** The sequences that only move the cursor, or save and restore it. */
  function MoveAction(t: Term, b: Byte): (t': Term)
    requires Shape(t)
    ensures Sized(t')
  {
    hide Target;
    if b == 0x73 /* s */ then t.(oldcurs := t.curs, oldattrs := t.attrs)
    else if b == 0x75 /* u */ then t.(curs := t.oldcurs, attrs := t.oldattrs)
    else t.(curs := Target(t, b))
  }

  /** The sequences that change cells, tab stops or attributes. */
  function EditAction(t: Term, b: Byte): (t': Term)
    requires Shape(t)
    ensures Sized(t')
  {
    match b
    case 0x4a /* J */ => EraseInDisplay(t)
    case 0x4b /* K */ => EraseInLine(t)
    case 0x4c /* L */ => ScrollDown(t, t.curs.r, P1(t, 0))
    case 0x4d /* M */ => ScrollUp(t, t.curs.r, P1(t, 0))
    case 0x50 /* P */ => DeleteCells(t)
    case 0x53 /* S */ => ScrollUp(t, 0, P1(t, 0))
    case 0x54 /* T */ => ScrollDown(t, 0, P1(t, 0))
    case 0x58 /* X */ => ClearAtCursor(t, t.curs.c, Plus(P1(t, 0), t.curs.c))
    case 0x62 /* b */ => Repeat(t)
    case 0x67 /* g */ => if t.pars[0] == 3 then t.(tabs := BlankRow(t.ncol), dirty := true) else t
    case 0x6d /* m */ => SelectGraphics(t)
    case 0x40 /* @ */ => InsertCells(t)
    case _ => t
  }

  predicate IsMove(b: Byte) {
    0x41 <= b <= 0x49 || b in {0x5a, 0x64, 0x66, 0x73, 0x75}
  }

  predicate IsEdit(b: Byte) {
    b in {0x40, 0x4a, 0x4b, 0x4c, 0x4d, 0x50, 0x53, 0x54, 0x58, 0x62, 0x67, 0x6d}
  }

  /** c, n, h, i and l only call back. */
  predicate IsReport(b: Byte) { b in {0x63, 0x6e, 0x68, 0x69, 0x6c} }

  function ArgumentAction(t: Term, b: Byte): (t': Term)
    requires Shape(t)
    ensures Sized(t')
  {
    if IsMove(b) then MoveAction(t, b) else EditAction(t, b)
  }

  predicate EndsGround(b: Byte) { b in {0x00, 0x07, 0x08, 0x09, 0x0a, 0x0d} }
  predicate EndsEscape(b: Byte) { b in {0x48, 0x37, 0x38, 0x63, 0x4d} }
  predicate EndsCharset(b: Byte) { b in {0x00, 0x30, 0x42} }
  predicate EndsArguments(b: Byte) { IsMove(b) || IsEdit(b) || IsReport(b) }
  predicate IsDigit(b: Byte) { 0x30 <= b <= 0x39 }

  function NextArg(arg: Size, b: Byte): Size
    requires IsDigit(b)
  {
    (arg * 10 + (b as int - 0x30)) % 0x1_0000_0000_0000_0000
  }

  /** What a completed sequence does once its last argument is stored. */
  function Act(t: Term, b: Byte): (t': Term)
    requires Shape(t)
    ensures Sized(t')
  {
    match t.state
    case Ground => GroundAction(t, b)
    case Escape => EscapeAction(t, b)
    case Charset => t.(decdraw := b != 0x42)
    case Arguments => ArgumentAction(t, b)
  }

  /** The DO macro: store the argument, act unless ignored, then clean up. */
  function Complete(t: Term, b: Byte): (t': Term)
    requires Shape(t)
    ensures Inv(t')
  {
    var t1 := ConsumeArg(t);
    ResetParser(FixCursor(if t1.ignored then t1 else Act(t1, b)))
  }

  /** Whether the parser takes the byte, whatever it then does with it. The string tests
      of the program match a NUL byte too, so each state takes it as the first of its tests. */
  predicate Takes(state: Mode, b: Byte) {
    match state
    case Ground => EndsGround(b) || b == 0x1b
    case Escape => EndsEscape(b) || b in {0x00, 0x1b, 0x2a, 0x2b, 0x29, 0x28, 0x5b}
    case Charset => EndsCharset(b)
    case Arguments => EndsArguments(b) || IsDigit(b) || b in {0x00, 0x1b, 0x3b, 0x3f}
  }

  /** handlechar on a byte it takes. */
  function Handle(t: Term, b: Byte): (t': Term)
    requires Inv(t) && Takes(t.state, b)
    ensures Inv(t')
  {
    match t.state
    case Ground =>
      if b == 0x1b then t.(state := Escape) else Complete(t, b)
    case Escape =>
      if b == 0x1b || b == 0x00 then t
      else if b in {0x2a, 0x2b, 0x29} then t.(ignored := true, state := Arguments)
      else if b == 0x28 then t.(state := Charset)
      else if b == 0x5b then t.(state := Arguments)
      else Complete(t, b)
    case Charset => Complete(t, b)
    case Arguments =>
      if b == 0x1b || b == 0x00 then t.(state := Escape)
      else if b == 0x3b then ConsumeArg(t)
      else if b == 0x3f then t
      else if IsDigit(b) then t.(arg := NextArg(t.arg, b))
      else Complete(t, b)
  }

  // ----- text -----

  /** The alternate character set of tacs: code point 0o20 is the first glyph, and so on. */
  function AcsCodes(): seq<int> {
    [16, 17, 24, 25, 219, 4, 177, 248] + [241, 176, 217, 191, 218, 192, 197, 126] +
    [196, 196, 196, 95, 195, 180, 193, 194] + [179, 243, 242, 227, 216, 156, 254]
  }

  /** The first index of b in codes, or |codes|. */
  function IndexOf(codes: seq<int>, b: int): (i: nat)
    ensures i <= |codes| && (i < |codes| ==> codes[i] == b)
    ensures forall k :: 0 <= k < i ==> codes[k] != b
  {
    if codes == [] || codes[0] == b then 0 else IndexOf(codes[1..], b) + 1
  }

  function Tacs(acschars: AcsTable, b: Byte): int {
    var i := IndexOf(AcsCodes(), b as int);
    if i < 31 then acschars[i] else b as int
  }

  /** The DEC line-drawing set, for the bytes 95 to 126. */
  function DecChars(): seq<int> {
    [0x20, 0x25c6, 0x2592, 0x09, 0x0c, 0x0d, 0x0a, 0xb0, 0xb1, 0x0a, 0x0b, 0x2518, 0x2510, 0x250c, 0x2514, 0x253c,
     0x23ba, 0x23bb, 0x2500, 0x23bc, 0x23bd, 0x251c, 0x2524, 0x2534, 0x252c, 0x2502, 0x2264, 0x2265, 0x3c0, 0x2260,
     0xa3, 0x2022]
  }

  function DecChar(b: Byte): int {
    if 95 <= b <= 126 then DecChars()[b - 95] else b as int
  }

  /** testmbchar: what the pending bytes decode to, if anything yet. */
  function Pending(loc: Locale, t: Term): Decoded {
    if t.mb == [] then Partial(t.ms) else loc.decode(t.ms, t.mb)
  }

  /** The pending bytes decoded and written; what does not decode shows as U+FFFD. */
  function PutPending(loc: Locale, t: Term): (t': Term)
    requires Inv(t)
    ensures Inv(t')
  {
    var d := loc.decode(t.ms, t.mb);
    Put(t.(ms := d.ms, mb := []), if d.Whole? then d.c else INVALID_CHAR)
  }

  /** A byte the parser did not take, as tmt_write writes it. */
  function Text(loc: Locale, t: Term, b: Byte): (t': Term)
    requires Inv(t)
    ensures Inv(t')
  {
    if t.acs then Put(t, Tacs(loc.acschars, b))
    else if t.decdraw then Put(t, DecChar(b))
    else if |t.mb| >= 100 then PutPending(loc, t)
    else
      var d := Pending(loc, t);
      var t1 := if d.Bad? then PutPending(loc, t) else if d.Partial? then t.(mb := t.mb + [b]) else t;
      if Pending(loc, t1).Whole? then PutPending(loc, t1) else t1
  }

  /** One byte of tmt_write. */
  function Feed(loc: Locale, t: Term, b: Byte): (t': Term)
    requires Inv(t)
    ensures Inv(t')
  {
    hide Handle, Text, ResetParser, Takes;
    assert Shape(t);
    hide Shape;
    if Takes(t.state, b) then Handle(t, b) else Text(loc, ResetParser(t), b)
  }

  function Write(loc: Locale, t: Term, s: seq<Byte>): (t': Term)
    requires Inv(t)
    ensures Inv(t')
  {
    hide Feed, Inv;
    if s == [] then t else Feed(loc, Write(loc, t, s[..|s| - 1]), s[|s| - 1])
  }
}

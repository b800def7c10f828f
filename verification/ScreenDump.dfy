/** dump_vt of vtbufferd.c: the screen written out as text with SGR changes only where
    the attributes change. What the text means is said by a reader of ECMA-48 control
    sequences, which knows nothing of how the text was made. */
module ScreenDump {
  import opened Common
  import opened TerminalModel
  import opened Terminal
  import opened TerminalSequences
  import TerminalRuns
  import TerminalTape

  type Text = seq<int>   // wide characters, before the stream encodes them

  const ESC := 0x1b
  const SEMI := 0x3b

  // ----- the reader -----

  datatype ReaderMode = Plain | AfterEsc | InCsi

  /** The viewer: the lines printed so far, the column in the last of them, and the
      numbers of the last cursor-position sequence. */
  datatype Viewer = Viewer(mode: ReaderMode, params: Text, attrs: Attrs,
                           lines: seq<seq<Cell>>, col: nat, cursor: seq<nat>)

  function FreshViewer(): Viewer { Viewer(Plain, [], DefAttrs(), [[]], 0, []) }

  predicate IsPrinting(c: int) { c >= 0x20 && !(0x7f <= c <= 0x9f) }

  /** Not one of the controls the reader acts on; of these only the printing ones show. */
  predicate Harmless(c: int) { c != 0x1b && c != 0x0d && c != 0x0a }

  /** The numbers of a parameter string: digits, with semicolons between (section 5.4.2). */
  function Numbers(s: Text): (ps: seq<nat>)
    ensures |ps| >= 1
  {
    if s == [] then [0]
    else
      var ps, c := Numbers(s[..|s| - 1]), s[|s| - 1];
      if c == SEMI then ps + [0]
      else if 0x30 <= c <= 0x39 then ps[..|ps| - 1] + [ps[|ps| - 1] * 10 + (c - 0x30)]
      else ps
  }

  function Palette(n: nat): Color {
    match n
    case 0 => Black case 1 => Red case 2 => Green case 3 => Yellow
    case 4 => Blue case 5 => Magenta case 6 => Cyan case _ => White
  }

  /** SELECT GRAPHIC RENDITION, section 8.3.117: one parameter. */
  function Rendition(a: Attrs, p: nat): Attrs {
    match p
    case 0 => DefAttrs()
    case 1 => a.(bold := true)
    case 2 => a.(dim := true)
    case 4 => a.(underline := true)
    case 5 => a.(blink := true)
    case 7 => a.(reverse := true)
    case 8 => a.(invisible := true)
    case 22 => a.(bold := false, dim := false)
    case 24 => a.(underline := false)
    case 25 => a.(blink := false)
    case 27 => a.(reverse := false)
    case 28 => a.(invisible := false)
    case 39 => a.(fg := Default)
    case 49 => a.(bg := Default)
    case _ =>
      if 30 <= p <= 37 then a.(fg := Palette(p - 30))
      else if 40 <= p <= 47 then a.(bg := Palette(p - 40))
      else a
  }

  function Renditions(a: Attrs, ps: seq<nat>): Attrs {
    if ps == [] then a else Rendition(Renditions(a, ps[..|ps| - 1]), ps[|ps| - 1])
  }

  function Padded(line: seq<Cell>, n: nat): seq<Cell> {
    if n <= |line| then line else line + Blanks(n - |line|)
  }

  /** A character printed at the viewer's column of its last line. */
  function Print(v: Viewer, c: int): Viewer
    requires v.lines != []
  {
    var last := |v.lines| - 1;
    var line := Padded(v.lines[last], v.col);
    var cell := Cell(c, v.attrs);
    var line' := if v.col < |line| then line[v.col := cell] else line + [cell];
    v.(lines := v.lines[last := line'], col := v.col + 1)
  }

  function Control(v: Viewer, final: int): Viewer {
    var ps := Numbers(v.params);
    var w := v.(mode := Plain, params := []);
    if final == 0x6d then w.(attrs := Renditions(v.attrs, ps))
    else if final == 0x48 then w.(cursor := ps)
    else w
  }

  function Read(v: Viewer, c: int): (v': Viewer)
    requires v.lines != []
    ensures v'.lines != []
  {
    match v.mode
    case Plain =>
      if c == ESC then v.(mode := AfterEsc)
      else if c == 0x0d then v.(col := 0)
      else if c == 0x0a then v.(lines := v.lines + [[]])
      else if IsPrinting(c) then Print(v, c)
      else v
    case AfterEsc =>
      if c == 0x63 then FreshViewer()
      else if c == 0x5b then v.(mode := InCsi, params := [])
      else v.(mode := Plain)
    case InCsi =>
      if 0x40 <= c <= 0x7e then Control(v, c) else v.(params := v.params + [c])
  }

  function ReadAll(v: Viewer, s: Text): (v': Viewer)
    requires v.lines != []
    ensures v'.lines != []
  {
    if s == [] then v else Read(ReadAll(v, s[..|s| - 1]), s[|s| - 1])
  }

  lemma {:induction false} ReadAppend(v: Viewer, a: Text, b: Text)
    requires v.lines != []
    ensures ReadAll(v, a + b) == ReadAll(ReadAll(v, a), b)
  {
    hide Read;
    if b == [] {
      assert a + b == a;
    } else {
      ReadAppend(v, a, b[..|b| - 1]);
      assert (a + b)[..|a + b| - 1] == a + b[..|b| - 1];
    }
  }

  lemma ReadTwo(v: Viewer, c: int, d: int)
    requires v.lines != []
    ensures ReadAll(v, [c]) == Read(v, c)
    ensures ReadAll(v, [c, d]) == Read(Read(v, c), d)
  {
    hide Read;
    assert ReadAll(v, []) == v;
    assert [c][..0] == [] && [c, d][..1] == [c];
  }

  // ----- numbers -----

  function Widen(s: seq<Byte>): Text { seq(|s|, i requires 0 <= i < |s| => s[i] as int) }

  /** One character more, read after the rest. */
  lemma NumbersStep(more: Text, s: Text, c: int)
    requires more == s + [c]
    ensures var ps := Numbers(s);
            Numbers(more) == if c == SEMI then ps + [0]
                             else if 0x30 <= c <= 0x39 then ps[..|ps| - 1] + [ps[|ps| - 1] * 10 + (c - 0x30)]
                             else ps
  {
    assert more[..|s|] == s;
  }

  lemma DigitExtends(s: Text, digit: int)
    requires 0x30 <= digit <= 0x39
    ensures var ps := Numbers(s);
            Numbers(s + [digit]) == ps[..|ps| - 1] + [ps[|ps| - 1] * 10 + (digit - 0x30)]
  {
    hide Numbers;
    NumbersStep(s + [digit], s, digit);
  }

  /** A number printed after a parameter string that awaits one is read back as itself. */
  lemma {:induction false} NumberIsRead(s: Text, n: nat)
    requires Numbers(s)[|Numbers(s)| - 1] == 0
    ensures Numbers(s + Widen(Decimal(n))) == Numbers(s)[..|Numbers(s)| - 1] + [n]
    decreases n
  {
    hide Numbers;
    var head := if n < 10 then [] else Decimal(n / 10);
    var digit := 0x30 + n % 10;
    var before := s + Widen(head);
    assert s + Widen(Decimal(n)) == before + [digit];
    if n < 10 {
      assert before == s;
    } else {
      NumberIsRead(s, n / 10);
    }
    DigitExtends(before, digit);
    assert n / 10 * 10 + n % 10 == n;
  }

  lemma SemiExtends(s: Text)
    ensures Numbers(s + [SEMI]) == Numbers(s) + [0]
  {
    NumbersStep(s + [SEMI], s, SEMI);
  }

  /** The number n and a semicolon, appended to a parameter string. */
  function Item(n: nat): Text { Widen(Decimal(n)) + [SEMI] }

  lemma ItemIsRead(s: Text, codes: seq<nat>, n: nat)
    requires Numbers(s) == codes + [0]
    ensures Numbers(s + Item(n)) == codes + [n] + [0]
  {
    hide Numbers, Decimal;
    NumberIsRead(s, n);
    assert (codes + [0])[..|codes|] == codes;
    SemiExtends(s + Widen(Decimal(n)));
    assert s + Item(n) == s + Widen(Decimal(n)) + [SEMI];
  }

  lemma ItemLength(n: nat)
    requires n < 100
    ensures |Item(n)| == if n < 10 then 2 else 3
  {
    assert |Decimal(n)| == if n < 10 then 1 else 2;
  }

  // ----- attribute changes -----

  function ColorIndex(c: Color): nat {
    match c
    case Default => 0 case Black => 1 case Red => 2 case Green => 3 case Yellow => 4
    case Blue => 5 case Magenta => 6 case Cyan => 7 case White => 8
  }

  function IntensityCodes(was: Attrs, now: Attrs): seq<nat> {
    if was.bold == now.bold && was.dim == now.dim then []
    else [22] + (if now.bold then [1] else []) + (if now.dim then [2] else [])
  }

  function FlagCodes(was: bool, now: bool, code: nat): seq<nat> {
    if was == now then [] else [if now then code else code + 20]
  }

  function ColorCodes(was: Color, now: Color, base: nat): seq<nat>
    requires base >= 1
  {
    if was == now then [] else [if now == Default then base + 9 else base - 1 + ColorIndex(now)]
  }

  /** The SGR parameters dump_vt writes between a cell shown as `was` and one shown as `now`. */
  function Codes(was: Attrs, now: Attrs): seq<nat> {
    IntensityCodes(was, now)
    + FlagCodes(was.underline, now.underline, 4) + FlagCodes(was.blink, now.blink, 5)
    + FlagCodes(was.reverse, now.reverse, 7) + FlagCodes(was.invisible, now.invisible, 8)
    + ColorCodes(was.fg, now.fg, 30) + ColorCodes(was.bg, now.bg, 40)
  }

  lemma {:induction false} RenditionsAppend(a: Attrs, ps: seq<nat>, qs: seq<nat>)
    ensures Renditions(a, ps + qs) == Renditions(Renditions(a, ps), qs)
  {
    hide Rendition;
    if qs == [] {
      assert ps + qs == ps;
    } else {
      RenditionsAppend(a, ps, qs[..|qs| - 1]);
      assert (ps + qs)[..|ps + qs| - 1] == ps + qs[..|qs| - 1];
    }
  }

  lemma OneRendition(a: Attrs, p: nat)
    ensures Renditions(a, []) == a && Renditions(a, [p]) == Rendition(a, p)
  {
    hide Rendition;
    assert [p][..0] == [];
  }

  lemma IntensityChanges(a: Attrs, was: Attrs, now: Attrs)
    requires a.bold == was.bold && a.dim == was.dim
    ensures Renditions(a, IntensityCodes(was, now)) == a.(bold := now.bold, dim := now.dim)
  {
    if was.bold != now.bold || was.dim != now.dim {
      var p, q := if now.bold then [1] else [], if now.dim then [2] else [];
      RenditionsAppend(a, [22] + p, q);
      RenditionsAppend(a, [22], p);
      OneRendition(a, 22);
      var off := Rendition(a, 22);
      OneRendition(off, 1);
      OneRendition(off, 2);
      OneRendition(Rendition(off, 1), 2);
    }
  }

  lemma UnderlineChanges(a: Attrs, was: bool, now: bool)
    requires a.underline == was
    ensures Renditions(a, FlagCodes(was, now, 4)) == a.(underline := now)
  {
    OneRendition(a, 4);
    OneRendition(a, 24);
  }

  lemma BlinkChanges(a: Attrs, was: bool, now: bool)
    requires a.blink == was
    ensures Renditions(a, FlagCodes(was, now, 5)) == a.(blink := now)
  {
    OneRendition(a, 5);
    OneRendition(a, 25);
  }

  lemma ReverseChanges(a: Attrs, was: bool, now: bool)
    requires a.reverse == was
    ensures Renditions(a, FlagCodes(was, now, 7)) == a.(reverse := now)
  {
    OneRendition(a, 7);
    OneRendition(a, 27);
  }

  lemma InvisibleChanges(a: Attrs, was: bool, now: bool)
    requires a.invisible == was
    ensures Renditions(a, FlagCodes(was, now, 8)) == a.(invisible := now)
  {
    OneRendition(a, 8);
    OneRendition(a, 28);
  }

  lemma ForegroundChanges(a: Attrs, was: Color, now: Color)
    requires a.fg == was
    ensures Renditions(a, ColorCodes(was, now, 30)) == a.(fg := now)
  {
    OneRendition(a, if now == Default then 39 else 29 + ColorIndex(now));
  }

  lemma BackgroundChanges(a: Attrs, was: Color, now: Color)
    requires a.bg == was
    ensures Renditions(a, ColorCodes(was, now, 40)) == a.(bg := now)
  {
    OneRendition(a, if now == Default then 49 else 39 + ColorIndex(now));
  }

  lemma RenditionsChain(a: Attrs, p: seq<nat>, q: seq<nat>, r: seq<nat>, s: seq<nat>)
    ensures Renditions(a, p + q + r + s) == Renditions(Renditions(Renditions(Renditions(a, p), q), r), s)
  {
    hide Renditions;
    RenditionsAppend(a, p + q + r, s);
    RenditionsAppend(a, p + q, r);
    RenditionsAppend(a, p, q);
  }

  /** Intensity, underline, blink and reverse. */
  lemma FirstChanges(was: Attrs, now: Attrs)
    ensures Renditions(was, IntensityCodes(was, now) + FlagCodes(was.underline, now.underline, 4)
                            + FlagCodes(was.blink, now.blink, 5) + FlagCodes(was.reverse, now.reverse, 7))
         == now.(invisible := was.invisible, fg := was.fg, bg := was.bg)
  {
    hide Renditions, IntensityCodes, FlagCodes;
    RenditionsChain(was, IntensityCodes(was, now), FlagCodes(was.underline, now.underline, 4),
                    FlagCodes(was.blink, now.blink, 5), FlagCodes(was.reverse, now.reverse, 7));
    IntensityChanges(was, was, now);
    var a1 := was.(bold := now.bold, dim := now.dim);
    UnderlineChanges(a1, was.underline, now.underline);
    var a2 := a1.(underline := now.underline);
    BlinkChanges(a2, was.blink, now.blink);
    var a3 := a2.(blink := now.blink);
    ReverseChanges(a3, was.reverse, now.reverse);
  }

  /** The changes say exactly what they should: read as ECMA-48 renditions from the old
      attributes, they give the new ones. */
  lemma CodesChangeAttrs(was: Attrs, now: Attrs)
    ensures Renditions(was, Codes(was, now)) == now
  {
    hide Renditions, IntensityCodes, FlagCodes, ColorCodes;
    var first := IntensityCodes(was, now) + FlagCodes(was.underline, now.underline, 4)
                 + FlagCodes(was.blink, now.blink, 5) + FlagCodes(was.reverse, now.reverse, 7);
    FirstChanges(was, now);
    RenditionsChain(was, first, FlagCodes(was.invisible, now.invisible, 8),
                    ColorCodes(was.fg, now.fg, 30), ColorCodes(was.bg, now.bg, 40));
    var a4 := now.(invisible := was.invisible, fg := was.fg, bg := was.bg);
    InvisibleChanges(a4, was.invisible, now.invisible);
    ForegroundChanges(now.(fg := was.fg, bg := was.bg), was.fg, now.fg);
    BackgroundChanges(now.(bg := was.bg), was.bg, now.bg);
  }

  // ----- the parameter text -----

  predicate ParamChars(s: Text) { forall i :: 0 <= i < |s| ==> 0x30 <= s[i] <= SEMI }

  /** Items for exactly these codes, one after another. */
  ghost predicate SgrText(s: Text, codes: seq<nat>) {
    && Numbers(s) == codes + [0]
    && ParamChars(s)
    && (s == [] <==> codes == [])
    && (s != [] ==> s[|s| - 1] == SEMI)
  }

  lemma NoItems()
    ensures SgrText([], [])
  {
  }

  lemma ItemExtends(s: Text, codes: seq<nat>, n: nat)
    requires SgrText(s, codes) && n < 100
    ensures SgrText(s + Item(n), codes + [n])
    ensures |s + Item(n)| == |s| + if n < 10 then 2 else 3
  {
    hide Numbers, Decimal;
    ItemIsRead(s, codes, n);
    ItemLength(n);
    DigitsOnly(n);
  }

  /** An on/off attribute, lines 120-147. */
  method CatFlag(s: Text, ghost codes: seq<nat>, was: bool, now: bool, code: nat) returns (s': Text)
    requires SgrText(s, codes) && code < 10
    ensures SgrText(s', codes + FlagCodes(was, now, code)) && |s'| <= |s| + 3
  {
    hide SgrText, Item;
    s' := s;
    assert codes + [] == codes;
    if now != was {
      if now {
        ItemExtends(s, codes, code);
        s' := s + Item(code);
      } else {
        ItemExtends(s, codes, code + 20);
        s' := s + Item(code + 20);
      }
    }
  }

  /** A color, lines 148-163. */
  method CatColor(s: Text, ghost codes: seq<nat>, was: Color, now: Color, base: nat) returns (s': Text)
    requires SgrText(s, codes) && (base == 30 || base == 40)
    ensures SgrText(s', codes + ColorCodes(was, now, base)) && |s'| <= |s| + 3
  {
    hide SgrText, Item;
    s' := s;
    assert codes + [] == codes;
    if now != was {
      var colorcode := if now == Default then base + 9 else base - 1 + ColorIndex(now);
      ItemExtends(s, codes, colorcode);
      s' := s + Item(colorcode);
    }
  }

  /** Bold and dim, which can only be turned off together, lines 104-119. */
  method CatIntensity(was: Attrs, now: Attrs) returns (s: Text)
    ensures SgrText(s, IntensityCodes(was, now)) && |s| <= 7
  {
    hide SgrText, Item;
    NoItems();
    s := [];
    if now.bold != was.bold || now.dim != was.dim {
      ItemExtends(s, [], 22);
      s := s + Item(22);
      ghost var codes: seq<nat> := [] + [22];
      if now.bold {
        ItemExtends(s, codes, 1);
        s := s + Item(1);
        codes := codes + [1];
      }
      if now.dim {
        ItemExtends(s, codes, 2);
        s := s + Item(2);
        codes := codes + [2];
      }
      assert codes == IntensityCodes(was, now);
    }
  }

  /** sgrline as the loop body builds it, before the last semicolon is cut off. The C buffer
      has room for 30 wide characters. */
  method SgrLine(was: Attrs, now: Attrs) returns (sgrline: Text)
    ensures SgrText(sgrline, Codes(was, now)) && |sgrline| <= 25
  {
    hide SgrText, IntensityCodes, FlagCodes, ColorCodes;
    sgrline := CatIntensity(was, now);
    ghost var codes := IntensityCodes(was, now);
    sgrline := CatFlag(sgrline, codes, was.underline, now.underline, 4);
    codes := codes + FlagCodes(was.underline, now.underline, 4);
    sgrline := CatFlag(sgrline, codes, was.blink, now.blink, 5);
    codes := codes + FlagCodes(was.blink, now.blink, 5);
    sgrline := CatFlag(sgrline, codes, was.reverse, now.reverse, 7);
    codes := codes + FlagCodes(was.reverse, now.reverse, 7);
    sgrline := CatFlag(sgrline, codes, was.invisible, now.invisible, 8);
    codes := codes + FlagCodes(was.invisible, now.invisible, 8);
    sgrline := CatColor(sgrline, codes, was.fg, now.fg, 30);
    codes := codes + ColorCodes(was.fg, now.fg, 30);
    sgrline := CatColor(sgrline, codes, was.bg, now.bg, 40);
  }

  // ----- one cell -----

  /** What the loop body writes for a cell: the SGR sequence if any, then an empty control
      sequence with final byte ']', then the character. */
  function CellText(sgrline: Text, c: int): Text {
    (if sgrline == [] then [] else [ESC, 0x5b] + sgrline[..|sgrline| - 1] + [0x6d] + [ESC, 0x5b, 0x5d]) + [c]
  }

  lemma {:induction false} ParamTextIsKept(v: Viewer, s: Text)
    requires v.lines != [] && v.mode == InCsi && ParamChars(s)
    ensures ReadAll(v, s) == v.(params := v.params + s)
  {
    if s == [] {
      assert v.params + s == v.params;
    } else {
      ParamTextIsKept(v, s[..|s| - 1]);
      assert v.params + s == v.params + s[..|s| - 1] + [s[|s| - 1]];
    }
  }

  /** A control sequence with parameter text s and this final byte. */
  lemma ControlIsRead(v: Viewer, s: Text, final: int)
    requires v.lines != [] && v.mode == Plain && v.params == []
    requires 0x40 <= final <= 0x7e && ParamChars(s)
    ensures ReadAll(v, [ESC, 0x5b] + s + [final]) == Control(v.(mode := InCsi, params := s), final)
  {
    hide Control;
    ReadAppend(v, [ESC, 0x5b] + s, [final]);
    ReadAppend(v, [ESC, 0x5b], s);
    ReadTwo(v, ESC, 0x5b);
    var v1 := v.(mode := InCsi);
    ParamTextIsKept(v1, s);
    assert [] + s == s;
    ReadTwo(v1.(params := s), final, 0);
  }

  lemma TrimLast<T>(a: seq<T>, b: seq<T>, x: T)
    requires a + [x] == b + [x]
    ensures a == b
  {
    assert (a + [x])[..|a|] == a && (b + [x])[..|b|] == b;
  }

  lemma CellIsRead(v: Viewer, sgrline: Text, codes: seq<nat>, c: int)
    requires v.lines != [] && v.mode == Plain && v.params == []
    requires SgrText(sgrline, codes) && Harmless(c)
    ensures var u := v.(attrs := Renditions(v.attrs, codes));
            ReadAll(v, CellText(sgrline, c)) == if IsPrinting(c) then Print(u, c) else u
  {
    hide Print, Numbers, Renditions, ReadAll;
    if sgrline == [] {
      OneRendition(v.attrs, 0);
      ReadTwo(v, c, 0);
      assert [] + [c] == [c];
    } else {
      var body := sgrline[..|sgrline| - 1];
      assert body + [SEMI] == sgrline;
      SemiExtends(body);
      assert Numbers(body) == codes by { TrimLast(Numbers(body), codes, 0); }
      var sgr, nop := [ESC, 0x5b] + body + [0x6d], [ESC, 0x5b, 0x5d];
      ControlIsRead(v, body, 0x6d);
      var v1 := v.(attrs := Renditions(v.attrs, codes));
      ControlIsRead(v1, [], 0x5d);
      assert [ESC, 0x5b] + [] + [0x5d] == nop;
      ReadAppend(v, sgr + nop, [c]);
      ReadAppend(v, sgr, nop);
      ReadTwo(v1, c, 0);
    }
  }

  /** Appending to the line that is being printed. */
  lemma PrintAppends(v: Viewer, c: int)
    requires v.lines != [] && v.col == |v.lines[|v.lines| - 1]|
    ensures var last := |v.lines| - 1;
            Print(v, c) == v.(lines := v.lines[..last] + [v.lines[last] + [Cell(c, v.attrs)]], col := v.col + 1)
  {
  }

  // ----- the box -----

  ghost predicate Inked(rows: seq<Row>, i: nat, j: nat)
    requires i < |rows| && j < |rows[i].chars|
  {
    rows[i].chars[j].c != SPACE
  }

  /** The box the two search loops find: the smallest that holds every non-space cell
      of the columns from 1 on. */
  ghost predicate Extent(rows: seq<Row>, ncol: nat, maxrow: nat, maxcol: nat)
    requires forall i :: 0 <= i < |rows| ==> |rows[i].chars| == ncol
  {
    && maxrow < |rows| && maxcol < ncol
    && (forall i, j :: 0 <= i < |rows| && 1 <= j < ncol && Inked(rows, i, j) ==> i <= maxrow && j <= maxcol)
    && (maxcol > 0 ==> exists i :: 0 <= i < |rows| && Inked(rows, i, maxcol))
    && (maxrow > 0 ==> exists j :: 1 <= j < ncol && Inked(rows, maxrow, j))
  }

  lemma ExtentIsUnique(rows: seq<Row>, ncol: nat, r: nat, c: nat, r': nat, c': nat)
    requires forall i :: 0 <= i < |rows| ==> |rows[i].chars| == ncol
    requires Extent(rows, ncol, r, c) && Extent(rows, ncol, r', c')
    ensures r == r' && c == c'
  {
  }

  /** The search looks at no cell of column 0, so the box misses ink there: the dump shows
      every non-space cell exactly when each row that starts with one has ink further
      right in it or in a row below it. Row 0 is always in the box. */
  lemma BoxHoldsAllInk(rows: seq<Row>, ncol: nat, maxrow: nat, maxcol: nat)
    requires ncol >= 1 && forall i :: 0 <= i < |rows| ==> |rows[i].chars| == ncol
    requires Extent(rows, ncol, maxrow, maxcol)
    ensures (forall i, j :: 0 <= i < |rows| && 0 <= j < ncol && Inked(rows, i, j) ==> i <= maxrow && j <= maxcol)
       <==> (forall i :: 0 < i < |rows| && Inked(rows, i, 0) ==>
               exists k, j :: i <= k < |rows| && 1 <= j < ncol && Inked(rows, k, j))
  {
    if forall i, j :: 0 <= i < |rows| && 0 <= j < ncol && Inked(rows, i, j) ==> i <= maxrow && j <= maxcol {
      forall i | 0 < i < |rows| && Inked(rows, i, 0)
        ensures exists k, j :: i <= k < |rows| && 1 <= j < ncol && Inked(rows, k, j)
      {
        assert i <= maxrow;
        var j :| 1 <= j < ncol && Inked(rows, maxrow, j);
      }
    }
  }

  lemma TwoBytes(tape: TerminalTape.Tape, stops: seq<Cell>, a: Attrs, b: Byte, c: Byte)
    requires |stops| >= 2 && TerminalTape.Wide(tape, |stops|) && TerminalTape.IsPlain(b) && TerminalTape.IsPlain(c)
    ensures TerminalTape.TapeText(tape, stops, a, [b, c])
         == TerminalTape.TapeByte(TerminalTape.TapeByte(tape, stops, a, b), stops, a, c)
  {
    hide TerminalTape.TapeByte, TerminalTape.IsPlain, TerminalTape.Wide;
    assert [b, c][..1] == [b] && [b][..0] == [];
    assert TerminalTape.TapeText(tape, stops, a, []) == tape;
    assert TerminalTape.TapeText(tape, stops, a, [b]) == TerminalTape.TapeByte(tape, stops, a, b);
  }

  lemma LineFeedAndX(stops: seq<Cell>)
    requires |stops| == 2
    ensures var tape := TerminalTape.TapeText(TerminalTape.BlankTape(2, 2), stops, DefAttrs(), [0x0a, 0x78]);
      tape.rows == [Blanks(2), Blanks(2)[0 := Cell(0x78, DefAttrs())]]
  {
    hide TerminalTape.TapeText, Blanks, DefAttrs;
    var tape := TerminalTape.BlankTape(2, 2);
    assert tape.rows == [Blanks(2), Blanks(2)];
    TwoBytes(tape, stops, DefAttrs(), 0x0a, 0x78);
    var tape1 := tape.(r := 1);
    assert TerminalTape.TapeByte(tape, stops, DefAttrs(), 0x0a) == tape1;
    assert TerminalTape.TapeByte(tape1, stops, DefAttrs(), 0x78).rows
        == tape1.rows[1 := tape1.rows[1][0 := Cell(0x78, DefAttrs())]];
  }

  /** A new two-by-two screen after a line feed and one character: its only ink is the first
      cell of its last row, and the box is row 0. */
  lemma FirstColumnIsMissed(loc: Locale)
    requires TerminalTape.AsciiLocale(loc)
    ensures var t := Write(loc, Opened(2, 2), [0x0a, 0x78]);
      && Sized(t) && |t.rows| == 2 && t.ncol == 2 && Inked(t.rows, 1, 0)
      && forall r: nat, c: nat :: Extent(t.rows, 2, r, c) ==> r == 0 && c == 0
  {
    hide Write, Opened, TerminalTape.TapeText;
    var t := Write(loc, Opened(2, 2), [0x0a, 0x78]);
    LineFeedAndX(DefaultTabs(2));
    TerminalTape.OpenedShowsLastRows(loc, 2, 2, [0x0a, 0x78]);
    assert Sized(t);
    assert forall i :: 0 <= i < 2 ==> t.rows[i].chars == TerminalRuns.Cells(t)[i];
    hide Inv;
  }

  /** The state of the search when the rows from `from` on have been looked at. */
  ghost predicate FoundBelow(rows: seq<Row>, ncol: nat, from: nat, maxrow: nat, maxcol: nat)
    requires forall i :: 0 <= i < |rows| ==> |rows[i].chars| == ncol
  {
    && maxrow < |rows| && maxcol < ncol
    && (forall i, j :: from <= i < |rows| && 1 <= j < ncol && Inked(rows, i, j) ==> i <= maxrow && j <= maxcol)
    && (maxcol > 0 ==> maxrow >= from && exists i :: 0 <= i < |rows| && Inked(rows, i, maxcol))
    && (maxcol == 0 ==> maxrow == 0)
    && (maxrow > 0 ==> exists j :: 1 <= j < ncol && Inked(rows, maxrow, j))
  }

  /** The inner loop: the last ink of the row to the right of maxcol, or maxcol. */
  method FindInk(vt: Tmt, line: nat, maxcol: nat) returns (idx: nat)
    requires vt.Valid() && Sized(vt.Model()) && line < vt.nline && maxcol < vt.ncol
    ensures maxcol <= idx < vt.ncol
    ensures idx > maxcol ==> Inked(vt.grid, line, idx)
    ensures forall j :: idx < j < vt.ncol ==> !Inked(vt.grid, line, j)
  {
    assert vt.lines[line].chars == vt.grid[line].chars;
    idx := vt.ncol - 1;
    while idx > maxcol
      invariant maxcol <= idx < vt.ncol
      invariant forall j :: idx < j < vt.ncol ==> !Inked(vt.grid, line, j)
    {
      if vt.lines[line].chars[idx].c != SPACE {
        return;
      }
      idx := idx - 1;
    }
  }

  method FindExtent(vt: Tmt) returns (maxrow: nat, maxcol: nat)
    requires vt.Valid() && Sized(vt.Model())
    ensures Extent(vt.grid, vt.ncol, maxrow, maxcol)
  {
    maxcol := 0;
    maxrow := 0;
    var line: int := vt.nline - 1;
    while line >= 0
      invariant -1 <= line < vt.nline
      invariant FoundBelow(vt.grid, vt.ncol, line + 1, maxrow, maxcol)
    {
      var idx: int := FindInk(vt, line, maxcol);
      ghost var c0, r0 := maxcol, maxrow;
      if idx > maxcol {
        if maxrow < line {
          maxrow := line;
        }
        maxcol := idx;
      }
      line := line - 1;
    }
  }

  // ----- the dump -----

  /** Rows 0 to n-1 up to column w. */
  function Box(rows: seq<Row>, n: nat, w: nat): seq<seq<Cell>>
    requires n <= |rows| && forall i :: 0 <= i < n ==> w <= |rows[i].chars|
  {
    seq(n, i requires 0 <= i < n => rows[i].chars[..w])
  }

  ghost predicate Printing(lines: seq<seq<Cell>>) {
    forall i, j :: 0 <= i < |lines| && 0 <= j < |lines[i]| ==> IsPrinting(lines[i][j].c)
  }

  /** The reader's state when the lines before the current one are done. */
  function Midway(attrs: Attrs, lines: seq<seq<Cell>>, current: seq<Cell>): Viewer {
    Viewer(Plain, [], attrs, lines + [current], |current|, [])
  }

  /** The cells of a row that show. */
  function Visible(row: seq<Cell>): seq<Cell> {
    if row == [] then []
    else
      var cell := row[|row| - 1];
      Visible(row[..|row| - 1]) + if IsPrinting(cell.c) then [cell] else []
  }

  lemma {:induction false} AllVisible(row: seq<Cell>)
    requires forall j :: 0 <= j < |row| ==> IsPrinting(row[j].c)
    ensures Visible(row) == row
  {
    hide IsPrinting;
    if row != [] {
      AllVisible(row[..|row| - 1]);
    }
  }

  /** One cell read: the line grows by exactly that cell, if it shows. */
  lemma CellGrowsLine(out: Text, was: Attrs, lines: seq<seq<Cell>>, current: seq<Cell>, sgrline: Text, cell: Cell)
    requires ReadAll(FreshViewer(), out) == Midway(was, lines, current)
    requires SgrText(sgrline, Codes(was, cell.a)) && Harmless(cell.c)
    ensures ReadAll(FreshViewer(), out + CellText(sgrline, cell.c))
         == Midway(cell.a, lines, if IsPrinting(cell.c) then current + [cell] else current)
  {
    hide ReadAll, SgrText, Codes, CellText, Print;
    var v := Midway(was, lines, current);
    ReadAppend(FreshViewer(), out, CellText(sgrline, cell.c));
    CellIsRead(v, sgrline, Codes(was, cell.a), cell.c);
    CodesChangeAttrs(was, cell.a);
    var v1 := v.(attrs := cell.a);
    PrintAppends(v1, cell.c);
    assert v1.lines[..|lines|] == lines;
  }

  lemma VisibleStep(row: seq<Cell>, idx: nat)
    requires idx < |row|
    ensures Visible(row[..0]) == []
    ensures Visible(row[..idx + 1])
         == if IsPrinting(row[idx].c) then Visible(row[..idx]) + [row[idx]] else Visible(row[..idx])
  {
    hide IsPrinting;
    assert row[..idx + 1][..idx] == row[..idx];
  }

  /** The same within a row. */
  lemma CellGrowsRow(out: Text, was: Attrs, lines: seq<seq<Cell>>, row: seq<Cell>, idx: nat, sgrline: Text)
    requires idx < |row| && ReadAll(FreshViewer(), out) == Midway(was, lines, Visible(row[..idx]))
    requires SgrText(sgrline, Codes(was, row[idx].a)) && Harmless(row[idx].c)
    ensures ReadAll(FreshViewer(), out + CellText(sgrline, row[idx].c))
         == Midway(row[idx].a, lines, Visible(row[..idx + 1]))
  {
    VisibleStep(row, idx);
    hide *;
    CellGrowsLine(out, was, lines, Visible(row[..idx]), sgrline, row[idx]);
  }

  predicate HarmlessRow(row: seq<Cell>, w: nat)
    requires w <= |row|
  {
    forall j :: 0 <= j < w ==> Harmless(row[j].c)
  }

  lemma NoCells(row: seq<Cell>)
    ensures Visible(row[..0]) == []
  {
  }

  /** A row of the box, lines 101-173. */
  method DumpRow(vt: Tmt, line: nat, w: nat, out0: Text, shown0: Attrs, ghost lines: seq<seq<Cell>>, ghost ok: bool)
    returns (out: Text, shown: Attrs)
    requires vt.Valid() && Sized(vt.Model()) && line < vt.nline && w <= vt.ncol
    requires ok ==> ReadAll(FreshViewer(), out0) == Midway(shown0, lines, [])
    requires ok ==> HarmlessRow(vt.grid[line].chars, w)
    ensures ok ==> ReadAll(FreshViewer(), out) == Midway(shown, lines, Visible(vt.grid[line].chars[..w]))
    ensures |out0| <= |out| && out[..|out0|] == out0
  {
    assert vt.lines[line].chars == vt.grid[line].chars;
    hide ReadAll, SgrText, Codes, CellText, Midway, Sized, Visible;
    out, shown := out0, shown0;
    ghost var row := vt.grid[line].chars;
    assert Visible(row[..0]) == [] by { NoCells(row); }
    for idx := 0 to w
      invariant ok ==> ReadAll(FreshViewer(), out) == Midway(shown, lines, Visible(row[..idx]))
      invariant |out0| <= |out| && out[..|out0|] == out0
    {
      var cell := vt.lines[line].chars[idx];
      var sgrline := SgrLine(shown, cell.a);
      if ok {
        CellGrowsRow(out, shown, lines, row, idx, sgrline);
      }
      out := out + CellText(sgrline, cell.c);
      shown := cell.a;
    }
  }

  lemma LineEndIsRead(out: Text, attrs: Attrs, lines: seq<seq<Cell>>, current: seq<Cell>)
    requires ReadAll(FreshViewer(), out) == Midway(attrs, lines, current)
    ensures ReadAll(FreshViewer(), out + [0x0d, 0x0a]) == Midway(attrs, lines + [current], [])
  {
    hide ReadAll;
    var v := Midway(attrs, lines, current);
    ReadAppend(FreshViewer(), out, [0x0d, 0x0a]);
    ReadTwo(v, 0x0d, 0x0a);
  }

  lemma ParamsOfTwo(r: Size, c: Size)
    ensures Params([r, c]) == Decimal(r) + [0x3b] + Decimal(c)
  {
    hide Decimal;
    assert [r, c][..1] == [r];
    assert Params([r]) == Decimal(r);
  }

  lemma EmptyNumbers()
    ensures Numbers([]) == [0]
  {
  }

  lemma DigitsOnly(n: nat)
    ensures ParamChars(Widen(Decimal(n)))
  {
    forall i | 0 <= i < |Decimal(n)|
      ensures 0x30 <= Widen(Decimal(n))[i] <= SEMI
    {
      assert Decimal(n)[i] in Decimal(n);
    }
  }

  lemma TwoNumbers(r: Size, c: Size)
    ensures var s := Widen(Params([r, c])); Numbers(s) == [r, c] && ParamChars(s)
  {
    hide Numbers, Decimal, Params;
    ParamsOfTwo(r, c);
    assert Widen(Params([r, c])) == Item(r) + Widen(Decimal(c));
    assert Numbers([]) == [] + [0] by { EmptyNumbers(); }
    ItemIsRead([], [], r);
    assert [] + Item(r) == Item(r);
    assert Numbers(Item(r)) == [r, 0];
    NumberIsRead(Item(r), c);
    assert [r, 0][..1] == [r];
    DigitsOnly(r);
    DigitsOnly(c);
  }

  /** The cursor sequence is read as the two numbers printed into it. */
  lemma TailIsRead(v: Viewer, r: Size, c: Size)
    requires v.lines != [] && v.mode == Plain && v.params == []
    ensures ReadAll(v, Widen(Csi([r, c], 0x48))) == v.(cursor := [r, c])
  {
    hide ReadAll, Numbers, Decimal, Params;
    var s := Widen(Params([r, c]));
    TwoNumbers(r, c);
    ControlIsRead(v, s, 0x48);
    assert Widen(Csi([r, c], 0x48)) == [ESC, 0x5b] + s + [0x48];
  }

  lemma ExtentInside(rows: seq<Row>, ncol: nat, maxrow: nat, maxcol: nat)
    requires forall i :: 0 <= i < |rows| ==> |rows[i].chars| == ncol
    requires Extent(rows, ncol, maxrow, maxcol)
    ensures maxrow < |rows| && maxcol < ncol
  {
  }

  /** What the reader sees of rows 0 to n-1 up to column w. */
  function Seen(rows: seq<Row>, n: nat, w: nat): seq<seq<Cell>>
    requires n <= |rows| && forall i :: 0 <= i < n ==> w <= |rows[i].chars|
  {
    seq(n, i requires 0 <= i < n => Visible(rows[i].chars[..w]))
  }

  lemma SeenStep(rows: seq<Row>, n: nat, w: nat)
    requires n < |rows| && forall i :: 0 <= i <= n ==> w <= |rows[i].chars|
    ensures Seen(rows, n + 1, w) == Seen(rows, n, w) + [Visible(rows[n].chars[..w])]
    ensures Seen(rows, 0, w) == []
  {
    hide Visible;
  }

  predicate HarmlessRows(rows: seq<Row>, n: nat, w: nat)
    requires n <= |rows| && forall i :: 0 <= i < n ==> w <= |rows[i].chars|
  {
    forall i :: 0 <= i < n ==> HarmlessRow(rows[i].chars, w)
  }

  lemma HarmlessFront(rows: seq<Row>, n: nat, w: nat)
    requires n < |rows| && forall i :: 0 <= i <= n ==> w <= |rows[i].chars|
    ensures HarmlessRows(rows, n + 1, w) ==> HarmlessRows(rows, n, w) && HarmlessRow(rows[n].chars, w)
    ensures HarmlessRows(rows, 0, w)
  {
    hide HarmlessRow;
  }

  /** A box that prints throughout is seen as it is. */
  lemma PrintingIsSeen(rows: seq<Row>, n: nat, w: nat)
    requires n <= |rows| && forall i :: 0 <= i < n ==> w <= |rows[i].chars|
    requires Printing(Box(rows, n, w))
    ensures HarmlessRows(rows, n, w) && Seen(rows, n, w) == Box(rows, n, w)
  {
    hide Visible;
    var lines: seq<seq<Cell>> := Box(rows, n, w);
    forall i | 0 <= i < n
      ensures HarmlessRow(rows[i].chars, w) && Visible(rows[i].chars[..w]) == lines[i]
    {
      forall j | 0 <= j < w
        ensures IsPrinting(rows[i].chars[j].c)
      {
        assert IsPrinting(lines[i][j].c);
      }
      AllVisible(lines[i]);
    }
  }

  /** p characters into the text the reader has just these lines. */
  ghost predicate SeenAt(out: Text, p: nat, lines: seq<seq<Cell>>) {
    p <= |out| && var v := ReadAll(FreshViewer(), out[..p]); v.mode == Plain && v.lines == lines
  }

  ghost predicate IsSeen(out: Text, lines: seq<seq<Cell>>) { exists p: nat :: SeenAt(out, p, lines) }

  /** Each beginning of the first n rows that holds nothing harmful is seen. */
  ghost predicate RowsAreSeen(out: Text, rows: seq<Row>, n: nat, w: nat)
    requires n <= |rows| && forall i :: 0 <= i < n ==> w <= |rows[i].chars|
  {
    forall k :: 0 < k <= n && HarmlessRows(rows, k, w) ==> IsSeen(out, Seen(rows, k, w))
  }

  lemma SeenLater(out: Text, out': Text, lines: seq<seq<Cell>>)
    requires IsSeen(out, lines) && |out| <= |out'| && out'[..|out|] == out
    ensures IsSeen(out', lines)
  {
    hide ReadAll;
    var p: nat :| SeenAt(out, p, lines);
    assert out'[..p] == out[..p];
    assert SeenAt(out', p, lines);
  }

  lemma SeenNow(out: Text, attrs: Attrs, lines: seq<seq<Cell>>, current: seq<Cell>)
    requires ReadAll(FreshViewer(), out) == Midway(attrs, lines, current)
    ensures IsSeen(out, lines + [current])
  {
    hide ReadAll;
    assert out[..|out|] == out;
    assert SeenAt(out, |out|, lines + [current]);
  }

  lemma DumpStarts()
    ensures ReadAll(FreshViewer(), [ESC, 0x63]) == Midway(DefAttrs(), [], [])
  {
    ReadTwo(FreshViewer(), ESC, 0x63);
  }

  lemma MidwayParts(attrs: Attrs, lines: seq<seq<Cell>>, current: seq<Cell>)
    ensures var v := Midway(attrs, lines, current);
            v.mode == Plain && v.params == [] && v.lines == lines + [current] && v.lines != []
  {
  }

  /** The rows of the box, after the reset that the dump begins with. */
  method DumpRows(vt: Tmt, maxrow: nat, w: nat) returns (out: Text, ghost shown: Attrs)
    requires vt.Valid() && Sized(vt.Model()) && maxrow < vt.nline && w <= vt.ncol
    ensures HarmlessRows(vt.grid, maxrow + 1, w) ==>
              ReadAll(FreshViewer(), out)
              == Midway(shown, Seen(vt.grid, maxrow, w), Visible(vt.grid[maxrow].chars[..w]))
    ensures RowsAreSeen(out, vt.grid, maxrow + 1, w)
  {
    hide ReadAll, Midway, Seen, HarmlessRows, HarmlessRow, IsSeen, Visible;
    ghost var grid := vt.grid;
    var attrs := DefAttrs();
    out := [ESC, 0x63];
    DumpStarts();
    SeenStep(grid, 0, w);
    HarmlessFront(grid, 0, w);
    for line := 0 to maxrow + 1
      invariant HarmlessRows(grid, line, w) && line <= maxrow ==>
        ReadAll(FreshViewer(), out) == Midway(attrs, Seen(grid, line, w), [])
      invariant HarmlessRows(grid, line, w) && line > maxrow ==>
        ReadAll(FreshViewer(), out) == Midway(attrs, Seen(grid, maxrow, w), Visible(grid[maxrow].chars[..w]))
      invariant forall k :: 0 < k <= line && HarmlessRows(grid, k, w) ==> IsSeen(out, Seen(grid, k, w))
    {
      HarmlessFront(grid, line, w);
      ghost var ok, before := HarmlessRows(grid, line + 1, w), out;
      out, attrs := DumpRow(vt, line, w, out, attrs, Seen(grid, line, w), ok);
      SeenStep(grid, line, w);
      if ok {
        SeenNow(out, attrs, Seen(grid, line, w), Visible(grid[line].chars[..w]));
      }
      ghost var row := out;
      if line < maxrow {
        if ok {
          LineEndIsRead(out, attrs, Seen(grid, line, w), Visible(grid[line].chars[..w]));
        }
        out := out + [0x0d, 0x0a];
      }
      forall k | 0 < k <= line + 1 && HarmlessRows(grid, k, w)
        ensures IsSeen(out, Seen(grid, k, w))
      {
        SeenLater(if k == line + 1 then row else before, out, Seen(grid, k, w));
      }
    }
    shown := attrs;
  }

  /** dump_vt. As long as no cell of the box holds ESC, CR or LF, the reader sees exactly its
      rows, each character that prints with exactly its attributes, and the cursor last; and
      rows above the first that holds one are seen all the same. */
  method DumpVt(vt: Tmt) returns (out: Text, maxrow: nat, maxcol: nat)
    requires vt.Valid() && Shape(vt.Model())
    requires vt.nline < 0x8000_0000 && vt.ncol < 0x8000_0000
    ensures Extent(vt.grid, vt.ncol, maxrow, maxcol)
    ensures RowsAreSeen(out, vt.grid, maxrow + 1, maxcol + 1)
    ensures HarmlessRows(vt.grid, maxrow + 1, maxcol + 1) ==>
              var v := ReadAll(FreshViewer(), out);
              && v.mode == Plain
              && v.lines == Seen(vt.grid, maxrow + 1, maxcol + 1)
              && v.cursor == [vt.curs.r + 1, vt.curs.c + 1]
    ensures Printing(Box(vt.grid, maxrow + 1, maxcol + 1)) ==>
              ReadAll(FreshViewer(), out).lines == Box(vt.grid, maxrow + 1, maxcol + 1)
    ensures var tail := Widen(Csi([vt.curs.r + 1, vt.curs.c + 1], 0x48));
            |tail| <= |out| && out[|out| - |tail|..] == tail
  {
    hide ReadAll, Printing, Extent, Box, Midway, Csi, Seen, HarmlessRows, HarmlessRow, IsSeen, Visible;
    maxrow, maxcol := FindExtent(vt);
    ExtentInside(vt.grid, vt.ncol, maxrow, maxcol);
    ghost var grid, w := vt.grid, maxcol + 1;
    ghost var shown: Attrs;
    out, shown := DumpRows(vt, maxrow, maxcol + 1);
    SeenStep(grid, maxrow, w);
    ghost var body := out;
    var tail := Widen(Csi([vt.curs.r + 1, vt.curs.c + 1], 0x48));
    out := out + tail;
    if HarmlessRows(grid, maxrow + 1, w) {
      ReadAppend(FreshViewer(), body, tail);
      MidwayParts(shown, Seen(grid, maxrow, w), Visible(grid[maxrow].chars[..w]));
      TailIsRead(ReadAll(FreshViewer(), body), vt.curs.r + 1, vt.curs.c + 1);
    }
    forall k | 0 < k <= maxrow + 1 && HarmlessRows(grid, k, w)
      ensures IsSeen(out, Seen(grid, k, w))
    {
      SeenLater(body, out, Seen(grid, k, w));
    }
    if Printing(Box(grid, maxrow + 1, w)) {
      PrintingIsSeen(grid, maxrow + 1, w);
    }
  }
}

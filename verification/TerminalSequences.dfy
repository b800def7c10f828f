/** Whole escape sequences fed byte by byte: the parameter machine of lines 249-304 of
    tmt.c reads back exactly the decimal numbers that were printed into the sequence. */
module TerminalSequences {
  import opened Common
  import opened TerminalModel

  /** %ld: the decimal digits of n. */
  function Decimal(n: nat): (s: seq<Byte>)
    ensures |s| >= 1 && forall b :: b in s ==> IsDigit(b)
  {
    (if n < 10 then [] else Decimal(n / 10)) + [(0x30 + n % 10) as Byte]
  }

  /** Parameters printed with semicolons between them. */
  function Params(ps: seq<Size>): seq<Byte> {
    if ps == [] then []
    else if |ps| == 1 then Decimal(ps[0])
    else Params(ps[..|ps| - 1]) + [0x3b] + Decimal(ps[|ps| - 1])
  }

  /** ESC [ parameters final */
  function Csi(ps: seq<Size>, final: Byte): seq<Byte> {
    [0x1b, 0x5b] + Params(ps) + [final]
  }

  lemma {:induction false} WriteAppend(loc: Locale, t: Term, a: seq<Byte>, b: seq<Byte>)
    requires Inv(t)
    ensures Write(loc, t, a + b) == Write(loc, Write(loc, t, a), b)
  {
    hide Feed, Inv;
    if b == [] {
      assert a + b == a;
    } else {
      WriteAppend(loc, t, a, b[..|b| - 1]);
      assert (a + b)[..|a + b| - 1] == a + b[..|b| - 1];
    }
  }

  lemma WriteOne(loc: Locale, t: Term, b: Byte)
    requires Inv(t)
    ensures Write(loc, t, [b]) == Feed(loc, t, b)
  {
    hide Feed, Inv;
    assert Write(loc, t, []) == t;
    assert [b][..0] == [];
  }

  lemma WriteSnoc(loc: Locale, t: Term, a: seq<Byte>, b: Byte)
    requires Inv(t)
    ensures Write(loc, t, a + [b]) == Feed(loc, Write(loc, t, a), b)
  {
    hide Feed, Inv;
    WriteAppend(loc, t, a, [b]);
    WriteOne(loc, Write(loc, t, a), b);
  }

  /** The terminal while a sequence is being read: the parameters stored so far, and the
      argument being accumulated. Only the first eight parameters are kept. */
  function Reading(t: Term, stored: seq<Size>, arg: Size): (t': Term)
    ensures Shape(t) ==> Inv(t')
  {
    t.(state := Arguments, arg := arg, npar := Min(8, |stored|),
       pars := seq(8, i requires 0 <= i < 8 => if i < |stored| then stored[i] else 0))
  }

  lemma DigitIsRead(loc: Locale, t: Term, stored: seq<Size>, arg: Size, b: Byte)
    requires Inv(t) && IsDigit(b)
    ensures Feed(loc, Reading(t, stored, arg), b) == Reading(t, stored, NextArg(arg, b))
  {
    hide NextArg, Shape;
  }

  lemma SemicolonStores(loc: Locale, t: Term, stored: seq<Size>, arg: Size)
    requires Inv(t)
    ensures ConsumeArg(Reading(t, stored, arg)) == Reading(t, stored + [arg], 0)
    ensures Feed(loc, Reading(t, stored, arg), 0x3b) == Reading(t, stored + [arg], 0)
  {
    var u := ConsumeArg(Reading(t, stored, arg));
    assert u.pars == Reading(t, stored + [arg], 0).pars;
  }

  /** The last digit of n, and what is left of it. */
  lemma DecimalStep(n: Size) returns (q: Size, digit: Byte)
    ensures IsDigit(digit) && NextArg(q, digit) == n
    ensures Decimal(n) == (if n < 10 then [] else Decimal(q)) + [digit]
    ensures if n < 10 then q == 0 else q < n
  {
    q, digit := n / 10, (0x30 + n % 10) as Byte;
    assert n / 10 * 10 + n % 10 == n;
  }

  lemma InvIsShape(t: Term)
    requires Inv(t)
    ensures Shape(t) && (t.state == Ground ==> !t.ignored)
  {
  }

  /** The digits of n, read from a zero argument, give n. */
  lemma {:induction false} DecimalIsRead(loc: Locale, t: Term, stored: seq<Size>, n: Size)
    requires Inv(t)
    ensures Write(loc, Reading(t, stored, 0), Decimal(n)) == Reading(t, stored, n)
    decreases n
  {
    hide Feed, Write, NextArg, Inv, Reading, Decimal;
    var t0 := Reading(t, stored, 0);
    assert Inv(t0) by { InvIsShape(t); }
    var q, digit := DecimalStep(n);
    DigitIsRead(loc, t, stored, q, digit);
    if n < 10 {
      WriteOne(loc, t0, digit);
      assert Decimal(n) == [digit];
    } else {
      DecimalIsRead(loc, t, stored, q);
      WriteSnoc(loc, t0, Decimal(q), digit);
    }
  }

  lemma {:induction false} ParamsAreRead(loc: Locale, t: Term, ps: seq<Size>)
    requires Inv(t) && ps != []
    ensures Write(loc, Reading(t, [], 0), Params(ps)) == Reading(t, ps[..|ps| - 1], ps[|ps| - 1])
  {
    hide Feed, Inv, Reading, Decimal;
    var front, last := ps[..|ps| - 1], ps[|ps| - 1];
    var t0 := Reading(t, [], 0);
    assert Inv(t0) by { InvIsShape(t); }
    if |ps| == 1 {
      assert front == [];
      DecimalIsRead(loc, t, [], last);
    } else {
      ParamsAreRead(loc, t, front);
      WriteSnoc(loc, t0, Params(front), 0x3b);
      SemicolonStores(loc, t, front[..|front| - 1], front[|front| - 1]);
      assert front[..|front| - 1] + [front[|front| - 1]] == front;
      WriteAppend(loc, t0, Params(front) + [0x3b], Decimal(last));
      DecimalIsRead(loc, t, front, last);
    }
  }

  lemma IntroducerIsRead(loc: Locale, t: Term)
    requires Inv(t) && t.state == Ground
    ensures Write(loc, t, [0x1b, 0x5b]) == Reading(t, [], 0)
  {
    WriteOne(loc, t, 0x1b);
    WriteSnoc(loc, t, [0x1b], 0x5b);
    assert [0x1b, 0x5b] == [0x1b] + [0x5b];
    hide Shape;
    assert Feed(loc, t, 0x1b) == t.(state := Escape);
    assert Feed(loc, t.(state := Escape), 0x5b) == t.(state := Arguments);
    assert Reading(t, [], 0).pars == NoPars();
  }

  lemma NoParams()
    ensures Params([]) == []
  {
  }

  lemma FinalCompletes(loc: Locale, t: Term, stored: seq<Size>, arg: Size, final: Byte)
    requires Inv(t) && EndsArguments(final) && !t.ignored
    ensures Feed(loc, Reading(t, stored, arg), final)
         == ResetParser(FixCursor(ArgumentAction(Reading(t, stored + [arg], 0), final)))
  {
    hide ArgumentAction, ResetParser, FixCursor, ConsumeArg, Shape;
    SemicolonStores(loc, t, stored, arg);
    assert Feed(loc, Reading(t, stored, arg), final) == Complete(Reading(t, stored, arg), final);
  }

  /** A control sequence delivers its parameters: whatever numbers are printed into it,
      the action runs with exactly those numbers (an empty list counts as one zero, and
      of more than eight the first eight are kept), and the parser is at rest again. */
  lemma SequenceDelivers(loc: Locale, t: Term, ps: seq<Size>, final: Byte)
    requires Inv(t) && t.state == Ground && EndsArguments(final)
    ensures Write(loc, t, Csi(ps, final))
         == ResetParser(FixCursor(ArgumentAction(Reading(t, if ps == [] then [0] else ps, 0), final)))
  {
    hide Reading, ArgumentAction, ResetParser, FixCursor, Params, Write, Feed, Inv;
    InvIsShape(t);
    hide Shape;
    IntroducerIsRead(loc, t);
    WriteAppend(loc, t, [0x1b, 0x5b], Params(ps));
    WriteSnoc(loc, t, [0x1b, 0x5b] + Params(ps), final);
    var front := if ps == [] then [] else ps[..|ps| - 1];
    var last: Size := if ps == [] then 0 else ps[|ps| - 1];
    if ps == [] {
      assert Params(ps) == [] by { NoParams(); }
      assert [0x1b, 0x5b] + [] == [0x1b, 0x5b];
    } else {
      ParamsAreRead(loc, t, ps);
    }
    assert front + [last] == if ps == [] then [0] else ps;
    FinalCompletes(loc, t, front, last, final);
  }

  /** The cursor sequence dump_vt ends with, "\x1b[%ld;%ldH", puts the cursor exactly on
      the printed position and changes nothing else. */
  lemma CursorIsRestored(loc: Locale, t: Term, p: Point)
    requires Inv(t) && t.state == Ground && p.r < |t.rows| && p.c < t.ncol
    ensures Write(loc, t, Csi([p.r + 1, p.c + 1], 0x48)) == t.(curs := p)
  {
    hide Write, Csi;
    SequenceDelivers(loc, t, [p.r + 1, p.c + 1], 0x48);
  }

  /** CUP clips to the screen: for any row and column numbers, zero counting as one. */
  lemma CursorPositionClips(loc: Locale, t: Term, r: Size, c: Size)
    requires Inv(t) && t.state == Ground
    ensures Write(loc, t, Csi([r, c], 0x48))
         == t.(curs := Point(Min(if r == 0 then 0 else r - 1, |t.rows| - 1),
                             Min(if c == 0 then 0 else c - 1, t.ncol - 1)))
  {
    hide Write, Csi;
    SequenceDelivers(loc, t, [r, c], 0x48);
  }

  /** CUU with n rows, zero counting as one: n rows up, with the same column. Past the top the
      subtraction wraps, and the cursor lands on the LAST row, for all n that leave the wrapped
      row at or below it. */
  lemma CursorUpLands(loc: Locale, t: Term, n: Size)
    requires Inv(t) && t.state == Ground
    ensures var p, last := if n == 0 then 1 else n, |t.rows| - 1;
      Write(loc, t, Csi([n], 0x41))
        == t.(curs := Point(if p <= t.curs.r then t.curs.r - p
                            else if p - t.curs.r <= 0x1_0000_0000_0000_0000 - last then last
                            else t.curs.r + 0x1_0000_0000_0000_0000 - p, t.curs.c))
  {
    hide Write, Csi;
    SequenceDelivers(loc, t, [n], 0x41);
  }

  /** CUB with n columns: n columns back, and past the left edge no move at all. */
  lemma CursorBackLands(loc: Locale, t: Term, n: Size)
    requires Inv(t) && t.state == Ground
    ensures var p := if n == 0 then 1 else n;
      Write(loc, t, Csi([n], 0x44)) == if p <= t.curs.c then t.(curs := Point(t.curs.r, t.curs.c - p)) else t
  {
    hide Write, Csi;
    SequenceDelivers(loc, t, [n], 0x44);
  }

  /** CUD with n rows stops at the last row; a sum that does not fit a size_t wraps, and the
      cursor goes up to where it wraps to, if that is on the screen. */
  lemma CursorDownLands(loc: Locale, t: Term, n: Size)
    requires Inv(t) && t.state == Ground
    ensures var p, last, size := if n == 0 then 1 else n, |t.rows| - 1, 0x1_0000_0000_0000_0000;
      Write(loc, t, Csi([n], 0x42))
        == t.(curs := Point(Min(if t.curs.r + p < size then t.curs.r + p else t.curs.r + p - size, last), t.curs.c))
  {
    hide Write, Csi;
    SequenceDelivers(loc, t, [n], 0x42);
  }

  /** CUD undoes CUU exactly when there were that many rows above the cursor, when neither
      moved it off the last row, or when both sums wrap to the same row. */
  lemma DownUndoesUp(loc: Locale, t: Term, n: Size)
    requires Inv(t) && t.state == Ground
    ensures var p, r, last, size := if n == 0 then 1 else n, t.curs.r, |t.rows| - 1, 0x1_0000_0000_0000_0000;
      Write(loc, t, Csi([n], 0x41) + Csi([n], 0x42)) == t
      <==> p <= r || (r == last && r + p < size) || p - r >= size - last
  {
    hide Write, Csi;
    WriteAppend(loc, t, Csi([n], 0x41), Csi([n], 0x42));
    CursorUpLands(loc, t, n);
    CursorDownLands(loc, Write(loc, t, Csi([n], 0x41)), n);
  }

  /** The screen keeps its size and the parser its state. */
  ghost predicate SameFrame(t: Term, u: Term) {
    |u.rows| == |t.rows| && u.ncol == t.ncol && u.state == t.state && u.ignored == t.ignored
  }

  lemma PutKeepsFrame(t: Term, w: int)
    requires Shape(t)
    ensures SameFrame(t, Put(t, w))
  {
  }

  lemma AppendKeepsInv(t: Term, b: Byte)
    requires Inv(t) && |t.mb| < 100
    ensures Inv(t.(mb := t.mb + [b]))
  {
  }

  lemma PutPendingKeepsFrame(loc: Locale, t: Term)
    requires Inv(t)
    ensures SameFrame(t, PutPending(loc, t))
  {
    hide Put;
    var d := loc.decode(t.ms, t.mb);
    PutKeepsFrame(t.(ms := d.ms, mb := []), if d.Whole? then d.c else INVALID_CHAR);
  }

  lemma TextKeepsFrame(loc: Locale, t: Term, b: Byte)
    requires Inv(t)
    ensures SameFrame(t, Text(loc, t, b))
  {
    hide Put, Tacs, DecChar, Shape;
    var d := loc.decode(t.ms, t.mb);
    assert Shape(t) by { InvIsShape(t); }
    PutKeepsFrame(t, Tacs(loc.acschars, b));
    PutKeepsFrame(t, DecChar(b));
    PutPendingKeepsFrame(loc, t);
    if !t.acs && !t.decdraw && |t.mb| < 100 {
      hide PutPending;
      var t1 := if Pending(loc, t).Bad? then PutPending(loc, t)
                else if Pending(loc, t).Partial? then t.(mb := t.mb + [b]) else t;
      assert Inv(t1) by { AppendKeepsInv(t, b); }
      PutPendingKeepsFrame(loc, t1);
    }
  }

  lemma CharsetIsText(loc: Locale, t: Term)
    requires Inv(t) && t.state == Charset
    ensures Inv(ResetParser(t))
    ensures var u := Text(loc, ResetParser(t), 0x1b);
      Feed(loc, t, 0x1b) == u && u.state == Ground && Inv(ResetParser(u))
      && Feed(loc, u, 0x63) == Text(loc, ResetParser(u), 0x63)
  {
    hide Text, Shape, Handle;
    assert Inv(ResetParser(t)) by { InvIsShape(t); }
    TextKeepsFrame(loc, ResetParser(t), 0x1b);
    var u := Text(loc, ResetParser(t), 0x1b);
    assert Inv(ResetParser(u)) by { InvIsShape(u); }
  }

  lemma EscapeStarts(loc: Locale, t: Term)
    requires Inv(t) && t.state != Charset
    ensures var t1 := t.(state := Escape);
            Inv(t1) && Feed(loc, t, 0x1b) == t1 && Feed(loc, t1, 0x63) == Complete(t1, 0x63)
  {
    hide Text, EscapeAction;
    assert Inv(t.(state := Escape));
  }

  lemma EscapeC(t: Term)
    requires Shape(t)
    ensures EscapeAction(t, 0x63) == Reset(t)
  {
  }

  lemma FixedAlready(t: Term)
    requires Shape(t)
    ensures FixCursor(t) == t
  {
  }

  /** Reset depends only on the size, the tab stops, the line-drawing switch, the undecoded
      bytes and the screen's dirty flag. */
  lemma ResetForgets(t: Term, u: Term)
    requires Sized(t) && Sized(u)
    requires t.ncol == u.ncol && t.rows == u.rows && t.tabs == u.tabs
    requires t.decdraw == u.decdraw && t.mb == u.mb && t.dirty == u.dirty
    ensures Reset(t) == Reset(u)
    ensures ResetParser(FixCursor(Reset(u))) == Reset(u)
  {
  }

  lemma ResetCompletes(t1: Term)
    requires Inv(t1) && t1.state == Escape
    ensures Complete(t1, 0x63) == if t1.ignored then ResetParser(t1) else Reset(t1)
  {
    hide Reset, Text, Shape, EscapeAction;
    var t2 := ConsumeArg(t1);
    if !t1.ignored {
      assert Sized(t1) by { InvIsShape(t1); }
      ResetForgets(t1, t2);
      EscapeC(t2);
    } else {
      FixedAlready(t2);
    }
  }

  /** What ESC c does, from any state: it resets, but for two cases. In an ignored sequence,
      after ESC *, ESC + or ESC ), only the parser starts over; in a character-set sequence
      the two bytes are text. */
  lemma ResetIsRead(loc: Locale, t: Term)
    requires Inv(t)
    ensures Write(loc, t, [0x1b, 0x63])
         == if t.state == Charset then Text(loc, ResetParser(Text(loc, ResetParser(t), 0x1b)), 0x63)
            else if t.ignored then ResetParser(t)
            else Reset(t)
  {
    hide Reset, Write, Feed, Complete, Text;
    WriteOne(loc, t, 0x1b);
    WriteSnoc(loc, t, [0x1b], 0x63);
    assert [0x1b, 0x63] == [0x1b] + [0x63];
    if t.state == Charset {
      CharsetIsText(loc, t);
    } else {
      var t1 := t.(state := Escape);
      EscapeStarts(loc, t);
      ResetCompletes(t1);
      assert Sized(t) by { InvIsShape(t); }
      ResetForgets(t, t1);
    }
  }

  lemma PutLeavesHome(t: Term, w: int)
    requires Shape(t)
    ensures Put(t, w).curs != Point(0, 0)
  {
  }

  lemma PutPendingLeavesHome(loc: Locale, t: Term)
    requires Inv(t)
    ensures PutPending(loc, t).curs != Point(0, 0)
  {
    hide Put;
    assert Shape(t) by { InvIsShape(t); }
    var d := loc.decode(t.ms, t.mb);
    PutLeavesHome(t.(ms := d.ms, mb := []), if d.Whole? then d.c else INVALID_CHAR);
  }

  /** Text leaves the cursor off the top left corner, or is stored and shows nothing. */
  lemma TextMovesOrStores(loc: Locale, t: Term, b: Byte)
    requires Inv(t)
    ensures var u := Text(loc, t, b);
      u.curs != Point(0, 0) || (u.curs == t.curs && |u.mb| == |t.mb| + 1)
  {
    hide Put, Tacs, DecChar, Shape;
    assert Shape(t) by { InvIsShape(t); }
    PutLeavesHome(t, Tacs(loc.acschars, b));
    PutLeavesHome(t, DecChar(b));
    PutPendingLeavesHome(loc, t);
    if !t.acs && !t.decdraw && |t.mb| < 100 {
      hide PutPending;
      var t1 := if Pending(loc, t).Bad? then PutPending(loc, t)
                else if Pending(loc, t).Partial? then t.(mb := t.mb + [b]) else t;
      assert Inv(t1) by { AppendKeepsInv(t, b); }
      PutPendingLeavesHome(loc, t1);
    }
  }

  /** From a character-set sequence the result is never a reset terminal. */
  lemma CharsetMissesReset(loc: Locale, t: Term)
    requires Inv(t) && t.state == Charset
    ensures Write(loc, t, [0x1b, 0x63]) != Reset(t)
  {
    ResetIsRead(loc, t);
    CharsetIsText(loc, t);
    hide Text, Write, Inv;
    var u := Text(loc, ResetParser(t), 0x1b);
    TextMovesOrStores(loc, ResetParser(t), 0x1b);
    TextMovesOrStores(loc, ResetParser(u), 0x63);
    assert Sized(t) by { InvIsShape(t); }
  }

  /** There is nothing that a reset would change, the parser aside. */
  ghost predicate AtReset(t: Term) {
    && t.curs == Point(0, 0) && t.oldcurs == Point(0, 0) && t.attrs == DefAttrs() && t.oldattrs == DefAttrs()
    && !t.acs && t.ms == 0 && t.dirty && forall i :: 0 <= i < |t.rows| ==> t.rows[i] == BlankRow(t.ncol)
  }

  lemma ResetChangesNothing(t: Term)
    requires Sized(t)
    ensures ResetParser(t) == Reset(t) <==> AtReset(t)
  {
    var u := Reset(t);
    assert forall i :: 0 <= i < |t.rows| ==> u.rows[i] == BlankRow(t.ncol);
    if AtReset(t) {
      assert u.rows == t.rows;
    }
  }

  /** Exactly when ESC c leaves the terminal reset: outside character-set sequences, when no
      sequence is being ignored or there is nothing to reset: both cursors home, default
      attributes, and a blank screen with every row marked. */
  lemma ResetIsReadExactly(loc: Locale, t: Term)
    requires Inv(t)
    ensures Sized(t)
    ensures Write(loc, t, [0x1b, 0x63]) == Reset(t) <==> t.state != Charset && (!t.ignored || AtReset(t))
  {
    hide Write, Reset, Text, ResetParser, AtReset;
    InvIsShape(t);
    ResetIsRead(loc, t);
    if t.state == Charset {
      CharsetMissesReset(loc, t);
    } else {
      ResetChangesNothing(t);
    }
  }

  lemma OpenedIsGround(h: Size, w: Size)
    requires h >= 2 && w >= 2
    ensures Opened(h, w).state == Ground
  {
  }

  /** A terminal that has been opened and sent ESC ( ESC c: for every locale and size. */
  lemma ResetIsMissedAfterOpening(loc: Locale, h: Size, w: Size)
    requires h >= 2 && w >= 2
    ensures var t := Write(loc, Opened(h, w), [0x1b, 0x28]);
      Inv(t) && Sized(t) && t.state == Charset && Write(loc, t, [0x1b, 0x63]) != Reset(t)
  {
    hide Opened, Reset, Write, Text;
    var t0 := Opened(h, w);
    assert t0.state == Ground by { OpenedIsGround(h, w); }
    WriteOne(loc, t0, 0x1b);
    WriteSnoc(loc, t0, [0x1b], 0x28);
    assert [0x1b, 0x28] == [0x1b] + [0x28];
    var t := Write(loc, t0, [0x1b, 0x28]);
    InvIsShape(t);
    CharsetMissesReset(loc, t);
  }

  lemma ResetKeepsSize(t: Term)
    requires Sized(t)
    ensures |Reset(t).rows| == |t.rows| && Reset(t).ncol == t.ncol
    ensures Reset(t).state == Ground && !Reset(t).ignored
  {
  }

  lemma CharsetPrintsReset(loc: Locale, t: Term)
    requires Inv(t) && t.state == Charset
    ensures var u := Write(loc, t, [0x1b, 0x63]);
            u.state == Ground && !u.ignored && |u.rows| == |t.rows| && u.ncol == t.ncol
  {
    ResetIsRead(loc, t);
    CharsetIsText(loc, t);
    hide Text, Write, Inv;
    var u := Text(loc, ResetParser(t), 0x1b);
    TextKeepsFrame(loc, ResetParser(t), 0x1b);
    TextKeepsFrame(loc, ResetParser(u), 0x63);
  }

  /** From every state two of them are enough. */
  lemma SecondResetWorks(loc: Locale, t: Term)
    requires Inv(t)
    ensures exists u :: Inv(u) && |u.rows| == |t.rows| && u.ncol == t.ncol
                        && Write(loc, t, [0x1b, 0x63, 0x1b, 0x63]) == Reset(u)
  {
    hide Reset, Write, Feed, Shape;
    var u := Write(loc, t, [0x1b, 0x63]);
    assert [0x1b, 0x63, 0x1b, 0x63] == [0x1b, 0x63] + [0x1b, 0x63];
    WriteAppend(loc, t, [0x1b, 0x63], [0x1b, 0x63]);
    if t.state == Charset {
      CharsetPrintsReset(loc, t);
    } else {
      ResetIsRead(loc, t);
      assert Sized(t) by { InvIsShape(t); }
      ResetKeepsSize(t);
    }
    ResetIsRead(loc, u);
    assert Inv(u);
  }
}

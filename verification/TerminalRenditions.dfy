/** What sgr of tmt.c (lines 213-234) makes of a whole control sequence, said by the reader of
    ECMA-48 in module ScreenDump, section 8.3.117. */
module TerminalRenditions {
  import opened TerminalModel
  import opened TerminalSequences
  import opened ScreenDump

  /** One parameter. Where ECMA-48 turns bold and dim off with 22, the terminal turns off bold
      with 22 and dim with 23. */
  function Meaning(a: Attrs, p: nat): Attrs {
    if p == 22 then a.(bold := false)
    else if p == 23 then a.(dim := false)
    else Rendition(a, p)
  }

  function Meanings(a: Attrs, ps: seq<nat>): Attrs {
    if ps == [] then a else Meaning(Meanings(a, ps[..|ps| - 1]), ps[|ps| - 1])
  }

  /** 11 turns the alternate character set on and 10 off: the last of them decides. */
  function AcsAfter(was: bool, ps: seq<nat>): bool {
    if ps == [] then was
    else if ps[|ps| - 1] == 11 then true
    else if ps[|ps| - 1] == 10 then false
    else AcsAfter(was, ps[..|ps| - 1])
  }

  lemma ColorIsPalette(p: Size)
    ensures 30 <= p <= 37 ==> ColorOf(p) == Palette(p - 30)
    ensures 40 <= p <= 47 ==> ColorOf(p) == Palette(p - 40)
  {
  }

  lemma OneCode(a: Attrs, acs: bool, p: Size)
    ensures SgrOne(a, acs, p) == (Meaning(a, p), if p == 11 then true else if p == 10 then false else acs)
  {
    hide ColorOf, Palette;
    ColorIsPalette(p);
  }

  lemma {:induction false} AllCodes(a: Attrs, acs: bool, ps: seq<Size>)
    ensures SgrAll(a, acs, ps) == (Meanings(a, ps), AcsAfter(acs, ps))
  {
    hide SgrOne, Meaning;
    if ps != [] {
      AllCodes(a, acs, ps[..|ps| - 1]);
      OneCode(Meanings(a, ps[..|ps| - 1]), AcsAfter(acs, ps[..|ps| - 1]), ps[|ps| - 1]);
    }
  }

  /** The parameters that are stored: no parameter counts as 0, and of more than eight the
      first eight are kept. */
  function Stored(ps: seq<Size>): seq<Size> {
    if ps == [] then [0] else if |ps| <= 8 then ps else ps[..8]
  }

  lemma ReadingStores(t: Term, ps: seq<Size>)
    ensures var u := Reading(t, ps, 0); u.pars[..u.npar] == if |ps| <= 8 then ps else ps[..8]
  {
  }

  lemma SgrActs(t: Term, ps: seq<Size>)
    requires Inv(t) && t.state == Ground && ps != []
    ensures var u := Reading(t, ps, 0);
      ResetParser(FixCursor(ArgumentAction(u, 0x6d)))
        == t.(attrs := Meanings(t.attrs, Stored(ps)), acs := AcsAfter(t.acs, Stored(ps)))
  {
    hide SgrAll, Meanings, AcsAfter;
    ReadingStores(t, ps);
    AllCodes(t.attrs, t.acs, Stored(ps));
  }

  /** ESC [ codes m, for any codes: exactly the attributes and the alternate character set
      change. */
  lemma GraphicsAreRead(loc: Locale, t: Term, ps: seq<Size>)
    requires Inv(t) && t.state == Ground
    ensures Write(loc, t, Csi(ps, 0x6d))
         == t.(attrs := Meanings(t.attrs, Stored(ps)), acs := AcsAfter(t.acs, Stored(ps)))
  {
    hide Write, Csi, Reading, ResetParser, FixCursor, ArgumentAction, Meanings, AcsAfter;
    SequenceDelivers(loc, t, ps, 0x6d);
    SgrActs(t, if ps == [] then [0] else ps);
  }

  /** None of the four codes that differ. */
  predicate Standard(ps: seq<nat>) { forall i :: 0 <= i < |ps| ==> ps[i] !in {10, 11, 22, 23} }

  lemma {:induction false} StandardMeanings(a: Attrs, acs: bool, ps: seq<nat>)
    requires Standard(ps)
    ensures Meanings(a, ps) == Renditions(a, ps) && AcsAfter(acs, ps) == acs
  {
    hide Rendition;
    if ps != [] {
      StandardMeanings(a, acs, ps[..|ps| - 1]);
    }
  }

  /** Without those the terminal does what the standard says and
      nothing else. */
  lemma GraphicsFollowTheStandard(loc: Locale, t: Term, ps: seq<Size>)
    requires Inv(t) && t.state == Ground && Standard(Stored(ps))
    ensures Write(loc, t, Csi(ps, 0x6d)) == t.(attrs := Renditions(t.attrs, Stored(ps)))
  {
    hide Write, Csi;
    GraphicsAreRead(loc, t, ps);
    StandardMeanings(t.attrs, t.acs, Stored(ps));
  }
}

/** How short what the bracketer prints is: neighbouring numbers are always one range, and
    names with one number share a token for as long as their paddings allow. */
module BracketCompact {
  import opened Common
  import opened NumberText
  import opened BracketModel
  import opened BracketSteps
  import opened BracketRoundTrip

  // ----- entries that leave gaps -----

  /** A number, or two with a colon between them. */
  predicate IsEntry(e: string) {
    AllDigits(e[..Colon(e)]) && (Colon(e) < |e| ==> AllDigits(e[Colon(e) + 1..]))
  }

  function FirstOf(e: string): nat
    requires IsEntry(e)
  {
    Value(e[..Colon(e)])
  }

  function LastOf(e: string): nat
    requires IsEntry(e)
  {
    Value(if Colon(e) < |e| then e[Colon(e) + 1..] else e[..Colon(e)])
  }

  /** Between one entry's last number and the next one's first there is a number missing. */
  predicate Gapped(entries: seq<string>) {
    && (forall i :: 0 <= i < |entries| ==> IsEntry(entries[i]))
    && forall i :: 0 < i < |entries| ==> LastOf(entries[i - 1]) + 1 < FirstOf(entries[i])
  }

  lemma ItemEnds(start: nat, prev: nat, w: Width)
    ensures var e := Item(start, prev, w); IsEntry(e) && FirstOf(e) == start && LastOf(e) == prev
  {
    hide Value, Pad;
    var left, right := Pad(start, w.start), Pad(prev, w.prev);
    ValueOfPad(start, w.start);
    ValueOfPad(prev, w.prev);
    ColonAt(left, right);
    assert left[..|left|] == left;
    assert (left + ":" + right)[..|left|] == left && (left + ":" + right)[|left| + 1..] == right;
  }

  lemma GappedSnoc(entries: seq<string>, e: string)
    requires Gapped(entries) && IsEntry(e)
    requires entries != [] ==> LastOf(entries[|entries| - 1]) + 1 < FirstOf(e)
    ensures Gapped(entries + [e])
  {
    hide IsEntry, FirstOf, LastOf;
  }

  lemma GappedFront(entries: seq<string>, e: string)
    requires Gapped(entries + [e])
    ensures Gapped(entries) && IsEntry(e)
    ensures entries != [] ==> LastOf(entries[|entries| - 1]) + 1 < FirstOf(e)
  {
    hide IsEntry, FirstOf, LastOf;
    var all := entries + [e];
    assert all[|entries|] == e;
    assert forall i :: 0 <= i < |entries| ==> all[i] == entries[i];
  }

  /** A run stays gapped whatever number it is taken on to. */
  lemma GrowKeepsGapped(run: Run, w: Width, x: string)
    requires AllDigits(x) && Gapped(RunItems(run, w))
    ensures var (run', w') := Grow(run, w, x); Gapped(RunItems(run', w'))
  {
    hide Value, Item, Gapped, IsEntry, FirstOf, LastOf;
    var v := Value(x);
    ItemEnds(run.start, run.prev, w);
    ItemEnds(run.start, v, w.(prev := |x|));
    ItemEnds(v, v, Width(|x|, |x|));
    var (run', w') := Grow(run, w, x);
    if run.prev + 1 < v {
      assert run'.texts == RunItems(run, w) && run'.start == run'.prev == v;
      GappedSnoc(RunItems(run, w), Item(v, v, w'));
    } else {
      GappedFront(run.texts, Item(run.start, run.prev, w));
      GappedSnoc(run.texts, Item(run.start, v, w'));
    }
  }

  lemma BeginIsGapped(v: nat, w: Width)
    ensures Gapped(RunItems(Run([], v, v), w))
  {
    hide Item, IsEntry;
    ItemEnds(v, v, w);
  }

  predicate AllGapped(items: Items) { forall f :: 0 <= f < |items| ==> Gapped(items[f]) }

  ghost predicate Compact(st: State)
    requires Proper(st)
  {
    && (forall f :: 0 <= f < |st.seqs| && st.seqs[f].Some? ==> Gapped(RunItems(st.seqs[f].value, st.lens[f])))
    && forall j :: 0 <= j < |st.tokens| ==> AllGapped(st.tokens[j])
  }

  lemma FlushKeepsCompact(st: State)
    requires Proper(st) && Compact(st)
    ensures Compact(Flush(st))
  {
    hide Gapped, RunItems;
  }

  lemma BeginKeepsCompact(st: State, n: nat, x: string)
    requires Proper(st) && Compact(st) && n < |st.seqs| && AllDigits(x)
    ensures Compact(Begin(st, n, x))
  {
    hide Gapped, RunItems, Value;
    BeginIsGapped(Value(x), Width(|x|, |x|));
  }

  lemma Step1KeepsCompact(st: State, n: nat, x: string)
    requires Proper(st) && Compact(st) && n < |st.seqs| && AllDigits(x)
    ensures Compact(Step1(st, n, x))
  {
    hide Gapped, RunItems, Value, Begin, Flush, MustFlush;
    BeginKeepsCompact(st, n, x);
    FlushKeepsCompact(st);
    BeginKeepsCompact(Flush(st), n, x);
  }

  lemma Step2KeepsCompact(st: State, n: nat, x: string)
    requires Proper(st) && Compact(st) && n < |st.seqs| && AllDigits(x)
    ensures Compact(Step2(st, n, x))
  {
    hide Gapped, RunItems, Value, Begin, Flush, MustFlush, Grow;
    BeginKeepsCompact(st, n, x);
    FlushKeepsCompact(st);
    BeginKeepsCompact(Flush(st), n, x);
    if st.seqs[n].Some? {
      GrowKeepsGapped(st.seqs[n].value, st.lens[n], x);
    }
  }

  lemma {:induction false} Pass1KeepsCompact(st: State, xs: Tuple, i: nat)
    requires Proper(st) && Compact(st) && |xs| == |st.seqs| && IsTuple(xs) && i <= |xs|
    ensures Compact(Pass1(st, xs, i))
  {
    hide Compact, Step1;
    if i > 0 {
      Pass1KeepsCompact(st, xs, i - 1);
      Step1KeepsCompact(Pass1(st, xs, i - 1), i - 1, xs[i - 1]);
    }
  }

  lemma {:induction false} Pass2KeepsCompact(st: State, xs: Tuple, i: nat)
    requires Proper(st) && Compact(st) && |xs| == |st.seqs| && IsTuple(xs) && i <= |xs|
    ensures Compact(Pass2(st, xs, i))
  {
    hide Compact, Step2;
    if i > 0 {
      Pass2KeepsCompact(st, xs, i - 1);
      Step2KeepsCompact(Pass2(st, xs, i - 1), i - 1, xs[i - 1]);
    }
  }

  lemma {:induction false} ProcessIsCompact(names: seq<Tuple>, count: nat)
    requires Tuples(names, count)
    ensures Compact(Process(names, count))
  {
    hide Pass1, Pass2;
    if names != [] {
      var front, xs := names[..|names| - 1], names[|names| - 1];
      ProcessIsCompact(front, count);
      hide Compact;
      var st := Process(front, count);
      Pass1KeepsCompact(st, xs, |xs|);
      Pass2KeepsCompact(Pass1(st, xs, |xs|), xs, |xs|);
    }
  }

  /** For any names in any order: in no field of a printed token does one entry end right
      before the next one begins. */
  lemma PrintedIsGapped(names: seq<Tuple>, count: nat)
    requires Tuples(names, count)
    ensures forall j, f :: 0 <= j < |Printed(names, count)| && 0 <= f < |Printed(names, count)[j]| ==>
              Gapped(Printed(names, count)[j][f])
  {
    hide Process, Flush, Gapped;
    ProcessIsCompact(names, count);
    FlushKeepsCompact(Process(names, count));
  }

  lemma ItemRightEnd(start: nat, x: string, w: Width)
    requires AllDigits(x) && w.prev == |x|
    ensures var e := Item(start, Value(x), w); Colon(e) < |e| ==> e[Colon(e) + 1..] == x
  {
    TextIsPad(x);
    hide Value, Pad, Digits;
    var left := Pad(start, w.start);
    ValueOfPad(start, w.start);
    ColonAt(left, x);
    assert left[..|left|] == left;
    assert (left + ":" + x)[|left| + 1..] == x;
  }

  /** A printed range ends in the text of the last name it took in, with that name's padding. */
  lemma RangeEndsInName(st: State, zs: Tuple, f: nat)
    requires Proper(st) && Last(st, zs) && AllSome(st) && f < |zs|
    ensures var entries := AllItems(st)[f];
      var e := entries[|entries| - 1];
      Colon(e) < |e| ==> e[Colon(e) + 1..] == zs[f]
  {
    hide Item, Value, Colon;
    ItemRightEnd(st.seqs[f].value.start, zs[f], st.lens[f]);
  }

  // ----- how many tokens -----

  /** The new name joins the run: it differs in one number, in the field noted if one is, and
      that number continues the run's padding. */
  ghost predicate Joins(d: Option<nat>, zs: Tuple, xs: Tuple)
    requires |zs| == |xs| && IsTuple(xs)
  {
    exists n: nat :: OnlyAt(zs, xs, n) && (d == None || d == Some(n)) && !PadClash(|zs[n]|, xs[n])
  }

  /** Exactly when a token is printed. */
  lemma TokenIsPrinted(st: State, zs: Tuple, xs: Tuple)
    requires Proper(st) && Last(st, zs) && |xs| == |zs| && IsTuple(xs) && zs != xs
    ensures |Extend(st, xs).tokens| == |st.tokens| + if Joins(st.diffn, zs, xs) then 0 else 1
  {
    hide PadClash, Extend, Grow, AllItems, Loaded, Last;
    if Joins(st.diffn, zs, xs) {
      var n: nat :| OnlyAt(zs, xs, n) && (st.diffn == None || st.diffn == Some(n)) && !PadClash(|zs[n]|, xs[n]);
      ExtendGrows(st, zs, xs, n);
    } else if n: nat :| OnlyAt(zs, xs, n) && st.diffn == None {
      ExtendDrops(st, zs, xs, n);
    } else {
      NoOnlyRestarts(st.diffn, zs, xs);
      ExtendRestarts(st, zs, xs);
    }
  }

  /** No clash is to be the number's own text at the width of the one before it. */
  lemma ClashExactly(w: nat, x: string)
    requires AllDigits(x)
    ensures PadClash(w, x) <==> x != Pad(Value(x), w)
  {
    hide Value, Digits;
    TextIsPad(x);
    PadLength(Value(x), w);
  }

  /** How often a name's number clashes with the one before it. */
  function Clashes(names: seq<Tuple>): nat
    requires Tuples(names, 1)
  {
    if |names| <= 1 then 0
    else
      var n := |names| - 1;
      Clashes(names[..n]) + if PadClash(|names[n - 1][0]|, names[n][0]) then 1 else 0
  }

  lemma OneNumberStep(st: State, zs: Tuple, xs: Tuple)
    requires Proper(st) && |zs| == |xs| == 1 && IsTuple(xs) && Last(st, zs) && (st.diffn == None || st.diffn == Some(0))
    ensures var u := Extend(st, xs);
      && Last(u, xs) && (u.diffn == None || u.diffn == Some(0))
      && |u.tokens| == |st.tokens| + if PadClash(|zs[0]|, xs[0]) then 1 else 0
  {
    hide Value, Extend, AllItems, Digits;
    if zs[0] == xs[0] {
      assert zs == xs;
      ExtendSame(st, xs);
    } else if !PadClash(|zs[0]|, xs[0]) {
      ExtendGrows(st, zs, xs, 0);
    } else if st.diffn == None {
      ExtendDrops(st, zs, xs, 0);
    } else {
      NoOnlyRestarts(st.diffn, zs, xs);
      ExtendRestarts(st, zs, xs);
    }
  }

  lemma NothingIsLoaded(xs: Tuple)
    requires IsTuple(xs)
    ensures Loaded(Start(|xs|), xs, |xs|, |xs|) && Hybrid(xs, xs, |xs|) == xs
  {
    hide Value;
  }

  lemma ProcessOne(xs: Tuple)
    requires IsTuple(xs)
    ensures Tuples([xs], |xs|) && Process([xs], |xs|) == Extend(Start(|xs|), xs)
  {
    hide Extend;
    assert [xs][..0] == [];
  }

  lemma FirstState(xs: Tuple)
    requires IsTuple(xs) && xs != []
    ensures Tuples([xs], |xs|) && Process([xs], |xs|) == Alone(Start(|xs|), xs)
  {
    hide *;
    ProcessOne(xs);
    NothingIsLoaded(xs);
    DroppedTakesHybrid(Start(|xs|), xs, xs, |xs|);
    ExtendSame(Alone(Start(|xs|), xs), xs);
  }

  lemma {:induction false} OneNumberStates(names: seq<Tuple>)
    requires Tuples(names, 1) && names != []
    ensures var st := Process(names, 1);
      && Last(st, names[|names| - 1]) && (st.diffn == None || st.diffn == Some(0))
      && |st.tokens| == Clashes(names)
  {
    hide Value, Extend, Last, PadClash;
    var n := |names| - 1;
    if n == 0 {
      assert names == [names[0]];
      FirstState(names[0]);
    } else {
      var front := names[..n];
      OneNumberStates(front);
      assert front[n - 1] == names[n - 1];
      OneNumberStep(Process(front, 1), names[n - 1], names[n]);
    }
  }

  /** Names with one number each are one token, and one more for every clash of paddings. */
  lemma OneNumberTokens(names: seq<Tuple>)
    requires Tuples(names, 1) && names != []
    ensures |Printed(names, 1)| == 1 + Clashes(names)
  {
    hide Value, Process, Clashes, AllItems;
    OneNumberStates(names);
    LastIsSome(Process(names, 1), names[|names| - 1]);
  }

  // ----- a run that could have gone on -----

  lemma ThreeNames(zs: Tuple, xs: Tuple, ys: Tuple, count: nat)
    requires Tuples([zs, xs, ys], count)
    ensures Tuples([zs, xs], count) && Tuples([xs, ys], count) && Tuples([zs], count) && Tuples([xs], count)
    ensures Process([zs, xs], count) == Extend(Process([zs], count), xs)
    ensures Process([xs, ys], count) == Extend(Process([xs], count), ys)
    ensures Process([zs, xs, ys], count) == Extend(Process([zs, xs], count), ys)
  {
    hide Extend;
    assert [zs, xs][..1] == [zs] && [zs, xs, ys][..2] == [zs, xs] && [xs, ys][..1] == [xs];
    assert [zs, xs, ys][0] == zs && [zs, xs, ys][1] == xs && [zs, xs, ys][2] == ys;
  }

  lemma LastTokenIsPrinted(st: State)
    requires Proper(st) && st.seqs != [] && AllSome(st)
    ensures |Flush(st).tokens| == |st.tokens| + 1
  {
    hide AllItems;
  }

  lemma GrownIsSome(st: State, u: State, n: nat)
    requires Proper(st) && Proper(u) && AllSome(st) && n < |st.seqs| == |u.seqs|
    requires u.seqs == st.seqs[n := u.seqs[n]] && u.seqs[n].Some?
    ensures AllSome(u)
  {
  }

  lemma LoadedIsLast(st: State, xs: Tuple)
    requires Proper(st) && Loaded(st, xs, 0, |xs|) && IsTuple(xs)
    ensures Last(st, xs) && AllSome(st)
  {
    hide Value;
  }

  lemma PairIsOneToken(xs: Tuple, ys: Tuple, n: nat)
    requires IsTuple(xs) && IsTuple(ys) && OnlyAt(xs, ys, n) && !PadClash(|xs[n]|, ys[n])
    requires Tuples([xs], |xs|) && Tuples([xs, ys], |xs|)
    requires Process([xs, ys], |xs|) == Extend(Process([xs], |xs|), ys)
    ensures |Printed([xs, ys], |xs|)| == 1
  {
    hide PadClash, Value, Extend, Grow, AllItems, Alone, Process, Flush, Loaded, Last, AllSome;
    FirstState(xs);
    var u, u' := Process([xs], |xs|), Process([xs, ys], |xs|);
    LastIsSome(u, xs);
    ExtendGrows(u, xs, ys, n);
    GrownIsSome(u, u', n);
    LastTokenIsPrinted(u');
  }

  lemma StartIsEmpty(count: nat, xs: Tuple)
    requires IsTuple(xs) && |xs| == count
    ensures var u := Alone(Start(count), xs); Last(u, xs) && u.diffn == None && u.tokens == []
  {
    hide Alone;
  }

  lemma TwoDifferences(zs: Tuple, xs: Tuple, n: nat)
    requires IsTuple(xs) && |zs| == |xs| && n < |xs| && zs[n] != xs[n] && exists m :: n < m < |xs| && zs[m] != xs[m]
    ensures Restarts(None, zs, xs)
  {
    hide PadClash;
    NoOnlyRestarts(None, zs, xs);
  }

  lemma StalePair(st: State, xs: Tuple, ys: Tuple, n: nat)
    requires Proper(st) && Last(st, xs) && IsTuple(xs) && IsTuple(ys) && OnlyAt(xs, ys, n)
    requires st.diffn.Some? && st.diffn.value != n && |ys| == |st.seqs|
    ensures AllSome(Extend(st, ys)) && |Extend(st, ys).tokens| == |st.tokens| + 1
  {
    hide PadClash, Extend, AllItems, Loaded, Last, AllSome;
    NoOnlyRestarts(st.diffn, xs, ys);
    ExtendRestarts(st, xs, ys);
    LoadedIsLast(Extend(st, ys), ys);
  }

  /** Where a name differs from the one before it in two numbers, the later of them stays
      noted for the run it begins. If the next name then differs in the first of them alone,
      it is not joined to it: r1u1, r2u2, r3u2 are three tokens, while r2u2, r3u2 are one. */
  lemma MergeIsMissed(zs: Tuple, xs: Tuple, ys: Tuple, n: nat)
    requires IsTuple(zs) && IsTuple(xs) && IsTuple(ys) && |zs| == |xs| == |ys|
    requires OnlyAt(xs, ys, n) && !PadClash(|xs[n]|, ys[n])
    requires zs[n] != xs[n] && (forall f :: 0 <= f < n ==> zs[f] == xs[f]) && exists m :: n < m < |xs| && zs[m] != xs[m]
    ensures Tuples([zs, xs, ys], |xs|) && |Printed([zs, xs, ys], |xs|)| == 3
    ensures Tuples([xs, ys], |xs|) && |Printed([xs, ys], |xs|)| == 1
  {
    hide PadClash, Value, Extend, AllItems, Alone, Process, Loaded, Last, AllSome, Flush;
    var count := |xs|;
    ThreeNames(zs, xs, ys, count);
    PairIsOneToken(xs, ys, n);
    FirstState(zs);
    StartIsEmpty(count, zs);
    var st0, st1 := Process([zs], count), Process([zs, xs], count);
    TwoDifferences(zs, xs, n);
    ExtendRestarts(st0, zs, xs);
    LoadedIsLast(st1, xs);
    StalePair(st1, xs, ys, n);
    LastTokenIsPrinted(Process([zs, xs, ys], count));
  }
}

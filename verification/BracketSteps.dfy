/** What one extend does to the bracketer, case by case. */
module BracketSteps {
  import opened Common
  import opened NumberText
  import opened BracketModel

  /** Field f holds just the number x. */
  ghost predicate Single(st: State, f: nat, x: string)
    requires Proper(st) && f < |st.seqs| && AllDigits(x)
  {
    st.seqs[f] == Some(Run([], Value(x), Value(x))) && st.lens[f] == Width(|x|, |x|)
  }

  /** Every field is set, and the last number it took in is that of zs. */
  ghost predicate Last(st: State, zs: Tuple)
    requires Proper(st)
  {
    && |zs| == |st.seqs| && IsTuple(zs)
    && forall f :: 0 <= f < |zs| ==> st.seqs[f].Some? && SameNumber(st, f, zs[f])
  }

  /** Exactly the fields lo to hi-1 are set, each to the single number of xs. */
  ghost predicate Loaded(st: State, xs: Tuple, lo: nat, hi: nat)
    requires Proper(st)
  {
    && |xs| == |st.seqs| && IsTuple(xs)
    && forall f :: 0 <= f < |xs| ==> if lo <= f < hi then Single(st, f, xs[f]) else st.seqs[f].None?
  }

  /** Fields below i and from m on are set, each to the single number of xs. */
  ghost predicate LoadedAround(st: State, xs: Tuple, i: nat, m: nat)
    requires Proper(st)
  {
    && |xs| == |st.seqs| && IsTuple(xs)
    && forall f :: 0 <= f < |xs| ==> if f < i || m <= f then Single(st, f, xs[f]) else st.seqs[f].None?
  }

  /** zs and xs agree on every field but n. */
  ghost predicate OnlyAt(zs: Tuple, xs: Tuple, n: nat) {
    |zs| == |xs| && n < |xs| && zs[n] != xs[n] && forall f :: 0 <= f < |xs| && f != n ==> zs[f] == xs[f]
  }

  /** The same number at the same width is the same text. */
  lemma SameText(z: string, x: string)
    requires AllDigits(z) && AllDigits(x)
    ensures Value(z) == Value(x) && |z| == |x| <==> z == x
  {
    TextIsPad(z);
    TextIsPad(x);
  }

  // ----- passes that only confirm -----

  lemma {:induction false} Pass1Same(st: State, zs: Tuple, xs: Tuple, i: nat)
    requires Proper(st) && Last(st, zs) && |xs| == |zs| && IsTuple(xs) && i <= |xs|
    requires forall f :: 0 <= f < i ==> zs[f] == xs[f]
    ensures Pass1(st, xs, i) == st
  {
    if i > 0 {
      Pass1Same(st, zs, xs, i - 1);
    }
  }

  lemma {:induction false} Pass2Same(st: State, zs: Tuple, xs: Tuple, i: nat)
    requires Proper(st) && Last(st, zs) && |xs| == |zs| && IsTuple(xs) && i <= |xs|
    requires forall f :: 0 <= f < i ==> zs[f] == xs[f]
    ensures Pass2(st, xs, i) == st
  {
    if i > 0 {
      Pass2Same(st, zs, xs, i - 1);
    }
  }

  /** Past its first difference n, the first pass has only noted n. */
  lemma {:induction false} Pass1Notes(st: State, zs: Tuple, xs: Tuple, n: nat, i: nat)
    requires Proper(st) && Last(st, zs) && |xs| == |zs| && IsTuple(xs) && n < i <= |xs|
    requires zs[n] != xs[n] && forall f :: 0 <= f < i && f != n ==> zs[f] == xs[f]
    requires st.diffn == None || (st.diffn == Some(n) && !PadClash(|zs[n]|, xs[n]))
    ensures Pass1(st, xs, i) == st.(diffn := Some(n))
    decreases i
  {
    SameText(zs[n], xs[n]);
    if i == n + 1 {
      Pass1Same(st, zs, xs, n);
    } else {
      Pass1Notes(st, zs, xs, n, i - 1);
    }
  }

  // ----- the run goes on -----

  lemma {:induction false} Pass2Grows(st: State, zs: Tuple, xs: Tuple, n: nat, i: nat)
    requires Proper(st) && Last(st, zs) && |xs| == |zs| && IsTuple(xs) && OnlyAt(zs, xs, n) && n < i <= |xs|
    requires st.diffn == Some(n) && !PadClash(|zs[n]|, xs[n])
    ensures var (run, w) := Grow(st.seqs[n].value, st.lens[n], xs[n]);
            Pass2(st, xs, i) == st.(seqs := st.seqs[n := Some(run)], lens := st.lens[n := w])
    decreases i
  {
    hide Grow;
    SameText(zs[n], xs[n]);
    if i == n + 1 {
      Pass2Same(st, zs, xs, n);
    } else {
      Pass2Grows(st, zs, xs, n, i - 1);
    }
  }

  /** One number differs, and nothing speaks against it: the run of that field grows. */
  lemma ExtendGrows(st: State, zs: Tuple, xs: Tuple, n: nat)
    requires Proper(st) && Last(st, zs) && IsTuple(xs) && OnlyAt(zs, xs, n)
    requires st.diffn == None || st.diffn == Some(n)
    requires !PadClash(|zs[n]|, xs[n])
    ensures var (run, w) := Grow(st.seqs[n].value, st.lens[n], xs[n]);
            Extend(st, xs) == st.(diffn := Some(n), seqs := st.seqs[n := Some(run)], lens := st.lens[n := w])
  {
    hide Pass1, Pass2, Grow;
    Pass1Notes(st, zs, xs, n, |xs|);
    Pass2Grows(st.(diffn := Some(n)), zs, xs, n, |xs|);
  }

  /** The same name again changes nothing. */
  lemma ExtendSame(st: State, zs: Tuple)
    requires Proper(st) && Last(st, zs)
    ensures Extend(st, zs) == st
  {
    hide Pass1, Pass2;
    Pass1Same(st, zs, zs, |zs|);
    Pass2Same(st, zs, zs, |zs|);
  }

  // ----- the run ends and the next begins -----

  lemma FlushEmits(st: State)
    requires Proper(st) && st.seqs != [] && AllSome(st)
    ensures Flush(st).tokens == st.tokens + [AllItems(st)]
    ensures forall f :: 0 <= f < |st.seqs| ==> Flush(st).seqs[f].None?
  {
  }

  lemma LastIsSome(st: State, zs: Tuple)
    requires Proper(st) && Last(st, zs)
    ensures AllSome(st)
  {
  }

  lemma ItemsIgnoreDiffn(st: State, d: Option<nat>)
    requires Proper(st) && AllSome(st)
    ensures AllSome(st.(diffn := d)) && AllItems(st.(diffn := d)) == AllItems(st)
  {
  }

  lemma FlushAt(st: State, st1: State, zs: Tuple, xs: Tuple, m: nat)
    requires Proper(st) && Proper(st1) && Last(st, zs) && |xs| == |zs| && IsTuple(xs) && m < |xs|
    requires st1 == st.(diffn := st1.diffn) && zs[m] != xs[m] && MustFlush(st1, m, xs[m])
    ensures var u := Step1(st1, m, xs[m]);
            Loaded(u, xs, m, m + 1) && u.diffn == Some(m) && u.tokens == st.tokens + [AllItems(st)]
  {
    hide AllItems, Value;
    SameText(zs[m], xs[m]);
    LastIsSome(st1, zs);
    FlushEmits(st1);
    ItemsIgnoreDiffn(st, st1.diffn);
  }

  /** After a flush at field m of the first pass, the later fields start over. */
  lemma {:induction false} Pass1Loads(st: State, st1: State, zs: Tuple, xs: Tuple, m: nat, i: nat)
    requires Proper(st) && Proper(st1) && Last(st, zs) && |xs| == |zs| && IsTuple(xs) && m < i <= |xs|
    requires st1 == st.(diffn := st1.diffn) && Pass1(st, xs, m) == st1
    requires zs[m] != xs[m] && MustFlush(st1, m, xs[m])
    ensures var u := Pass1(st, xs, i);
            Loaded(u, xs, m, i) && u.diffn == Some(m) && u.tokens == st.tokens + [AllItems(st)]
    decreases i
  {
    hide AllItems, Value;
    if i == m + 1 {
      hide Step1, MustFlush, Loaded;
      FlushAt(st, st1, zs, xs, m);
    } else {
      Pass1Loads(st, st1, zs, xs, m, i - 1);
    }
  }

  lemma {:induction false} Pass2Loads(st: State, xs: Tuple, m: nat, i: nat)
    requires Proper(st) && Loaded(st, xs, m, |xs|) && i <= |xs|
    ensures var u := Pass2(st, xs, i);
            LoadedAround(u, xs, i, m) && u.diffn == st.diffn && u.tokens == st.tokens
  {
    if i > 0 {
      Pass2Loads(st, xs, m, i - 1);
    }
  }

  /** What makes the first pass flush: a number other than the run's differs, or the run's
      own clashes in its padding, or two numbers differ. */
  ghost predicate Restarts(d: Option<nat>, zs: Tuple, xs: Tuple)
    requires |zs| == |xs| && IsTuple(xs)
  {
    && zs != xs
    && forall n {:trigger xs[n]} :: 0 <= n < |xs| && OnlyAt(zs, xs, n) ==>
         d.Some? && (d.value != n || PadClash(|zs[n]|, xs[n]))
  }

  /** The first field from lo on where the tuples differ. */
  lemma FirstDifference(zs: Tuple, xs: Tuple, lo: nat) returns (f: nat)
    requires |zs| == |xs| && lo <= |xs|
    requires exists g :: lo <= g < |xs| && zs[g] != xs[g]
    ensures lo <= f < |xs| && zs[f] != xs[f] && forall g :: lo <= g < f ==> zs[g] == xs[g]
  {
    f := lo;
    while zs[f] == xs[f]
      invariant lo <= f < |xs| && forall g :: lo <= g < f ==> zs[g] == xs[g]
      decreases |xs| - f
    {
      f := f + 1;
    }
  }

  lemma SomeDifference(d: Option<nat>, zs: Tuple, xs: Tuple)
    requires |zs| == |xs| && IsTuple(xs) && Restarts(d, zs, xs)
    ensures exists g :: 0 <= g < |xs| && zs[g] != xs[g]
  {
  }

  lemma LastWidths(st: State, zs: Tuple)
    requires Proper(st) && Last(st, zs)
    ensures forall f :: 0 <= f < |zs| ==> st.lens[f].prev == |zs[f]|
  {
  }

  lemma NotOnlyAt(d: Option<nat>, zs: Tuple, xs: Tuple, f: nat)
    requires |zs| == |xs| && IsTuple(xs) && f < |xs| && Restarts(d, zs, xs)
    requires d == None || (d == Some(f) && !PadClash(|zs[f]|, xs[f]))
    requires zs[f] != xs[f] && forall g :: 0 <= g < f ==> zs[g] == xs[g]
    ensures exists g :: f + 1 <= g < |xs| && zs[g] != xs[g]
  {
    hide PadClash;
    assert !OnlyAt(zs, xs, f);
  }

  /** Where the first pass flushes. */
  lemma FlushPoint(st: State, zs: Tuple, xs: Tuple) returns (m: nat, st1: State)
    requires Proper(st) && Last(st, zs) && |xs| == |zs| && IsTuple(xs) && Restarts(st.diffn, zs, xs)
    ensures m < |xs| && Proper(st1) && st1 == st.(diffn := st1.diffn) && Pass1(st, xs, m) == st1
    ensures zs[m] != xs[m] && MustFlush(st1, m, xs[m])
    ensures st.diffn == None ==> exists f :: 0 <= f < m && zs[f] != xs[f]
  {
    hide Pass1, Restarts, PadClash, SameNumber, Value;
    SomeDifference(st.diffn, zs, xs);
    assert forall f :: 0 <= f < |zs| ==> st.lens[f].prev == |zs[f]| by { LastWidths(st, zs); }
    hide Last;
    var f := FirstDifference(zs, xs, 0);
    if st.diffn.Some? && (st.diffn.value != f || PadClash(|zs[f]|, xs[f])) {
      Pass1Same(st, zs, xs, f);
      m, st1 := f, st;
    } else {
      NotOnlyAt(st.diffn, zs, xs, f);
      m := FirstDifference(zs, xs, f + 1);
      Pass1Notes(st, zs, xs, f, m);
      st1 := st.(diffn := Some(f));
    }
  }

  /** The printed run is everything so far, and the new name stands alone. */
  lemma ExtendRestarts(st: State, zs: Tuple, xs: Tuple)
    requires Proper(st) && Last(st, zs) && |xs| == |zs| && IsTuple(xs) && Restarts(st.diffn, zs, xs)
    ensures AllSome(st)
    ensures var u := Extend(st, xs);
            && Loaded(u, xs, 0, |xs|) && u.tokens == st.tokens + [AllItems(st)]
            && u.diffn.Some? && u.diffn.value < |xs| && zs[u.diffn.value] != xs[u.diffn.value]
            && (st.diffn == None ==> exists f :: 0 <= f < u.diffn.value && zs[f] != xs[f])
  {
    hide AllItems, Restarts;
    LastIsSome(st, zs);
    var m, st1 := FlushPoint(st, zs, xs);
    hide Pass1, Pass2;
    Pass1Loads(st, st1, zs, xs, m, |xs|);
    Pass2Loads(Pass1(st, xs, |xs|), xs, m, |xs|);
  }

  // ----- a padding clash before any field is noted -----

  lemma SecondFlushAt(st: State, zs: Tuple, xs: Tuple, n: nat)
    requires Proper(st) && Last(st, zs) && |xs| == |zs| && IsTuple(xs) && OnlyAt(zs, xs, n)
    requires st.diffn == Some(n) && PadClash(|zs[n]|, xs[n])
    ensures AllSome(st)
    ensures var u := Step2(st, n, xs[n]);
            Loaded(u, xs, n, n + 1) && u.diffn == None && u.tokens == st.tokens + [AllItems(st)]
  {
    hide AllItems, Value, Grow;
    LastIsSome(st, zs);
    SameText(zs[n], xs[n]);
    FlushEmits(st);
  }

  lemma {:induction false} Pass2LoadsFrom(st: State, zs: Tuple, xs: Tuple, n: nat, i: nat)
    requires Proper(st) && Last(st, zs) && |xs| == |zs| && IsTuple(xs) && OnlyAt(zs, xs, n) && n < i <= |xs|
    requires st.diffn == Some(n) && PadClash(|zs[n]|, xs[n])
    ensures AllSome(st)
    ensures var u := Pass2(st, xs, i);
            Loaded(u, xs, n, i) && u.diffn == None && u.tokens == st.tokens + [AllItems(st)]
    decreases i
  {
    hide AllItems, Value, Grow;
    LastIsSome(st, zs);
    if i == n + 1 {
      Pass2Same(st, zs, xs, n);
      hide Step2, Loaded;
      SecondFlushAt(st, zs, xs, n);
    } else {
      Pass2LoadsFrom(st, zs, xs, n, i - 1);
    }
  }

  /** Lines 124-131: the flush of the second pass leaves the fields before n unset. */
  lemma ExtendDrops(st: State, zs: Tuple, xs: Tuple, n: nat)
    requires Proper(st) && Last(st, zs) && IsTuple(xs) && OnlyAt(zs, xs, n)
    requires st.diffn == None && PadClash(|zs[n]|, xs[n])
    ensures AllSome(st)
    ensures var u := Extend(st, xs);
            Loaded(u, xs, n, |xs|) && u.diffn == None && u.tokens == st.tokens + [AllItems(st)]
  {
    hide Pass1, Pass2, AllItems;
    LastIsSome(st, zs);
    Pass1Notes(st, zs, xs, n, |xs|);
    ItemsIgnoreDiffn(st, Some(n));
    Pass2LoadsFrom(st.(diffn := Some(n)), zs, xs, n, |xs|);
  }

  // ----- the name after that -----

  /** The fields below k of xs, the rest of ys. */
  function Hybrid(xs: Tuple, ys: Tuple, k: nat): (h: Tuple)
    requires |xs| == |ys| && k <= |xs|
    ensures |h| == |xs|
    ensures forall f :: 0 <= f < |xs| ==> h[f] == if f < k then xs[f] else ys[f]
  {
    xs[..k] + ys[k..]
  }

  /** The state in which all fields stand alone at hs. */
  function Alone(st: State, hs: Tuple): (u: State)
    requires Proper(st) && |hs| == |st.seqs| && IsTuple(hs)
    ensures Proper(u) && |u.seqs| == |st.seqs| && Loaded(u, hs, 0, |hs|) && Last(u, hs)
    ensures u.diffn == st.diffn && u.tokens == st.tokens
  {
    st.(seqs := seq(|hs|, f requires 0 <= f < |hs| => Some(Run([], Value(hs[f]), Value(hs[f])))),
        lens := seq(|hs|, f requires 0 <= f < |hs| => Width(|hs[f]|, |hs[f]|)))
  }

  lemma {:induction false} Pass1Fills(st: State, xs: Tuple, ys: Tuple, k: nat, i: nat)
    requires Proper(st) && Loaded(st, ys, k, |ys|) && |xs| == |ys| && IsTuple(xs) && i <= k <= |xs|
    ensures var u := Pass1(st, xs, i);
            && u.diffn == st.diffn && u.tokens == st.tokens
            && forall f :: 0 <= f < |xs| ==>
                 if f < i then Single(u, f, xs[f]) else u.seqs[f] == st.seqs[f] && u.lens[f] == st.lens[f]
  {
    if i > 0 {
      Pass1Fills(st, xs, ys, k, i - 1);
    }
  }

  lemma {:induction false} Pass1Continues(st: State, u: State, xs: Tuple, k: nat, i: nat)
    requires Proper(st) && Proper(u) && |xs| == |st.seqs| == |u.seqs| && IsTuple(xs) && k <= i <= |xs|
    requires Pass1(st, xs, k) == Pass1(u, xs, k)
    ensures Pass1(st, xs, i) == Pass1(u, xs, i)
    decreases i
  {
    if i > k {
      Pass1Continues(st, u, xs, k, i - 1);
    }
  }

  /** The unset fields take their numbers from the next name, so it is read as if the name
      before it had been a mixture of the two. */
  lemma DroppedTakesHybrid(st: State, xs: Tuple, ys: Tuple, k: nat)
    requires Proper(st) && Loaded(st, ys, k, |ys|) && |xs| == |ys| && IsTuple(xs) && k <= |xs|
    ensures IsTuple(Hybrid(xs, ys, k))
    ensures Extend(st, xs) == Extend(Alone(st, Hybrid(xs, ys, k)), xs)
  {
    hide Value, Hybrid;
    var hs := Hybrid(xs, ys, k);
    var u := Alone(st, hs);
    Pass1Fills(st, xs, ys, k, k);
    Pass1Same(u, hs, xs, k);
    var v := Pass1(st, xs, k);
    assert forall f :: 0 <= f < |xs| ==> v.seqs[f] == u.seqs[f] && v.lens[f] == u.lens[f];
    assert v.seqs == u.seqs && v.lens == u.lens;
    Pass1Continues(st, u, xs, k, |xs|);
  }
}

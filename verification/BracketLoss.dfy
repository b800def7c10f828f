/** When the bracketer loses a name, and that it does so only then. A padding clash in the
    second pass leaves the fields left of it unset; unless the next name happens to carry
    the same numbers there, the clashing name is printed nowhere. */
module BracketLoss {
  import opened Common
  import opened NumberText
  import opened BracketModel
  import opened BracketSteps
  import opened BracketRoundTrip

  /** Names in strictly growing order of their numbers. */
  ghost predicate StrictlyAscending(names: seq<Tuple>, count: nat)
    requires Tuples(names, count)
  {
    forall i :: 0 < i < |names| ==> Below(names[i - 1], names[i])
  }

  lemma BelowTransitive(x: Tuple, y: Tuple, z: Tuple)
    requires |x| == |y| == |z| && IsTuple(x) && IsTuple(y) && IsTuple(z)
    requires Below(x, y) && Below(y, z)
    ensures Below(x, z)
  {
    hide Value;
    var p: nat :| p < |x| && Value(x[p]) < Value(y[p]) && forall g :: 0 <= g < p ==> Value(x[g]) == Value(y[g]);
    var q: nat :| q < |y| && Value(y[q]) < Value(z[q]) && forall g :: 0 <= g < q ==> Value(y[g]) == Value(z[g]);
    var f := if p < q then p else q;
    assert Value(x[f]) < Value(z[f]);
  }

  lemma BelowDiffers(x: Tuple, y: Tuple)
    requires |x| == |y| && IsTuple(x) && IsTuple(y) && Below(x, y)
    ensures x != y
  {
  }

  lemma {:induction false} StrictOrder(names: seq<Tuple>, count: nat, i: nat, j: nat)
    requires Tuples(names, count) && StrictlyAscending(names, count) && i < j < |names|
    ensures Below(names[i], names[j]) && names[i] != names[j]
    decreases j
  {
    hide Below;
    if i + 1 < j {
      StrictOrder(names, count, i, j - 1);
      BelowTransitive(names[i], names[j - 1], names[j]);
    }
    BelowDiffers(names[i], names[j]);
  }

  lemma StrictIsAscending(names: seq<Tuple>, count: nat)
    requires Tuples(names, count) && StrictlyAscending(names, count)
    ensures Ascending(names, count)
  {
    hide Below;
    forall i, j | 0 <= i < j < |names|
      ensures names[i] != names[j]
    {
      StrictOrder(names, count, i, j);
    }
  }

  // ----- the loss -----

  /** Nothing is lost before name v. */
  ghost predicate KeepsBefore(names: seq<Tuple>, count: nat, v: nat)
    requires Tuples(names, count) && v <= |names|
  {
    forall j, n :: 0 <= j < v && DroppedAt(names, count, j, n) ==> Rescued(names, count, j, n)
  }

  lemma DropsNow(st: State, names: seq<Tuple>, count: nat, v: nat, a: nat, k: nat)
    requires Tuples(names, count) && Proper(st) && |st.seqs| == count && 1 <= v < |names|
    requires Stage(st, names, count, v, a, 0) && DroppedAt(names, count, v, k)
    requires forall i, j :: 0 <= i < j < |names| ==> names[i] != names[j]
    ensures var u := Extend(st, names[v]);
            Loaded(u, names[v], k, count) && u.diffn == None && Covers(u.tokens, names[..v])
  {
    hide Value, PadClash, Extend, Matches, FieldHolds;
    assert OpenAt(names, count, v - 1);
    Slices(names, a, v);
    LastIsSome(st, names[v - 1]);
    RunIsWhole(st, names, count, v, a);
    hide Covers;
    ExtendDrops(st, names[v - 1], names[v], k);
  }

  /** The state right after a name is dropped. */
  lemma DroppedState(names: seq<Tuple>, count: nat, v: nat, k: nat)
    requires Tuples(names, count) && count >= 1 && v < |names| && Ascending(names, count)
    requires DroppedAt(names, count, v, k)
    requires KeepsBefore(names, count, v)
    ensures var st := Process(names[..v + 1], count);
            Loaded(st, names[v], k, count) && st.diffn == None && Covers(st.tokens, names[..v])
  {
    hide Value, PadClash, Extend, Matches, FieldHolds, Rescued, Below, SameNumbers, Alone, Covers;
    var st := Process(names[..v], count);
    assert names[..v + 1][..v] == names[..v];
    assert Process(names[..v + 1], count) == Extend(st, names[v]);
    hide Process;
    var a, k' := StageAfter(names, count, v);
    hide KeepsBefore, Tuples;
    if k' > 0 {
      DropIsRepaired(st, names, count, v, k');
      st := Alone(st, names[v - 1]);
      a := v - 1;
    }
    DropsNow(st, names, count, v, a, k);
  }

  ghost predicate RunAvoids(st: State, zs: Tuple, b: Tuple)
    requires Proper(st)
  {
    exists run :: Holding(st, run) && run != [] && b !in run && run[|run| - 1] == zs
  }

  ghost predicate FieldAvoids(st: State, zs: Tuple, b: Tuple)
    requires Proper(st)
  {
    && st.diffn.Some? && Last(st, zs) && |b| == |zs|
    && exists f :: 0 <= f < |zs| && f != st.diffn.value && Single(st, f, zs[f]) && zs[f] != b[f]
  }

  ghost predicate DropAvoids(st: State, zs: Tuple)
    requires Proper(st)
  {
    st.diffn == None && exists k :: 1 <= k < |zs| && Loaded(st, zs, k, |zs|)
  }

  /** A state that will not print the name b: its run is known and b is not in it; or the
      run has a single other number in a field that is not the noted one; or the state is
      dropped itself. */
  ghost predicate Avoids(st: State, zs: Tuple, b: Tuple)
    requires Proper(st)
  {
    && |zs| == |b| == |st.seqs| && IsTuple(zs)
    && !Shown(st.tokens, b)
    && (RunAvoids(st, zs, b) || FieldAvoids(st, zs, b) || DropAvoids(st, zs))
  }

  lemma NotShownAppend(tokens: seq<Items>, token: Items, b: Tuple)
    requires !Shown(tokens, b) && !Matches(token, b)
    ensures !Shown(tokens + [token], b)
  {
    hide Matches;
    var all := tokens + [token];
    forall j | 0 <= j < |all|
      ensures !Matches(all[j], b)
    {
      assert j < |tokens| ==> all[j] == tokens[j];
    }
  }

  /** A fresh run of another name. */
  lemma AloneAvoids(st: State, xs: Tuple, b: Tuple)
    requires Proper(st) && Loaded(st, xs, 0, |xs|) && |b| == |xs| && xs != b
    requires st.diffn.Some? ==> st.diffn.value < |xs|
    ensures RunAvoids(st, xs, b)
  {
    AloneIsHolding(st, xs);
    assert Holding(st, [xs]) && b !in [xs] && [xs][|[xs]| - 1] == xs;
  }

  /** A known run meets the next name. */
  lemma RunStaysAway(st: State, run: seq<Tuple>, xs: Tuple, b: Tuple)
    requires Proper(st) && Holding(st, run) && b !in run && !Shown(st.tokens, b)
    requires |xs| == |b| == |st.seqs| && IsTuple(xs) && xs != b && xs != run[|run| - 1]
    requires forall n: nat ::
               (OnlyAt(run[|run| - 1], xs, n) && (st.diffn == None || st.diffn == Some(n))
                && !PadClash(|run[|run| - 1][n]|, xs[n]))
               ==> Value(run[|run| - 1][n]) < Value(xs[n])
    ensures Avoids(Extend(st, xs), xs, b)
  {
    hide Value, PadClash, Extend, Matches, FieldHolds, Restarts, AllItems, Loaded;
    var zs := run[|run| - 1];
    LastIsSome(st, zs);
    HoldingPrints(st, run);
    assert !Matches(AllItems(st), b);
    NotShownAppend(st.tokens, AllItems(st), b);
    hide Shown;
    if n: nat :| OnlyAt(zs, xs, n) && (st.diffn == None || st.diffn == Some(n)) && !PadClash(|zs[n]|, xs[n]) {
      HoldingGrows(st, run, xs, n);
      assert b !in run + [xs] && (run + [xs])[|run + [xs]| - 1] == xs;
    } else if n: nat :| OnlyAt(zs, xs, n) && st.diffn == None {
      ExtendDrops(st, zs, xs, n);
      if n == 0 {
        AloneAvoids(Extend(st, xs), xs, b);
      }
    } else {
      NoOnlyRestarts(st.diffn, zs, xs);
      ExtendRestarts(st, zs, xs);
      AloneAvoids(Extend(st, xs), xs, b);
    }
  }

  lemma OtherRestarts(st: State, zs: Tuple, xs: Tuple, n: nat)
    requires |zs| == |xs| && IsTuple(xs) && zs != xs && st.diffn == Some(n)
    requires OnlyAt(zs, xs, n) ==> PadClash(|zs[n]|, xs[n])
    ensures Restarts(st.diffn, zs, xs)
  {
  }

  lemma FieldPrintsOther(st: State, zs: Tuple, b: Tuple)
    requires Proper(st) && FieldAvoids(st, zs, b) && AllSome(st)
    ensures !Matches(AllItems(st), b)
  {
    hide Value, AllItems, Lists;
    var f :| 0 <= f < |zs| && f != st.diffn.value && Single(st, f, zs[f]) && zs[f] != b[f];
    SingleLists(st, f, zs[f]);
  }

  /** A run that differs from b in a settled field meets the next name. */
  lemma FieldStaysAway(st: State, zs: Tuple, xs: Tuple, b: Tuple)
    requires Proper(st) && FieldAvoids(st, zs, b) && !Shown(st.tokens, b)
    requires |xs| == |b| == |st.seqs| && IsTuple(xs) && xs != b && xs != zs
    ensures Avoids(Extend(st, xs), xs, b)
  {
    hide Value, PadClash, Extend, Matches, Restarts, AllItems, Shown, Grow;
    LastIsSome(st, zs);
    var n := st.diffn.value;
    if OnlyAt(zs, xs, n) && !PadClash(|zs[n]|, xs[n]) {
      ExtendGrows(st, zs, xs, n);
      GrowEnds(st.seqs[n].value, st.lens[n], xs[n]);
    } else {
      FieldPrintsOther(st, zs, b);
      NotShownAppend(st.tokens, AllItems(st), b);
      OtherRestarts(st, zs, xs, n);
      ExtendRestarts(st, zs, xs);
      AloneAvoids(Extend(st, xs), xs, b);
    }
  }

  /** What a dropped name and the next make together is not a name between or before them. */
  lemma HybridIsNew(b: Tuple, ys: Tuple, xs: Tuple, k: nat)
    requires |b| == |ys| == |xs| && k <= |xs| && IsTuple(b) && IsTuple(ys) && IsTuple(xs)
    requires Below(b, ys) && Below(ys, xs)
    ensures Hybrid(xs, ys, k) != b
  {
    hide Value;
    var p: nat :| p < |b| && Value(b[p]) < Value(ys[p]) && forall g :: 0 <= g < p ==> Value(b[g]) == Value(ys[g]);
    var q: nat :| q < |b| && Value(ys[q]) < Value(xs[q]) && forall g :: 0 <= g < q ==> Value(ys[g]) == Value(xs[g]);
    var hs := Hybrid(xs, ys, k);
    assert hs[p] == if p < k then xs[p] else ys[p];
    assert hs[q] == if q < k then xs[q] else ys[q];
  }

  lemma RiseIsOnTheLeft(ys: Tuple, xs: Tuple, k: nat, n: nat, q: nat)
    requires |ys| == |xs| && k <= |xs| && IsTuple(ys) && IsTuple(xs)
    requires OnlyAt(Hybrid(xs, ys, k), xs, n) && Value(xs[n]) <= Value(Hybrid(xs, ys, k)[n])
    requires q < |xs| && Value(ys[q]) < Value(xs[q])
    ensures q < k
  {
    hide Value;
  }

  /** If the mixture's run does not go up, the next name is larger left of it already. */
  lemma LargerOnTheLeft(b: Tuple, ys: Tuple, xs: Tuple, k: nat, n: nat) returns (f: nat)
    requires |b| == |ys| == |xs| && k <= |xs| && IsTuple(b) && IsTuple(ys) && IsTuple(xs)
    requires Below(b, ys) && Below(ys, xs)
    requires OnlyAt(Hybrid(xs, ys, k), xs, n) && Value(xs[n]) <= Value(Hybrid(xs, ys, k)[n])
    ensures f < k <= n && xs[f] != b[f]
  {
    hide Value;
    var hs := Hybrid(xs, ys, k);
    assert hs[n] != xs[n];
    hide Hybrid, OnlyAt, Below;
    var p: nat :| p < |b| && Value(b[p]) < Value(ys[p]) && forall g :: 0 <= g < p ==> Value(b[g]) == Value(ys[g]);
    var q: nat :| q < |b| && Value(ys[q]) < Value(xs[q]) && forall g :: 0 <= g < q ==> Value(ys[g]) == Value(xs[g]);
    RiseIsOnTheLeft(ys, xs, k, n, q);
    f := if p < q then p else q;
  }

  lemma FieldAwayAfterGrowth(u: State, hs: Tuple, xs: Tuple, b: Tuple, n: nat, f: nat)
    requires Proper(u) && Last(u, hs) && IsTuple(xs) && OnlyAt(hs, xs, n) && |b| == |xs|
    requires u.diffn == None && !PadClash(|hs[n]|, xs[n])
    requires f < |xs| && f != n && Single(u, f, hs[f]) && xs[f] != b[f]
    ensures FieldAvoids(Extend(u, xs), xs, b)
    ensures Extend(u, xs).tokens == u.tokens
  {
    hide Value, PadClash, Extend, Grow;
    ExtendGrows(u, hs, xs, n);
    GrowEnds(u.seqs[n].value, u.lens[n], xs[n]);
  }

  /** A dropped state meets the next name. */
  lemma DropStaysAway(st: State, ys: Tuple, xs: Tuple, b: Tuple, k: nat)
    requires Proper(st) && 1 <= k < |ys| && st.diffn == None && Loaded(st, ys, k, |ys|) && !Shown(st.tokens, b)
    requires |xs| == |b| == |ys| && IsTuple(xs) && IsTuple(b) && xs != b && Below(ys, xs)
    requires Below(b, ys) || (b == ys && exists f :: 0 <= f < k && xs[f] != b[f])
    ensures Avoids(Extend(st, xs), xs, b)
  {
    hide Value, PadClash, Extend, Matches, AllItems, Shown, Below, Holding, Hybrid, Grow, Alone;
    var hs := Hybrid(xs, ys, k);
    DroppedTakesHybrid(st, xs, ys, k);
    var u := Alone(st, hs);
    assert hs != b by {
      if Below(b, ys) {
        HybridIsNew(b, ys, xs, k);
      } else {
        var f :| 0 <= f < k && xs[f] != b[f];
        assert hs[f] == xs[f];
      }
    }
    AloneIsHolding(u, hs);
    if hs == xs {
      ExtendSame(u, hs);
      AloneAvoids(u, xs, b);
    } else if n: nat :| OnlyAt(hs, xs, n) && !PadClash(|hs[n]|, xs[n]) && Value(xs[n]) <= Value(hs[n]) {
      assert k <= n by { assert hs[n] != xs[n]; }
      ExtendGrows(u, hs, xs, n);
      GrowEnds(u.seqs[n].value, u.lens[n], xs[n]);
      var f: nat;
      if Below(b, ys) {
        f := LargerOnTheLeft(b, ys, xs, k, n);
      } else {
        f :| f < k && xs[f] != b[f];
      }
      assert Single(u, f, hs[f]) && hs[f] == xs[f];
      FieldAwayAfterGrowth(u, hs, xs, b, n, f);
    } else {
      assert [hs][|[hs]| - 1] == hs;
      RunStaysAway(u, [hs], xs, b);
    }
  }

  lemma RunInOrder(zs: Tuple, xs: Tuple)
    requires |zs| == |xs| && IsTuple(zs) && IsTuple(xs) && Below(zs, xs)
    ensures forall n: nat :: OnlyAt(zs, xs, n) ==> Value(zs[n]) < Value(xs[n])
  {
  }

  /** A state that avoids b meets a later name. */
  lemma AvoidsStep(st: State, zs: Tuple, xs: Tuple, b: Tuple)
    requires Proper(st) && Avoids(st, zs, b) && |xs| == |zs| && IsTuple(xs) && IsTuple(b)
    requires Below(b, zs) && Below(zs, xs) && xs != b
    ensures Avoids(Extend(st, xs), xs, b)
  {
    hide Value, PadClash, Extend, Below, Shown, Holding, Loaded, FieldAvoids;
    assert xs != zs by { BelowDiffers(zs, xs); }
    if RunAvoids(st, zs, b) {
      var run :| Holding(st, run) && run != [] && b !in run && run[|run| - 1] == zs;
      RunInOrder(zs, xs);
      RunStaysAway(st, run, xs, b);
    } else if FieldAvoids(st, zs, b) {
      FieldStaysAway(st, zs, xs, b);
    } else {
      var k :| 1 <= k < |zs| && Loaded(st, zs, k, |zs|);
      DropStaysAway(st, zs, xs, b, k);
    }
  }

  lemma DroppedAvoids(st: State, b: Tuple, k: nat)
    requires Proper(st) && 1 <= k < |b| && st.diffn == None && Loaded(st, b, k, |b|) && !Shown(st.tokens, b)
    ensures Avoids(st, b, b)
  {
  }

  lemma CoversNot(tokens: seq<Items>, names: seq<Tuple>, count: nat, v: nat)
    requires Tuples(names, count) && v < |names| && Covers(tokens, names[..v]) && StrictlyAscending(names, count)
    ensures !Shown(tokens, names[v])
  {
    hide Shown, Below;
    forall i | 0 <= i < v
      ensures names[..v][i] != names[v]
    {
      StrictOrder(names, count, i, v);
    }
  }

  lemma ClashInside(names: seq<Tuple>, count: nat, v: nat, k: nat)
    requires Tuples(names, count) && v < |names| && DroppedAt(names, count, v, k)
    ensures 1 <= k < count && v >= 1
  {
  }

  lemma NotRescued(names: seq<Tuple>, count: nat, v: nat, k: nat)
    requires Tuples(names, count) && v + 1 < |names| && !Rescued(names, count, v, k)
    ensures exists f :: 0 <= f < k && f < count && names[v + 1][f] != names[v][f]
  {
  }

  /** Once lost, never printed: the state after any later name still avoids it. */
  lemma {:induction false} StaysLost(names: seq<Tuple>, count: nat, v: nat, k: nat, i: nat)
    requires Tuples(names, count) && count >= 1 && v < i <= |names| && StrictlyAscending(names, count)
    requires DroppedAt(names, count, v, k) && !Rescued(names, count, v, k)
    requires KeepsBefore(names, count, v)
    ensures Avoids(Process(names[..i], count), names[i - 1], names[v])
    decreases i
  {
    hide Value, Extend, Below, Shown, Covers, Loaded, DroppedAt, Rescued, StrictlyAscending, Avoids, Ascending;
    StrictIsAscending(names, count);
    var b := names[v];
    ClashInside(names, count, v, k);
    DroppedState(names, count, v, k);
    CoversNot(Process(names[..v + 1], count).tokens, names, count, v);
    if i == v + 1 {
      DroppedAvoids(Process(names[..i], count), b, k);
    } else {
      var st, zs, xs := Process(names[..i - 1], count), names[i - 2], names[i - 1];
      assert names[..i][..i - 1] == names[..i - 1];
      assert Process(names[..i], count) == Extend(st, xs);
      StrictOrder(names, count, v, i - 1);
      StrictOrder(names, count, i - 2, i - 1);
      if i == v + 2 {
        NotRescued(names, count, v, k);
        DropStaysAway(st, zs, xs, b, k);
      } else {
        StaysLost(names, count, v, k, i - 1);
        StrictOrder(names, count, v, i - 2);
        AvoidsStep(st, zs, xs, b);
      }
    }
  }

  lemma DropPrintsNothing(st: State, zs: Tuple)
    requires Proper(st) && |zs| == |st.seqs| && IsTuple(zs)
    ensures DropAvoids(st, zs) ==> !AllSome(st)
  {
    if DropAvoids(st, zs) {
      var k :| 1 <= k < |zs| && Loaded(st, zs, k, |zs|);
      assert st.seqs[0].None?;
    }
  }

  /** The last flush prints it no more than the ones before. */
  lemma AvoidsIsFinal(st: State, zs: Tuple, b: Tuple)
    requires Proper(st) && Avoids(st, zs, b)
    ensures !Shown(Flush(st).tokens, b)
  {
    hide Value, Matches, AllItems, Shown;
    if st.seqs != [] && AllSome(st) {
      assert !Matches(AllItems(st), b) by {
        if RunAvoids(st, zs, b) {
          var run :| Holding(st, run) && run != [] && b !in run && run[|run| - 1] == zs;
          HoldingPrints(st, run);
        } else {
          DropPrintsNothing(st, zs);
          FieldPrintsOther(st, zs, b);
        }
      }
      NotShownAppend(st.tokens, AllItems(st), b);
    }
  }

  /** The first name that is dropped and not rescued is printed nowhere. */
  lemma FirstLoss(names: seq<Tuple>, count: nat, v: nat, k: nat)
    requires Tuples(names, count) && count >= 1 && v < |names| && StrictlyAscending(names, count)
    requires DroppedAt(names, count, v, k) && !Rescued(names, count, v, k)
    requires KeepsBefore(names, count, v)
    ensures !Shown(Printed(names, count), names[v])
  {
    hide Process, Avoids, Shown, DroppedAt, Rescued, StrictlyAscending;
    StaysLost(names, count, v, k, |names|);
    assert names[..|names|] == names;
    AvoidsIsFinal(Process(names, count), names[|names| - 1], names[v]);
  }

  lemma LeastLoss(names: seq<Tuple>, count: nat) returns (v: nat, k: nat)
    requires Tuples(names, count) && !KeepsAll(names, count)
    ensures v < |names| && DroppedAt(names, count, v, k) && !Rescued(names, count, v, k)
    ensures KeepsBefore(names, count, v)
  {
    hide DroppedAt, Rescued;
    v, k :| v < |names| && DroppedAt(names, count, v, k) && !Rescued(names, count, v, k);
    while exists j, n :: 0 <= j < v && DroppedAt(names, count, j, n) && !Rescued(names, count, j, n)
      invariant v < |names| && DroppedAt(names, count, v, k) && !Rescued(names, count, v, k)
      decreases v
    {
      var j: nat, n: nat :| j < v && DroppedAt(names, count, j, n) && !Rescued(names, count, j, n);
      v, k := j, n;
    }
  }

  /** The exact condition. For names in strictly growing order of their numbers, what is
      printed denotes exactly the names if and only if nothing is lost. */
  lemma RoundTripExactly(names: seq<Tuple>, count: nat)
    requires Tuples(names, count) && count >= 1 && names != [] && StrictlyAscending(names, count)
    ensures Whole(Printed(names, count), names) <==> KeepsAll(names, count)
  {
    hide Shown, DroppedAt, Rescued, Printed;
    if KeepsAll(names, count) {
      StrictIsAscending(names, count);
      RoundTrip(names, count);
    } else {
      var v, k := LeastLoss(names, count);
      FirstLoss(names, count, v, k);
      assert names[v] in names;
    }
  }
}

/** The exact condition for every list in order, names that are equal up to padding included:
    the printed tokens hold the names in their order if and only if nothing is lost. */
module BracketExact {
  import opened Common
  import opened NumberText
  import opened BracketModel
  import opened BracketSteps
  import opened BracketRoundTrip
  import opened BracketCompact
  import opened BracketLoss

  // ----- tokens stay, and each matches something -----

  predicate Begins(tokens: seq<Items>, more: seq<Items>) { |tokens| <= |more| && more[..|tokens|] == tokens }

  lemma BeginsTransitive(a: seq<Items>, b: seq<Items>, c: seq<Items>)
    requires Begins(a, b) && Begins(b, c)
    ensures Begins(a, c)
  {
    assert c[..|a|] == c[..|b|][..|a|];
  }

  lemma StepsKeepTokens(st: State, n: nat, x: string)
    requires Proper(st) && n < |st.seqs| && AllDigits(x)
    ensures Begins(st.tokens, Step1(st, n, x).tokens) && Begins(st.tokens, Step2(st, n, x).tokens)
  {
    hide Value, AllItems, Grow, MustFlush, SameNumber;
  }

  lemma {:induction false} PassesKeepTokens(st: State, xs: Tuple, i: nat)
    requires Proper(st) && |xs| == |st.seqs| && IsTuple(xs) && i <= |xs|
    ensures Begins(st.tokens, Pass1(st, xs, i).tokens) && Begins(st.tokens, Pass2(st, xs, i).tokens)
  {
    hide Step1, Step2;
    if i > 0 {
      PassesKeepTokens(st, xs, i - 1);
      StepsKeepTokens(Pass1(st, xs, i - 1), i - 1, xs[i - 1]);
      StepsKeepTokens(Pass2(st, xs, i - 1), i - 1, xs[i - 1]);
      BeginsTransitive(st.tokens, Pass1(st, xs, i - 1).tokens, Pass1(st, xs, i).tokens);
      BeginsTransitive(st.tokens, Pass2(st, xs, i - 1).tokens, Pass2(st, xs, i).tokens);
    }
  }

  lemma ExtendKeepsTokens(st: State, xs: Tuple)
    requires Proper(st) && |xs| == |st.seqs| && IsTuple(xs)
    ensures Begins(st.tokens, Extend(st, xs).tokens)
  {
    hide Pass1, Pass2;
    var t := Pass1(st, xs, |xs|);
    PassesKeepTokens(st, xs, |xs|);
    PassesKeepTokens(t, xs, |xs|);
    BeginsTransitive(st.tokens, t.tokens, Extend(st, xs).tokens);
  }

  lemma SomeText(e: string) returns (s: string)
    ensures s in ExpandItem(e)
  {
    var p := Colon(e);
    if p == |e| {
      s := e;
    } else {
      var left, right := e[..p], e[p + 1..];
      if left == right {
        s := left;
      } else if AllDigits(left) && AllDigits(right) && Value(left) < Value(right) {
        s := Pad(Value(left), |left|);
      } else {
        s := e;
      }
    }
  }

  lemma {:induction false} SomeTuple(items: Items) returns (t: Tuple)
    requires forall f :: 0 <= f < |items| ==> items[f] != []
    ensures Matches(items, t)
  {
    hide ExpandItem;
    t := [];
    for f := 0 to |items|
      invariant |t| == f && forall g :: 0 <= g < f ==> Lists(items[g], t[g])
    {
      var s := SomeText(items[f][0]);
      t := t + [s];
    }
  }

  lemma TokenMatchesSome(st: State) returns (t: Tuple)
    requires Proper(st) && AllSome(st)
    ensures Matches(AllItems(st), t)
  {
    t := SomeTuple(AllItems(st));
  }

  // ----- the token after the loss -----

  /** The token that comes after these does not match b, but it matches something. */
  ghost predicate Passed(tokens: seq<Items>, printed: seq<Items>, b: Tuple) {
    && |printed| > |tokens| && printed[..|tokens|] == tokens
    && !Matches(printed[|tokens|], b) && exists t :: Matches(printed[|tokens|], t)
  }

  lemma PassedStays(tokens: seq<Items>, printed: seq<Items>, more: seq<Items>, b: Tuple)
    requires Passed(tokens, printed, b) && Begins(printed, more)
    ensures Passed(tokens, more, b)
  {
    hide Matches;
    assert more[..|tokens|] == more[..|printed|][..|tokens|];
    assert more[|tokens|] == more[..|printed|][|tokens|];
  }

  lemma PrintingPasses(st: State, b: Tuple)
    requires Proper(st) && AllSome(st) && !Matches(AllItems(st), b)
    ensures Passed(st.tokens, st.tokens + [AllItems(st)], b)
  {
    hide Matches, AllItems;
    var t := TokenMatchesSome(st);
  }

  /** A field of the run, not the one that grows, stands at a number that b does not have. */
  ghost predicate Away(st: State, b: Tuple, d: nat)
    requires Proper(st)
  {
    && |b| == |st.seqs| && d < |b| && AllSome(st) && st.diffn.Some? && st.diffn.value != d
    && exists x :: AllDigits(x) && Single(st, d, x) && x != b[d]
  }

  lemma AwayAvoids(st: State, b: Tuple, d: nat)
    requires Proper(st) && Away(st, b, d)
    ensures !Matches(AllItems(st), b)
  {
    hide Lists, RunItems;
    var x :| AllDigits(x) && Single(st, d, x) && x != b[d];
    SingleLists(st, d, x);
  }

  lemma GrownIsLast(st: State, zs: Tuple, xs: Tuple, n: nat)
    requires Proper(st) && Last(st, zs) && IsTuple(xs) && OnlyAt(zs, xs, n)
    ensures var (run, w) := Grow(st.seqs[n].value, st.lens[n], xs[n]);
      var u := st.(diffn := Some(n), seqs := st.seqs[n := Some(run)], lens := st.lens[n := w]);
      Last(u, xs) && AllSome(u)
  {
    hide Value;
  }

  /** The name joins the run, or the run is printed. */
  lemma GrowsOrPrints(st: State, zs: Tuple, xs: Tuple)
    requires Proper(st) && Last(st, zs) && |xs| == |zs| && IsTuple(xs) && zs != xs
    ensures AllSome(st)
    ensures if Joins(st.diffn, zs, xs) then
              Last(Extend(st, xs), xs) && AllSome(Extend(st, xs)) && Extend(st, xs).tokens == st.tokens
            else Extend(st, xs).tokens == st.tokens + [AllItems(st)]
  {
    hide PadClash, Extend, Grow, AllItems, Loaded;
    LastIsSome(st, zs);
    if Joins(st.diffn, zs, xs) {
      var n: nat :| OnlyAt(zs, xs, n) && (st.diffn == None || st.diffn == Some(n)) && !PadClash(|zs[n]|, xs[n]);
      ExtendGrows(st, zs, xs, n);
      GrownIsLast(st, zs, xs, n);
    } else if n: nat :| OnlyAt(zs, xs, n) && st.diffn == None {
      ExtendDrops(st, zs, xs, n);
    } else {
      NoOnlyRestarts(st.diffn, zs, xs);
      ExtendRestarts(st, zs, xs);
    }
  }

  lemma AwayGoesOn(st: State, zs: Tuple, xs: Tuple, b: Tuple, d: nat)
    requires Proper(st) && Away(st, b, d) && Last(st, zs) && IsTuple(xs) && |xs| == |zs|
    requires Joins(st.diffn, zs, xs)
    ensures Away(Extend(st, xs), b, d)
  {
    hide PadClash, Extend, Grow;
    var n: nat :| OnlyAt(zs, xs, n) && (st.diffn == None || st.diffn == Some(n)) && !PadClash(|zs[n]|, xs[n]);
    ExtendGrows(st, zs, xs, n);
    var x :| AllDigits(x) && Single(st, d, x) && x != b[d];
    assert Single(Extend(st, xs), d, x);
  }

  lemma HoldingGoesOn(st: State, run: seq<Tuple>, xs: Tuple)
    requires Proper(st) && Holding(st, run) && IsTuple(xs) && |xs| == |st.seqs|
    requires Below(run[|run| - 1], xs) || SameNumbers(run[|run| - 1], xs)
    requires Joins(st.diffn, run[|run| - 1], xs)
    ensures Holding(Extend(st, xs), run + [xs])
  {
    hide PadClash, Extend, Value, FieldHolds, Below, SameNumbers;
    var zs := run[|run| - 1];
    var n: nat :| OnlyAt(zs, xs, n) && (st.diffn == None || st.diffn == Some(n)) && !PadClash(|zs[n]|, xs[n]);
    OrderAtOnlyDifference(zs, xs, n);
    HoldingGrows(st, run, xs, n);
  }

  /** Where the bracketer is after i names, when name v is the first that was lost: its run
      passed name v by, and is still being taken on or has been printed. */
  ghost predicate PassesBy(st: State, names: seq<Tuple>, tokens: seq<Items>, v: nat, i: nat)
    requires Proper(st) && v + 1 < i <= |names|
  {
    || Passed(tokens, st.tokens, names[v])
    || (st.tokens == tokens && AllSome(st) && Last(st, names[i - 1])
        && ((exists d :: Away(st, names[v], d)) || Holding(st, names[v + 1..i])))
  }

  lemma PassingGoesOn(st: State, names: seq<Tuple>, count: nat, tokens: seq<Items>, v: nat, i: nat)
    requires Tuples(names, count) && Ascending(names, count) && Proper(st) && |st.seqs| == count
    requires v + 1 < i < |names| && PassesBy(st, names, tokens, v, i)
    ensures PassesBy(Extend(st, names[i]), names, tokens, v, i + 1)
  {
    hide Value, Extend, Holding, Away, Matches, AllItems, Joins, Below, SameNumbers, Last;
    var zs, xs, b := names[i - 1], names[i], names[v];
    ExtendKeepsTokens(st, xs);
    if Passed(tokens, st.tokens, b) {
      PassedStays(tokens, st.tokens, Extend(st, xs).tokens, b);
    } else {
      GrowsOrPrints(st, zs, xs);
      if d :| Away(st, b, d) {
        if Joins(st.diffn, zs, xs) {
          AwayGoesOn(st, zs, xs, b, d);
        } else {
          AwayAvoids(st, b, d);
          PrintingPasses(st, b);
        }
      } else {
        var run := names[v + 1..i];
        Slices(names, v + 1, i);
        if Joins(st.diffn, zs, xs) {
          HoldingGoesOn(st, run, xs);
        } else {
          HoldingPrints(st, run);
          assert b !in run;
          PrintingPasses(st, b);
        }
      }
    }
  }

  lemma FieldDecides(items: Items, t: Tuple, d: nat)
    requires d < |items| == |t| && !Lists(items[d], t[d])
    ensures !Matches(items, t)
  {
    hide Lists;
  }

  /** The name after the lost one is read against the mixture of the two. */
  lemma PassingBegins(st: State, names: seq<Tuple>, count: nat, v: nat, k: nat)
    requires Tuples(names, count) && Proper(st) && |st.seqs| == count && v + 1 < |names| && 1 <= k < count
    requires Loaded(st, names[v], k, count) && st.diffn == None && names[v + 1] != names[v]
    requires exists f :: 0 <= f < k && names[v + 1][f] != names[v][f]
    ensures PassesBy(Extend(st, names[v + 1]), names, st.tokens, v, v + 2)
  {
    hide Value, PadClash, Extend, Alone, Matches, FieldHolds, AllItems, Hybrid, Grow;
    var ys, xs := names[v], names[v + 1];
    DroppedTakesHybrid(st, xs, ys, k);
    var hs := Hybrid(xs, ys, k);
    var u := Alone(st, hs);
    var d :| 0 <= d < k && xs[d] != ys[d];
    assert Single(u, d, hs[d]) && hs[d] != ys[d];
    if xs == hs {
      ExtendSame(u, xs);
      LastIsSome(u, xs);
      AloneIsHolding(u, xs);
      assert names[v + 1..v + 2] == [xs];
    } else {
      GrowsOrPrints(u, hs, xs);
      if Joins(u.diffn, hs, xs) {
        var n: nat :| OnlyAt(hs, xs, n) && (u.diffn == None || u.diffn == Some(n)) && !PadClash(|hs[n]|, xs[n]);
        ExtendGrows(u, hs, xs, n);
        assert n >= k;
        assert Single(Extend(u, xs), d, hs[d]);
        assert Away(Extend(u, xs), ys, d);
      } else {
        SingleLists(u, d, hs[d]);
        assert !Matches(AllItems(u), ys) by { FieldDecides(AllItems(u), ys, d); }
        PrintingPasses(u, ys);
      }
    }
  }

  lemma NotRescued(names: seq<Tuple>, count: nat, v: nat, k: nat)
    requires Tuples(names, count) && v + 1 < |names| && DroppedAt(names, count, v, k) && !Rescued(names, count, v, k)
    ensures 1 <= k < count && exists f :: 0 <= f < k && names[v + 1][f] != names[v][f]
  {
    hide PadClash, OpenAt;
  }

  lemma {:induction false} PassingStays(names: seq<Tuple>, count: nat, v: nat, k: nat, i: nat)
    requires Tuples(names, count) && count >= 1 && Ascending(names, count) && v + 1 < i <= |names|
    requires DroppedAt(names, count, v, k) && !Rescued(names, count, v, k)
    requires KeepsBefore(names, count, v)
    ensures PassesBy(Process(names[..i], count), names, Process(names[..v + 1], count).tokens, v, i)
    decreases i
  {
    hide Extend, PassesBy, Loaded, Covers, Below, SameNumbers, Value, DroppedAt, Rescued;
    assert names[..i][..i - 1] == names[..i - 1];
    assert Process(names[..i], count) == Extend(Process(names[..i - 1], count), names[i - 1]);
    hide Process, IsTuple;
    var tokens := Process(names[..v + 1], count).tokens;
    if i == v + 2 {
      DroppedState(names, count, v, k);
      NotRescued(names, count, v, k);
      PassingBegins(Process(names[..v + 1], count), names, count, v, k);
    } else {
      PassingStays(names, count, v, k, i - 1);
      PassingGoesOn(Process(names[..i - 1], count), names, count, tokens, v, i - 1);
    }
  }

  /** A token behind tokens for the names before v is for none of these. */
  lemma TokenIsForLater(tokens: seq<Items>, printed: seq<Items>, names: seq<Tuple>, v: nat, m: nat, j: nat)
    requires v <= |names| && m < |names| && Whole(tokens, names[..v]) && Begins(tokens, printed) && Apart(printed)
    requires |tokens| <= j < |printed| && Matches(printed[j], names[m])
    ensures v <= m
  {
    hide Matches, VariesOnce;
    assert forall i :: 0 <= i < |tokens| ==> printed[i] == tokens[i] && !Matches(printed[i], names[m]);
    assert !Shown(tokens, names[m]);
    assert forall a :: 0 <= a < v ==> names[..v][a] == names[a];
  }

  lemma NameIsInLater(tokens: seq<Items>, printed: seq<Items>, names: seq<Tuple>, v: nat) returns (j: nat)
    requires v < |names| && Whole(tokens, names[..v]) && Begins(tokens, printed) && Shown(printed, names[v])
    requires forall i, j :: 0 <= i < j < |names| ==> names[i] != names[j]
    ensures |tokens| <= j < |printed| && Matches(printed[j], names[v])
  {
    hide Matches, VariesOnce, Apart;
    assert names[v] !in names[..v];
    assert forall i :: 0 <= i < |tokens| ==> printed[i] == tokens[i];
    j :| j < |printed| && Matches(printed[j], names[v]);
    assert !Shown(tokens, names[v]);
  }

  /** Once the run that passed it by is printed, the names cannot be in order any more. */
  lemma PassedBreaksOrder(tokens: seq<Items>, printed: seq<Items>, names: seq<Tuple>, v: nat)
    requires v < |names| && Passed(tokens, printed, names[v]) && Whole(tokens, names[..v])
    requires forall i, j :: 0 <= i < j < |names| ==> names[i] != names[j]
    ensures !Covers(printed, names)
  {
    hide Matches, VariesOnce;
    var p := |tokens|;
    var t :| Matches(printed[p], t);
    if Covers(printed, names) {
      assert Shown(printed, t) && Shown(printed, names[v]);
      var m :| 0 <= m < |names| && names[m] == t;
      var j := NameIsInLater(tokens, printed, names, v);
      TokenIsForLater(tokens, printed, names, v, m, p);
      hide Whole;
      assert false;
    }
  }

  lemma PassedInTheEnd(st: State, names: seq<Tuple>, tokens: seq<Items>, v: nat)
    requires Proper(st) && st.seqs != [] && v + 1 < |names| && PassesBy(st, names, tokens, v, |names|)
    requires forall i, j :: 0 <= i < j < |names| ==> names[i] != names[j]
    ensures Passed(tokens, Flush(st).tokens, names[v])
  {
    hide Away, Holding, Matches, AllItems, Last;
    var b := names[v];
    if Passed(tokens, st.tokens, b) {
      PassedStays(tokens, st.tokens, Flush(st).tokens, b);
    } else {
      if d :| Away(st, b, d) {
        AwayAvoids(st, b, d);
      } else {
        assert names[v + 1..|names|] == names[v + 1..];
        HoldingPrints(st, names[v + 1..]);
        assert b !in names[v + 1..];
      }
      PrintingPasses(st, b);
      FlushEmits(st);
    }
  }

  /** A name that is lost at the end of the list is printed nowhere. */
  lemma LastIsLost(names: seq<Tuple>, count: nat, v: nat, k: nat)
    requires Tuples(names, count) && count >= 1 && Ascending(names, count) && v + 1 == |names|
    requires DroppedAt(names, count, v, k)
    requires KeepsBefore(names, count, v)
    ensures !Covers(Printed(names, count), names)
  {
    hide Process, Matches, Rescued, VariesOnce;
    DroppedState(names, count, v, k);
    assert names[..v + 1] == names;
    var st := Process(names, count);
    assert st.seqs[0].None?;
    assert names[v] !in names[..v];
    assert !Shown(st.tokens, names[v]);
  }

  lemma LostBreaksOrder(names: seq<Tuple>, count: nat, v: nat, k: nat)
    requires Tuples(names, count) && count >= 1 && Ascending(names, count) && v + 1 < |names|
    requires DroppedAt(names, count, v, k) && !Rescued(names, count, v, k)
    requires KeepsBefore(names, count, v)
    ensures !Covers(Printed(names, count), names)
  {
    hide Process, PassesBy, Passed, InOrder, Whole, Loaded, DroppedAt, Rescued, Flush;
    var tokens := Process(names[..v + 1], count).tokens;
    DroppedState(names, count, v, k);
    PassingStays(names, count, v, k, |names|);
    assert names[..|names|] == names;
    PassedInTheEnd(Process(names, count), names, tokens, v);
    PassedBreaksOrder(tokens, Printed(names, count), names, v);
  }

  /** The exact condition. For every list in order, of names with any number of numbers and
      any paddings, the tokens hold the names, in their order, if and only if no name is
      lost. */
  lemma RoundTripExactly(names: seq<Tuple>, count: nat)
    requires Tuples(names, count) && count >= 1 && names != [] && Ascending(names, count)
    ensures Covers(Printed(names, count), names) <==> KeepsAll(names, count)
  {
    hide Covers, DroppedAt, Rescued, Printed, Below, SameNumbers;
    if KeepsAll(names, count) {
      RoundTrip(names, count);
    } else {
      var v, k := LeastLoss(names, count);
      if v + 1 == |names| {
        LastIsLost(names, count, v, k);
      } else {
        LostBreaksOrder(names, count, v, k);
      }
    }
  }
}

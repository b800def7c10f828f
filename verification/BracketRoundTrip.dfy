/** Expanding what the bracketer printed gives back the names it was given. */
module BracketRoundTrip {
  import opened Common
  import opened NumberText
  import opened BracketModel
  import opened BracketSteps

  // ----- what a token denotes -----

  ghost predicate Lists(items: seq<string>, s: string) {
    exists i :: 0 <= i < |items| && s in ExpandItem(items[i])
  }

  /** The token, expanded field by field, contains the tuple. */
  ghost predicate Matches(items: Items, t: Tuple) {
    |t| == |items| && forall f :: 0 <= f < |items| ==> Lists(items[f], t[f])
  }

  ghost predicate Shown(tokens: seq<Items>, t: Tuple) {
    exists j :: 0 <= j < |tokens| && Matches(tokens[j], t)
  }

  /** No name is in two of the tokens. */
  ghost predicate Apart(tokens: seq<Items>) {
    forall i, j, t :: 0 <= i < j < |tokens| && Matches(tokens[i], t) ==> !Matches(tokens[j], t)
  }

  /** All texts that a field lists are the same. */
  ghost predicate Fixed(items: seq<string>) {
    forall s, s' :: Lists(items, s) && Lists(items, s') ==> s == s'
  }

  ghost predicate FixedBut(token: Items, n: nat) {
    forall f :: 0 <= f < |token| && f != n ==> Fixed(token[f])
  }

  /** The token varies in at most one field. */
  ghost predicate VariesOnce(token: Items) {
    exists n: nat :: FixedBut(token, n)
  }

  /** The tokens together denote exactly the names, each name once, and each token varies in
      at most one field. */
  ghost predicate Whole(tokens: seq<Items>, names: seq<Tuple>) {
    && (forall t :: Shown(tokens, t) <==> t in names)
    && Apart(tokens)
    && forall j :: 0 <= j < |tokens| ==> VariesOnce(tokens[j])
  }

  /** Earlier tokens are for earlier names. */
  ghost predicate InOrder(tokens: seq<Items>, names: seq<Tuple>) {
    forall i, j, a, b :: 0 <= i < j < |tokens| && 0 <= a < |names| && 0 <= b < |names| ==>
      (Matches(tokens[i], names[a]) && Matches(tokens[j], names[b]) ==> a < b)
  }

  /** The same, with the names in their order. */
  ghost predicate Covers(tokens: seq<Items>, names: seq<Tuple>) { Whole(tokens, names) && InOrder(tokens, names) }

  lemma ListsAppend(items: seq<string>, last: string, s: string)
    ensures Lists(items + [last], s) <==> Lists(items, s) || s in ExpandItem(last)
  {
    hide ExpandItem;
    var all := items + [last];
    if Lists(items, s) {
      var i :| 0 <= i < |items| && s in ExpandItem(items[i]);
      assert all[i] == items[i];
    }
    if s in ExpandItem(last) {
      assert all[|items|] == last;
    }
  }

  lemma OrderAppends(tokens: seq<Items>, names: seq<Tuple>, token: Items, more: seq<Tuple>)
    requires InOrder(tokens, names) && forall t :: Shown(tokens, t) <==> t in names
    requires forall t :: Matches(token, t) <==> t in more
    requires forall t :: t in more ==> t !in names
    ensures InOrder(tokens + [token], names + more)
  {
    hide Matches;
    var all, both := tokens + [token], names + more;
    forall i, j, a, b | 0 <= i < j < |all| && 0 <= a < |both| && 0 <= b < |both|
                        && Matches(all[i], both[a]) && Matches(all[j], both[b])
      ensures a < b
    {
      assert Shown(tokens, both[a]);
      assert a < |names|;
      if j < |tokens| {
        assert Shown(tokens, both[b]);
        assert b < |names|;
      }
    }
  }

  lemma WholeAppend(tokens: seq<Items>, names: seq<Tuple>, token: Items, more: seq<Tuple>)
    requires Whole(tokens, names) && VariesOnce(token)
    requires forall t :: Matches(token, t) <==> t in more
    requires forall t :: t in more ==> t !in names
    ensures Whole(tokens + [token], names + more)
  {
    hide Matches, VariesOnce;
    assert Apart(tokens + [token]) by {
      forall i, t | 0 <= i < |tokens| && Matches(tokens[i], t)
        ensures !Matches(token, t)
      {
        assert Shown(tokens, t);
      }
    }
    hide Apart;
    forall t
      ensures Shown(tokens + [token], t) <==> t in names + more
    {
      var all := tokens + [token];
      if Shown(tokens, t) {
        var j :| 0 <= j < |tokens| && Matches(tokens[j], t);
        assert all[j] == tokens[j];
      }
      if Matches(token, t) {
        assert all[|tokens|] == token;
      }
    }
  }

  lemma CoversAppend(tokens: seq<Items>, names: seq<Tuple>, token: Items, more: seq<Tuple>)
    requires Covers(tokens, names) && VariesOnce(token)
    requires forall t :: Matches(token, t) <==> t in more
    requires forall t :: t in more ==> t !in names
    ensures Covers(tokens + [token], names + more)
  {
    OrderAppends(tokens, names, token, more);
    WholeAppend(tokens, names, token, more);
  }

  // ----- one field's run -----

  /** The printed run of a field lists exactly the numbers it took in, the last of them is
      its value at the run's left width, and the run ends there. */
  ghost predicate FieldHolds(run: Run, w: Width, ys: seq<string>) {
    && ys != [] && AllDigits(ys[|ys| - 1])
    && run.prev == Value(ys[|ys| - 1]) && w.prev == |ys[|ys| - 1]|
    && ys[|ys| - 1] == Pad(run.prev, w.start)
    && run.start <= run.prev && |Pad(run.start, w.start)| == w.start
    && forall s :: s in ys <==> Lists(RunItems(run, w), s)
  }

  lemma ItemMeans(start: nat, prev: nat, w: Width)
    requires start <= prev && |Pad(start, w.start)| == w.start
    ensures ExpandItem(Item(start, prev, w)) == set k | start <= k <= prev :: Pad(k, w.start)
  {
    hide Value, Pad, ExpandItem;
    ValueOfPad(start, w.start);
    ValueOfPad(prev, w.prev);
    if start == prev {
      SingleItemMeans(Pad(start, w.start));
    } else {
      RangeItemMeans(Pad(start, w.start), Pad(prev, w.prev));
    }
  }

  lemma SingleHolds(x: string)
    requires AllDigits(x)
    ensures FieldHolds(Run([], Value(x), Value(x)), Width(|x|, |x|), [x])
  {
    hide Value, Pad, ExpandItem;
    TextIsPad(x);
    SingleItemMeans(x);
    forall s
      ensures s in [x] <==> Lists([] + [x], s)
    {
      ListsAppend([], x, s);
    }
  }

  /** A larger number without a padding clash joins the run: adjacent, it moves the right
      end; further on, it closes the range and opens the next. */
  lemma FieldGrows(run: Run, w: Width, ys: seq<string>, x: string)
    requires FieldHolds(run, w, ys) && AllDigits(x)
    requires run.prev < Value(x) && !PadClash(w.prev, x)
    ensures FieldHolds(Grow(run, w, x).0, Grow(run, w, x).1, ys + [x])
  {
    hide Value, Pad, PadClash, ExpandItem;
    var last, v := ys[|ys| - 1], Value(x);
    var (run', w') := Grow(run, w, x);
    var closed := Item(run.start, run.prev, w);
    ItemMeans(run.start, run.prev, w);
    NoClashKeepsPadding(w.start, last, x);
    TextIsPad(x);
    ItemMeans(run'.start, run'.prev, w');
    var open := Item(run'.start, run'.prev, w');
    forall s
      ensures s in ys + [x] <==> Lists(RunItems(run', w'), s)
    {
      ListsAppend(run.texts, closed, s);
      ListsAppend(run'.texts, open, s);
    }
  }

  // ----- the whole state -----

  function Column(names: seq<Tuple>, n: nat): (ys: seq<string>)
    requires forall i :: 0 <= i < |names| ==> n < |names[i]|
    ensures |ys| == |names|
  {
    seq(|names|, i requires 0 <= i < |names| => names[i][n])
  }

  /** The unprinted run is exactly these names: they agree on every field but the noted
      one, and there the run holds their numbers. */
  ghost predicate Holding(st: State, names: seq<Tuple>)
    requires Proper(st)
  {
    && names != [] && Tuples(names, |st.seqs|) && Last(st, names[|names| - 1])
    && match st.diffn
       case None => |names| == 1 && Loaded(st, names[0], 0, |st.seqs|)
       case Some(n) =>
         && n < |st.seqs|
         && (forall f :: 0 <= f < |st.seqs| && f != n ==>
               Single(st, f, names[0][f]) && forall i :: 0 <= i < |names| ==> names[i][f] == names[0][f])
         && FieldHolds(st.seqs[n].value, st.lens[n], Column(names, n))
  }

  lemma AloneIsHolding(st: State, xs: Tuple)
    requires Proper(st) && Loaded(st, xs, 0, |xs|)
    requires st.diffn.Some? ==> st.diffn.value < |xs|
    ensures Holding(st, [xs])
  {
    hide Value, FieldHolds;
    if st.diffn.Some? {
      SingleHolds(xs[st.diffn.value]);
      assert Column([xs], st.diffn.value) == [xs[st.diffn.value]];
    }
  }

  /** The field a state has noted, or any field of one that has noted none, holds the
      numbers of its names. */
  lemma NotedFieldHolds(st: State, names: seq<Tuple>, n: nat)
    requires Proper(st) && Holding(st, names) && n < |st.seqs|
    requires st.diffn == None || st.diffn == Some(n)
    ensures FieldHolds(st.seqs[n].value, st.lens[n], Column(names, n))
  {
    hide Value, FieldHolds;
    if st.diffn == None {
      SingleHolds(names[0][n]);
      assert Column(names, n) == [names[0][n]];
    }
  }

  lemma LastColumn(st: State, names: seq<Tuple>, n: nat)
    requires Proper(st) && Holding(st, names) && n < |st.seqs|
    ensures st.seqs[n].value.prev == Value(names[|names| - 1][n])
    ensures st.lens[n].prev == |names[|names| - 1][n]|
  {
  }

  lemma GrowEnds(run: Run, w: Width, x: string)
    requires AllDigits(x)
    ensures Grow(run, w, x).0.prev == Value(x) && Grow(run, w, x).1.prev == |x|
  {
  }

  lemma HoldingGrows(st: State, names: seq<Tuple>, xs: Tuple, n: nat)
    requires Proper(st) && Holding(st, names) && IsTuple(xs)
    requires OnlyAt(names[|names| - 1], xs, n)
    requires st.diffn == None || st.diffn == Some(n)
    requires Value(names[|names| - 1][n]) < Value(xs[n]) && !PadClash(|names[|names| - 1][n]|, xs[n])
    ensures Holding(Extend(st, xs), names + [xs])
    ensures Extend(st, xs).tokens == st.tokens && Extend(st, xs).diffn == Some(n)
  {
    hide Value, FieldHolds, Grow, Extend, PadClash;
    var zs := names[|names| - 1];
    ExtendGrows(st, zs, xs, n);
    NotedFieldHolds(st, names, n);
    LastColumn(st, names, n);
    FieldGrows(st.seqs[n].value, st.lens[n], Column(names, n), xs[n]);
    assert Column(names + [xs], n) == Column(names, n) + [xs[n]];
    GrowEnds(st.seqs[n].value, st.lens[n], xs[n]);
  }

  lemma FieldLists(run: Run, w: Width, ys: seq<string>)
    requires FieldHolds(run, w, ys)
    ensures forall s :: Lists(RunItems(run, w), s) <==> s in ys
  {
  }

  lemma SingleLists(st: State, f: nat, x: string)
    requires Proper(st) && AllSome(st) && f < |st.seqs| && AllDigits(x) && Single(st, f, x)
    ensures forall s :: Lists(AllItems(st)[f], s) <==> s == x
  {
    hide Value, FieldHolds, Lists, RunItems;
    SingleHolds(x);
    FieldLists(Run([], Value(x), Value(x)), Width(|x|, |x|), [x]);
  }

  /** What the flush prints for the run denotes exactly its names. */
  lemma HoldingPrints(st: State, names: seq<Tuple>)
    requires Proper(st) && Holding(st, names) && AllSome(st)
    ensures forall t :: Matches(AllItems(st), t) <==> t in names
    ensures VariesOnce(AllItems(st))
  {
    hide Value, Pad, ExpandItem, FieldHolds, Lists, RunItems;
    var count := |st.seqs|;
    var n := if st.diffn.Some? then st.diffn.value else 0;
    forall f | 0 <= f < count && (f != n || st.diffn == None)
      ensures forall s :: Lists(AllItems(st)[f], s) <==> s == names[0][f]
    {
      SingleHolds(names[0][f]);
      SingleLists(st, f, names[0][f]);
    }
    if st.diffn.Some? {
      FieldLists(st.seqs[n].value, st.lens[n], Column(names, n));
    }
    assert FixedBut(AllItems(st), n) by {
      hide AllItems;
    }
    hide Fixed;
    forall t
      ensures Matches(AllItems(st), t) <==> t in names
    {
      if Matches(AllItems(st), t) {
        if st.diffn.Some? {
          assert Lists(AllItems(st)[n], t[n]);
          var i :| 0 <= i < |names| && Column(names, n)[i] == t[n];
          assert t == names[i];
        } else {
          assert t == names[0];
        }
      }
      if t in names {
        var i :| 0 <= i < |names| && names[i] == t;
        if st.diffn.Some? {
          assert Column(names, n)[i] == t[n];
        }
      }
    }
  }

  // ----- lists of names -----

  /** Numbers compared field by field, the first difference deciding: the order humanify_nodename
      sorts names of equal text into. */
  ghost predicate Below(zs: Tuple, xs: Tuple)
    requires |zs| == |xs| && IsTuple(zs) && IsTuple(xs)
  {
    exists f :: 0 <= f < |zs| && Value(zs[f]) < Value(xs[f]) && forall g :: 0 <= g < f ==> Value(zs[g]) == Value(xs[g])
  }

  ghost predicate SameNumbers(zs: Tuple, xs: Tuple)
    requires |zs| == |xs| && IsTuple(zs) && IsTuple(xs)
  {
    forall f :: 0 <= f < |zs| ==> Value(zs[f]) == Value(xs[f])
  }

  /** Distinct names in the order of their numbers; equal numbers may differ in padding. */
  ghost predicate Ascending(names: seq<Tuple>, count: nat)
    requires Tuples(names, count)
  {
    && (forall i :: 0 < i < |names| ==> Below(names[i - 1], names[i]) || SameNumbers(names[i - 1], names[i]))
    && (forall i, j :: 0 <= i < j < |names| ==> names[i] != names[j])
  }

  /** Name i differs from the one before it in number n alone, and only that number's
      padding keeps the two apart. */
  ghost predicate ClashAt(names: seq<Tuple>, count: nat, i: nat, n: nat)
    requires Tuples(names, count) && i < |names|
  {
    1 <= i && n < count && OnlyAt(names[i - 1], names[i], n) && PadClash(|names[i - 1][n]|, names[i][n])
  }

  /** Every name up to i clashes like that with the one before it. */
  ghost predicate OpenAt(names: seq<Tuple>, count: nat, i: nat)
    requires Tuples(names, count) && i < |names|
  {
    i == 0 || (OpenAt(names, count, i - 1) && exists n :: ClashAt(names, count, i, n))
  }

  /** Name i leaves the bracketer with its first k fields unset. */
  ghost predicate DroppedAt(names: seq<Tuple>, count: nat, i: nat, k: nat)
    requires Tuples(names, count) && i < |names|
  {
    1 <= k && ClashAt(names, count, i, k) && OpenAt(names, count, i)
  }

  /** Name i is followed by a name with the same first k numbers. */
  ghost predicate Rescued(names: seq<Tuple>, count: nat, i: nat, k: nat)
    requires Tuples(names, count) && i < |names|
  {
    i + 1 < |names| && forall f :: 0 <= f < k && f < count ==> names[i + 1][f] == names[i][f]
  }

  /** Nothing is lost: while every name only changes the padding of one number of the one
      before it, a change past the first number is followed by a name that agrees on the
      numbers left of it. */
  ghost predicate KeepsAll(names: seq<Tuple>, count: nat)
    requires Tuples(names, count)
  {
    forall i, k :: 0 <= i < |names| && DroppedAt(names, count, i, k) ==> Rescued(names, count, i, k)
  }

  /** Where the bracketer stands after i names. With k == 0 names a to i-1 are its run and
      the ones before are printed; with k > 0 the last name is only kept from field k on. */
  ghost predicate Stage(st: State, names: seq<Tuple>, count: nat, i: nat, a: nat, k: nat)
    requires Proper(st) && Tuples(names, count) && |st.seqs| == count && 1 <= i <= |names|
  {
    if k == 0 then
      && a < i && Holding(st, names[a..i]) && Covers(st.tokens, names[..a])
      && (st.diffn == None ==> a == i - 1)
      && (st.diffn == None <==> OpenAt(names, count, i - 1))
    else
      && a == i - 1 && k < count && st.diffn == None && Loaded(st, names[i - 1], k, count)
      && Covers(st.tokens, names[..i - 1]) && DroppedAt(names, count, i - 1, k)
  }

  lemma OrderAtOnlyDifference(zs: Tuple, xs: Tuple, n: nat)
    requires |zs| == |xs| && IsTuple(zs) && IsTuple(xs) && OnlyAt(zs, xs, n)
    requires Below(zs, xs) || SameNumbers(zs, xs)
    requires !PadClash(|zs[n]|, xs[n])
    ensures Value(zs[n]) < Value(xs[n])
  {
    hide Value, PadClash;
    SameText(zs[n], xs[n]);
    if Value(zs[n]) == Value(xs[n]) {
      SameValueClashes(zs[n], xs[n]);
    }
  }

  lemma NoOnlyRestarts(d: Option<nat>, zs: Tuple, xs: Tuple)
    requires |zs| == |xs| && IsTuple(xs) && zs != xs
    requires forall n: nat :: OnlyAt(zs, xs, n) ==> d != None
    requires forall n: nat :: OnlyAt(zs, xs, n) && (d == None || d == Some(n)) ==> PadClash(|zs[n]|, xs[n])
    ensures Restarts(d, zs, xs)
  {
  }

  lemma GrowthIsNotOpen(names: seq<Tuple>, count: nat, i: nat, n: nat)
    requires Tuples(names, count) && 1 <= i < |names| && OnlyAt(names[i - 1], names[i], n)
    requires !PadClash(|names[i - 1][n]|, names[i][n])
    ensures !OpenAt(names, count, i)
  {
  }

  lemma ClashIsOpen(names: seq<Tuple>, count: nat, i: nat, n: nat)
    requires Tuples(names, count) && 1 <= i < |names| && OnlyAt(names[i - 1], names[i], n)
    requires PadClash(|names[i - 1][n]|, names[i][n]) && OpenAt(names, count, i - 1)
    ensures OpenAt(names, count, i) && ClashAt(names, count, i, n)
  {
    assert ClashAt(names, count, i, n);
  }

  lemma RestartIsNotOpen(names: seq<Tuple>, count: nat, i: nat, d: Option<nat>)
    requires Tuples(names, count) && 1 <= i < |names| && Restarts(d, names[i - 1], names[i])
    requires d == None <==> OpenAt(names, count, i - 1)
    ensures !OpenAt(names, count, i)
  {
  }

  lemma Slices<T>(s: seq<T>, a: nat, i: nat)
    requires a < i < |s|
    ensures s[..a] + s[a..i] == s[..i] && s[a..i + 1] == s[a..i] + [s[i]] && s[i..i + 1] == [s[i]]
    ensures s[a..i][|s[a..i]| - 1] == s[i - 1]
    ensures forall x :: x in s[a..i] ==> exists j :: a <= j < i && x == s[j]
  {
  }

  /** What is printed if the run ends here. */
  lemma RunIsWhole(st: State, names: seq<Tuple>, count: nat, i: nat, a: nat)
    requires Tuples(names, count) && Proper(st) && |st.seqs| == count && 1 <= i < |names|
    requires a < i && Holding(st, names[a..i]) && AllSome(st) && Covers(st.tokens, names[..a])
    requires forall h, j :: 0 <= h < j < |names| ==> names[h] != names[j]
    ensures Covers(st.tokens + [AllItems(st)], names[..i])
  {
    hide Matches, Covers, Holding, AllItems, VariesOnce;
    var run := names[a..i];
    Slices(names, a, i);
    HoldingPrints(st, run);
    forall t | t in run
      ensures t !in names[..a]
    {
    }
    CoversAppend(st.tokens, names[..a], AllItems(st), run);
  }

  /** The three things a name can do to a run: join it, end it, or end it by a clash. */
  lemma RunMeetsName(st: State, names: seq<Tuple>, count: nat, i: nat, a: nat) returns (a': nat, k': nat)
    requires Tuples(names, count) && Proper(st) && |st.seqs| == count && 1 <= i < |names|
    requires Stage(st, names, count, i, a, 0)
    requires names[i - 1] != names[i]
    requires Below(names[i - 1], names[i]) || SameNumbers(names[i - 1], names[i])
    requires forall h, j :: 0 <= h < j < |names| ==> names[h] != names[j]
    ensures Stage(Extend(st, names[i]), names, count, i + 1, a', k')
  {
    hide Value, PadClash, Extend, Matches, FieldHolds, OpenAt, ClashAt, Restarts;
    var zs, xs := names[i - 1], names[i];
    var run := names[a..i];
    Slices(names, a, i);
    LastIsSome(st, zs);
    RunIsWhole(st, names, count, i, a);
    hide Covers;
    if n: nat :| OnlyAt(zs, xs, n) && (st.diffn == None || st.diffn == Some(n)) && !PadClash(|zs[n]|, xs[n]) {
      OrderAtOnlyDifference(zs, xs, n);
      HoldingGrows(st, run, xs, n);
      GrowthIsNotOpen(names, count, i, n);
      a', k' := a, 0;
    } else if n: nat :| OnlyAt(zs, xs, n) && st.diffn == None {
      ExtendDrops(st, zs, xs, n);
      ClashIsOpen(names, count, i, n);
      if n == 0 {
        AloneIsHolding(Extend(st, xs), xs);
      }
      a', k' := i, n;
    } else {
      NoOnlyRestarts(st.diffn, zs, xs);
      RestartIsNotOpen(names, count, i, st.diffn);
      ExtendRestarts(st, zs, xs);
      AloneIsHolding(Extend(st, xs), xs);
      a', k' := i, 0;
    }
  }

  /** A dropped name that is rescued stands alone again when the next name is read. */
  lemma DropIsRepaired(st: State, names: seq<Tuple>, count: nat, i: nat, k: nat)
    requires Tuples(names, count) && Proper(st) && |st.seqs| == count && 1 <= i < |names| && k > 0
    requires Stage(st, names, count, i, i - 1, k) && Rescued(names, count, i - 1, k)
    ensures var u := Alone(st, names[i - 1]);
            Stage(u, names, count, i, i - 1, 0) && Extend(st, names[i]) == Extend(u, names[i])
  {
    hide Value, PadClash, Extend, Matches, FieldHolds, Alone, Covers;
    var ys, xs := names[i - 1], names[i];
    DroppedTakesHybrid(st, xs, ys, k);
    assert Hybrid(xs, ys, k) == ys;
    var u := Alone(st, ys);
    AloneIsHolding(u, ys);
    assert names[i - 1..i] == [ys];
  }

  lemma FirstName(names: seq<Tuple>, count: nat)
    requires Tuples(names, count) && names != [] && count >= 1
    ensures Stage(Process(names[..1], count), names, count, 1, 0, 0)
  {
    hide Value, PadClash, Extend, Matches, FieldHolds, Alone;
    var xs := names[0];
    var st := Start(count);
    assert names[..1][..0] == [] && names[..1][0] == xs;
    assert Process([], count) == st;
    assert Process(names[..1], count) == Extend(st, xs);
    assert Loaded(st, xs, count, count);
    DroppedTakesHybrid(st, xs, xs, count);
    assert Hybrid(xs, xs, count) == xs;
    var u := Alone(st, xs);
    ExtendSame(u, xs);
    AloneIsHolding(u, xs);
    assert names[0..1] == [xs] && names[..0] == [];
    assert OpenAt(names, count, 0);
  }

  lemma StageDrops(st: State, names: seq<Tuple>, count: nat, i: nat, a: nat, k: nat)
    requires Tuples(names, count) && Proper(st) && |st.seqs| == count && 1 <= i <= |names| && k > 0
    requires Stage(st, names, count, i, a, k)
    ensures a == i - 1 && k < count && DroppedAt(names, count, i - 1, k)
    ensures st.diffn == None && Loaded(st, names[i - 1], k, count) && Covers(st.tokens, names[..i - 1])
  {
  }

  /** Up to the first loss, the bracketer's state is one of the two known kinds. */
  lemma {:induction false} StageAfter(names: seq<Tuple>, count: nat, i: nat) returns (a: nat, k: nat)
    requires Tuples(names, count) && count >= 1 && 1 <= i <= |names| && Ascending(names, count)
    requires forall j, n :: 0 <= j < i - 1 && DroppedAt(names, count, j, n) ==> Rescued(names, count, j, n)
    ensures Stage(Process(names[..i], count), names, count, i, a, k)
    decreases i
  {
    hide Stage, DroppedAt, Rescued, Extend, Below, SameNumbers;
    if i == 1 {
      FirstName(names, count);
      a, k := 0, 0;
    } else {
      a, k := StageAfter(names, count, i - 1);
      var st := Process(names[..i - 1], count);
      assert names[..i][..i - 1] == names[..i - 1];
      assert Process(names[..i], count) == Extend(st, names[i - 1]);
      if k > 0 {
        StageDrops(st, names, count, i - 1, a, k);
        DropIsRepaired(st, names, count, i - 1, k);
        a, k := RunMeetsName(Alone(st, names[i - 2]), names, count, i - 1, i - 2);
      } else {
        a, k := RunMeetsName(st, names, count, i - 1, a);
      }
    }
  }

  lemma LastIsKept(st: State, names: seq<Tuple>, count: nat, a: nat, k: nat)
    requires Tuples(names, count) && names != [] && KeepsAll(names, count)
    requires Proper(st) && |st.seqs| == count && Stage(st, names, count, |names|, a, k)
    ensures k == 0
  {
  }

  lemma RunIsPrinted(st: State, names: seq<Tuple>)
    requires Proper(st) && Holding(st, names) && |st.seqs| >= 1
    ensures AllSome(st) && Flush(st).tokens == st.tokens + [AllItems(st)]
    ensures VariesOnce(AllItems(st))
    ensures forall t :: Matches(AllItems(st), t) <==> t in names
  {
    hide AllItems, Matches, FieldHolds;
    LastIsSome(st, names[|names| - 1]);
    HoldingPrints(st, names);
    FlushEmits(st);
  }

  /** The main result. For every ascending list of names of one text with any number of
      numbers and any zero padding, if nothing is lost in the sense of KeepsAll, what is
      printed denotes exactly the names. */
  lemma RoundTrip(names: seq<Tuple>, count: nat)
    requires Tuples(names, count) && count >= 1 && names != [] && Ascending(names, count)
    requires KeepsAll(names, count)
    ensures Covers(Printed(names, count), names)
  {
    hide Value, PadClash, Extend, Matches, FieldHolds, AllItems, DroppedAt, Rescued, Holding, Covers, Process;
    var a, k := StageAfter(names, count, |names|);
    var st := Process(names, count);
    assert names[..|names|] == names;
    LastIsKept(st, names, count, a, k);
    RunIsPrinted(st, names[a..]);
    CoversAppend(st.tokens, names[..a], AllItems(st), names[a..]);
    assert names[..a] + names[a..] == names;
  }
}

/** Names that differ in nothing but padding. Then a name that was dropped can come back as
    a mixture of two later names, and the list is printed whole after all; so for such
    lists the condition of RoundTrip is enough, but not needed. */
module BracketTies {
  import opened Common
  import opened NumberText
  import opened BracketModel
  import opened BracketSteps
  import opened BracketRoundTrip

  /** Six names of three numbers; the first five are equal up to padding. */
  function SixNames(): seq<Tuple> {
    [["1", "1", "1"], ["1", "01", "1"], ["01", "001", "1"], ["01", "01", "1"], ["1", "001", "1"], ["1", "0001", "2"]]
  }

  /** What a name prints when it clashes with the mixture that it makes with a state whose
      fields from k on are set. */
  lemma MixtureIsPrinted(st: State, ys: Tuple, xs: Tuple, k: nat, got: seq<Tuple>)
    requires Proper(st) && |st.seqs| == |ys| == |xs| == 3 && k <= 1 && st.diffn == None && IsTuple(xs)
    requires Loaded(st, ys, k, 3) && Whole(st.tokens, got)
    requires OnlyAt(Hybrid(xs, ys, k), xs, 1) && PadClash(|Hybrid(xs, ys, k)[1]|, xs[1])
    requires Hybrid(xs, ys, k) !in got
    ensures var u := Extend(st, xs);
            u.diffn == None && Loaded(u, xs, 1, 3) && Whole(u.tokens, got + [Hybrid(xs, ys, k)])
  {
    hide Value, PadClash, Extend, Hybrid, Alone, Whole, AllItems;
    var hs := Hybrid(xs, ys, k);
    DroppedTakesHybrid(st, xs, ys, k);
    var u := Alone(st, hs);
    AloneIsHolding(u, hs);
    ExtendDrops(u, hs, xs, 1);
    RunIsPrinted(u, [hs]);
    WholeAppend(st.tokens, got, AllItems(u), [hs]);
  }

  lemma LastIsPrinted(v: State, xs: Tuple, got: seq<Tuple>)
    requires Proper(v) && |v.seqs| == |xs| == 3 && IsTuple(xs) && Loaded(v, xs, 0, 3)
    requires v.diffn.Some? ==> v.diffn.value < 3
    requires Whole(v.tokens, got) && xs !in got
    ensures Whole(Flush(v).tokens, got + [xs])
  {
    hide Value, Whole, AllItems, Flush, VariesOnce, Matches;
    AloneIsHolding(v, xs);
    RunIsPrinted(v, [xs]);
    WholeAppend(v.tokens, got, AllItems(v), [xs]);
  }

  lemma TwoDiffer(hs: Tuple, xs: Tuple)
    requires |hs| == |xs| == 3 && IsTuple(xs) && hs[1] != xs[1] && hs[2] != xs[2]
    ensures Restarts(None, hs, xs)
  {
    assert forall n :: OnlyAt(hs, xs, n) ==> n == 1;
    assert forall n :: OnlyAt(hs, xs, n) ==> n == 2;
  }

  /** The last name differs from the mixture in two numbers. */
  lemma MixtureEnds(st: State, ys: Tuple, xs: Tuple, got: seq<Tuple>)
    requires Proper(st) && |st.seqs| == |ys| == |xs| == 3 && st.diffn == None && IsTuple(xs)
    requires Loaded(st, ys, 1, 3) && Whole(st.tokens, got)
    requires Hybrid(xs, ys, 1)[1] != xs[1] && Hybrid(xs, ys, 1)[2] != xs[2]
    requires Hybrid(xs, ys, 1) !in got && xs !in got
    ensures Whole(Flush(Extend(st, xs)).tokens, got + [Hybrid(xs, ys, 1)] + [xs])
  {
    hide Value, PadClash, Extend, Hybrid, Alone, Whole, AllItems, Flush, VariesOnce, Matches, Holding, Restarts;
    var hs := Hybrid(xs, ys, 1);
    DroppedTakesHybrid(st, xs, ys, 1);
    var u := Alone(st, hs);
    AloneIsHolding(u, hs);
    RunIsPrinted(u, [hs]);
    assert Restarts(u.diffn, hs, xs) by { TwoDiffer(hs, xs); }
    ExtendRestarts(u, hs, xs);
    WholeAppend(st.tokens, got, AllItems(u), [hs]);
    LastIsPrinted(Extend(u, xs), xs, got + [hs]);
  }

  lemma ValuesOfOne()
    ensures AllDigits("1") && AllDigits("01") && AllDigits("001") && AllDigits("0001") && AllDigits("2")
    ensures Value("1") == 1 && Value("01") == 1 && Value("001") == 1 && Value("0001") == 1 && Value("2") == 2
    ensures PadClash(1, "01") && PadClash(2, "001") && PadClash(3, "01")
  {
    assert Digits(1) == "1";
    ValueOfPad(1, 2);
    ValueOfPad(1, 3);
    ValueOfPad(1, 4);
    assert Zeros(1) == "0" && Zeros(2) == "00" && Zeros(3) == "000";
    assert Pad(1, 2) == "01" && Pad(1, 3) == "001" && Pad(1, 4) == "0001";
  }

  lemma SixAreTuples()
    ensures Tuples(SixNames(), 3)
  {
    ValuesOfOne();
  }

  lemma SixInOrder(i: nat)
    requires Tuples(SixNames(), 3) && 0 < i < 6
    ensures Below(SixNames()[i - 1], SixNames()[i]) || SameNumbers(SixNames()[i - 1], SixNames()[i])
  {
    ValuesOfOne();
    hide Value;
    var a, b := SixNames()[i - 1], SixNames()[i];
    assert i == 5 ==> Value(a[2]) < Value(b[2]);
  }

  lemma SixDiffer(i: nat, j: nat)
    requires i < j < 6
    ensures SixNames()[i] != SixNames()[j]
  {
    var a, b := SixNames()[i], SixNames()[j];
    assert |a[0]| != |b[0]| || |a[1]| != |b[1]|;
  }

  /** What is printed, in this order. */
  function Mixtures(): seq<Tuple> {
    var names := SixNames();
    [names[0], names[3], names[2], names[1], names[4], names[5]]
  }

  lemma SixAndSix()
    ensures |SixNames()| == |Mixtures()| == 6
    ensures SixNames()[5] == Mixtures()[5] && Hybrid(SixNames()[5], SixNames()[4], 1) == Mixtures()[4]
    ensures Mixtures()[4][1] != SixNames()[5][1] && Mixtures()[4][2] != SixNames()[5][2]
  {
    assert |Mixtures()[4][1]| != |SixNames()[5][1]| && Mixtures()[4][2][0] != SixNames()[5][2][0];
  }

  lemma SixAscend()
    requires Tuples(SixNames(), 3)
    ensures Ascending(SixNames(), 3)
  {
    hide SixNames, Value, Below, SameNumbers;
    var names := SixNames();
    assert |names| == 6 by { SixAndSix(); }
    forall i | 0 < i < |names|
      ensures Below(names[i - 1], names[i]) || SameNumbers(names[i - 1], names[i])
    {
      SixInOrder(i);
    }
    forall i, j | 0 <= i < j < |names|
      ensures names[i] != names[j]
    {
      SixDiffer(i, j);
    }
  }

  /** The second name is dropped, and the third does not carry its first number. */
  lemma SecondIsDropped()
    requires Tuples(SixNames(), 3)
    ensures !KeepsAll(SixNames(), 3)
  {
    ValuesOfOne();
    hide Value, PadClash;
    var names := SixNames();
    assert OnlyAt(names[0], names[1], 1);
    assert ClashAt(names, 3, 1, 1);
    assert OpenAt(names, 3, 0);
    assert DroppedAt(names, 3, 1, 1);
    assert |names[2][0]| != |names[1][0]|;
    assert !Rescued(names, 3, 1, 1);
  }

  /** One more name of a list. */
  lemma ProcessOne(names: seq<Tuple>, xs: Tuple)
    requires Tuples(names, 3) && |xs| == 3 && IsTuple(xs)
    ensures Tuples(names + [xs], 3) && Process(names + [xs], 3) == Extend(Process(names, 3), xs)
  {
    hide Extend;
    assert (names + [xs])[..|names|] == names;
  }

  lemma FirstStands(names: seq<Tuple>)
    requires Tuples(names, 3) && |names| == 1
    ensures var st := Process(names, 3);
            st.diffn == None && Loaded(st, names[0], 0, 3) && Whole(st.tokens, [])
  {
    hide Extend, Process;
    FirstName(names, 3);
    assert names[..1] == names && names[0..1] == names && names[..0] == [];
    assert OpenAt(names, 3, 0);
  }

  lemma MixturesDiffer(i: nat)
    requires i < 6
    ensures |Mixtures()| == 6 && Mixtures()[i] !in Mixtures()[..i]
  {
    var ms := Mixtures();
    forall j | 0 <= j < i
      ensures ms[j] != ms[i]
    {
      assert |ms[j][0]| != |ms[i][0]| || |ms[j][1]| != |ms[i][1]|;
    }
  }

  lemma MixtureClashes(i: nat)
    requires 1 <= i < 5
    ensures var names, k := SixNames(), if i == 1 then 0 else 1;
            var hs := Hybrid(names[i], names[i - 1], k);
            && hs == Mixtures()[i - 1] && OnlyAt(hs, names[i], 1)
            && AllDigits(names[i][1]) && PadClash(|hs[1]|, names[i][1])
  {
    ValuesOfOne();
    hide Value, PadClash;
    var names := SixNames();
    assert |names[i][1]| != |names[i - 1][1]|;
  }

  /** After i names the first i - 1 of the mixtures are printed. */
  lemma {:induction false} AfterSome(i: nat)
    requires 1 <= i <= 5
    ensures |SixNames()| == |Mixtures()| == 6 && Tuples(SixNames()[..i], 3)
    ensures var st := Process(SixNames()[..i], 3);
            && st.diffn == None && Loaded(st, SixNames()[i - 1], if i == 1 then 0 else 1, 3)
            && Whole(st.tokens, Mixtures()[..i - 1])
  {
    SixAndSix();
    SixAreTuples();
    hide PadClash, Extend, Process, Whole, Loaded, SixNames, Mixtures, OnlyAt, Hybrid;
    var names := SixNames();
    if i == 1 {
      FirstStands(names[..1]);
      assert Mixtures()[..0] == [];
    } else {
      var h, k := i - 1, if i == 2 then 0 else 1;
      AfterSome(h);
      assert names[..h] + [names[h]] == names[..i];
      ProcessOne(names[..h], names[h]);
      MixtureClashes(h);
      MixturesDiffer(h - 1);
      MixtureIsPrinted(Process(names[..h], 3), names[h - 1], names[h], k, Mixtures()[..h - 1]);
      assert Mixtures()[..h - 1] + [Mixtures()[h - 1]] == Mixtures()[..h];
    }
  }

  lemma SameNames(tokens: seq<Items>)
    ensures Whole(tokens, Mixtures()) ==> Whole(tokens, SixNames())
  {
    hide Shown;
    forall t
      ensures t in Mixtures() <==> t in SixNames()
    {
      var names, printed := SixNames(), Mixtures();
      assert names[0] == printed[0] && names[1] == printed[3] && names[2] == printed[2];
    }
  }

  lemma PrintedLast(st: State, fifth: Tuple, last: Tuple)
    requires Proper(st) && |st.seqs| == 3 && st.diffn == None && |SixNames()| == |Mixtures()| == 6
    requires fifth == SixNames()[4] && last == SixNames()[5] && |fifth| == |last| == 3 && IsTuple(last)
    requires Loaded(st, fifth, 1, 3) && Whole(st.tokens, Mixtures()[..4])
    ensures Whole(Flush(Extend(st, last)).tokens, SixNames())
  {
    SixAndSix();
    hide Extend, Whole, Flush, Loaded, SixNames, Mixtures, Hybrid;
    MixturesDiffer(4);
    MixturesDiffer(5);
    assert Mixtures()[5] !in Mixtures()[..4];
    MixtureEnds(st, fifth, last, Mixtures()[..4]);
    assert Mixtures()[..4] + [Mixtures()[4]] + [Mixtures()[5]] == Mixtures();
    SameNames(Flush(Extend(st, last)).tokens);
  }

  lemma SixthIsTuple()
    ensures |SixNames()| == 6 && IsTuple(SixNames()[5]) && |SixNames()[5]| == |SixNames()[4]| == 3
  {
    ValuesOfOne();
  }

  lemma SixArePrinted()
    ensures Tuples(SixNames(), 3) && Whole(Printed(SixNames(), 3), SixNames())
  {
    SixAndSix();
    SixAreTuples();
    SixthIsTuple();
    AfterSome(5);
    hide Extend, Process, Whole, Flush, Loaded, SixNames, Mixtures, Hybrid, Tuples;
    var front, fifth, last := SixNames()[..5], SixNames()[4], SixNames()[5];
    assert front + [last] == SixNames();
    ProcessOne(front, last);
    PrintedLast(Process(front, 3), fifth, last);
  }

  /** All six are printed, and nothing else is, though the second is dropped without being
      rescued: the fifth brings it back. */
  lemma LostNameComesBack()
    ensures var names := SixNames();
            && Tuples(names, 3) && Ascending(names, 3) && !KeepsAll(names, 3)
            && Whole(Printed(names, 3), names)
  {
    SixAreTuples();
    SixAscend();
    SecondIsDropped();
    SixArePrinted();
    hide *;
  }
}

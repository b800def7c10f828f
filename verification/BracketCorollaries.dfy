/** Familiar kinds of name lists that the bracketer abbreviates without loss, and the
    smallest list that it does not. */
module BracketCorollaries {
  import opened NumberText
  import opened BracketModel
  import opened BracketSteps
  import opened BracketRoundTrip
  import opened BracketLoss

  lemma OneNumberKeepsAll(names: seq<Tuple>, count: nat)
    requires Tuples(names, count) && count <= 1
    ensures KeepsAll(names, count)
  {
    hide OpenAt;
  }

  /** Names with one number each, in any mixture of paddings. */
  lemma OneNumberRoundTrip(names: seq<Tuple>)
    requires Tuples(names, 1) && names != [] && Ascending(names, 1)
    ensures Covers(Printed(names, 1), names)
  {
    hide *;
    OneNumberKeepsAll(names, 1);
    RoundTrip(names, 1);
  }

  /** Field n is never padded, or always as wide. */
  ghost predicate EvenField(names: seq<Tuple>, count: nat, n: nat)
    requires Tuples(names, count) && n < count
  {
    || (forall i :: 0 <= i < |names| ==> !NeedsPad(names[i][n]))
    || (forall i :: 0 <= i < |names| ==> |names[i][n]| == |names[0][n]|)
  }

  lemma OrderAt(zs: Tuple, xs: Tuple, n: nat)
    requires |zs| == |xs| && IsTuple(zs) && IsTuple(xs) && OnlyAt(zs, xs, n)
    requires Below(zs, xs) || SameNumbers(zs, xs)
    ensures Value(zs[n]) <= Value(xs[n])
  {
    hide Value;
  }

  lemma EvenNeverClashes(names: seq<Tuple>, count: nat, i: nat, n: nat)
    requires Tuples(names, count) && i < |names| && Ascending(names, count)
    requires forall m :: 0 <= m < count ==> EvenField(names, count, m)
    ensures !ClashAt(names, count, i, n)
  {
    hide Value, Digits;
    if ClashAt(names, count, i, n) {
      var zs, xs := names[i - 1], names[i];
      assert EvenField(names, count, n);
      if |zs[n]| != |xs[n]| {
        assert !NeedsPad(zs[n]) && !NeedsPad(xs[n]);
        OrderAt(zs, xs, n);
        DigitsGrow(Value(zs[n]), Value(xs[n]));
      }
    }
  }

  lemma EvenPaddingKeepsAll(names: seq<Tuple>, count: nat)
    requires Tuples(names, count) && Ascending(names, count)
    requires forall n :: 0 <= n < count ==> EvenField(names, count, n)
    ensures KeepsAll(names, count)
  {
    hide Below, SameNumbers, EvenField, OpenAt, Rescued, ClashAt;
    forall i, n | 0 <= i < |names|
      ensures !DroppedAt(names, count, i, n)
    {
      EvenNeverClashes(names, count, i, n);
    }
  }

  /** Names with any number of numbers, each field evenly padded. */
  lemma EvenPaddingRoundTrip(names: seq<Tuple>, count: nat)
    requires Tuples(names, count) && count >= 1 && names != [] && Ascending(names, count)
    requires forall n :: 0 <= n < count ==> EvenField(names, count, n)
    ensures Covers(Printed(names, count), names)
  {
    hide *;
    EvenPaddingKeepsAll(names, count);
    RoundTrip(names, count);
  }

  lemma ValueSnoc(s: string, c: char)
    requires (forall i :: 0 <= i < |s| ==> IsDigit(s[i])) && IsDigit(c)
    ensures Value(s + [c]) == Value(s) * 10 + DigitValue(c)
  {
    assert (s + [c])[..|s|] == s;
  }

  lemma PairValues()
    ensures AllDigits("9") && Value("9") == 9
    ensures AllDigits("010") && Value("010") == 10
  {
    assert Value("") == 0;
    hide Value;
    ValueSnoc("", '9');
    ValueSnoc("", '0');
    ValueSnoc("0", '1');
    ValueSnoc("01", '0');
    assert "" + ['9'] == "9" && "" + ['0'] == "0" && "0" + ['1'] == "01" && "01" + ['0'] == "010";
    assert DigitValue('0') == 0 && DigitValue('1') == 1 && DigitValue('9') == 9;
  }

  lemma PairFacts()
    ensures var names := [["1", "9"], ["1", "010"]];
            && AllDigits("1") && AllDigits("9") && AllDigits("010")
            && Tuples(names, 2) && StrictlyAscending(names, 2)
  {
    hide Value;
    var names: seq<Tuple> := [["1", "9"], ["1", "010"]];
    PairValues();
    assert Value(names[0][1]) < Value(names[1][1]);
    assert Below(names[0], names[1]);
  }

  lemma PairIsDropped()
    requires Tuples([["1", "9"], ["1", "010"]], 2)
    ensures var names := [["1", "9"], ["1", "010"]];
            DroppedAt(names, 2, 1, 1) && !Rescued(names, 2, 1, 1)
  {
    var names: seq<Tuple> := [["1", "9"], ["1", "010"]];
    ValueOfPad(10, 3);
    assert Digits(10) == "10";
    assert Pad(10, 3) == "010" by { assert Zeros(1) == "0"; }
    assert NeedsPad("010");
    assert names[0][0] == names[1][0] && names[0][1] != names[1][1];
    assert OnlyAt(names[0], names[1], 1);
    assert ClashAt(names, 2, 1, 1);
    assert OpenAt(names, 2, 0);
  }

  lemma FirstIsNeverDropped(names: seq<Tuple>, count: nat)
    requires Tuples(names, count) && names != []
    ensures KeepsBefore(names, count, 1)
  {
  }

  /** r1u9 and r1u010: the second is printed nowhere. */
  lemma PaddedPairIsLost()
    ensures var names := [["1", "9"], ["1", "010"]];
            && Tuples(names, 2) && StrictlyAscending(names, 2)
            && !Shown(Printed(names, 2), ["1", "010"])
  {
    var names: seq<Tuple> := [["1", "9"], ["1", "010"]];
    PairFacts();
    hide *;
    assert DroppedAt(names, 2, 1, 1) && !Rescued(names, 2, 1, 1) by { PairIsDropped(); }
    FirstIsNeverDropped(names, 2);
    FirstLoss(names, 2, 1, 1);
  }
}

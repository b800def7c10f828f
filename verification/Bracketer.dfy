/** The Bracketer class of noderange.py, lines 68-173, changing its fields in place. */
module Bracketer {
  import opened Common
  import opened NumberText
  import opened BracketModel
  import opened BracketSteps
  import opened NodeNames

  /** No field is set to the left of an unset one. */
  ghost predicate Closed(st: State) {
    forall f, g :: 0 <= f <= g < |st.seqs| && st.seqs[f].Some? ==> st.seqs[g].Some?
  }

  /** The first pass before field i: no flush yet, or one at field m. */
  ghost predicate Shape1(st: State, u: State, xs: Tuple, i: nat)
    requires Proper(st) && Proper(u)
  {
    || (|u.seqs| == |st.seqs| && forall f :: 0 <= f < |u.seqs| ==> (u.seqs[f].Some? <==> f < i || st.seqs[f].Some?))
    || exists m :: 0 <= m < i && Loaded(u, xs, m, i)
  }

  ghost predicate Shape2(u: State, xs: Tuple, i: nat)
    requires Proper(u)
  {
    || AllSome(u)
    || (exists m :: 0 <= m < i && Loaded(u, xs, m, i))
    || (exists m :: i <= m <= |xs| && LoadedAround(u, xs, i, m))
  }

  lemma {:induction false} Pass1Shape(st: State, xs: Tuple, i: nat)
    requires Proper(st) && Closed(st) && |xs| == |st.seqs| && IsTuple(xs) && i <= |xs|
    ensures Shape1(st, Pass1(st, xs, i), xs, i)
    ensures var u := Pass1(st, xs, i);
            i < |xs| && u.seqs[i].Some? ==> AllSome(u)
  {
    hide Value, PadClash, AllItems;
    if i > 0 {
      var h := i - 1;
      Pass1Shape(st, xs, h);
      var u, v := Pass1(st, xs, h), Pass1(st, xs, i);
      if m :| 0 <= m < h && Loaded(u, xs, m, h) {
        assert Loaded(v, xs, m, i);
      } else if u.seqs[i - 1].Some? && !SameNumber(u, i - 1, xs[i - 1]) && MustFlush(u, i - 1, xs[i - 1]) {
        assert Loaded(v, xs, i - 1, i);
      }
    }
  }

  lemma Step2Shape(u: State, xs: Tuple, h: nat)
    requires Proper(u) && |xs| == |u.seqs| && IsTuple(xs) && h < |xs| && Shape2(u, xs, h)
    requires u.seqs[h].Some? && !SameNumber(u, h, xs[h]) ==> AllSome(u)
    ensures Shape2(Step2(u, h, xs[h]), xs, h + 1)
  {
    hide Value, PadClash, AllItems, Grow;
    var v := Step2(u, h, xs[h]);
    if AllSome(u) {
      if !SameNumber(u, h, xs[h]) && MustFlush(u, h, xs[h]) {
        assert Loaded(v, xs, h, h + 1);
      } else {
        assert AllSome(v);
      }
    } else if m :| 0 <= m < h && Loaded(u, xs, m, h) {
      assert Loaded(v, xs, m, h + 1);
    } else {
      var m :| h <= m <= |xs| && LoadedAround(u, xs, h, m);
      assert LoadedAround(v, xs, h + 1, m);
    }
  }

  lemma ShapeFlushes(u: State, xs: Tuple, i: nat)
    requires Proper(u) && |xs| == |u.seqs| && IsTuple(xs) && i < |xs| && Shape2(u, xs, i)
    ensures u.seqs[i].Some? && !SameNumber(u, i, xs[i]) ==> AllSome(u)
  {
  }

  /** The flush of the second pass also finds every field set. */
  lemma {:induction false} Pass2Shape(st: State, xs: Tuple, i: nat)
    requires Proper(st) && |xs| == |st.seqs| && IsTuple(xs) && i <= |xs|
    requires AllSome(st) || exists m :: 0 <= m <= |xs| && Loaded(st, xs, m, |xs|)
    ensures Shape2(Pass2(st, xs, i), xs, i)
    ensures var u := Pass2(st, xs, i);
            i < |xs| && u.seqs[i].Some? && !SameNumber(u, i, xs[i]) ==> AllSome(u)
  {
    hide Step2, SameNumber;
    if i == 0 {
      if !AllSome(st) {
        var m :| 0 <= m <= |xs| && Loaded(st, xs, m, |xs|);
        assert LoadedAround(st, xs, 0, m);
      }
    } else {
      Pass2Shape(st, xs, i - 1);
      Step2Shape(Pass2(st, xs, i - 1), xs, i - 1);
    }
    hide Shape2;
    if i < |xs| {
      ShapeFlushes(Pass2(st, xs, i), xs, i);
    }
  }

  lemma Pass1Ends(st: State, xs: Tuple)
    requires Proper(st) && Closed(st) && |xs| == |st.seqs| && IsTuple(xs)
    ensures var u := Pass1(st, xs, |xs|);
            AllSome(u) || exists m :: 0 <= m <= |xs| && Loaded(u, xs, m, |xs|)
  {
    Pass1Shape(st, xs, |xs|);
  }

  lemma ExtendKeepsClosed(st: State, xs: Tuple)
    requires Proper(st) && Closed(st) && |xs| == |st.seqs| && IsTuple(xs)
    ensures Closed(Extend(st, xs))
  {
    hide Pass1, Pass2;
    Pass1Ends(st, xs);
    Pass2Shape(Pass1(st, xs, |xs|), xs, |xs|);
  }

  function Rendered(texts: seq<string>, printed: seq<Items>): (tokens: seq<Token>)
    requires forall j :: 0 <= j < |printed| ==> |texts| == |printed[j]| + 1
    ensures |tokens| == |printed|
  {
    seq(|printed|, j requires 0 <= j < |printed| => Render(texts, printed[j]))
  }

  /** nodename.split(':', 1)[0] */
  function BeforeColon(s: string): string { s[..Colon(s)] }

  lemma PassesBegin(st: State, xs: Tuple)
    requires Proper(st) && |xs| == |st.seqs| && IsTuple(xs)
    ensures Pass1(st, xs, 0) == st && Pass2(st, xs, 0) == st
  {
  }

  lemma PassesGoOn(st: State, xs: Tuple, n: nat)
    requires Proper(st) && |xs| == |st.seqs| && IsTuple(xs) && n < |xs|
    ensures Pass1(st, xs, n + 1) == Step1(Pass1(st, xs, n), n, xs[n])
    ensures Pass2(st, xs, n + 1) == Step2(Pass2(st, xs, n), n, xs[n])
  {
  }

  class Bracketer {
    var sequences: seq<Option<Run>>
    var numlens: seq<Width>
    const count: nat
    const nametmpl: seq<string>
    var diffn: Option<nat>
    var tokens: seq<Token>
    ghost var printed: seq<Items>
    ghost const first: string  // the name the bracketer was opened with

    ghost predicate Consistent()
      reads this
    {
      && |sequences| == |numlens| == count && |nametmpl| == count + 1
      && (forall j :: 0 <= j < |printed| ==> |printed[j]| == count)
      && tokens == if count == 0 then [AddWord([], first)] else Rendered(nametmpl, printed)
    }

    ghost function Model(): (st: State)
      requires Consistent()
      reads this
      ensures Proper(st) && |st.seqs| == count
    {
      State(sequences, numlens, diffn, printed)
    }

    ghost predicate Valid()
      reads this
    {
      Consistent() && Closed(Model())
    }

    /** __init__; a name without numbers is its own and only token. */
    constructor (nodename: string)
      ensures Valid() && nametmpl == Split(BeforeColon(nodename)).texts && first == nodename
      ensures count == |Split(BeforeColon(nodename)).nums|
      ensures Model() == Process([Split(BeforeColon(nodename)).nums], count)
    {
      var parts := Split(BeforeColon(nodename));
      count := |parts.nums|;
      nametmpl := parts.texts;
      first := nodename;
      sequences := Nones(|parts.nums|);
      numlens := seq(|parts.nums|, _ => Width(0, 0));
      diffn := None;
      tokens := if |parts.nums| == 0 then [AddWord([], nodename)] else [];
      printed := [];
      new;
      assert count > 0 ==> tokens == Rendered(nametmpl, printed);
      ghost var names := [parts.nums];
      assert names[..0] == [];
      assert Process([], count) == Start(count);
      ExtendWith(nodename);
    }

    /** flush_current. With the first field set every field is, or the formatting would fail. */
    method FlushCurrent()
      requires Consistent() && count >= 1
      requires AllSome(Model()) || sequences[0].None?
      modifies `sequences, `tokens, `printed
      ensures Consistent() && Model() == Flush(old(Model()))
    {
      hide Item, Render;
      if sequences[0].Some? {
        var txtfields: Items := [];
        for n := 0 to count
          invariant txtfields == AllItems(Model())[..n]
        {
          var run, w := sequences[n].value, numlens[n];
          txtfields := txtfields + [run.texts + [Item(run.start, run.prev, w)]];
        }
        assert txtfields == AllItems(Model());
        tokens := tokens + [Render(nametmpl, txtfields)];
        printed := printed + [txtfields];
        assert tokens == Rendered(nametmpl, printed);
      }
      sequences := Nones(count);
    }

    /** extend */
    method ExtendWith(nodeorseq: string)
      requires Valid() && |Split(BeforeColon(nodeorseq)).nums| == count
      modifies this
      ensures Valid() && Model() == Extend(old(Model()), Split(BeforeColon(nodeorseq)).nums)
    {
      hide Pass1, Pass2, Step1, Step2, Closed, Split, Value, Digits, Rendered;
      var txtnums := Split(BeforeColon(nodeorseq)).nums;
      ghost var st := Model();
      assert Pass1(st, txtnums, 0) == st by { PassesBegin(st, txtnums); }
      for n := 0 to count
        invariant Consistent() && Model() == Pass1(st, txtnums, n)
      {
        Pass1Shape(st, txtnums, n);
        PassesGoOn(st, txtnums, n);
        FirstPass(n, txtnums[n]);
      }
      ghost var u := Model();
      Pass1Ends(st, txtnums);
      assert Pass2(u, txtnums, 0) == u by { PassesBegin(u, txtnums); }
      for n := 0 to count
        invariant Consistent() && Model() == Pass2(u, txtnums, n)
      {
        Pass2Shape(u, txtnums, n);
        PassesGoOn(u, txtnums, n);
        SecondPass(n, txtnums[n]);
      }
      ExtendKeepsClosed(st, txtnums);
    }

    /** The body of the first loop, lines 97-114. */
    method FirstPass(n: nat, txtnum: string)
      requires Consistent() && n < count && AllDigits(txtnum)
      requires sequences[n].Some? ==> AllSome(Model())
      modifies this
      ensures Consistent() && Model() == Step1(old(Model()), n, txtnum)
    {
      hide Value, Digits, Rendered, Flush;
      var num, padto := Value(txtnum), |txtnum|;
      var needpad := padto != |Digits(num)|;
      if sequences[n] == None {
        sequences := sequences[n := Some(Run([], num, num))];
        numlens := numlens[n := Width(padto, padto)];
      } else if sequences[n].value.prev == num && numlens[n].prev == padto {
      } else {
        if diffn != None && (n != diffn.value || padto < numlens[n].prev || (needpad && padto != numlens[n].prev)) {
          FlushCurrent();
          sequences := sequences[n := Some(Run([], num, num))];
          numlens := numlens[n := Width(padto, padto)];
        }
        diffn := Some(n);
      }
    }

    /** The body of the second loop, lines 115-147. */
    method SecondPass(n: nat, txtnum: string)
      requires Consistent() && n < count && AllDigits(txtnum)
      requires sequences[n].Some? && !SameNumber(Model(), n, txtnum) ==> AllSome(Model())
      modifies this
      ensures Consistent() && Model() == Step2(old(Model()), n, txtnum)
    {
      hide Value, Digits, Rendered, Flush, Item;
      var num, padto := Value(txtnum), |txtnum|;
      var needpad := padto != |Digits(num)|;
      if sequences[n] == None {
        sequences := sequences[n := Some(Run([], num, num))];
        numlens := numlens[n := Width(padto, padto)];
      } else if sequences[n].value.prev == num && numlens[n].prev == padto {
      } else {
        if diffn != None && (n != diffn.value || padto < numlens[n].prev || (needpad && padto != numlens[n].prev)) {
          FlushCurrent();
          sequences := sequences[n := Some(Run([], num, num))];
          numlens := numlens[n := Width(padto, padto)];
          diffn := None;
        } else {
          diffn := Some(n);
        }
        var run, w := sequences[n].value, numlens[n];
        if run.prev + 1 < num {
          run := Run(run.texts + [Item(run.start, run.prev, w)], num, run.prev);
          w := w.(start := padto);
        }
        run := run.(prev := num);
        w := w.(prev := padto);
        sequences := sequences[n := Some(run)];
        numlens := numlens[n := w];
      }
    }

    /** range, before the tokens are joined with commas. */
    method Range() returns (result: seq<Token>)
      requires Valid()
      modifies `sequences, `tokens, `printed
      ensures Consistent() && (count >= 1 ==> Model() == Flush(old(Model())))
      ensures result == if count == 0 then [AddWord([], first)] else Rendered(nametmpl, Flush(old(Model())).tokens)
    {
      if count > 0 {
        FlushCurrent();
      }
      result := tokens;
    }
  }
}

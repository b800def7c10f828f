/** The run-length printer of noderange.py as a state machine over number tuples: a node
    name counts only through the texts of its numbers. Lines 88-167. */
module BracketModel {
  import opened Common
  import opened NumberText

  datatype Run = Run(texts: seq<string>, start: nat, prev: nat)  // one entry of `sequences`
  datatype Width = Width(start: nat, prev: nat)                  // one entry of `numlens`
  type Tuple = seq<string>
  type Items = seq<seq<string>>                                  // per field, the texts a token lists

  datatype State = State(seqs: seq<Option<Run>>, lens: seq<Width>, diffn: Option<nat>, tokens: seq<Items>)

  ghost predicate Proper(st: State) {
    |st.seqs| == |st.lens|
  }

  predicate IsTuple(xs: Tuple) {
    forall f :: 0 <= f < |xs| ==> AllDigits(xs[f])
  }

  /** A number range as it is printed: its two ends, each at its own width. */
  function Item(start: nat, prev: nat, w: Width): string {
    if start == prev then Pad(start, w.start) else Pad(start, w.start) + ":" + Pad(prev, w.prev)
  }

  function RunItems(run: Run, w: Width): seq<string> {
    run.texts + [Item(run.start, run.prev, w)]
  }

  predicate AllSome(st: State) { forall f :: 0 <= f < |st.seqs| ==> st.seqs[f].Some? }

  function AllItems(st: State): (items: Items)
    requires Proper(st) && AllSome(st)
    ensures |items| == |st.seqs|
  {
    seq(|st.seqs|, f requires 0 <= f < |st.seqs| => RunItems(st.seqs[f].value, st.lens[f]))
  }

  function Nones(n: nat): (s: seq<Option<Run>>)
    ensures |s| == n
  {
    seq(n, _ => None)
  }

  /** flush_current, where it does not fail: a token unless the first field is unset. */
  function Flush(st: State): (st': State)
    requires Proper(st)
    ensures Proper(st') && |st'.seqs| == |st.seqs| && st'.lens == st.lens && st'.diffn == st.diffn
  {
    st.(seqs := Nones(|st.seqs|),
        tokens := if st.seqs != [] && AllSome(st) then st.tokens + [AllItems(st)] else st.tokens)
  }

  /** Field n starts over at the number x. */
  function Begin(st: State, n: nat, x: string): (st': State)
    requires Proper(st) && n < |st.seqs| && AllDigits(x)
    ensures Proper(st') && |st'.seqs| == |st.seqs|
  {
    st.(seqs := st.seqs[n := Some(Run([], Value(x), Value(x)))], lens := st.lens[n := Width(|x|, |x|)])
  }

  predicate SameNumber(st: State, n: nat, x: string)
    requires Proper(st) && n < |st.seqs| && AllDigits(x) && st.seqs[n].Some?
  {
    st.seqs[n].value.prev == Value(x) && st.lens[n].prev == |x|
  }

  predicate MustFlush(st: State, n: nat, x: string)
    requires Proper(st) && n < |st.seqs| && AllDigits(x)
  {
    st.diffn.Some? && (n != st.diffn.value || PadClash(st.lens[n].prev, x))
  }

  /** The first pass over field n, lines 99-114. */
  function Step1(st: State, n: nat, x: string): (st': State)
    requires Proper(st) && n < |st.seqs| && AllDigits(x)
    ensures Proper(st') && |st'.seqs| == |st.seqs|
  {
    if st.seqs[n].None? then Begin(st, n, x)
    else if SameNumber(st, n, x) then st
    else if MustFlush(st, n, x) then Begin(Flush(st), n, x).(diffn := Some(n))
    else st.(diffn := Some(n))
  }

  /** The run of field n taken on to the number x, lines 134-147. */
  function Grow(run: Run, w: Width, x: string): (Run, Width)
    requires AllDigits(x)
  {
    var v := Value(x);
    if run.prev < v - 1 then
      (Run(run.texts + [Item(run.start, run.prev, w)], v, v), Width(|x|, |x|))
    else
      (run.(prev := v), w.(prev := |x|))
  }

  /** The second pass over field n, lines 116-147. */
  function Step2(st: State, n: nat, x: string): (st': State)
    requires Proper(st) && n < |st.seqs| && AllDigits(x)
    ensures Proper(st') && |st'.seqs| == |st.seqs|
  {
    if st.seqs[n].None? then Begin(st, n, x)
    else if SameNumber(st, n, x) then st
    else if MustFlush(st, n, x) then Begin(Flush(st), n, x).(diffn := None)
    else
      var (run, w) := Grow(st.seqs[n].value, st.lens[n], x);
      st.(diffn := Some(n), seqs := st.seqs[n := Some(run)], lens := st.lens[n := w])
  }

  function Pass1(st: State, xs: Tuple, i: nat): (st': State)
    requires Proper(st) && |xs| == |st.seqs| && IsTuple(xs) && i <= |xs|
    ensures Proper(st') && |st'.seqs| == |st.seqs|
  {
    hide Step1;
    if i == 0 then st else Step1(Pass1(st, xs, i - 1), i - 1, xs[i - 1])
  }

  function Pass2(st: State, xs: Tuple, i: nat): (st': State)
    requires Proper(st) && |xs| == |st.seqs| && IsTuple(xs) && i <= |xs|
    ensures Proper(st') && |st'.seqs| == |st.seqs|
  {
    hide Step2;
    if i == 0 then st else Step2(Pass2(st, xs, i - 1), i - 1, xs[i - 1])
  }

  /** extend */
  function Extend(st: State, xs: Tuple): (st': State)
    requires Proper(st) && |xs| == |st.seqs| && IsTuple(xs)
    ensures Proper(st') && |st'.seqs| == |st.seqs|
  {
    Pass2(Pass1(st, xs, |xs|), xs, |xs|)
  }

  function Start(count: nat): (st: State)
    ensures Proper(st) && |st.seqs| == count
  {
    State(Nones(count), seq(count, _ => Width(0, 0)), None, [])
  }

  ghost predicate Tuples(names: seq<Tuple>, count: nat) {
    forall i :: 0 <= i < |names| ==> |names[i]| == count && IsTuple(names[i])
  }

  /** The state after a whole list of names. */
  function Process(names: seq<Tuple>, count: nat): (st: State)
    requires Tuples(names, count)
    ensures Proper(st) && |st.seqs| == count
  {
    if names == [] then Start(count)
    else Extend(Process(names[..|names| - 1], count), names[|names| - 1])
  }

  /** The tokens Bracketer.range prints. */
  function Printed(names: seq<Tuple>, count: nat): seq<Items>
    requires Tuples(names, count)
  {
    Flush(Process(names, count)).tokens
  }
}

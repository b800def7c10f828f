/** What a spoiled entry does to the payload is never made good: after any number of turns
    the account is what it was if and only if no turn was lossy. */
module LogLoss {
  import opened Common
  import opened LogModel

  /** The files roll over for an entry that is being split, and its pieces are not all the
      same. */
  predicate Lossy(style: Style, kind: Kind, b: Book, tick: Tick)
    requires b.queue != []
  {
    SplitRolls(style, b, tick) && Of(kind, b.queue[0]) && !Repeats(b.queue[0].data)
  }

  predicate LossyAt(style: Style, kind: Kind, b: Book, ticks: seq<Tick>, i: nat)
    requires i < |ticks|
  {
    var u := Run(style, b, ticks[..i]);
    u.queue != [] && Lossy(style, kind, u, ticks[i])
  }

  ghost predicate Loses(style: Style, kind: Kind, b: Book, ticks: seq<Tick>) {
    exists i :: 0 <= i < |ticks| && LossyAt(style, kind, b, ticks, i)
  }

  lemma LosesFront(style: Style, kind: Kind, b: Book, ticks: seq<Tick>)
    requires ticks != []
    ensures var front, last := ticks[..|ticks| - 1], ticks[|ticks| - 1];
      var u := Run(style, b, front);
      Loses(style, kind, b, ticks) <==> Loses(style, kind, b, front) || (u.queue != [] && Lossy(style, kind, u, last))
  {
    hide Run, Lossy;
    var front := ticks[..|ticks| - 1];
    assert forall i :: 0 <= i <= |front| ==> ticks[..i] == front[..i];
    assert front[..|front|] == front;
    if i :| 0 <= i < |front| && LossyAt(style, kind, b, front, i) {
      assert LossyAt(style, kind, b, ticks, i);
    }
    if i :| 0 <= i < |ticks| && LossyAt(style, kind, b, ticks, i) {
      assert i < |front| ==> LossyAt(style, kind, b, front, i);
    }
    assert LossyAt(style, kind, b, ticks, |front|) <==>
      var u := Run(style, b, front); u.queue != [] && Lossy(style, kind, u, ticks[|front|]);
  }

  // ----- what one turn does to the account -----

  lemma TurnWrites(style: Style, kind: Kind, b: Book, tick: Tick)
    requires Valid(b) && b.queue != [] && !Rolls(style, b.current, b.queue[0], tick.due)
    ensures var b', first := Step(style, b, tick), if Of(kind, b.queue[0]) then FirstPiece(b.queue[0].data) else [];
      && Valid(b') && Written(kind, b') == Written(kind, b) + first
      && Pending(kind, b.queue) == first + Pending(kind, b'.queue)
  {
    StepKeepsValid(style, b, tick);
    hide Sound, Payload, Pending, Rolls, Emitted;
    EmittingWrites(style, kind, b, b.queue[0]);
    WritingMoves(kind, b.queue);
  }

  lemma PuttingBackAdds(kind: Kind, queue: seq<Item>, note: Bytes)
    requires queue != [] && forall i :: 0 <= i < |queue| ==> queue[i].copies >= 1
    ensures forall i :: 0 <= i < |QueueBack(queue, note)| ==> QueueBack(queue, note)[i].copies >= 1
    ensures var e := queue[0];
      && Pending(kind, queue) == PendingOf(kind, e) + Pending(kind, queue[1..])
      && Pending(kind, QueueBack(queue, note))
         == PendingOf(kind, if Long(e) then Chopped(e).(copies := e.copies + 1) else e) + Pending(kind, queue[1..])
  {
    hide Pending, PendingOf;
    var e, rest := queue[0], queue[1..];
    var e' := if Long(e) then Chopped(e).(copies := e.copies + 1) else e;
    assert queue == [e] + rest;
    PendingCons(kind, e, rest);
    PendingCons(kind, e', rest);
    PendingCons(kind, NoteItem(e.tstamp, note), [e'] + rest);
    OtherKind(kind, NoteItem(e.tstamp, note));
  }

  lemma CountsAreKept(b: Book)
    requires Valid(b)
    ensures forall i :: 0 <= i < |b.queue| ==> b.queue[i].copies >= 1
  {
  }

  lemma RollsTo(style: Style, kind: Kind, b: Book, tick: Tick)
    requires Valid(b) && b.queue != [] && Rolls(style, b.current, b.queue[0], tick.due)
    ensures var b' := Step(style, b, tick);
      Valid(b') && Written(kind, b') == Written(kind, b) && b'.queue == QueueBack(b.queue, tick.note)
  {
    StepKeepsValid(style, b, tick);
    hide Sound, Payload, Rolls, Emitted, QueueBack;
    RollingWritesNothing(kind, b);
  }

  lemma TurnRolls(style: Style, kind: Kind, b: Book, tick: Tick)
    requires Valid(b) && b.queue != [] && Rolls(style, b.current, b.queue[0], tick.due)
    ensures var b', e := Step(style, b, tick), b.queue[0];
      && Valid(b') && Written(kind, b') == Written(kind, b)
      && Pending(kind, b.queue) == PendingOf(kind, e) + Pending(kind, b.queue[1..])
      && Pending(kind, b'.queue)
         == PendingOf(kind, if Long(e) then Chopped(e).(copies := e.copies + 1) else e) + Pending(kind, b.queue[1..])
  {
    hide *;
    RollsTo(style, kind, b, tick);
    CountsAreKept(b);
    PuttingBackAdds(kind, b.queue, tick.note);
  }

  lemma {:induction false} CopiesEnd(data: Bytes, n: nat)
    ensures Copies(data, n + 1) == Copies(data, n) + data
  {
    if n == 0 {
      NoCopies(data);
    } else {
      CopiesEnd(data, n - 1);
    }
    CopiesStep(data, n + 1);
  }

  lemma EndsInLast(front: Bytes, last: Bytes, n: nat)
    requires |last| <= |front| && last == front[|front| - |last|..]
    ensures var s := front + Copies(last, n); |s| >= |front| && last == s[|s| - |last|..]
  {
    hide Copies;
    if n == 0 {
      NoCopies(last);
    } else {
      CopiesEnd(last, n - 1);
    }
  }

  /** A split entry put back twice: its first piece goes, its last piece comes once more. */
  lemma SpoiledPending(kind: Kind, e: Item)
    requires e.copies >= 1 && Long(e) && Of(kind, e)
    ensures var p, last := PendingOf(kind, e), LastPiece(e.data);
      && |last| == (|e.data| - 1) % 65535 + 1 && |p| > 65535 && last == p[|p| - |last|..]
      && PendingOf(kind, Chopped(e).(copies := e.copies + 1)) == p[65535..] + last
  {
    hide LastPiece, Copies;
    var last, more := LastPiece(e.data), Copies(LastPiece(e.data), e.copies - 1);
    LastPieceIs(e.data);
    LastOfRest(e.data);
    CopiesEnd(last, e.copies - 1);
    EndsInLast(e.data, last, e.copies - 1);
    assert (e.data + more)[65535..] == e.data[65535..] + more;
  }

  /** The account never grows longer, and shrinks when the last piece is shorter. */
  lemma TurnNeverAdds(style: Style, kind: Kind, b: Book, tick: Tick)
    requires Valid(b) && b.queue != []
    ensures Valid(Step(style, b, tick))
    ensures |Account(kind, Step(style, b, tick))| <= |Account(kind, b)|
    ensures SplitRolls(style, b, tick) && Of(kind, b.queue[0]) && |b.queue[0].data| % 65535 != 0 ==>
              |Account(kind, Step(style, b, tick))| < |Account(kind, b)|
  {
    hide Step, Written, Pending, PendingOf, Valid, Repeats, Rolls;
    var e := b.queue[0];
    if !Rolls(style, b.current, e, tick.due) {
      TurnWrites(style, kind, b, tick);
    } else {
      TurnRolls(style, kind, b, tick);
      assert e.copies >= 1 by { CountsAreKept(b); }
      if Long(e) && Of(kind, e) {
        SpoiledPending(kind, e);
      } else if Long(e) {
        OtherKind(kind, Chopped(e).(copies := e.copies + 1));
      }
    }
  }

  // ----- the mark a lossy turn leaves -----

  /** The first entry of this kind still has n bytes to write, in whole pieces. */
  predicate Segment(kind: Kind, queue: seq<Item>, n: nat) {
    queue != [] &&
    if Of(kind, queue[0]) then
      queue[0].copies >= 1 && queue[0].data != [] && |queue[0].data| % 65535 == 0 && |PendingOf(kind, queue[0])| == n
    else Segment(kind, queue[1..], n)
  }

  /** Every 65535th byte from p to end is y. */
  predicate Every(a: Bytes, p: nat, end: nat, y: Byte)
    requires end <= |a|
  {
    forall i :: p <= i < end && (i - p) % 65535 == 0 ==> a[i] == y
  }

  /** In the account a byte that was not y once is now, and so is every 65535th after it in
      its entry: what is left of the entry when it is spoiled again cannot change that. */
  ghost predicate Marked(kind: Kind, b: Book, was: Bytes, p: nat, end: nat, y: Byte)
    requires Valid(b)
  {
    var now, w := Account(kind, b), |Written(kind, b)|;
    && |now| == |was| && p < end <= |was| && was[p] != y && Every(now, p, end, y)
    && (w < end ==> Segment(kind, b.queue, end - w))
  }

  ghost predicate Broken(kind: Kind, b: Book, was: Bytes)
    requires Valid(b)
  {
    |Account(kind, b)| < |was| || exists p, end, y :: Marked(kind, b, was, p, end, y)
  }

  lemma BrokenDiffers(kind: Kind, b: Book, was: Bytes)
    requires Valid(b) && Broken(kind, b, was)
    ensures Account(kind, b) != was
  {
    hide Account, Segment, Written;
  }

  lemma SegmentCons(kind: Kind, e: Item, rest: seq<Item>, n: nat)
    ensures Segment(kind, [e] + rest, n) ==
      if Of(kind, e) then e.copies >= 1 && e.data != [] && |e.data| % 65535 == 0 && |PendingOf(kind, e)| == n
      else Segment(kind, rest, n)
  {
    assert ([e] + rest)[1..] == rest;
  }

  lemma SegmentShrinks(kind: Kind, queue: seq<Item>, n: nat)
    requires queue != [] && Segment(kind, queue, n) && forall i :: 0 <= i < |queue| ==> queue[i].copies >= 1
    ensures var f := if Of(kind, queue[0]) then |FirstPiece(queue[0].data)| else 0;
      f <= n && (f < n ==> Segment(kind, QueueAfter(queue), n - f))
  {
    var e, rest := queue[0], queue[1..];
    assert queue == [e] + rest;
    hide Segment, PendingOf;
    SegmentCons(kind, e, rest, n);
    WritingHead(kind, e);
    var f := if Of(kind, e) then |FirstPiece(e.data)| else 0;
    if f < n {
      if Long(e) {
        SegmentCons(kind, Chopped(e), rest, n - f);
      } else if e.copies > 1 {
        SegmentCons(kind, e.(copies := e.copies - 1), rest, n - f);
      }
    }
  }

  lemma SegmentIsPutBack(kind: Kind, queue: seq<Item>, note: Bytes, n: nat)
    requires queue != [] && Segment(kind, queue, n)
    requires forall i :: 0 <= i < |queue| ==> queue[i].copies >= 1
    ensures Segment(kind, QueueBack(queue, note), n)
  {
    var e, rest := queue[0], queue[1..];
    assert queue == [e] + rest;
    hide Segment, PendingOf;
    SegmentCons(kind, e, rest, n);
    var e' := if Long(e) then Chopped(e).(copies := e.copies + 1) else e;
    SegmentCons(kind, e', rest, n);
    SegmentCons(kind, NoteItem(e.tstamp, note), [e'] + rest, n);
    if Long(e) && Of(kind, e) {
      SpoiledPending(kind, e);
    }
  }

  lemma SegmentOf(kind: Kind, queue: seq<Item>, n: nat)
    requires queue != [] && Of(kind, queue[0]) && Segment(kind, queue, n)
    ensures queue[0].copies >= 1 && |queue[0].data| % 65535 == 0 && |PendingOf(kind, queue[0])| == n
  {
  }

  /** The first piece of p goes and its last piece comes once more, w bytes into the account. */
  lemma EveryStays(front: Bytes, pend: Bytes, back: Bytes, p: nat, end: nat, y: Byte)
    requires |pend| > 65535 && p < end && (end <= |front| || end == |front| + |pend|)
    requires end <= |front + pend + back| && Every(front + pend + back, p, end, y)
    ensures var now := front + (pend[65535..] + pend[|pend| - 65535..]) + back;
      |now| == |front + pend + back| && Every(now, p, end, y)
  {
    var was, now := front + pend + back, front + (pend[65535..] + pend[|pend| - 65535..]) + back;
    forall i | p <= i < end && (i - p) % 65535 == 0
      ensures now[i] == y
    {
      if i < |front| {
        assert now[i] == was[i];
      } else if i + 65535 < end {
        assert (i + 65535 - p) % 65535 == 0;
        assert now[i] == was[i + 65535];
      } else {
        assert now[i] == was[i];
      }
    }
  }

  lemma StepQueue(style: Style, b: Book, tick: Tick)
    requires b.queue != []
    ensures Step(style, b, tick).queue ==
            if Rolls(style, b.current, b.queue[0], tick.due) then QueueBack(b.queue, tick.note)
            else QueueAfter(b.queue)
  {
    hide Rolls, QueueBack, QueueAfter;
  }

  lemma MarkIsWritten(style: Style, kind: Kind, b: Book, tick: Tick, was: Bytes, p: nat, end: nat, y: Byte)
    requires Valid(b) && b.queue != [] && Marked(kind, b, was, p, end, y)
    requires Valid(Step(style, b, tick)) && !Rolls(style, b.current, b.queue[0], tick.due)
    ensures Marked(kind, Step(style, b, tick), was, p, end, y)
  {
    hide Step, Rolls, Written, Pending, Segment, Valid, QueueAfter, Every, FirstPiece;
    CountsAreKept(b);
    TurnWrites(style, kind, b, tick);
    StepQueue(style, b, tick);
    var w := |Written(kind, b)|;
    if w < end {
      SegmentShrinks(kind, b.queue, end - w);
    }
    assert Account(kind, Step(style, b, tick)) == Account(kind, b);
  }

  /** A split entry of whole pieces put back twice, within the account. */
  lemma SpoiledAccount(style: Style, kind: Kind, b: Book, tick: Tick)
    requires Valid(b) && b.queue != [] && SplitRolls(style, b, tick)
    requires Of(kind, b.queue[0]) && b.queue[0].copies >= 1 && |b.queue[0].data| % 65535 == 0
    ensures var b', front := Step(style, b, tick), Written(kind, b);
      var pend, back := PendingOf(kind, b.queue[0]), Pending(kind, b.queue[1..]);
      && Valid(b') && Written(kind, b') == front && |pend| > 65535 && Account(kind, b) == front + pend + back
      && Account(kind, b') == front + (pend[65535..] + pend[|pend| - 65535..]) + back
  {
    hide Step, Rolls, Written, Pending, PendingOf, Valid, LastPiece;
    TurnRolls(style, kind, b, tick);
    SpoiledPending(kind, b.queue[0]);
  }

  lemma MarkIsPutBack(style: Style, kind: Kind, b: Book, tick: Tick, was: Bytes, p: nat, end: nat, y: Byte)
    requires Valid(b) && b.queue != [] && Marked(kind, b, was, p, end, y)
    requires Valid(Step(style, b, tick)) && Rolls(style, b.current, b.queue[0], tick.due)
    requires |Account(kind, Step(style, b, tick))| >= |was|
    ensures Marked(kind, Step(style, b, tick), was, p, end, y)
  {
    hide Step, Rolls, Written, Pending, PendingOf, Segment, Valid, QueueBack, Repeats, Every, Account;
    var e, front := b.queue[0], Written(kind, b);
    CountsAreKept(b);
    TurnNeverAdds(style, kind, b, tick);
    StepQueue(style, b, tick);
    if |front| < end {
      SegmentIsPutBack(kind, b.queue, tick.note, end - |front|);
    }
    TurnRolls(style, kind, b, tick);
    if Long(e) && Of(kind, e) {
      SpoiledAccount(style, kind, b, tick);
      if |front| < end {
        SegmentOf(kind, b.queue, end - |front|);
      }
      EveryStays(front, PendingOf(kind, e), Pending(kind, b.queue[1..]), p, end, y);
    } else {
      TurnKeepsAccount(style, kind, b, tick);
    }
  }

  lemma BrokenStays(style: Style, kind: Kind, b: Book, tick: Tick, was: Bytes)
    requires Valid(b) && b.queue != [] && Broken(kind, b, was)
    ensures Valid(Step(style, b, tick)) && Broken(kind, Step(style, b, tick), was)
  {
    hide Step, Account, Marked, Valid, Repeats, SplitRolls, Rolls;
    TurnNeverAdds(style, kind, b, tick);
    if |Account(kind, Step(style, b, tick))| >= |was| {
      var p, end, y :| Marked(kind, b, was, p, end, y);
      if Rolls(style, b.current, b.queue[0], tick.due) {
        MarkIsPutBack(style, kind, b, tick, was, p, end, y);
      } else {
        MarkIsWritten(style, kind, b, tick, was, p, end, y);
      }
    }
  }

  /** The last byte that is not the one 65535 further on. */
  lemma {:induction false} LastDifference(pend: Bytes, n: nat) returns (i: nat)
    requires |pend| > 65535 && n <= |pend| - 65535
    requires exists j :: 0 <= j < n && pend[j] != pend[j + 65535]
    ensures i < n && pend[i] != pend[i + 65535]
    ensures forall j :: i < j < n ==> pend[j] == pend[j + 65535]
    decreases n
  {
    if pend[n - 1] != pend[n - 1 + 65535] {
      i := n - 1;
    } else {
      i := LastDifference(pend, n - 1);
    }
  }

  lemma {:induction false} SameFrom(pend: Bytes, i: nat, j: nat)
    requires i + 65535 <= j < |pend| && (j - i) % 65535 == 0
    requires forall k :: i < k < |pend| - 65535 ==> pend[k] == pend[k + 65535]
    ensures pend[j] == pend[i + 65535]
    decreases j
  {
    if j > i + 65535 {
      SameFrom(pend, i, j - 65535);
    }
  }

  lemma ShiftLeavesMark(pend: Bytes) returns (i: nat, y: Byte)
    requires |pend| > 65535 && pend != pend[65535..] + pend[|pend| - 65535..]
    ensures i < |pend| && pend[i] != y && Every(pend[65535..] + pend[|pend| - 65535..], i, |pend|, y)
  {
    var now := pend[65535..] + pend[|pend| - 65535..];
    assert exists j :: 0 <= j < |pend| - 65535 && pend[j] != pend[j + 65535] by {
      var k :| 0 <= k < |pend| && pend[k] != now[k];
      assert k < |pend| - 65535;
    }
    i := LastDifference(pend, |pend| - 65535);
    y := pend[i + 65535];
    forall j | i <= j < |pend| && (j - i) % 65535 == 0
      ensures now[j] == y
    {
      if j + 65535 < |pend| {
        assert (j + 65535 - i) % 65535 == 0;
        SameFrom(pend, i, j + 65535);
      } else {
        SameFrom(pend, i, j);
      }
    }
  }

  lemma SegmentStarts(kind: Kind, queue: seq<Item>)
    requires queue != [] && Of(kind, queue[0]) && queue[0].copies >= 1 && Long(queue[0])
    requires |queue[0].data| % 65535 == 0
    ensures Segment(kind, queue, |PendingOf(kind, queue[0])|)
  {
  }

  lemma EveryInside(front: Bytes, pend: Bytes, back: Bytes, i: nat, y: Byte)
    requires i <= |pend| && Every(pend, i, |pend|, y)
    ensures Every(front + pend + back, |front| + i, |front| + |pend|, y)
  {
    forall j | |front| + i <= j < |front| + |pend| && (j - (|front| + i)) % 65535 == 0
      ensures (front + pend + back)[j] == y
    {
      assert j - (|front| + i) == (j - |front|) - i;
      assert pend[j - |front|] == y;
    }
  }

  lemma LossyBreaks(style: Style, kind: Kind, b: Book, tick: Tick)
    requires Valid(b) && b.queue != [] && Lossy(style, kind, b, tick)
    ensures Valid(Step(style, b, tick)) && Broken(kind, Step(style, b, tick), Account(kind, b))
  {
    hide Step, Rolls, Written, Pending, PendingOf, Segment, Valid, QueueBack, Repeats, Every, Account;
    var b', e, front := Step(style, b, tick), b.queue[0], Written(kind, b);
    CountsAreKept(b);
    TurnNeverAdds(style, kind, b, tick);
    if |e.data| % 65535 == 0 {
      TurnKeepsAccount(style, kind, b, tick);
      StepQueue(style, b, tick);
      SpoiledAccount(style, kind, b, tick);
      var pend, back := PendingOf(kind, e), Pending(kind, b.queue[1..]);
      SegmentStarts(kind, b.queue);
      SegmentIsPutBack(kind, b.queue, tick.note, |pend|);
      var i, y := ShiftLeavesMark(pend);
      EveryInside(front, pend[65535..] + pend[|pend| - 65535..], back, i, y);
      assert Marked(kind, b', Account(kind, b), |front| + i, |front| + |pend|, y);
    }
  }

  lemma {:induction false} RunBreaks(style: Style, kind: Kind, b: Book, ticks: seq<Tick>)
    requires Valid(b)
    ensures Valid(Run(style, b, ticks))
    ensures if Loses(style, kind, b, ticks) then Broken(kind, Run(style, b, ticks), Account(kind, b))
            else Account(kind, Run(style, b, ticks)) == Account(kind, b)
  {
    hide Step, Valid, Account, SplitRolls, Repeats, Broken;
    if ticks != [] {
      var front, last := ticks[..|ticks| - 1], ticks[|ticks| - 1];
      var u := Run(style, b, front);
      LosesFront(style, kind, b, ticks);
      hide Loses;
      RunBreaks(style, kind, b, front);
      if u.queue != [] {
        TurnKeepsAccount(style, kind, u, last);
        if Loses(style, kind, b, front) {
          BrokenStays(style, kind, u, last, Account(kind, b));
        } else if Lossy(style, kind, u, last) {
          LossyBreaks(style, kind, u, last);
        }
      }
    }
  }

  /** Over any number of turns, for every state: what is in the files and the queue is what
      it was if and only if in none of them the files rolled over for an entry of this kind
      that was being split, repeated pieces aside. Nothing later makes it good. */
  lemma RunKeepsAccountExactly(style: Style, kind: Kind, b: Book, ticks: seq<Tick>)
    requires Valid(b)
    ensures Valid(Run(style, b, ticks))
    ensures Account(kind, Run(style, b, ticks)) == Account(kind, b) <==> !Loses(style, kind, b, ticks)
  {
    hide Account, Valid, Run, Loses, Broken;
    RunBreaks(style, kind, b, ticks);
    if Loses(style, kind, b, ticks) {
      BrokenDiffers(kind, Run(style, b, ticks), Account(kind, b));
    }
  }
}

/** Whole runs of the logger's model: when nothing is lost, when the queue drains, and when
    an entry never leaves it. */
module LogRuns {
  import opened Common
  import opened LogModel

  lemma {:induction false} RunCons(style: Style, b: Book, ticks: seq<Tick>)
    requires ticks != []
    ensures Run(style, b, ticks) == if b.queue == [] then b else Run(style, Step(style, b, ticks[0]), ticks[1..])
    decreases |ticks|
  {
    hide Step;
    var front := ticks[..|ticks| - 1];
    if |ticks| == 1 {
      assert front == [] && ticks[1..] == [];
    } else {
      RunCons(style, b, front);
      assert front[1..] == ticks[1..][..|ticks| - 2];
      if b.queue == [] {
        assert Run(style, b, front) == b;
      }
    }
  }

  // ----- short entries are never spoiled -----

  predicate ShortItems(queue: seq<Item>) {
    forall i :: 0 <= i < |queue| ==> !Long(queue[i])
  }

  predicate ShortNotes(ticks: seq<Tick>) {
    forall k :: 0 <= k < |ticks| ==> |ticks[k].note| <= 65535
  }

  /** With no entry over 65535 bytes, no turn can spoil one, whatever rolls over when. */
  lemma {:induction false} ShortNeverSpoils(style: Style, b: Book, ticks: seq<Tick>)
    requires ShortItems(b.queue) && ShortNotes(ticks)
    ensures !Spoils(style, b, ticks) && ShortItems(Run(style, b, ticks).queue)
  {
    hide Rolls, Emitted;
    if ticks != [] {
      var front := ticks[..|ticks| - 1];
      ShortNeverSpoils(style, b, front);
      SpoilsFront(style, b, ticks);
      hide Spoils;
    }
  }

  // ----- entries that never leave the queue -----

  predicate EndsIn(queue: seq<Item>, end: seq<Item>) {
    |queue| >= |end| && queue[|queue| - |end|..] == end
  }

  lemma EndIsKept(head: seq<Item>, rest: seq<Item>, end: seq<Item>)
    requires EndsIn(rest, end)
    ensures EndsIn(head + rest, end)
  {
    var k := |rest| - |end|;
    assert (head + rest)[|head| + k..] == rest[k..];
  }

  lemma EndOfRest(queue: seq<Item>, end: seq<Item>)
    requires EndsIn(queue, end) && |queue| > |end|
    ensures EndsIn(queue[1..], end)
  {
    var k := |queue| - |end|;
    assert queue[1..][k - 1..] == queue[k..];
  }

  /** Only the head of the queue changes in a turn. */
  lemma StepKeepsRest(style: Style, u: Book, tick: Tick) returns (head: seq<Item>)
    requires u.queue != []
    ensures Step(style, u, tick).queue == head + u.queue[1..]
  {
    hide Rolls, Emitted;
    var e := u.queue[0];
    assert u.queue == [e] + u.queue[1..];
    if Rolls(style, u.current, e, tick.due) {
      head := [NoteItem(e.tstamp, tick.note), if Long(e) then Chopped(e).(copies := e.copies + 1) else e];
    } else {
      head := if Long(e) then [Chopped(e)] else if e.copies > 1 then [e.(copies := e.copies - 1)] else [];
    }
  }

  lemma StepKeepsEnd(style: Style, u: Book, tick: Tick, end: seq<Item>)
    requires u.queue != [] && end != [] && EndsIn(u.queue, end)
    requires u.queue == end ==> !Long(end[0]) && Rolls(style, u.current, end[0], tick.due)
    ensures EndsIn(Step(style, u, tick).queue, end)
  {
    if u.queue == end {
      hide Rolls;
      EndIsKept([NoteItem(end[0].tstamp, tick.note)], end, end);
    } else {
      assert u.queue[0..] == u.queue;
      hide Step;
      var head := StepKeepsRest(style, u, tick);
      EndOfRest(u.queue, end);
      EndIsKept(head, u.queue[1..], end);
    }
  }

  /** An entry of maxBytes or more, up to 65535, holds up the queue for good, whatever the
      clock says and the rolled files are called: the loop rolls over for it again and again. */
  lemma {:induction false} TooLongStays(style: Style, b: Book, ticks: seq<Tick>, i: nat)
    requires i < |b.queue| && 0 < style.maxBytes <= |b.queue[i].data| <= 65535
    ensures EndsIn(Run(style, b, ticks).queue, b.queue[i..])
  {
    hide Step;
    var end := b.queue[i..];
    if ticks != [] {
      var front, last := ticks[..|ticks| - 1], ticks[|ticks| - 1];
      TooLongStays(style, b, front, i);
      StepKeepsEnd(style, Run(style, b, front), last, end);
    }
  }

  // ----- when the head of the queue leaves it -----

  /** The entry's record fits in files that are not due to roll over. */
  predicate Fits(style: Style, gen: Gen, e: Item) { !Rolls(style, gen, e, false) }

  /** New files that hold the rollover event alone. */
  function NewFiles(style: Style, tstamp: Stamp, note: Bytes): Gen {
    Emitted(style, Gen([], []), NoteItem(tstamp, note))
  }

  /** The event fits in new files, and the entry's record after it. */
  predicate FitsAnew(style: Style, e: Item, note: Bytes) {
    Fits(style, Gen([], []), NoteItem(e.tstamp, note)) && Fits(style, NewFiles(style, e.tstamp, note), e)
  }

  /** k turns at which no rollover is due. The note is the same each time: rolling over by
      size always renames to the same name. */
  function Quiet(note: Bytes, k: nat): (ticks: seq<Tick>)
    ensures |ticks| == k
  {
    seq(k, _ => Tick(false, note))
  }

  lemma QuietStep(style: Style, b: Book, note: Bytes, k: nat)
    ensures Run(style, b, Quiet(note, 0)) == b
    ensures var u := Run(style, b, Quiet(note, k));
            Run(style, b, Quiet(note, k + 1)) == if u.queue == [] then u else Step(style, u, Tick(false, note))
  {
    hide Step;
    assert Quiet(note, k + 1)[..k] == Quiet(note, k);
  }

  /** Where the loop goes round: the queue as it was, or rollover events before it. */
  ghost predicate HoldsUp(style: Style, u: Book, queue: seq<Item>, note: Bytes)
    requires queue != []
  {
    var e := queue[0];
    || (u.queue == queue && !Fits(style, u.current, e))
    || (u.current == Gen([], []) && |u.queue| > |queue| && EndsIn(u.queue, queue)
        && u.queue[0] == NoteItem(e.tstamp, note)
        && (Fits(style, Gen([], []), NoteItem(e.tstamp, note)) ==> |u.queue| == |queue| + 1))
  }

  lemma HoldUpGoesOn(style: Style, u: Book, queue: seq<Item>, note: Bytes)
    requires queue != [] && !Long(queue[0]) && |note| <= 65535
    requires HoldsUp(style, u, queue, note) && !FitsAnew(style, queue[0], note)
    ensures u.queue != [] && HoldsUp(style, Step(style, u, Tick(false, note)), queue, note)
  {
    hide Rolls, Emitted;
    var e, v := queue[0], Step(style, u, Tick(false, note));
    if u.queue == queue && !Fits(style, u.current, e) {
      assert v.queue == [NoteItem(e.tstamp, note)] + queue;
    } else if Fits(style, Gen([], []), NoteItem(e.tstamp, note)) {
      assert v.queue == u.queue[1..] == queue;
    } else {
      StepKeepsEnd(style, u, Tick(false, note), queue);
    }
  }

  lemma {:induction false} HeadIsHeld(style: Style, b: Book, note: Bytes, k: nat)
    requires b.queue != [] && !Long(b.queue[0]) && |note| <= 65535
    requires !Fits(style, b.current, b.queue[0]) && !FitsAnew(style, b.queue[0], note)
    ensures HoldsUp(style, Run(style, b, Quiet(note, k)), b.queue, note)
    ensures EndsIn(Run(style, b, Quiet(note, k)).queue, b.queue)
  {
    hide Run, Step, Fits, FitsAnew;
    if k == 0 {
      QuietStep(style, b, note, 0);
    } else {
      HeadIsHeld(style, b, note, k - 1);
      QuietStep(style, b, note, k - 1);
      HoldUpGoesOn(style, Run(style, b, Quiet(note, k - 1)), b.queue, note);
    }
  }

  /** Exactly when an entry of at most 65535 bytes leaves the head of the queue, or one of its
      copies does, if no rollover is due: when its record fits in the current files, or in new
      ones after the rollover event. Then it does so in one turn or in three; otherwise the
      queue ends in the whole of what it was after any number of turns. */
  lemma HeadLeavesExactly(style: Style, b: Book, note: Bytes)
    requires b.queue != [] && !Long(b.queue[0]) && |note| <= 65535
    ensures (exists k :: Run(style, b, Quiet(note, k)).queue == QueueAfter(b.queue))
       <==> Fits(style, b.current, b.queue[0]) || FitsAnew(style, b.queue[0], note)
    ensures Fits(style, b.current, b.queue[0]) ==> Run(style, b, Quiet(note, 1)).queue == QueueAfter(b.queue)
    ensures !Fits(style, b.current, b.queue[0]) && FitsAnew(style, b.queue[0], note) ==>
              Run(style, b, Quiet(note, 3)).queue == QueueAfter(b.queue)
    ensures !Fits(style, b.current, b.queue[0]) && !FitsAnew(style, b.queue[0], note) ==>
              forall k :: EndsIn(Run(style, b, Quiet(note, k)).queue, b.queue)
  {
    hide Run, Rolls, Emitted;
    var e, tick := b.queue[0], Tick(false, note);
    QuietStep(style, b, note, 0);
    if Fits(style, b.current, e) {
    } else if FitsAnew(style, e, note) {
      QuietStep(style, b, note, 1);
      QuietStep(style, b, note, 2);
      var b1 := Step(style, b, tick);
      assert b1.queue == [NoteItem(e.tstamp, note)] + b.queue && b1.current == Gen([], []);
      assert b1.queue[1..] == b.queue;
      var b2 := Step(style, b1, tick);
      assert b2.queue == b.queue && b2.current == NewFiles(style, e.tstamp, note);
    } else {
      forall k
        ensures EndsIn(Run(style, b, Quiet(note, k)).queue, b.queue)
      {
        HeadIsHeld(style, b, note, k);
      }
      assert !EndsIn(QueueAfter(b.queue), b.queue);
    }
  }

  // ----- when the queue drains -----

  lemma {:induction false} RunAdds(style: Style, b: Book, ticks: seq<Tick>, more: seq<Tick>)
    ensures Run(style, b, ticks + more) == Run(style, Run(style, b, ticks), more)
    decreases |more|
  {
    hide Step;
    if more == [] {
      assert ticks + more == ticks;
    } else {
      RunAdds(style, b, ticks, more[..|more| - 1]);
      assert (ticks + more)[..|ticks + more| - 1] == ticks + more[..|more| - 1];
    }
  }

  lemma QuietAdds(style: Style, b: Book, note: Bytes, j: nat, k: nat)
    ensures Run(style, b, Quiet(note, j + k)) == Run(style, Run(style, b, Quiet(note, j)), Quiet(note, k))
  {
    RunAdds(style, b, Quiet(note, j), Quiet(note, k));
    assert Quiet(note, j) + Quiet(note, k) == Quiet(note, j + k);
  }

  /** Records that an entry still makes. */
  function Pieces(data: Bytes): (n: nat)
    ensures n >= 1
    decreases |data|
  {
    if |data| <= 65535 then 1 else 1 + Pieces(data[65535..])
  }

  predicate Counted(queue: seq<Item>) {
    forall i :: 0 <= i < |queue| ==> queue[i].copies >= 1
  }

  function Turns(queue: seq<Item>): nat
    requires Counted(queue)
  {
    if queue == [] then 0 else Pieces(queue[0].data) + queue[0].copies - 1 + Turns(queue[1..])
  }

  lemma TurnsCons(e: Item, rest: seq<Item>)
    requires Counted(rest) && e.copies >= 1
    ensures Counted([e] + rest) && Turns([e] + rest) == Pieces(e.data) + e.copies - 1 + Turns(rest)
  {
    assert ([e] + rest)[1..] == rest;
  }

  lemma PiecesOf(data: Bytes)
    ensures Pieces(data) == if |data| <= 65535 then 1 else 1 + Pieces(data[65535..])
  {
  }

  /** A record fewer when one is written, the event's one more when the files roll over. */
  lemma TurnsGoOn(queue: seq<Item>, note: Bytes)
    requires queue != [] && Counted(queue) && |note| <= 65535
    ensures Counted(QueueAfter(queue)) && Turns(QueueAfter(queue)) == Turns(queue) - 1
    ensures Counted(QueueBack(queue, note)) && Turns(QueueBack(queue, note)) == Turns(queue) + 1
  {
    hide Pieces, Turns;
    var e, rest := queue[0], queue[1..];
    assert queue == [e] + rest;
    TurnsCons(e, rest);
    PiecesOf(e.data);
    PiecesOf(note);
    var event := NoteItem(e.tstamp, note);
    if Long(e) {
      var twice := Chopped(e).(copies := e.copies + 1);
      TurnsCons(Chopped(e), rest);
      TurnsCons(twice, rest);
      TurnsCons(event, [twice] + rest);
    } else {
      TurnsCons(event, queue);
      if e.copies > 1 {
        TurnsCons(e.(copies := e.copies - 1), rest);
      }
    }
  }

  /** Pieces that are still to be cut off. */
  function Cuts(queue: seq<Item>): nat {
    if queue == [] then 0 else Pieces(queue[0].data) - 1 + Cuts(queue[1..])
  }

  lemma CutsCons(e: Item, rest: seq<Item>)
    ensures Cuts([e] + rest) == Pieces(e.data) - 1 + Cuts(rest)
  {
    assert ([e] + rest)[1..] == rest;
  }

  lemma CutsGoOn(queue: seq<Item>, note: Bytes)
    requires queue != [] && |note| <= 65535
    ensures Cuts(QueueAfter(queue)) == if Long(queue[0]) then Cuts(queue) - 1 else Cuts(queue)
    ensures Cuts(QueueBack(queue, note)) == if Long(queue[0]) then Cuts(queue) - 1 else Cuts(queue)
  {
    hide Pieces, Cuts;
    var e, rest := queue[0], queue[1..];
    assert queue == [e] + rest;
    CutsCons(e, rest);
    PiecesOf(e.data);
    PiecesOf(note);
    var event := NoteItem(e.tstamp, note);
    if Long(e) {
      var twice := Chopped(e).(copies := e.copies + 1);
      CutsCons(Chopped(e), rest);
      CutsCons(twice, rest);
      CutsCons(event, [twice] + rest);
    } else {
      CutsCons(event, queue);
      if e.copies > 1 {
        CutsCons(e.(copies := e.copies - 1), rest);
      }
    }
  }

  /** The head does not hold the queue up: it is cut, or its record fits. */
  predicate HeadGoes(style: Style, b: Book, note: Bytes)
    requires b.queue != []
  {
    Long(b.queue[0]) || Fits(style, b.current, b.queue[0]) || FitsAnew(style, b.queue[0], note)
  }

  /** The turns that takes. */
  function HeadTurns(style: Style, b: Book): nat
    requires b.queue != []
  {
    if Long(b.queue[0]) || Fits(style, b.current, b.queue[0]) then 1 else 3
  }

  lemma HeadGoesOn(style: Style, b: Book, note: Bytes)
    requires b.queue != [] && Counted(b.queue) && HeadGoes(style, b, note) && |note| <= 65535
    ensures var u := Run(style, b, Quiet(note, HeadTurns(style, b)));
      && Counted(u.queue)
      && (Cuts(u.queue) < Cuts(b.queue) || (Cuts(u.queue) == Cuts(b.queue) && Turns(u.queue) < Turns(b.queue)))
  {
    hide Run, Rolls, Emitted, FitsAnew, Cuts, Turns;
    CutsGoOn(b.queue, note);
    TurnsGoOn(b.queue, note);
    if Long(b.queue[0]) {
      QuietStep(style, b, note, 0);
    } else {
      HeadLeavesExactly(style, b, note);
    }
  }

  /** Each head in its turn goes: a long one is cut, whether its piece is written or lost, and
      any other finds room in the files the ones before it have left, or in new ones. */
  ghost predicate AllLeave(style: Style, b: Book, note: Bytes)
    requires Counted(b.queue) && |note| <= 65535
    decreases Cuts(b.queue), Turns(b.queue)
  {
    b.queue == [] ||
    (HeadGoes(style, b, note) &&
     (HeadGoesOn(style, b, note);
      AllLeave(style, Run(style, b, Quiet(note, HeadTurns(style, b))), note)))
  }

  /** Before that the queue is not empty. */
  lemma StillThere(style: Style, b: Book, note: Bytes, k: nat)
    requires b.queue != [] && HeadGoes(style, b, note)
    ensures k < HeadTurns(style, b) ==> Run(style, b, Quiet(note, k)).queue != []
  {
    hide Run, Rolls, Emitted;
    QuietStep(style, b, note, 0);
    QuietStep(style, b, note, 1);
  }

  lemma DrainsAfterHead(style: Style, b: Book, note: Bytes)
    requires b.queue != [] && HeadGoes(style, b, note)
    ensures (exists k :: Run(style, b, Quiet(note, k)).queue == [])
       <==> exists k :: Run(style, Run(style, b, Quiet(note, HeadTurns(style, b))), Quiet(note, k)).queue == []
  {
    var j := HeadTurns(style, b);
    hide Run, HeadGoes, HeadTurns;
    var u := Run(style, b, Quiet(note, j));
    if k: nat :| Run(style, b, Quiet(note, k)).queue == [] {
      StillThere(style, b, note, k);
      QuietAdds(style, b, note, j, k - j);
      assert Run(style, u, Quiet(note, k - j)).queue == [];
    }
    if k: nat :| Run(style, u, Quiet(note, k)).queue == [] {
      QuietAdds(style, b, note, j, k);
      assert Run(style, b, Quiet(note, j + k)).queue == [];
    }
  }

  /** Exactly when a queue drains, whatever it holds, if no rollover is due. */
  lemma {:induction false} QueueDrainsExactly(style: Style, b: Book, note: Bytes)
    requires Counted(b.queue) && |note| <= 65535
    ensures (exists k :: Run(style, b, Quiet(note, k)).queue == []) <==> AllLeave(style, b, note)
    decreases Cuts(b.queue), Turns(b.queue)
  {
    hide Run, Fits, FitsAnew, Cuts, Turns;
    QuietStep(style, b, note, 0);
    if b.queue != [] {
      if HeadGoes(style, b, note) {
        HeadGoesOn(style, b, note);
        QueueDrainsExactly(style, Run(style, b, Quiet(note, HeadTurns(style, b))), note);
        DrainsAfterHead(style, b, note);
      } else {
        HeadLeavesExactly(style, b, note);
      }
    }
  }

  lemma StepKeepsCounted(style: Style, b: Book, tick: Tick)
    requires b.queue != [] && Counted(b.queue)
    ensures Counted(Step(style, b, tick).queue)
  {
    hide Rolls, Emitted;
  }

  lemma {:induction false} RunKeepsCounted(style: Style, b: Book, ticks: seq<Tick>)
    requires Counted(b.queue)
    ensures Counted(Run(style, b, ticks).queue)
  {
    hide Step, Counted;
    if ticks != [] {
      var u := Run(style, b, ticks[..|ticks| - 1]);
      RunKeepsCounted(style, b, ticks[..|ticks| - 1]);
      if u.queue != [] {
        StepKeepsCounted(style, u, ticks[|ticks| - 1]);
      }
    }
  }

  /** The same when it is some time since the files last rolled over by the clock: whatever
      the turns before were like, the queue drains exactly if the state they left does. */
  lemma DrainsInTheEnd(style: Style, b: Book, ticks: seq<Tick>, note: Bytes)
    requires Counted(b.queue) && |note| <= 65535
    ensures Counted(Run(style, b, ticks).queue)
    ensures (exists k :: Run(style, b, ticks + Quiet(note, k)).queue == [])
       <==> AllLeave(style, Run(style, b, ticks), note)
  {
    hide Run, AllLeave, Counted;
    RunKeepsCounted(style, b, ticks);
    var u := Run(style, b, ticks);
    QueueDrainsExactly(style, u, note);
    forall k
      ensures Run(style, b, ticks + Quiet(note, k)) == Run(style, u, Quiet(note, k))
    {
      RunAdds(style, b, ticks, Quiet(note, k));
    }
  }

  /** Every piece of the entry fits in new files after the event. */
  predicate RoomFor(style: Style, e: Item, note: Bytes)
    decreases |e.data|
  {
    |note| <= 65535 && FitsAnew(style, e, note) && (Long(e) ==> RoomFor(style, Chopped(e), note))
  }

  /** In none of the turns is a rollover due, and after each the entry would fit. */
  ghost predicate RoomIn(style: Style, e: Item, ticks: seq<Tick>) {
    forall k :: 0 <= k < |ticks| ==> !ticks[k].due && RoomFor(style, e, ticks[k].note)
  }

  ghost predicate RoomForAll(style: Style, queue: seq<Item>, ticks: seq<Tick>) {
    forall e :: e in queue ==> RoomIn(style, e, ticks)
  }

  datatype Phase = Usual | NoteNext(note: Bytes) | EntryNext(note: Bytes)

  /** Between the turns: after a rollover the files are empty and the event is next, and
      then the files hold the event alone. */
  ghost predicate InPhase(style: Style, p: Phase, b: Book, ticks: seq<Tick>) {
    match p
    case Usual => RoomForAll(style, b.queue, ticks)
    case NoteNext(note) =>
      && |b.queue| >= 2 && b.current == Gen([], []) && b.queue[0] == NoteItem(b.queue[1].tstamp, note)
      && RoomFor(style, b.queue[1], note) && RoomForAll(style, b.queue[1..], ticks)
    case EntryNext(note) =>
      && b.queue != [] && b.current == NewFiles(style, b.queue[0].tstamp, note)
      && RoomFor(style, b.queue[0], note) && RoomForAll(style, b.queue, ticks)
  }

  /** How many turns these records may take. */
  function Ahead(p: Phase, turns: int): int {
    3 * turns - match p case Usual => 0 case NoteNext(_) => 4 case EntryNext(_) => 2
  }

  /** How often the deque holds an entry has no part in whether it fits. */
  lemma {:induction false} RoomOfCopies(style: Style, e: Item, n: nat, note: Bytes)
    ensures RoomFor(style, e.(copies := n), note) == RoomFor(style, e, note)
    decreases |e.data|
  {
    hide Rendered, Prefix;
    if Long(e) {
      RoomOfCopies(style, Chopped(e), n, note);
      assert Chopped(e.(copies := n)) == Chopped(e).(copies := n);
    }
  }

  lemma RoomOfRest(style: Style, e: Item, note: Bytes)
    ensures RoomFor(style, e, note) && Long(e) ==> RoomFor(style, Chopped(e), note)
  {
  }

  lemma RoomStays(style: Style, e: Item, ticks: seq<Tick>, n: nat)
    requires RoomIn(style, e, ticks) && ticks != []
    ensures !ticks[0].due && |ticks[0].note| <= 65535 && RoomFor(style, e, ticks[0].note)
    ensures RoomIn(style, e, ticks[1..]) && RoomIn(style, e.(copies := n), ticks[1..])
    ensures Long(e) ==> RoomIn(style, Chopped(e), ticks[1..]) && RoomIn(style, Chopped(e).(copies := n), ticks[1..])
    ensures Long(e) ==> RoomFor(style, Chopped(e).(copies := n), ticks[0].note)
  {
    assert |ticks[0].note| <= 65535 && RoomFor(style, e, ticks[0].note);
    hide RoomFor, FitsAnew;
    forall k | 0 <= k < |ticks|
      ensures RoomFor(style, e, ticks[k].note) && RoomFor(style, e.(copies := n), ticks[k].note)
      ensures Long(e) ==> RoomFor(style, Chopped(e), ticks[k].note)
                          && RoomFor(style, Chopped(e).(copies := n), ticks[k].note)
    {
      RoomOfCopies(style, e, n, ticks[k].note);
      RoomOfRest(style, e, ticks[k].note);
      if Long(e) {
        RoomOfCopies(style, Chopped(e), n, ticks[k].note);
      }
    }
  }

  lemma EmptyStays(style: Style, b: Book, ticks: seq<Tick>)
    requires b.queue == []
    ensures Run(style, b, ticks) == b
  {
  }

  lemma TurnsAhead(style: Style, p: Phase, b: Book, ticks: seq<Tick>)
    requires b.queue != [] && Counted(b.queue) && InPhase(style, p, b, ticks)
    ensures Ahead(p, Turns(b.queue)) > 0
  {
    if p.NoteNext? {
      assert Turns(b.queue[1..]) >= 1;
    }
  }

  lemma RoomMeans(style: Style, e: Item, note: Bytes)
    requires RoomFor(style, e, note)
    ensures |note| <= 65535 && FitsAnew(style, e, note)
  {
  }

  lemma RoomLater(style: Style, queue: seq<Item>, ticks: seq<Tick>)
    requires RoomForAll(style, queue, ticks) && ticks != []
    ensures RoomForAll(style, queue, ticks[1..])
  {
    hide RoomFor;
  }

  lemma PhaseGoesOn(style: Style, p: Phase, b: Book, ticks: seq<Tick>) returns (p': Phase)
    requires b.queue != [] && Counted(b.queue) && InPhase(style, p, b, ticks) && ticks != []
    ensures var b' := Step(style, b, ticks[0]);
            && Counted(b'.queue) && InPhase(style, p', b', ticks[1..])
            && Ahead(p', Turns(b'.queue)) < Ahead(p, Turns(b.queue))
  {
    hide Rolls, Emitted, Turns, Pieces, RoomIn, RoomFor;
    var e, tick := b.queue[0], ticks[0];
    var entry := if p.NoteNext? then b.queue[1] else e;
    var later := if p.NoteNext? then b.queue[1..] else b.queue;
    assert entry in later;
    RoomStays(style, entry, ticks, entry.copies - 1);
    RoomStays(style, entry, ticks, entry.copies + 1);
    RoomLater(style, later, ticks);
    TurnsGoOn(b.queue, tick.note);
    match p
    case Usual =>
      p' := if Rolls(style, b.current, e, false) then NoteNext(tick.note) else Usual;
    case NoteNext(note) =>
      RoomMeans(style, entry, note);
      p' := EntryNext(note);
    case EntryNext(note) =>
      RoomMeans(style, entry, note);
      p' := Usual;
  }

  /** With room in new files for every piece of every entry, three turns a record empty the
      queue, whatever the rolled files are called. */
  lemma {:induction false} QueueDrains(style: Style, b: Book, p: Phase, ticks: seq<Tick>)
    requires Counted(b.queue) && InPhase(style, p, b, ticks) && |ticks| >= Ahead(p, Turns(b.queue))
    ensures Run(style, b, ticks).queue == []
    decreases |ticks|
  {
    hide Rolls, Emitted, RoomFor, RoomIn, Turns, Run;
    if b.queue == [] {
      EmptyStays(style, b, ticks);
    } else {
      TurnsAhead(style, p, b, ticks);
      RunCons(style, b, ticks);
      var p' := PhaseGoesOn(style, p, b, ticks);
      QueueDrains(style, Step(style, b, ticks[0]), p', ticks[1..]);
    }
  }

  // ----- a logger with small files -----

  /** For console data the condition is on lengths alone. */
  lemma ConsoleFits(style: Style, gen: Gen, e: Item)
    requires style.isconsole && e.ltype == CONSOLE && style.maxBytes > 0
    ensures Fits(style, gen, e) <==>
      && |gen.text| < 0x1_0000_0000 && |gen.text| + |FirstPiece(e.data)| < style.maxBytes
      && 16 * |gen.index| + 16 < style.maxBytes
  {
    assert RecordText(style, e) == FirstPiece(e.data);
  }

  lemma NewFilesHoldTheNote(style: Style, tstamp: Stamp, note: Bytes)
    requires |note| <= 65535
    ensures |NewFiles(style, tstamp, note).text| >= |note| && |NewFiles(style, tstamp, note).index| == 1
  {
  }

  /** With the smallest setting that is allowed, 8192 bytes, an entry of 8191 bytes fits in
      no file that holds anything, so not after the rollover event: if the files are not
      empty it is never written. Ten bytes are. */
  lemma JustBelowTheLimit(style: Style, b: Book, note: Bytes)
    requires style.isconsole && style.maxBytes == 8192 && 1 <= |note| <= 65535
    requires b.queue != [] && b.queue[0].ltype == CONSOLE && b.queue[0].copies == 1
    requires 1 <= |b.current.text|
    ensures |b.queue[0].data| == 8191 ==> forall k :: EndsIn(Run(style, b, Quiet(note, k)).queue, b.queue)
    ensures |b.queue[0].data| == 10 && |b.current.text| <= 8181 && |b.current.index| <= 510 ==>
              Run(style, b, Quiet(note, 1)).queue == b.queue[1..]
  {
    var e := b.queue[0];
    hide Run, Fits, Emitted;
    if |e.data| <= 8191 {
      HeadLeavesExactly(style, b, note);
      ConsoleFits(style, b.current, e);
      ConsoleFits(style, NewFiles(style, e.tstamp, note), e);
      NewFilesHoldTheNote(style, e.tstamp, note);
    }
  }

  // ----- an entry that is spoiled -----

  function Zeros(n: nat): (s: Bytes)
    ensures |s| == n
  {
    seq(n, _ => 0)
  }

  /** A log with some text, files of at most 100000 bytes, and one entry of 65536. */
  function SpoiledStyle(): Style { Style(true, _ => [], 100000) }

  function SpoiledEntry(): Item { Item(CONSOLE, 0, Zeros(65535) + [1], 0, None, 1) }

  function SpoiledBook(): Book { Book([SpoiledEntry()], Gen(Zeros(50000), []), []) }

  /** What is left of it, held c times. */
  function LastByte(c: nat): Item { Item(CONSOLE, 0, [1], 0, None, c) }

  lemma FirstTurn()
    ensures var style, b := SpoiledStyle(), SpoiledBook();
      && SplitRolls(style, b, Tick(false, []))
      && Step(style, b, Tick(false, [])) == Book([NoteItem(0, []), LastByte(2)], Gen([], []), [b.current])
  {
    hide Zeros;
    var data := Zeros(65535) + [1];
    assert |data| == 65536 && data[65535..] == [1];
    assert |RecordText(SpoiledStyle(), SpoiledEntry())| >= 65535;
    assert QueueBack([SpoiledEntry()], []) == [NoteItem(0, []), LastByte(2)];
  }

  lemma OtherTurns(closed: seq<Gen>)
    ensures var style, tick, new0 := SpoiledStyle(), Tick(false, []), Gen([], []);
      var new1 := Emitted(style, new0, NoteItem(0, []));
      var new2 := Emitted(style, new1, LastByte(2));
      var b1 := Book([NoteItem(0, []), LastByte(2)], new0, closed);
      var b2 := Step(style, b1, tick);
      var b3 := Step(style, b2, tick);
      && b2 == Book([LastByte(2)], new1, closed) && b3 == Book([LastByte(1)], new2, closed)
      && Step(style, b3, tick).queue == []
  {
    var style := SpoiledStyle();
    assert RecordText(style, NoteItem(0, [])) == [93];
    assert RecordText(style, LastByte(1)) == RecordText(style, LastByte(2)) == [1];
    assert [NoteItem(0, []), LastByte(2)][1..] == [LastByte(2)];
  }

  lemma NoFiles(kind: Kind)
    ensures Payload(kind, []) == []
  {
  }

  /** Files without records hold no payload. */
  lemma NoRecords(kind: Kind, text: Bytes)
    ensures var g, new0 := Gen(text, []), Gen([], []);
      && Sound(g) && Sound(new0) && Payload(kind, [] + [g]) == [] && Payload(kind, [g] + [new0]) == []
  {
    hide Payload;
    PayloadSnoc(kind, [], Gen(text, []));
    PayloadSnoc(kind, [Gen(text, [])], Gen([], []));
    assert [] + [Gen(text, [])] == [Gen(text, [])];
    assert Payload(kind, []) == [] by { NoFiles(kind); }
  }

  lemma NothingWrittenYet()
    ensures Valid(SpoiledBook()) && Written(CONSOLE, SpoiledBook()) == []
    ensures var b1 := Book([NoteItem(0, []), LastByte(2)], Gen([], []), [SpoiledBook().current]);
      Valid(b1) && Written(CONSOLE, b1) == []
  {
    hide Zeros, Payload, Sound;
    NoRecords(CONSOLE, Zeros(50000));
  }

  lemma NothingPending()
    ensures Pending(CONSOLE, []) == []
  {
  }

  lemma AllPendingAtFirst()
    ensures Valid(SpoiledBook()) && Pending(CONSOLE, SpoiledBook().queue) == Zeros(65535) + [1]
  {
    NothingWrittenYet();
    hide Zeros, LastPiece, Pending, Copies;
    var e := SpoiledEntry();
    NoCopies(LastPiece(e.data));
    PendingCons(CONSOLE, e, []);
    NothingPending();
    assert [e] + [] == [e];
  }

  lemma TwicePendingThen()
    ensures Pending(CONSOLE, [NoteItem(0, []), LastByte(2)]) == [1, 1]
  {
    hide Pending;
    PendingCons(CONSOLE, LastByte(2), []);
    PendingCons(CONSOLE, NoteItem(0, []), [LastByte(2)]);
    NothingPending();
    CopiesStep([1], 1);
    assert [LastByte(2)] + [] == [LastByte(2)];
    assert [NoteItem(0, [])] + [LastByte(2)] == [NoteItem(0, []), LastByte(2)];
  }

  lemma LastTurnsKeep(b1: Book, b2: Book, b3: Book, b4: Book)
    requires Valid(b1) && b1.queue == [NoteItem(0, []), LastByte(2)]
    requires b2 == Step(SpoiledStyle(), b1, Tick(false, [])) && b2.queue == [LastByte(2)]
    requires b3 == Step(SpoiledStyle(), b2, Tick(false, [])) && b3.queue == [LastByte(1)]
    requires b4 == Step(SpoiledStyle(), b3, Tick(false, [])) && b4.queue == []
    ensures Valid(b4) && Written(CONSOLE, b4) == Written(CONSOLE, b1) + Pending(CONSOLE, b1.queue)
  {
    hide Step, Valid, Written, Pending, Repeats, Rolls;
    TurnKeepsAccount(SpoiledStyle(), CONSOLE, b1, Tick(false, []));
    TurnKeepsAccount(SpoiledStyle(), CONSOLE, b2, Tick(false, []));
    TurnKeepsAccount(SpoiledStyle(), CONSOLE, b3, Tick(false, []));
    assert Pending(CONSOLE, []) == [] by { NothingPending(); }
  }

  /** Of its 65536 bytes the last one is written, twice, and no other. */
  lemma SplitEntryIsLost()
    ensures var b, ticks := SpoiledBook(), Quiet([], 4);
      && Valid(b) && Pending(CONSOLE, b.queue) == Zeros(65535) + [1] && Written(CONSOLE, b) == []
      && Spoils(SpoiledStyle(), b, ticks)
      && var u := Run(SpoiledStyle(), b, ticks); Valid(u) && u.queue == [] && Written(CONSOLE, u) == [1, 1]
  {
    var style, b, tick := SpoiledStyle(), SpoiledBook(), Tick(false, []);
    NothingWrittenYet();
    AllPendingAtFirst();
    TwicePendingThen();
    FirstTurn();
    OtherTurns([b.current]);
    hide Run, Step, SplitRolls, Zeros, Valid, Written, Pending, Repeats, Emitted;
    var b1 := Step(style, b, tick);
    QuietStep(style, b, [], 0);
    QuietStep(style, b, [], 1);
    QuietStep(style, b, [], 2);
    QuietStep(style, b, [], 3);
    var b2 := Step(style, b1, tick);
    var b3 := Step(style, b2, tick);
    var b4 := Step(style, b3, tick);
    assert Quiet([], 4)[..0] == Quiet([], 0);
    assert SpoilsAt(style, b, Quiet([], 4), 0);
    LastTurnsKeep(b1, b2, b3, b4);
  }
}

/** Sessions of the logger's model: any calls of log and writedata, and when the files end
    up with all that was logged. */
module LogSessions {
  import opened Common
  import opened LogModel
  import opened LogRuns

  datatype Call = Logged(data: Bytes, ltype: Option<Kind>, event: Kind, eventdata: Option<Kind>, timestamp: Stamp)
                | Flushed(ticks: seq<Tick>)

  /** Without a type, console loggers log console data and the others text. */
  function TypeOf(style: Style, ltype: Option<Kind>): Kind {
    match ltype
    case Some(t) => t
    case None => if style.isconsole then CONSOLE else 0
  }

  /** Console data of the same second as the last entry, lines 774-776. */
  predicate Joins(queue: seq<Item>, ltype: Kind, event: Kind, timestamp: Stamp) {
    && queue != [] && ltype == CONSOLE && event == 0
    && queue[|queue| - 1].ltype == CONSOLE && queue[|queue| - 1].tstamp == timestamp
  }

  /** Logger.log, lines 774-782. */
  function Entered(queue: seq<Item>, logdata: Bytes, ltype: Kind, event: Kind, eventdata: Option<Kind>,
                   timestamp: Stamp): seq<Item>
  {
    if Joins(queue, ltype, event, timestamp) then
      var last := queue[|queue| - 1];
      queue[|queue| - 1 := last.(data := last.data + logdata, aux := if eventdata != None then eventdata else last.aux)]
    else
      queue + [Item(ltype, timestamp, logdata, event, eventdata, 1)]
  }

  function DoCall(style: Style, b: Book, call: Call): Book {
    match call
    case Logged(data, ltype, event, eventdata, timestamp) =>
      b.(queue := Entered(b.queue, data, TypeOf(style, ltype), event, eventdata, timestamp))
    case Flushed(ticks) => Run(style, b, ticks)
  }

  function AfterCalls(style: Style, calls: seq<Call>): Book {
    if calls == [] then Book([], Gen([], []), [])
    else DoCall(style, AfterCalls(style, calls[..|calls| - 1]), calls[|calls| - 1])
  }

  function PayloadOf(kind: Kind, style: Style, call: Call): Bytes {
    if call.Logged? && Counts(kind, TypeOf(style, call.ltype), call.event) then call.data else []
  }

  /** The payload of one kind that the calls log. */
  function LoggedBy(kind: Kind, style: Style, calls: seq<Call>): Bytes {
    if calls == [] then []
    else
      var call := calls[|calls| - 1];
      LoggedBy(kind, style, calls[..|calls| - 1])
      + PayloadOf(kind, style, call)
  }

  /** Some call of writedata spoils an entry. */
  ghost predicate SessionSpoils(style: Style, calls: seq<Call>) {
    if calls == [] then false
    else
      var front, call := calls[..|calls| - 1], calls[|calls| - 1];
      SessionSpoils(style, front) || (call.Flushed? && Spoils(style, AfterCalls(style, front), call.ticks))
  }

  // ----- nothing is lost -----

  predicate Once(queue: seq<Item>) { forall i :: 0 <= i < |queue| ==> queue[i].copies == 1 }

  lemma {:induction false} RunKeepsOnce(style: Style, b: Book, ticks: seq<Tick>)
    requires Once(b.queue) && !Spoils(style, b, ticks)
    ensures Once(Run(style, b, ticks).queue)
  {
    hide Rolls, Emitted;
    if ticks != [] {
      SpoilsFront(style, b, ticks);
      hide Spoils;
      RunKeepsOnce(style, b, ticks[..|ticks| - 1]);
    }
  }

  lemma PendingOfOne(kind: Kind, e: Item)
    requires e.copies == 1
    ensures PendingOf(kind, e) == if Of(kind, e) then e.data else []
  {
    hide LastPiece, Copies;
    NoCopies(LastPiece(e.data));
  }

  lemma {:induction false} PendingSnoc(kind: Kind, queue: seq<Item>, e: Item)
    requires Once(queue) && e.copies == 1
    ensures Pending(kind, queue + [e]) == Pending(kind, queue) + if Of(kind, e) then e.data else []
  {
    PendingOfOne(kind, e);
    assert Pending(kind, []) == [];
    hide Pending, PendingOf;
    if queue == [] {
      PendingCons(kind, e, []);
      assert queue + [e] == [e] + [];
    } else {
      var head, rest := queue[0], queue[1..];
      PendingSnoc(kind, rest, e);
      assert queue == [head] + rest && queue + [e] == [head] + (rest + [e]);
      PendingCons(kind, head, rest);
      PendingCons(kind, head, rest + [e]);
    }
  }

  /** The queue's payload grows by what is logged, joined or not. */
  lemma EnteringAdds(kind: Kind, queue: seq<Item>, logdata: Bytes, ltype: Kind, event: Kind, eventdata: Option<Kind>,
                     timestamp: Stamp)
    requires Once(queue)
    ensures var queue' := Entered(queue, logdata, ltype, event, eventdata, timestamp);
      && Once(queue')
      && Pending(kind, queue') == Pending(kind, queue) + if Counts(kind, ltype, event) then logdata else []
  {
    hide Pending;
    if Joins(queue, ltype, event, timestamp) {
      var front, last := queue[..|queue| - 1], queue[|queue| - 1];
      var more := last.(data := last.data + logdata, aux := if eventdata != None then eventdata else last.aux);
      assert queue == front + [last];
      assert Entered(queue, logdata, ltype, event, eventdata, timestamp) == front + [more];
      PendingSnoc(kind, front, last);
      PendingSnoc(kind, front, more);
    } else {
      PendingSnoc(kind, queue, Item(ltype, timestamp, logdata, event, eventdata, 1));
    }
  }

  lemma CallKeepsAll(style: Style, kind: Kind, b: Book, call: Call)
    requires Valid(b) && Once(b.queue) && (call.Flushed? ==> !Spoils(style, b, call.ticks))
    ensures var b' := DoCall(style, b, call);
      && Valid(b') && Once(b'.queue)
      && Account(kind, b') == Account(kind, b) + PayloadOf(kind, style, call)
  {
    hide Run, Payload, Pending, Sound, Spoils, Entered, TypeOf;
    match call
    case Logged(data, ltype, event, eventdata, timestamp) =>
      EnteringAdds(kind, b.queue, data, TypeOf(style, ltype), event, eventdata, timestamp);
    case Flushed(ticks) =>
      RunKeepsAccount(style, kind, b, ticks);
      RunKeepsOnce(style, b, ticks);
  }

  lemma AccountWhenEmpty(kind: Kind, b: Book)
    requires Valid(b) && b.queue == []
    ensures Account(kind, b) == Written(kind, b)
  {
  }

  lemma NothingYet(kind: Kind)
    ensures var b := Book([], Gen([], []), []); Valid(b) && Account(kind, b) == []
  {
    PayloadSnoc(kind, [], Gen([], []));
  }

  /** Any calls of log and writedata, with any coalescing, splitting and rollovers in
      between: the payload in all files together, and in the queue, is what was logged, in
      the order it was logged, unless an entry is spoiled. */
  lemma {:induction false} SessionKeepsAll(style: Style, kind: Kind, calls: seq<Call>)
    requires !SessionSpoils(style, calls)
    ensures var b := AfterCalls(style, calls);
      && Valid(b) && Once(b.queue) && Account(kind, b) == LoggedBy(kind, style, calls)
      && (b.queue == [] ==> Written(kind, b) == LoggedBy(kind, style, calls))
  {
    hide DoCall, Written, Pending, Valid, Spoils, Account;
    if calls == [] {
      NothingYet(kind);
    } else {
      var front, call := calls[..|calls| - 1], calls[|calls| - 1];
      SessionKeepsAll(style, kind, front);
      CallKeepsAll(style, kind, AfterCalls(style, front), call);
    }
    if AfterCalls(style, calls).queue == [] {
      AccountWhenEmpty(kind, AfterCalls(style, calls));
    }
  }

  // ----- sessions in which no entry grows long -----

  /** How much console data is logged in the second t. */
  function ConsoleBytes(style: Style, calls: seq<Call>, t: Stamp): nat {
    if calls == [] then 0
    else
      var call := calls[|calls| - 1];
      ConsoleBytes(style, calls[..|calls| - 1], t)
      + if call.Logged? && TypeOf(style, call.ltype) == CONSOLE && call.timestamp == t then |call.data| else 0
  }

  /** No second brings more than 65535 bytes of console data, and no other message and no
      name of a rolled file is longer. */
  ghost predicate Moderate(style: Style, calls: seq<Call>) {
    && (forall t: Stamp :: ConsoleBytes(style, calls, t) <= 65535)
    && (forall i :: 0 <= i < |calls| && calls[i].Logged? && TypeOf(style, calls[i].ltype) != CONSOLE ==>
          |calls[i].data| <= 65535)
    && (forall i :: 0 <= i < |calls| && calls[i].Flushed? ==> ShortNotes(calls[i].ticks))
  }

  /** An entry of console data is no longer than what its second brought. */
  ghost predicate Bounded(style: Style, calls: seq<Call>, queue: seq<Item>) {
    forall i :: 0 <= i < |queue| ==>
      if queue[i].ltype == CONSOLE then |queue[i].data| <= ConsoleBytes(style, calls, queue[i].tstamp)
      else |queue[i].data| <= 65535
  }

  lemma StepKeepsBounded(style: Style, calls: seq<Call>, b: Book, tick: Tick)
    requires b.queue != [] && Bounded(style, calls, b.queue) && |tick.note| <= 65535
    ensures Bounded(style, calls, Step(style, b, tick).queue)
  {
    hide Rolls, Emitted, ConsoleBytes;
    var e, q := b.queue[0], Step(style, b, tick).queue;
    forall i | 0 <= i < |q|
      ensures if q[i].ltype == CONSOLE then |q[i].data| <= ConsoleBytes(style, calls, q[i].tstamp)
              else |q[i].data| <= 65535
    {
      if q[i] != NoteItem(e.tstamp, tick.note) {
        var k := i + |b.queue| - |q|;
        assert q[i] == b.queue[k]
          || (k == 0 && q[i].ltype == e.ltype && q[i].tstamp == e.tstamp && |q[i].data| <= |e.data|);
      }
    }
  }

  lemma {:induction false} RunKeepsBounded(style: Style, calls: seq<Call>, b: Book, ticks: seq<Tick>)
    requires Bounded(style, calls, b.queue) && ShortNotes(ticks)
    ensures Bounded(style, calls, Run(style, b, ticks).queue)
  {
    hide Step, Bounded;
    if ticks != [] {
      var u := Run(style, b, ticks[..|ticks| - 1]);
      RunKeepsBounded(style, calls, b, ticks[..|ticks| - 1]);
      if u.queue != [] {
        StepKeepsBounded(style, calls, u, ticks[|ticks| - 1]);
      }
    }
  }

  /** Then nothing is ever spoiled, whatever rolls over when. */
  lemma {:induction false} ModerateNeverSpoils(style: Style, calls: seq<Call>)
    requires Moderate(style, calls)
    ensures !SessionSpoils(style, calls)
    ensures Bounded(style, calls, AfterCalls(style, calls).queue)
  {
    hide Run, Spoils;
    if calls != [] {
      var front, call := calls[..|calls| - 1], calls[|calls| - 1];
      var b := AfterCalls(style, front);
      assert forall t: Stamp :: ConsoleBytes(style, front, t) <= ConsoleBytes(style, calls, t);
      assert forall i :: 0 <= i < |front| ==> front[i] == calls[i];
      ModerateNeverSpoils(style, front);
      if call.Flushed? {
        ShortNeverSpoils(style, b, call.ticks);
        RunKeepsBounded(style, front, b, call.ticks);
      }
    }
  }

  /** The main result for callers: a moderate session loses nothing. */
  lemma ModerateKeepsAll(style: Style, kind: Kind, calls: seq<Call>)
    requires Moderate(style, calls)
    ensures var b := AfterCalls(style, calls);
      && Valid(b) && Account(kind, b) == LoggedBy(kind, style, calls)
      && (b.queue == [] ==> Written(kind, b) == LoggedBy(kind, style, calls))
  {
    ModerateNeverSpoils(style, calls);
    SessionKeepsAll(style, kind, calls);
  }

  lemma ModerateKeepsEveryKind(style: Style, calls: seq<Call>)
    requires Moderate(style, calls) && AfterCalls(style, calls).queue == []
    ensures Valid(AfterCalls(style, calls))
    ensures forall kind: Kind ::
      Written(kind, AfterCalls(style, calls)) == LoggedBy(kind, style, calls)
  {
    hide Moderate, Written, Account, Valid;
    ModerateKeepsAll(style, CONSOLE, calls);
    forall kind: Kind
      ensures Written(kind, AfterCalls(style, calls)) == LoggedBy(kind, style, calls)
    {
      ModerateKeepsAll(style, kind, calls);
    }
  }
}

/** The index as a reader finds it: what each record cuts out of its file is a message that was
    logged, with its type, time, event and event data. */
module LogRecords {
  import opened Common
  import opened LogModel
  import opened LogRuns
  import opened LogSessions

  /** What was logged, or is read back. No event data is 0. */
  datatype Message = Message(ltype: Kind, tstamp: Stamp, data: Bytes, evt: Kind, aux: Kind)

  /** Not the event of a rollover, which the logger writes itself. */
  predicate Own(ltype: Kind, evt: Kind) { !(ltype == EVENT && evt == ROLLOVER) }

  function ReadRecord(text: Bytes, rec: Rec): Message
    requires RecFits(text, rec)
  {
    Message(rec.ltype, rec.tstamp, text[rec.offset..rec.offset + rec.len], rec.evt, rec.aux)
  }

  function ReadIndex(text: Bytes, index: seq<Rec>): seq<Message>
    requires forall i :: 0 <= i < |index| ==> RecFits(text, index[i])
  {
    if index == [] then []
    else
      var rec := index[|index| - 1];
      assert RecFits(text, rec);
      ReadIndex(text, index[..|index| - 1]) + if Own(rec.ltype, rec.evt) then [ReadRecord(text, rec)] else []
  }

  function ReadFiles(gens: seq<Gen>): seq<Message>
    requires forall i :: 0 <= i < |gens| ==> Sound(gens[i])
  {
    if gens == [] then []
    else
      var gen := gens[|gens| - 1];
      assert Sound(gens[|gens| - 1]);
      ReadFiles(gens[..|gens| - 1]) + ReadIndex(gen.text, gen.index)
  }

  function OfItem(e: Item): Message {
    Message(e.ltype, e.tstamp, e.data, e.evt, if e.aux.Some? then e.aux.value else 0)
  }

  function Waiting(queue: seq<Item>): seq<Message> {
    if queue == [] then []
    else (if Own(queue[0].ltype, queue[0].evt) then [OfItem(queue[0])] else []) + Waiting(queue[1..])
  }

  /** All messages: those in the files and those in the queue. */
  function Messages(b: Book): seq<Message>
    requires Valid(b)
  {
    ReadFiles(b.closed + [b.current]) + Waiting(b.queue)
  }

  // ----- one turn -----

  lemma {:induction false} ReadingStays(text: Bytes, more: Bytes, index: seq<Rec>)
    requires forall i :: 0 <= i < |index| ==> RecFits(text, index[i])
    ensures forall i :: 0 <= i < |index| ==> RecFits(text + more, index[i])
    ensures ReadIndex(text + more, index) == ReadIndex(text, index)
  {
    if index != [] {
      ReadingStays(text, more, index[..|index| - 1]);
      var rec := index[|index| - 1];
      assert (text + more)[rec.offset..rec.offset + rec.len] == text[rec.offset..rec.offset + rec.len];
    }
  }

  lemma FilesSnoc(gens: seq<Gen>, gen: Gen)
    requires Sound(gen) && forall i :: 0 <= i < |gens| ==> Sound(gens[i])
    ensures ReadFiles(gens + [gen]) == ReadFiles(gens) + ReadIndex(gen.text, gen.index)
  {
    hide Sound;
    assert (gens + [gen])[..|gens|] == gens;
  }

  lemma WaitingCons(e: Item, rest: seq<Item>)
    ensures Waiting([e] + rest) == (if Own(e.ltype, e.evt) then [OfItem(e)] else []) + Waiting(rest)
  {
    assert ([e] + rest)[1..] == rest;
  }

  lemma ReadingSnoc(text: Bytes, index: seq<Rec>, rec: Rec)
    requires RecFits(text, rec) && forall i :: 0 <= i < |index| ==> RecFits(text, index[i])
    ensures ReadIndex(text, index + [rec])
         == ReadIndex(text, index) + if Own(rec.ltype, rec.evt) then [ReadRecord(text, rec)] else []
  {
    assert (index + [rec])[..|index|] == index;
  }

  lemma OneMoreRecord(text: Bytes, more: Bytes, index: seq<Rec>, rec: Rec)
    requires (forall i :: 0 <= i < |index| ==> RecFits(text, index[i])) && RecFits(text + more, rec)
    ensures Sound(Gen(text + more, index + [rec]))
    ensures ReadIndex(text + more, index + [rec])
         == ReadIndex(text, index) + if Own(rec.ltype, rec.evt) then [ReadRecord(text + more, rec)] else []
  {
    hide ReadIndex;
    ReadingStays(text, more, index);
    ReadingSnoc(text + more, index, rec);
  }

  /** The record of a short entry reads back as the entry. */
  lemma EmittedIsRead(style: Style, gen: Gen, e: Item)
    requires Sound(gen) && !Long(e)
    ensures var gen' := Emitted(style, gen, e);
      && Sound(gen')
      && ReadIndex(gen'.text, gen'.index)
         == ReadIndex(gen.text, gen.index) + if Own(e.ltype, e.evt) then [OfItem(e)] else []
  {
    hide Prefix, Suffix, Rendered, ReadIndex, Slices;
    var rec := RecOf(e, OffsetIn(style, gen, e));
    assert rec.offset == |gen.text| + |Prefix(style, rec.ltype, rec.tstamp, rec.evt)| && rec.len == |e.data|;
    EmitAddsPayload(e.ltype, gen, style, rec, e.data);
    var text := Rendered(style, rec.ltype, rec.tstamp, rec.evt, e.data);
    var gen' := Emitted(style, gen, e);
    assert gen' == Gen(gen.text + text, gen.index + [rec]);
    assert RecFits(gen'.text, gen'.index[|gen.index|]);
    OneMoreRecord(gen.text, text, gen.index, rec);
  }

  lemma NothingRead()
    ensures ReadIndex([], []) == [] && Waiting([]) == [] && ReadFiles([]) == []
  {
  }

  lemma WritingReads(style: Style, b: Book)
    requires Valid(b) && b.queue != [] && !Long(b.queue[0])
    ensures var e := b.queue[0]; var gen := Emitted(style, b.current, e);
      && Sound(gen)
      && ReadFiles(b.closed + [gen]) + Waiting(b.queue[1..]) == Messages(b)
  {
    hide Sound, ReadFiles, ReadIndex, Waiting, Emitted;
    var e, rest := b.queue[0], b.queue[1..];
    assert b.queue == [e] + rest;
    WaitingCons(e, rest);
    EmittedIsRead(style, b.current, e);
    FilesSnoc(b.closed, b.current);
    FilesSnoc(b.closed, Emitted(style, b.current, e));
  }

  lemma RollingReads(b: Book, note: Bytes)
    requires Valid(b) && b.queue != [] && !Long(b.queue[0])
    ensures Sound(Gen([], []))
    ensures ReadFiles(b.closed + [b.current] + [Gen([], [])]) + Waiting(QueueBack(b.queue, note)) == Messages(b)
  {
    hide Sound, ReadFiles, ReadIndex, Waiting;
    assert Sound(Gen([], [])) by { NewIsSound(); }
    FilesSnoc(b.closed + [b.current], Gen([], []));
    NothingRead();
    WaitingCons(NoteItem(b.queue[0].tstamp, note), b.queue);
  }

  lemma StepKeepsMessages(style: Style, b: Book, tick: Tick)
    requires Valid(b) && b.queue != [] && !Long(b.queue[0]) && b.queue[0].copies == 1
    ensures Valid(Step(style, b, tick)) && Messages(Step(style, b, tick)) == Messages(b)
  {
    StepKeepsValid(style, b, tick);
    hide Sound, ReadFiles, Waiting, Rolls, Emitted, QueueBack, Valid;
    if Rolls(style, b.current, b.queue[0], tick.due) {
      RollingReads(b, tick.note);
    } else {
      WritingReads(style, b);
    }
  }

  lemma {:induction false} RunKeepsMessages(style: Style, b: Book, ticks: seq<Tick>)
    requires Valid(b) && Once(b.queue) && ShortItems(b.queue) && ShortNotes(ticks)
    ensures var u := Run(style, b, ticks);
      Valid(u) && Once(u.queue) && ShortItems(u.queue) && Messages(u) == Messages(b)
  {
    ShortNeverSpoils(style, b, ticks);
    RunKeepsOnce(style, b, ticks);
    hide Step, Messages, Valid, Spoils;
    if ticks != [] {
      var front := ticks[..|ticks| - 1];
      assert ShortNotes(front);
      RunKeepsMessages(style, b, front);
      var u := Run(style, b, front);
      if u.queue != [] {
        StepKeepsMessages(style, u, ticks[|ticks| - 1]);
      }
    }
  }

  // ----- whole sessions -----

  /** The messages of a session: each call of log is one, but for those that join the last
      entry while it is still queued, which add to its data and may replace its event data. */
  function Recorded(style: Style, calls: seq<Call>): seq<Message> {
    if calls == [] then []
    else
      var front, call := calls[..|calls| - 1], calls[|calls| - 1];
      var was := Recorded(style, front);
      match call
      case Flushed(_) => was
      case Logged(data, ltype, event, eventdata, timestamp) =>
        var kind := if ltype.Some? then ltype.value else if style.isconsole then 2 else 0;
        if Joins(AfterCalls(style, front).queue, kind, event, timestamp) && was != [] then
          var last := was[|was| - 1];
          var aux := if eventdata.Some? then eventdata.value else last.aux;
          was[|was| - 1 := last.(data := last.data + data, aux := aux)]
        else if Own(kind, event) then
          was + [Message(kind, timestamp, data, event, if eventdata.Some? then eventdata.value else 0)]
        else was
  }

  /** A call adds no entry of its own exactly when it brings console data, not an event, and
      the last entry is console data of the same second. */
  lemma EntryIsJoined(queue: seq<Item>, data: Bytes, ltype: Kind, event: Kind, aux: Option<Kind>, timestamp: Stamp)
    ensures var now := Entered(queue, data, ltype, event, aux, timestamp);
      |now| == |queue| <==>
        queue != [] && ltype == 2 && event == 0
        && queue[|queue| - 1].ltype == 2 && queue[|queue| - 1].tstamp == timestamp
  {
  }

  lemma {:induction false} WaitingSnoc(queue: seq<Item>, e: Item)
    ensures Waiting(queue + [e]) == Waiting(queue) + if Own(e.ltype, e.evt) then [OfItem(e)] else []
  {
    if queue == [] {
      NothingRead();
      WaitingCons(e, []);
      assert queue + [e] == [e] + [];
    } else {
      WaitingSnoc(queue[1..], e);
      assert queue == [queue[0]] + queue[1..] && queue + [e] == [queue[0]] + (queue[1..] + [e]);
      WaitingCons(queue[0], queue[1..]);
      WaitingCons(queue[0], queue[1..] + [e]);
    }
  }

  lemma LastWaits(b: Book)
    requires Valid(b) && b.queue != [] && b.queue[|b.queue| - 1].ltype == CONSOLE
    ensures Messages(b) != [] && Messages(b)[|Messages(b)| - 1] == OfItem(b.queue[|b.queue| - 1])
  {
    hide ReadFiles, Waiting, Sound;
    var front, last := b.queue[..|b.queue| - 1], b.queue[|b.queue| - 1];
    assert b.queue == front + [last];
    WaitingSnoc(front, last);
  }

  /** What a call of log does to the messages. */
  lemma EnteringRecords(b: Book, data: Bytes, ltype: Kind, event: Kind, eventdata: Option<Kind>, timestamp: Stamp)
    requires Valid(b)
    ensures var queue', m := Entered(b.queue, data, ltype, event, eventdata, timestamp), Messages(b);
      var b' := b.(queue := queue');
      Valid(b') && Messages(b')
        == if Joins(b.queue, ltype, event, timestamp) then
             assert m != [] by { LastWaits(b); }
             var last := m[|m| - 1];
             m[|m| - 1 := last.(data := last.data + data, aux := if eventdata.Some? then eventdata.value else last.aux)]
           else if Own(ltype, event) then
             m + [Message(ltype, timestamp, data, event, if eventdata.Some? then eventdata.value else 0)]
           else m
  {
    hide ReadFiles, Waiting, Sound;
    var files := ReadFiles(b.closed + [b.current]);
    if Joins(b.queue, ltype, event, timestamp) {
      LastWaits(b);
      var front, last := b.queue[..|b.queue| - 1], b.queue[|b.queue| - 1];
      var more := last.(data := last.data + data, aux := if eventdata != None then eventdata else last.aux);
      assert b.queue == front + [last];
      assert Entered(b.queue, data, ltype, event, eventdata, timestamp) == front + [more];
      WaitingSnoc(front, last);
      WaitingSnoc(front, more);
    } else {
      WaitingSnoc(b.queue, Item(ltype, timestamp, data, event, eventdata, 1));
    }
  }

  lemma NoMessagesYet()
    ensures var b := Book([], Gen([], []), []); Valid(b) && Messages(b) == []
  {
    NothingRead();
    FilesSnoc([], Gen([], []));
    assert [] + [Gen([], [])] == [Gen([], [])];
  }

  lemma NothingTwice()
    ensures Once([])
  {
  }

  lemma ModerateFront(style: Style, calls: seq<Call>)
    requires Moderate(style, calls) && calls != []
    ensures Moderate(style, calls[..|calls| - 1])
  {
    var front := calls[..|calls| - 1];
    assert forall t: Stamp :: ConsoleBytes(style, front, t) <= ConsoleBytes(style, calls, t);
    assert forall i :: 0 <= i < |front| ==> front[i] == calls[i];
  }

  /** Before the last call no entry is long, nor any note that comes with it. */
  lemma ModerateIsShort(style: Style, calls: seq<Call>)
    requires Moderate(style, calls) && calls != []
    ensures var call := calls[|calls| - 1];
      ShortItems(AfterCalls(style, calls[..|calls| - 1]).queue) && (call.Flushed? ==> ShortNotes(call.ticks))
  {
    hide AfterCalls, ConsoleBytes;
    ModerateFront(style, calls);
    ModerateNeverSpoils(style, calls[..|calls| - 1]);
  }

  lemma {:induction false} MessagesAreRecorded(style: Style, calls: seq<Call>)
    requires Moderate(style, calls)
    ensures var b := AfterCalls(style, calls); Valid(b) && Once(b.queue) && Messages(b) == Recorded(style, calls)
  {
    hide Run, Messages, Entered, Moderate, Valid, Once, ShortItems;
    if calls == [] {
      NoMessagesYet();
      assert Once([]) by { NothingTwice(); }
    } else {
      var front, call := calls[..|calls| - 1], calls[|calls| - 1];
      var b := AfterCalls(style, front);
      ModerateFront(style, calls);
      MessagesAreRecorded(style, front);
      match call
      case Logged(data, ltype, event, eventdata, timestamp) =>
        EnteringRecords(b, data, TypeOf(style, ltype), event, eventdata, timestamp);
        EnteringAdds(CONSOLE, b.queue, data, TypeOf(style, ltype), event, eventdata, timestamp);
        if Joins(b.queue, TypeOf(style, ltype), event, timestamp) {
          LastWaits(b);
        }
      case Flushed(ticks) =>
        ModerateIsShort(style, calls);
        RunKeepsMessages(style, b, ticks);
    }
  }

  // ----- files that were rolled into -----

  predicate BeginsWithEvent(gen: Gen) {
    gen.index != [] ==>
      gen.index[0].ltype == 3 && gen.index[0].evt == 7 && gen.index[0].aux == 0
      && (|gen.index| > 1 ==> gen.index[1].tstamp == gen.index[0].tstamp)
  }

  /** The event at the head of the queue, before the entry it was written for. */
  predicate EventIsNext(queue: seq<Item>) {
    && |queue| >= 2 && queue[0].ltype == 3 && queue[0].evt == 7 && (queue[0].aux == None || queue[0].aux == Some(0))
    && queue[1].tstamp == queue[0].tstamp
  }

  predicate Announces(gen: Gen, queue: seq<Item>) {
    && BeginsWithEvent(gen)
    && (gen.index == [] ==> EventIsNext(queue))
    && (|gen.index| == 1 ==> queue != [] && queue[0].tstamp == gen.index[0].tstamp)
  }

  ghost predicate Announced(b: Book) {
    && (forall i :: 1 <= i < |b.closed| ==> BeginsWithEvent(b.closed[i]))
    && (b.closed != [] ==> Announces(b.current, b.queue))
  }

  lemma StepKeepsAnnounced(style: Style, b: Book, tick: Tick)
    requires b.queue != [] && Announced(b)
    ensures Announced(Step(style, b, tick))
  {
    hide Rolls, RecordText, Prefix;
  }

  lemma {:induction false} RunKeepsAnnounced(style: Style, b: Book, ticks: seq<Tick>)
    requires Announced(b)
    ensures Announced(Run(style, b, ticks))
  {
    hide Step, Announced;
    if ticks != [] {
      var u := Run(style, b, ticks[..|ticks| - 1]);
      RunKeepsAnnounced(style, b, ticks[..|ticks| - 1]);
      if u.queue != [] {
        StepKeepsAnnounced(style, u, ticks[|ticks| - 1]);
      }
    }
  }

  lemma CallKeepsAnnounced(style: Style, b: Book, call: Call)
    requires Announced(b)
    ensures Announced(DoCall(style, b, call))
  {
    hide Run, BeginsWithEvent;
    if call.Flushed? {
      RunKeepsAnnounced(style, b, call.ticks);
    }
  }

  lemma {:induction false} SessionsAreAnnounced(style: Style, calls: seq<Call>)
    ensures Announced(AfterCalls(style, calls))
  {
    hide DoCall;
    if calls != [] {
      hide Announced;
      SessionsAreAnnounced(style, calls[..|calls| - 1]);
      CallKeepsAnnounced(style, AfterCalls(style, calls[..|calls| - 1]), calls[|calls| - 1]);
    }
  }

  /** After any session, long entries or not: every file but the first that has a record at
      all begins with the event that names the file before it, at the time of the entry that
      it made way for. */
  lemma FilesBeginWithEvent(style: Style, calls: seq<Call>, i: nat)
    requires var b := AfterCalls(style, calls); 1 <= i <= |b.closed|
    ensures var b := AfterCalls(style, calls);
      var gen := (b.closed + [b.current])[i];
      && (gen.index != [] ==> gen.index[0].ltype == 3 && gen.index[0].evt == 7 && gen.index[0].aux == 0)
      && (|gen.index| > 1 ==> gen.index[1].tstamp == gen.index[0].tstamp)
  {
    hide AfterCalls;
    SessionsAreAnnounced(style, calls);
    assert BeginsWithEvent((AfterCalls(style, calls).closed + [AfterCalls(style, calls).current])[i]);
  }
}

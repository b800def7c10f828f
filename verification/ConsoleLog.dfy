/** The logger of log.py as it runs: a deque of entries that are changed in place, a text
    file and an index that grow, and the file pairs rolled away. Each method is tied to
    modules LogModel and LogSessions by what it does to Model(). */
module ConsoleLog {
  import opened Common
  import opened LogModel
  import opened LogSessions
  import opened LogRecords

  /** A deque entry. It is one list object however often the deque holds it. */
  class Entry {
    const ltype: Kind
    const tstamp: Stamp
    var data: Bytes
    const evt: Kind
    var aux: Option<Kind>

    constructor (ltype: Kind, tstamp: Stamp, data: Bytes, evt: Kind, aux: Option<Kind>)
      ensures Value(1) == Item(ltype, tstamp, data, evt, aux, 1)
    {
      this.ltype, this.tstamp, this.data, this.evt, this.aux := ltype, tstamp, data, evt, aux;
    }

    ghost function Value(copies: nat): (e: Item)
      reads this
    {
      Item(ltype, tstamp, data, evt, aux, copies)
    }
  }

  ghost function Values(objects: seq<Entry>, counts: seq<nat>): (queue: seq<Item>)
    requires |objects| == |counts|
    reads objects
    ensures |queue| == |objects|
  {
    seq(|objects|, i requires 0 <= i < |objects| reads objects => objects[i].Value(counts[i]))
  }

  // ----- a deque that holds objects several times -----

  function Times<T>(x: T, n: nat): (s: seq<T>)
    ensures |s| == n
  {
    seq(n, _ => x)
  }

  /** The deque: each object as many times in a row as its count says. */
  function Expand<T>(objects: seq<T>, counts: seq<nat>): seq<T>
    requires |objects| == |counts|
  {
    if objects == [] then [] else Times(objects[0], counts[0]) + Expand(objects[1..], counts[1..])
  }

  lemma ExpandCons<T>(x: T, n: nat, objects: seq<T>, counts: seq<nat>)
    requires |objects| == |counts|
    ensures Expand([x] + objects, [n] + counts) == Times(x, n) + Expand(objects, counts)
  {
    assert ([x] + objects)[1..] == objects && ([n] + counts)[1..] == counts;
  }

  lemma TimesHead<T>(x: T, n: nat, rest: seq<T>)
    requires n >= 1
    ensures Times(x, n) + rest != [] && (Times(x, n) + rest)[0] == x
    ensures (Times(x, n) + rest)[1..] == Times(x, n - 1) + rest
    ensures [x] + (Times(x, n) + rest) == Times(x, n + 1) + rest
  {
    assert Times(x, n) == [x] + Times(x, n - 1);
    assert Times(x, n + 1) == [x] + Times(x, n);
  }

  lemma {:induction false} ExpandSnoc<T>(objects: seq<T>, counts: seq<nat>, x: T)
    requires |objects| == |counts|
    ensures Expand(objects + [x], counts + [1]) == Expand(objects, counts) + [x]
  {
    if objects == [] {
      assert objects + [x] == [x] && counts + [1] == [1] && Times(x, 1) == [x];
      var ones: seq<nat> := [1];
      assert [x][1..] == [] && ones[1..] == [];
    } else {
      assert (objects + [x])[1..] == objects[1..] + [x] && (counts + [1])[1..] == counts[1..] + [1];
      ExpandSnoc(objects[1..], counts[1..], x);
    }
  }

  lemma {:induction false} ExpandEnds<T>(objects: seq<T>, counts: seq<nat>)
    requires |objects| == |counts| && forall i :: 0 <= i < |counts| ==> counts[i] >= 1
    ensures (Expand(objects, counts) == []) == (objects == [])
    ensures objects != [] ==>
              var s := Expand(objects, counts); s[0] == objects[0] && s[|s| - 1] == objects[|objects| - 1]
  {
    if objects != [] {
      ExpandEnds(objects[1..], counts[1..]);
      if |objects| == 1 {
        assert objects[1..] == [];
      }
    }
  }

  /** What the deque's ends do to the counts. */
  lemma ExpandHead<T>(objects: seq<T>, counts: seq<nat>)
    requires |objects| == |counts| > 0 && counts[0] >= 1
    ensures var s := Expand(objects, counts);
      && s != [] && s[0] == objects[0]
      && s[1..] == (if counts[0] > 1 then Expand(objects, counts[0 := counts[0] - 1])
                    else Expand(objects[1..], counts[1..]))
      && [objects[0]] + s == Expand(objects, counts[0 := counts[0] + 1])
  {
    var rest := Expand(objects[1..], counts[1..]);
    TimesHead(objects[0], counts[0], rest);
    assert counts[0 := counts[0] + 1][1..] == counts[1..];
    assert counts[0] > 1 ==> counts[0 := counts[0] - 1][1..] == counts[1..];
    assert Times(objects[0], 0) + rest == rest;
  }

  /** The head put back after it was taken, and the event before it. */
  lemma BackFromAfter(q: seq<Item>, text: Bytes, back: seq<Item>)
    requires q != [] && q[0].copies >= 1
    requires var after := QueueAfter(q);
      back == if Long(q[0]) || q[0].copies > 1 then after[0 := after[0].(copies := after[0].copies + 1)]
              else [q[0].(copies := 1)] + after
    ensures QueueBack(q, text) == [NoteItem(q[0].tstamp, text)] + back
  {
    assert q == [q[0]] + q[1..];
  }

  lemma {:induction false} RunStops(style: Style, b: Book, ticks: seq<Tick>, i: nat)
    requires i <= |ticks| && Run(style, b, ticks[..i]).queue == []
    ensures Run(style, b, ticks) == Run(style, b, ticks[..i])
    decreases |ticks|
  {
    hide Step;
    if i < |ticks| {
      var front := ticks[..|ticks| - 1];
      assert front[..i] == ticks[..i];
      RunStops(style, b, front, i);
    } else {
      assert ticks[..i] == ticks;
    }
  }

  /** Logger and its file handler. */
  class Logger {
    const style: Style
    var logentries: seq<Entry>
    var current: Gen
    var closed: seq<Gen>
    ghost var objects: seq<Entry>  // the entries, each once
    ghost var counts: seq<nat>     // how often the deque holds each

    ghost predicate Consistent()
      reads this
    {
      && |objects| == |counts| && logentries == Expand(objects, counts)
      && (forall i :: 0 <= i < |counts| ==> counts[i] >= 1)
      && (forall i, j :: 0 <= i < j < |objects| ==> objects[i] != objects[j])
    }

    ghost function Model(): Book
      requires Consistent()
      reads this, objects
    {
      Book(Values(objects, counts), current, closed)
    }

    constructor (style: Style)
      ensures Consistent() && this.style == style && objects == []
      ensures Model() == Book([], Gen([], []), [])
    {
      this.style := style;
      logentries, current, closed := [], Gen([], []), [];
      objects, counts := [], [];
    }

    /** Logger.log: console data of the same second joins the last entry. */
    method Log(logdata: Bytes, ltype: Option<Kind>, event: Kind, eventdata: Option<Kind>, timestamp: Stamp)
      requires Consistent()
      modifies this`logentries, this`objects, this`counts, objects
      ensures Consistent() && forall e :: e in objects ==> e in old(objects) || fresh(e)
      ensures Model() == DoCall(style, old(Model()), Logged(logdata, ltype, event, eventdata, timestamp))
    {
      ExpandEnds(objects, counts);
      hide Expand;
      var lt := TypeOf(style, ltype);
      var n := |logentries|;
      if n > 0 && lt == CONSOLE && event == 0 && logentries[n - 1].ltype == CONSOLE
         && logentries[n - 1].tstamp == timestamp {
        JoinLast(logdata, eventdata);
      } else {
        Enqueue(logdata, lt, event, eventdata, timestamp);
      }
    }

    /** Lines 777-779. */
    method JoinLast(logdata: Bytes, eventdata: Option<Kind>)
      requires Consistent() && logentries != [] && objects != []
      requires logentries[|logentries| - 1] == objects[|objects| - 1]
      modifies objects[|objects| - 1]
      ensures Consistent()
      ensures var q, n := old(Model().queue), |objects| - 1;
        Model() == old(Model()).(queue :=
          q[n := q[n].(data := q[n].data + logdata, aux := if eventdata != None then eventdata else q[n].aux)])
    {
      var last := logentries[|logentries| - 1];
      last.data := last.data + logdata;
      if eventdata != None {
        last.aux := eventdata;
      }
    }

    /** Lines 781-782. */
    method Enqueue(logdata: Bytes, ltype: Kind, event: Kind, eventdata: Option<Kind>, timestamp: Stamp)
      requires Consistent()
      modifies this`logentries, this`objects, this`counts
      ensures Consistent() && forall e :: e in objects ==> e in old(objects) || fresh(e)
      ensures Model() == old(Model()).(queue :=
        old(Model().queue) + [Item(ltype, timestamp, logdata, event, eventdata, 1)])
    {
      hide Expand;
      var entry := new Entry(ltype, timestamp, logdata, event, eventdata);
      ExpandSnoc(objects, counts, entry);
      logentries := logentries + [entry];
      objects, counts := objects + [entry], counts + [1];
    }

    /** One turn of writedata's loop, lines 571-634. */
    method WriteOne(tick: Tick)
      requires Consistent() && logentries != []
      modifies this`logentries, this`current, this`closed, this`objects, this`counts, objects
      ensures Consistent() && forall e :: e in objects ==> e in old(objects) || fresh(e)
      ensures old(Model()).queue != [] && Model() == Step(style, old(Model()), tick)
    {
      ExpandEnds(objects, counts);
      hide Expand, Rendered, Prefix, Values, QueueAfter, QueueBack, Emitted;
      var entry := logentries[0];
      ghost var q := Model().queue;
      var data := Take();
      var record := Rendered(style, entry.ltype, entry.tstamp, entry.evt, data);
      var offset := |current.text| + |Prefix(style, entry.ltype, entry.tstamp, entry.evt)|;
      var rolls := ShouldRoll(offset, record, tick.due);
      assert rolls == Rolls(style, current, q[0], tick.due);
      hide Rolls;
      if !rolls {
        Emit(entry, offset, data, record, q[0]);
      } else {
        RollOver(entry, tick.note, q);
      }
    }

    /** handler.emit */
    method Emit(entry: Entry, offset: nat, data: Bytes, record: Bytes, ghost e: Item)
      requires Consistent() && record == RecordText(style, e) && offset == OffsetIn(style, current, e)
      requires data == FirstPiece(e.data) && entry.Value(e.copies).(data := e.data) == e
      modifies this`current
      ensures Consistent() && Model() == old(Model()).(current := Emitted(style, old(current), e))
    {
      current := Gen(current.text + record,
                     current.index + [Rec(entry.ltype, offset, |data|, entry.tstamp, entry.evt,
                                          match entry.aux case Some(a) => a case None => 0)]);
    }

    /** Both files are renamed away and new ones begun; the entry goes back into the deque, and
        the rollover event before it. */
    method RollOver(entry: Entry, text: Bytes, ghost q: seq<Item>)
      requires Consistent() && q != [] && q[0].copies >= 1 && Model().queue == QueueAfter(q)
      requires entry in objects <==> Long(q[0]) || q[0].copies > 1
      requires entry in objects ==> entry == objects[0]
      requires entry.Value(1) == (if Long(q[0]) then Chopped(q[0]) else q[0]).(copies := 1)
      modifies this`logentries, this`current, this`closed, this`objects, this`counts
      ensures Consistent() && forall e :: e in objects ==> e in old(objects) || e == entry || fresh(e)
      ensures Model() == Book(QueueBack(q, text), Gen([], []), old(closed + [current]))
    {
      hide Expand, Values;
      closed := closed + [current];
      current := Gen([], []);
      AppendLeft(entry);
      BackFromAfter(q, text, Model().queue);
      hide QueueAfter, QueueBack;
      var event := new Entry(EVENT, entry.tstamp, text, ROLLOVER, None);
      AppendLeft(event);
    }

    /** writedata: turn after turn until the queue is empty, or time is up. What that comes to
        is said by the lemmas about Run: RunKeepsAccountExactly, QueueDrainsExactly, TooLongStays. */
    method WriteData(ticks: seq<Tick>)
      requires Consistent()
      modifies this`logentries, this`current, this`closed, this`objects, this`counts, objects
      ensures Consistent() && forall e :: e in objects ==> e in old(objects) || fresh(e)
      ensures Model() == Run(style, old(Model()), ticks)
    {
      hide Expand, Step, Values;
      ghost var b := Model();
      assert ticks[..0] == [];
      var i := 0;
      while logentries != [] && i < |ticks|
        invariant i <= |ticks| && Consistent() && Model() == Run(style, b, ticks[..i])
        invariant forall e :: e in objects ==> e in old(objects) || fresh(e)
        decreases |ticks| - i
      {
        assert ticks[..i + 1][..i] == ticks[..i];
        assert forall k :: 0 <= k < |objects| ==> objects[k] in objects;
        WriteOne(ticks[i]);
        i := i + 1;
      }
      if i < |ticks| {
        ExpandEnds(objects, counts);
        RunStops(style, b, ticks, i);
      }
      assert i == |ticks| ==> ticks[..i] == ticks;
    }

    /** shouldRollover, and the offset that struct.pack refuses. */
    method ShouldRoll(offset: nat, record: Bytes, due: bool) returns (rolls: bool)
      ensures rolls <==> (offset >= 0x1_0000_0000 || due
        || (style.maxBytes > 0
            && (|current.text| + |record| >= style.maxBytes || 16 * |current.index| + 16 >= style.maxBytes)))
    {
      if offset >= 0x1_0000_0000 || due {
        return true;
      }
      if style.maxBytes > 0 {
        if |current.text| + |record| >= style.maxBytes {
          return true;
        }
        if 16 * |current.index| + 16 >= style.maxBytes {
          return true;
        }
      }
      return false;
    }

    /** Pops the first entry; a long one is put back without its first 65535 bytes. */
    method Take() returns (data: Bytes)
      requires Consistent() && objects != [] && logentries[0] == objects[0]
      modifies this`logentries, this`objects, this`counts, objects[0]
      ensures Consistent() && data == FirstPiece(old(objects[0].data))
      ensures Model() == old(Model()).(queue := QueueAfter(old(Model().queue)))
      ensures objects == old(objects) || objects == old(objects[1..])
      ensures var e, q := old(objects[0]), old(Model().queue);
        && e.Value(1) == (if Long(q[0]) then Chopped(q[0]) else q[0]).(copies := 1)
        && (e in objects <==> Long(q[0]) || q[0].copies > 1) && (e in objects ==> e == objects[0])
    {
      ExpandHead(objects, counts);
      hide Expand;
      ghost var q := Model().queue;
      var entry := logentries[0];
      logentries := logentries[1..];
      data := entry.data;
      if |data| > 65535 {
        entry.data := data[65535..];
        logentries := [entry] + logentries;
        data := data[..65535];
        assert logentries == old(logentries);
        assert Model().queue == [Chopped(q[0])] + q[1..];
      } else if counts[0] > 1 {
        counts := counts[0 := counts[0] - 1];
        assert Model().queue == [q[0].(copies := q[0].copies - 1)] + q[1..];
      } else {
        objects, counts := objects[1..], counts[1..];
        assert Model().queue == q[1..];
      }
    }

    /** deque.appendleft, of the first entry again or of one that the deque does not hold. */
    method AppendLeft(entry: Entry)
      requires Consistent() && (entry in objects ==> entry == objects[0])
      modifies this`logentries, this`objects, this`counts
      ensures Consistent()
      ensures objects == if entry in old(objects) then old(objects) else [entry] + old(objects)
      ensures var q := old(Model().queue);
        Model() == old(Model()).(queue :=
          if entry in old(objects) then q[0 := q[0].(copies := q[0].copies + 1)] else [old(entry.Value(1))] + q)
    {
      if entry in objects {
        ExpandHead(objects, counts);
        counts := counts[0 := counts[0] + 1];
      } else {
        ExpandCons(entry, 1, objects, counts);
        assert Times(entry, 1) == [entry];
        objects, counts := [entry] + objects, [1] + counts;
      }
      hide Expand;
      logentries := [entry] + logentries;
    }
  }

  // ----- whole sessions -----

  /** One call on the logger. */
  method Perform(log: Logger, call: Call)
    requires log.Consistent()
    modifies log, log.objects
    ensures log.Consistent() && forall e :: e in log.objects ==> e in old(log.objects) || fresh(e)
    ensures log.Model() == DoCall(log.style, old(log.Model()), call)
  {
    hide Expand, Values, Run;
    match call
    case Logged(data, ltype, event, eventdata, timestamp) =>
      log.Log(data, ltype, event, eventdata, timestamp);
    case Flushed(ticks) =>
      log.WriteData(ticks);
  }

  /** Any calls of log and writedata on a new logger. If no second brings more than 65535
      bytes of console data and no other message is longer, then the records in all files, read
      back, and the queue after them are exactly the messages logged, in order, and whenever
      the queue is empty the files hold exactly what was logged, whatever rolled over when. */
  method Session(style: Style, calls: seq<Call>) returns (log: Logger)
    ensures log.Consistent() && log.Model() == AfterCalls(style, calls)
    ensures Moderate(style, calls) ==> Valid(log.Model()) && Messages(log.Model()) == Recorded(style, calls)
    ensures Moderate(style, calls) && log.logentries == [] ==>
              && Valid(log.Model())
              && forall kind: Kind :: Written(kind, log.Model()) == LoggedBy(kind, style, calls)
  {
    hide DoCall, Expand, Moderate, Written, Messages, Recorded;
    log := new Logger(style);
    assert calls[..0] == [];
    for i := 0 to |calls|
      invariant fresh(log) && log.Consistent() && log.style == style && log.Model() == AfterCalls(style, calls[..i])
      invariant forall e :: e in log.objects ==> fresh(e)
    {
      assert calls[..i + 1][..i] == calls[..i];
      assert forall k :: 0 <= k < |log.objects| ==> log.objects[k] in log.objects;
      Perform(log, calls[i]);
    }
    assert calls[..|calls|] == calls;
    if Moderate(style, calls) {
      MessagesAreRecorded(style, calls);
      if log.logentries == [] {
        ExpandEnds(log.objects, log.counts);
        ModerateKeepsEveryKind(style, calls);
      }
    }
  }

  // ----- the time of the next rollover -----

  /** The day that ends at this midnight, 0 for Monday; day 0 of the epoch was a Thursday. */
  function DayBefore(midnight: nat): nat { (midnight / 86400 + 2) % 7 }

  /** Friday began at second 86400, and the days of the week follow one another. */
  lemma DaysOfTheWeek(midnight: nat)
    requires midnight % 86400 == 0
    ensures DayBefore(86400) == 3
    ensures DayBefore(midnight + 86400) == if DayBefore(midnight) == 6 then 0 else DayBefore(midnight) + 1
  {
    assert (midnight + 86400) / 86400 == midnight / 86400 + 1;
  }

  function WeekDay(time: nat): nat { (time / 86400 + 3) % 7 }

  /** The midnight j days after the one that ends this day. */
  function Midnight(now: nat, j: nat): nat { 86400 * (now / 86400 + 1 + j) }

  lemma MidnightIs(now: nat, t: nat, wait: nat)
    requires now < t <= Midnight(now, wait) && t % 86400 == 0
    ensures exists j :: 0 <= j <= wait && t == Midnight(now, j)
  {
    assert t == Midnight(now, t / 86400 - now / 86400 - 1);
  }

  lemma TimeOfDay(t: nat)
    requires t < 86400
    ensures (t / 3600 * 60 + t / 60 % 60) * 60 + t % 60 == t
  {
    assert t / 60 / 60 == t / 3600;
  }

  lemma Wraps(n: nat, j: nat)
    requires j < 7
    ensures (n + j) % 7 == if n % 7 + j < 7 then n % 7 + j else n % 7 + j - 7
  {
  }

  lemma DaysGoRound(now: nat, j: nat, day: nat)
    requires j < 7 && day < 7
    ensures WeekDay(now) < 7
    ensures DayBefore(Midnight(now, j)) == day
       <==> j == if WeekDay(now) <= day then day - WeekDay(now) else day + 7 - WeekDay(now)
  {
    var d := now / 86400;
    assert Midnight(now, j) / 86400 == d + 1 + j;
    Wraps(d + 3, j);
  }

  /** computeRollover for the MIDNIGHT and weekly settings, with UTC time: the first
      midnight after now, or the first that ends the given day. */
  method ComputeRollover(now: nat, dayOfWeek: Option<nat>) returns (result: nat)
    requires dayOfWeek.Some? ==> dayOfWeek.value < 7
    ensures now < result && result % 86400 == 0
    ensures dayOfWeek.Some? ==> DayBefore(result) == dayOfWeek.value
    ensures forall t :: now < t < result && t % 86400 == 0 ==> dayOfWeek.Some? && DayBefore(t) != dayOfWeek.value
    ensures result <= now + if dayOfWeek.Some? then 7 * 86400 else 86400
  {
    hide DayBefore, WeekDay;
    var ofDay := now % 86400;
    var hour, minute, second := ofDay / 3600, ofDay / 60 % 60, ofDay % 60;
    var r := 86400 - ((hour * 60 + minute) * 60 + second);
    TimeOfDay(ofDay);
    result := now + r;
    ghost var wait := 0;
    DaysGoRound(now, 0, 0);
    if dayOfWeek.Some? {
      var day := WeekDay(now);
      if day != dayOfWeek.value {
        var daysToWait := if day < dayOfWeek.value then dayOfWeek.value - day else 6 - day + dayOfWeek.value + 1;
        result := result + daysToWait * (60 * 60 * 24);
        wait := daysToWait;
      }
    }
    assert result == Midnight(now, wait);
    forall t | now < t <= result && t % 86400 == 0
      ensures exists j :: 0 <= j <= wait && t == Midnight(now, j)
    {
      MidnightIs(now, t, wait);
    }
    forall j | 0 <= j <= wait
      ensures dayOfWeek.Some? ==> (DayBefore(Midnight(now, j)) == dayOfWeek.value <==> j == wait)
    {
      if dayOfWeek.Some? {
        DaysGoRound(now, j, dayOfWeek.value);
      }
    }
  }
}

/** The logger of log.py as a value: a queue of entries, a text file with its index of
    records, and the file pairs rolled away; and what each turn of writedata does to them.
    The queue whose entries are objects is in module ConsoleLog. */
module LogModel {
  import opened Common

  /** Events.logstr: "connection by " and "disconnection by ". */
  function EventText(evt: Kind): Bytes {
    if evt == 2 then [99, 111, 110, 110, 101, 99, 116, 105, 111, 110, 32, 98, 121, 32]
    else if evt == 3 then [100, 105, 115, 99, 111, 110, 110, 101, 99, 116, 105, 111, 110, 32, 98, 121, 32]
    else []
  }

  type Kind = k: nat | k < 0x100
  type Stamp = t: nat | t < 0x1_0000_0000

  const CONSOLE: Kind := 2
  const EVENT: Kind := 3
  const ROLLOVER: Kind := 7

  /** How entries are rendered: strftime's result for a time stamp is a parameter. */
  datatype Style = Style(isconsole: bool, date: Stamp -> Bytes, maxBytes: nat)

  /** One index record, 16 bytes in the file. */
  datatype Rec = Rec(ltype: Kind, offset: nat, len: nat, tstamp: Stamp, evt: Kind, aux: Kind)

  /** A text file and its index. */
  datatype Gen = Gen(text: Bytes, index: seq<Rec>)

  /** What the clock and the file names give one turn of the loop: whether rolling over by
      time is due, and the JSON text that names the file rolled away. */
  datatype Tick = Tick(due: bool, note: Bytes)

  /** An entry, and how many times in a row the deque holds it. Each of them is the same
      list, so what is done to the data of one is done to all. */
  datatype Item = Item(ltype: Kind, tstamp: Stamp, data: Bytes, evt: Kind, aux: Option<Kind>, copies: nat)

  datatype Book = Book(queue: seq<Item>, current: Gen, closed: seq<Gen>)

  // ----- files -----

  /** textdate */
  function Prefix(style: Style, ltype: Kind, tstamp: Stamp, evt: Kind): Bytes {
    if style.isconsole && ltype == CONSOLE then []
    else style.date(tstamp) + if style.isconsole && ltype == EVENT then EventText(evt) else []
  }

  /** What follows the payload: a closing bracket, or a line end where there is none. */
  function Suffix(style: Style, ltype: Kind, before: Bytes): Bytes {
    if style.isconsole then (if ltype == CONSOLE then [] else [93])
    else if before != [] && before[|before| - 1] == 10 then [] else [10]
  }

  function Rendered(style: Style, ltype: Kind, tstamp: Stamp, evt: Kind, data: Bytes): (r: Bytes)
    ensures |r| >= |data|
  {
    var before := Prefix(style, ltype, tstamp, evt) + data;
    before + Suffix(style, ltype, before)
  }

  /** The records whose payload is accounted for under this kind. The event that the rollover
      itself writes is nobody's payload. */
  predicate Counts(kind: Kind, ltype: Kind, evt: Kind) {
    ltype == kind && !(ltype == EVENT && evt == ROLLOVER)
  }

  function Ascii(s: string): (r: Bytes)
    requires forall i :: 0 <= i < |s| ==> s[i] as int < 128
  {
    seq(|s|, i requires 0 <= i < |s| => s[i] as int as Byte)
  }

  lemma EventWords()
    ensures EventText(2) == Ascii("connection by ") && EventText(3) == Ascii("disconnection by ")
    ensures forall evt: Kind :: evt != 2 && evt != 3 ==> EventText(evt) == []
    ensures Ascii("]") == [93]
  {
  }

  /** How the text reads: a console log holds console data as it came, and each other message
      in brackets after its date; any other log holds a line for each message. */
  lemma RecordReads(style: Style, ltype: Kind, tstamp: Stamp, evt: Kind, data: Bytes)
    ensures var r, date := Rendered(style, ltype, tstamp, evt, data), style.date(tstamp);
      && (style.isconsole && ltype == 2 ==> r == data)
      && (style.isconsole && ltype != 2 ==>
            r == date + (if ltype == 3 && evt == 2 then Ascii("connection by ")
                         else if ltype == 3 && evt == 3 then Ascii("disconnection by ") else []) + data + Ascii("]"))
      && (!style.isconsole ==> r != [] && r[|r| - 1] == 10 && (r == date + data || r == date + data + [10]))
  {
    EventWords();
    hide EventText;
    assert [] + data + [] == data;
  }

  predicate RecFits(text: Bytes, rec: Rec) { rec.offset + rec.len <= |text| }

  ghost predicate Sound(gen: Gen) {
    forall i :: 0 <= i < |gen.index| ==> RecFits(gen.text, gen.index[i])
  }

  /** The slices of one kind of record, one after another. */
  function Slices(kind: Kind, text: Bytes, index: seq<Rec>): Bytes
    requires forall i :: 0 <= i < |index| ==> RecFits(text, index[i])
  {
    if index == [] then []
    else
      var rec := index[|index| - 1];
      assert RecFits(text, rec);
      Slices(kind, text, index[..|index| - 1])
      + if Counts(kind, rec.ltype, rec.evt) then text[rec.offset..rec.offset + rec.len] else []
  }

  function Payload(kind: Kind, gens: seq<Gen>): Bytes
    requires forall i :: 0 <= i < |gens| ==> Sound(gens[i])
  {
    if gens == [] then []
    else
      var gen := gens[|gens| - 1];
      assert Sound(gens[|gens| - 1]);
      Payload(kind, gens[..|gens| - 1]) + Slices(kind, gen.text, gen.index)
  }

  /** Text added at the end moves no slice. */
  lemma {:induction false} SlicesStay(kind: Kind, text: Bytes, more: Bytes, index: seq<Rec>)
    requires forall i :: 0 <= i < |index| ==> RecFits(text, index[i])
    ensures forall i :: 0 <= i < |index| ==> RecFits(text + more, index[i])
    ensures Slices(kind, text + more, index) == Slices(kind, text, index)
  {
    if index != [] {
      SlicesStay(kind, text, more, index[..|index| - 1]);
      var rec := index[|index| - 1];
      assert (text + more)[rec.offset..rec.offset + rec.len] == text[rec.offset..rec.offset + rec.len];
    }
  }

  lemma MiddleSlice(a: Bytes, b: Bytes, c: Bytes)
    ensures (a + b + c)[|a|..|a| + |b|] == b
  {
  }

  /** The record's offset and length cut its own payload out of the text, and nothing that
      was written before is read differently. */
  lemma EmitAddsPayload(kind: Kind, gen: Gen, style: Style, rec: Rec, data: Bytes)
    requires Sound(gen)
    requires rec.offset == |gen.text| + |Prefix(style, rec.ltype, rec.tstamp, rec.evt)| && rec.len == |data|
    ensures var gen' := Gen(gen.text + Rendered(style, rec.ltype, rec.tstamp, rec.evt, data), gen.index + [rec]);
      && Sound(gen')
      && gen'.text[rec.offset..rec.offset + rec.len] == data
      && Slices(kind, gen'.text, gen'.index)
         == Slices(kind, gen.text, gen.index) + if Counts(kind, rec.ltype, rec.evt) then data else []
  {
    hide Prefix, Suffix;
    var record := Rendered(style, rec.ltype, rec.tstamp, rec.evt, data);
    var prefix := Prefix(style, rec.ltype, rec.tstamp, rec.evt);
    SlicesStay(kind, gen.text, record, gen.index);
    var suffix := Suffix(style, rec.ltype, prefix + data);
    assert gen.text + record == (gen.text + prefix) + data + suffix;
    MiddleSlice(gen.text + prefix, data, suffix);
    assert (gen.index + [rec])[..|gen.index|] == gen.index;
  }

  // ----- one turn -----

  function FirstPiece(data: Bytes): Bytes {
    if |data| > 65535 then data[..65535] else data
  }

  /** What is left of an entry's data once it has been split as often as it takes. */
  function LastPiece(data: Bytes): (r: Bytes)
    ensures |r| <= 65535
    decreases |data|
  {
    if |data| <= 65535 then data else LastPiece(data[65535..])
  }

  predicate Of(kind: Kind, e: Item) { Counts(kind, e.ltype, e.evt) }

  predicate Long(e: Item) { |e.data| > 65535 }

  /** What is left of a long entry when its first piece is taken. */
  function Chopped(e: Item): Item
    requires Long(e)
  {
    e.(data := e.data[65535..])
  }

  function RecordText(style: Style, e: Item): Bytes {
    Rendered(style, e.ltype, e.tstamp, e.evt, FirstPiece(e.data))
  }

  function OffsetIn(style: Style, gen: Gen, e: Item): nat {
    |gen.text| + |Prefix(style, e.ltype, e.tstamp, e.evt)|
  }

  /** Without event data the last field is 0. */
  function RecOf(e: Item, offset: nat): Rec {
    Rec(e.ltype, offset, |FirstPiece(e.data)|, e.tstamp, e.evt, match e.aux case Some(a) => a case None => 0)
  }

  /** handler.emit: the record goes to the end of both files. */
  function Emitted(style: Style, gen: Gen, e: Item): Gen {
    Gen(gen.text + RecordText(style, e), gen.index + [RecOf(e, OffsetIn(style, gen, e))])
  }

  /** Whether the files roll over for the entry: shouldRollover, or an offset that no longer
      fits in the record's four bytes. */
  predicate Rolls(style: Style, gen: Gen, e: Item, due: bool) {
    || OffsetIn(style, gen, e) >= 0x1_0000_0000 || due
    || (style.maxBytes > 0
        && (|gen.text| + |RecordText(style, e)| >= style.maxBytes || 16 * |gen.index| + 16 >= style.maxBytes))
  }

  /** The rollover event that is logged first in new files. */
  function NoteItem(tstamp: Stamp, note: Bytes): Item {
    Item(EVENT, tstamp, note, ROLLOVER, None, 1)
  }

  /** The queue once the head is written. */
  function QueueAfter(queue: seq<Item>): seq<Item>
    requires queue != []
  {
    var e := queue[0];
    if Long(e) then [Chopped(e)] + queue[1..]
    else if e.copies > 1 then [e.(copies := e.copies - 1)] + queue[1..]
    else queue[1..]
  }

  /** The queue once the files have rolled over for the head. A long entry has been put back
      already when it is put back again. */
  function QueueBack(queue: seq<Item>, note: Bytes): seq<Item>
    requires queue != []
  {
    var e := queue[0];
    [NoteItem(e.tstamp, note)]
    + if Long(e) then [Chopped(e).(copies := e.copies + 1)] + queue[1..] else queue
  }

  /** One turn of writedata's loop, lines 571-634. */
  function Step(style: Style, b: Book, tick: Tick): Book
    requires b.queue != []
  {
    if Rolls(style, b.current, b.queue[0], tick.due) then
      Book(QueueBack(b.queue, tick.note), Gen([], []), b.closed + [b.current])
    else
      Book(QueueAfter(b.queue), Emitted(style, b.current, b.queue[0]), b.closed)
  }

  /** writedata: turn after turn until the queue is empty, or time is up. */
  function Run(style: Style, b: Book, ticks: seq<Tick>): Book {
    if ticks == [] then b
    else
      var u := Run(style, b, ticks[..|ticks| - 1]);
      if u.queue == [] then u else Step(style, u, ticks[|ticks| - 1])
  }

  ghost predicate Valid(b: Book) {
    && (forall i :: 0 <= i < |b.queue| ==> b.queue[i].copies >= 1)
    && Sound(b.current) && forall i :: 0 <= i < |b.closed| ==> Sound(b.closed[i])
  }

  lemma NewIsSound()
    ensures Sound(Gen([], []))
  {
  }

  lemma EmittedIsSound(style: Style, gen: Gen, e: Item)
    requires Sound(gen)
    ensures Sound(Emitted(style, gen, e))
  {
    hide Prefix, Rendered, Suffix;
    EmitAddsPayload(e.ltype, gen, style, RecOf(e, OffsetIn(style, gen, e)), FirstPiece(e.data));
  }

  lemma StepKeepsValid(style: Style, b: Book, tick: Tick)
    requires Valid(b) && b.queue != []
    ensures Valid(Step(style, b, tick))
  {
    hide Rolls, Sound, RecordText, Prefix;
    if !Rolls(style, b.current, b.queue[0], tick.due) {
      EmittedIsSound(style, b.current, b.queue[0]);
    }
    assert Sound(Gen([], [])) by { NewIsSound(); }
  }

  // ----- payload is neither lost nor written twice -----

  function Copies(data: Bytes, n: nat): Bytes {
    if n == 0 then [] else data + Copies(data, n - 1)
  }

  /** What an entry will write: its data once, and after that only its last piece is left. */
  function PendingOf(kind: Kind, e: Item): Bytes
    requires e.copies >= 1
  {
    if Of(kind, e) then e.data + Copies(LastPiece(e.data), e.copies - 1) else []
  }

  function Pending(kind: Kind, queue: seq<Item>): Bytes
    requires forall i :: 0 <= i < |queue| ==> queue[i].copies >= 1
  {
    if queue == [] then [] else PendingOf(kind, queue[0]) + Pending(kind, queue[1..])
  }

  function Written(kind: Kind, b: Book): Bytes
    requires Valid(b)
  {
    Payload(kind, b.closed + [b.current])
  }

  /** All payload of one kind: what is in the files and what is still queued. */
  function Account(kind: Kind, b: Book): Bytes
    requires Valid(b)
  {
    Written(kind, b) + Pending(kind, b.queue)
  }

  lemma {:induction false} LastPieceIs(data: Bytes)
    requires data != []
    ensures |LastPiece(data)| == (|data| - 1) % 65535 + 1
    ensures LastPiece(data) == data[|data| - |LastPiece(data)|..]
    decreases |data|
  {
    if |data| > 65535 {
      LastPieceIs(data[65535..]);
    }
  }

  /** One piece of 65535 bytes over and over. */
  predicate Repeats(data: Bytes) {
    |data| % 65535 == 0 && forall i :: 65535 <= i < |data| ==> data[i] == data[i - 65535]
  }

  lemma InFirst(a: Bytes, b: Bytes, i: nat)
    requires i < |a|
    ensures (a + b)[i] == a[i]
  {
  }

  lemma ShiftRepeats(data: Bytes, last: Bytes)
    requires |data| > 65535 && data == data[65535..] + last
    requires |last| == (|data| - 1) % 65535 + 1
    ensures Repeats(data)
  {
    assert |last| == 65535;
    forall i | 65535 <= i < |data|
      ensures data[i] == data[i - 65535]
    {
      InFirst(data[65535..], last, i - 65535);
    }
  }

  lemma RepeatShifts(data: Bytes, last: Bytes)
    requires |data| > 65535 && Repeats(data)
    requires |last| == (|data| - 1) % 65535 + 1 && last == data[|data| - |last|..]
    ensures data == data[65535..] + last
  {
    var n := |data| - 65535;
    assert |last| == 65535;
    assert data[..n] == data[65535..] by {
      forall i | 0 <= i < n
        ensures data[..n][i] == data[65535..][i]
      {
        assert data[i + 65535] == data[i];
      }
    }
    assert data == data[..n] + data[n..];
  }

  /** When writing the rest and its last piece is as good as writing all of the data. */
  lemma RepeatsExactly(data: Bytes)
    requires |data| > 65535
    ensures data == data[65535..] + LastPiece(data) <==> Repeats(data)
  {
    hide LastPiece, Repeats;
    var last := LastPiece(data);
    LastPieceIs(data);
    if data == data[65535..] + last {
      ShiftRepeats(data, last);
    }
    if Repeats(data) {
      RepeatShifts(data, last);
    }
  }

  lemma Cancel(a: Bytes, x: Bytes, y: Bytes, b: Bytes)
    ensures a + (x + b) == a + (y + b) <==> x == y
  {
    if a + (x + b) == a + (y + b) {
      assert x + b == (a + (x + b))[|a|..] == (a + (y + b))[|a|..] == y + b;
      assert x == (x + b)[..|x + b| - |b|];
      assert y == (y + b)[..|y + b| - |b|];
    }
  }

  lemma CutAnywhere(data: Bytes, k: nat, tail: Bytes)
    requires k <= |data|
    ensures data + tail == data[..k] + (data[k..] + tail)
  {
  }

  lemma LastOfRest(data: Bytes)
    ensures |data| > 65535 ==> LastPiece(data[65535..]) == LastPiece(data)
    ensures |data| <= 65535 ==> LastPiece(data) == data
  {
  }

  lemma PayloadSnoc(kind: Kind, gens: seq<Gen>, gen: Gen)
    requires Sound(gen) && forall i :: 0 <= i < |gens| ==> Sound(gens[i])
    ensures Payload(kind, gens + [gen]) == Payload(kind, gens) + Slices(kind, gen.text, gen.index)
  {
    hide Sound;
    assert (gens + [gen])[..|gens|] == gens;
  }

  lemma PendingCons(kind: Kind, e: Item, rest: seq<Item>)
    requires e.copies >= 1 && forall i :: 0 <= i < |rest| ==> rest[i].copies >= 1
    ensures Pending(kind, [e] + rest) == PendingOf(kind, e) + Pending(kind, rest)
  {
    assert ([e] + rest)[1..] == rest;
  }

  lemma CopiesStep(data: Bytes, n: nat)
    requires n > 0
    ensures Copies(data, n) == data + Copies(data, n - 1)
  {
  }

  lemma NoCopies(data: Bytes)
    ensures Copies(data, 0) == []
  {
  }

  lemma WritingHead(kind: Kind, e: Item)
    requires e.copies >= 1
    ensures PendingOf(kind, e)
         == (if Of(kind, e) then FirstPiece(e.data) else [])
            + if Long(e) then PendingOf(kind, Chopped(e))
              else if e.copies > 1 then PendingOf(kind, e.(copies := e.copies - 1))
              else []
  {
    hide LastPiece, Copies;
    LastOfRest(e.data);
    if Long(e) {
      CutAnywhere(e.data, 65535, Copies(LastPiece(e.data), e.copies - 1));
    } else if e.copies > 1 {
      CopiesStep(e.data, e.copies - 1);
    } else {
      NoCopies(LastPiece(e.data));
    }
  }

  /** Writing the head: the payload of its record is what the queue no longer has. */
  lemma WritingMoves(kind: Kind, queue: seq<Item>)
    requires queue != [] && forall i :: 0 <= i < |queue| ==> queue[i].copies >= 1
    ensures forall i :: 0 <= i < |QueueAfter(queue)| ==> QueueAfter(queue)[i].copies >= 1
    ensures Pending(kind, queue)
         == (if Of(kind, queue[0]) then FirstPiece(queue[0].data) else []) + Pending(kind, QueueAfter(queue))
  {
    hide Pending, PendingOf;
    var e, rest := queue[0], queue[1..];
    assert queue == [e] + rest;
    PendingCons(kind, e, rest);
    WritingHead(kind, e);
    if Long(e) {
      PendingCons(kind, Chopped(e), rest);
    } else if e.copies > 1 {
      PendingCons(kind, e.(copies := e.copies - 1), rest);
    }
  }

  lemma OtherKind(kind: Kind, e: Item)
    requires e.copies >= 1 && !Of(kind, e)
    ensures PendingOf(kind, e) == []
  {
  }

  /** A long entry put back twice: its rest and its last piece instead of all its data. */
  lemma DoublingHead(kind: Kind, e: Item)
    requires e.copies >= 1 && Long(e)
    ensures PendingOf(kind, Chopped(e).(copies := e.copies + 1)) == PendingOf(kind, e)
       <==> !Of(kind, e) || Repeats(e.data)
  {
    hide LastPiece, Copies, Repeats;
    var last := LastPiece(e.data);
    LastOfRest(e.data);
    RepeatsExactly(e.data);
    CopiesStep(last, e.copies);
    var rest, more := e.data[65535..], Copies(last, e.copies - 1);
    CutAnywhere(rest + last, |rest|, more);
    assert rest + (last + more) == rest + last + more;
    Cancel([], rest + last, e.data, more);
    assert [] + (rest + last + more) == rest + last + more && [] + (e.data + more) == e.data + more;
  }

  /** Putting the head back: the same payload, but for a long entry. */
  lemma PuttingBack(kind: Kind, queue: seq<Item>, note: Bytes, w: Bytes)
    requires queue != [] && forall i :: 0 <= i < |queue| ==> queue[i].copies >= 1
    ensures forall i :: 0 <= i < |QueueBack(queue, note)| ==> QueueBack(queue, note)[i].copies >= 1
    ensures w + Pending(kind, QueueBack(queue, note)) == w + Pending(kind, queue)
       <==> !Long(queue[0]) || !Of(kind, queue[0]) || Repeats(queue[0].data)
  {
    hide Repeats, Pending;
    var e, rest := queue[0], queue[1..];
    assert queue == [e] + rest;
    PendingCons(kind, e, rest);
    var back := if Long(e) then [Chopped(e).(copies := e.copies + 1)] + rest else queue;
    PendingCons(kind, NoteItem(e.tstamp, note), back);
    hide PendingOf;
    assert PendingOf(kind, NoteItem(e.tstamp, note)) == [] by { OtherKind(kind, NoteItem(e.tstamp, note)); }
    if Long(e) {
      var twice := Chopped(e).(copies := e.copies + 1);
      PendingCons(kind, twice, rest);
      DoublingHead(kind, e);
      Cancel(w, PendingOf(kind, twice), PendingOf(kind, e), Pending(kind, rest));
    }
  }

  lemma EmittingWrites(style: Style, kind: Kind, b: Book, e: Item)
    requires Valid(b)
    ensures Sound(Emitted(style, b.current, e))
    ensures Payload(kind, b.closed + [Emitted(style, b.current, e)])
         == Payload(kind, b.closed + [b.current]) + if Of(kind, e) then FirstPiece(e.data) else []
  {
    hide Prefix, Rendered, Suffix, Sound, Slices, Payload, FirstPiece;
    EmittedIsSound(style, b.current, e);
    EmitAddsPayload(kind, b.current, style, RecOf(e, OffsetIn(style, b.current, e)), FirstPiece(e.data));
    PayloadSnoc(kind, b.closed, b.current);
    PayloadSnoc(kind, b.closed, Emitted(style, b.current, e));
  }

  lemma RollingWritesNothing(kind: Kind, b: Book)
    requires Valid(b)
    ensures Sound(Gen([], []))
    ensures forall i :: 0 <= i < |b.closed + [b.current]| ==> Sound((b.closed + [b.current])[i])
    ensures Payload(kind, b.closed + [b.current] + [Gen([], [])]) == Payload(kind, b.closed + [b.current])
  {
    hide Payload;
    PayloadSnoc(kind, b.closed + [b.current], Gen([], []));
  }

  /** The files roll over for an entry that is being split. */
  predicate SplitRolls(style: Style, b: Book, tick: Tick)
    requires b.queue != []
  {
    Long(b.queue[0]) && Rolls(style, b.current, b.queue[0], tick.due)
  }

  /** One turn, for every state: payload is kept if and only if the files do not roll over
      for an entry that is being split, repeated pieces aside. */
  lemma TurnKeepsAccount(style: Style, kind: Kind, b: Book, tick: Tick)
    requires Valid(b) && b.queue != []
    ensures Valid(Step(style, b, tick))
    ensures Account(kind, Step(style, b, tick)) == Account(kind, b)
       <==> !SplitRolls(style, b, tick) || !Of(kind, b.queue[0]) || Repeats(b.queue[0].data)
  {
    StepKeepsValid(style, b, tick);
    hide Sound, Payload, Pending, Rolls, Emitted, Repeats;
    var e := b.queue[0];
    if Rolls(style, b.current, e, tick.due) {
      RollingWritesNothing(kind, b);
      PuttingBack(kind, b.queue, tick.note, Written(kind, b));
    } else {
      EmittingWrites(style, kind, b, e);
      WritingMoves(kind, b.queue);
    }
  }

  predicate SpoilsAt(style: Style, b: Book, ticks: seq<Tick>, i: nat)
    requires i < |ticks|
  {
    var u := Run(style, b, ticks[..i]);
    u.queue != [] && SplitRolls(style, u, ticks[i])
  }

  /** Somewhere in the run the files roll over for an entry that is being split. */
  ghost predicate Spoils(style: Style, b: Book, ticks: seq<Tick>) {
    exists i :: 0 <= i < |ticks| && SpoilsAt(style, b, ticks, i)
  }

  lemma SpoilsFront(style: Style, b: Book, ticks: seq<Tick>)
    requires ticks != []
    ensures var front, last := ticks[..|ticks| - 1], ticks[|ticks| - 1];
      var u := Run(style, b, front);
      Spoils(style, b, ticks) <==> Spoils(style, b, front) || (u.queue != [] && SplitRolls(style, u, last))
  {
    hide Run, SplitRolls;
    var front := ticks[..|ticks| - 1];
    assert forall i :: 0 <= i <= |front| ==> ticks[..i] == front[..i];
    assert front[..|front|] == front;
    if i :| 0 <= i < |front| && SpoilsAt(style, b, front, i) {
      assert SpoilsAt(style, b, ticks, i);
    }
    if i :| 0 <= i < |ticks| && SpoilsAt(style, b, ticks, i) {
      assert i < |front| ==> SpoilsAt(style, b, front, i);
    }
    assert SpoilsAt(style, b, ticks, |front|) <==>
      var u := Run(style, b, front); u.queue != [] && SplitRolls(style, u, ticks[|front|]);
  }

  /** Over any number of turns nothing is lost, unless one of them spoils an entry. */
  lemma {:induction false} RunKeepsAccount(style: Style, kind: Kind, b: Book, ticks: seq<Tick>)
    requires Valid(b) && !Spoils(style, b, ticks)
    ensures Valid(Run(style, b, ticks)) && Account(kind, Run(style, b, ticks)) == Account(kind, b)
  {
    hide Step, Valid, Account, SplitRolls;
    if ticks != [] {
      var front, last := ticks[..|ticks| - 1], ticks[|ticks| - 1];
      var u := Run(style, b, front);
      SpoilsFront(style, b, ticks);
      RunKeepsAccount(style, kind, b, front);
      if u.queue != [] {
        TurnKeepsAccount(style, kind, u, last);
      }
    }
  }
}

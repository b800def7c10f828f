# Verified models of confluent's stateful cores

This project models the parts of confluent whose correctness is hardest to see from the code,
and proves what they are for. Each part is a Dafny model of one source file, statement by
statement where the source changes state, next to an independent statement of what it should do.

**The terminal emulator** (`confluent_vtbufferd/tmt.c`). `Terminal` is the program: row objects
reached through an array of pointers that scrolling rotates, and methods that change the cursor,
the parser and the cells in place. `TerminalModel` says what each method does to a plain grid of
rows; the two are tied together method by method.
On top of the grid: `TerminalRuns` (every run keeps the screen rectangular and the cursor on it,
and damage flags are sound through scrolls and resizes), `TerminalTape` (for plain text the
screen is a window on the end of an unbounded tape), `TerminalSequences` (decimal parameters that
are printed into an escape sequence are read back by the parameter machine), `TerminalEffects` (what
each escape sequence does, cell by cell, from the bytes that are sent) and `TerminalRenditions` (what
the codes of SGR mean, by ECMA-48).

**The screen dumper** (`confluent_vtbufferd/vtbufferd.c`, `dump_vt`). `ScreenDump` holds a reader of
ECMA-48 control sequences (sections 5.4 and 8.3.117) and shows what it sees of a dump.

**Streaming SHA-256** (`confluent_osdeploy/utils/sha-256.c`). `Fips180` is FIPS 180-4 over whole
messages; `Sha256Stream` is the buffered stream with its circular 16-word schedule, and
`ShaConstants` derives the constants from the prime numbers.

**Node ranges** (`confluent_server/confluent/noderange.py`). `Bracketer` is the run-length printer,
`BracketModel` its states over tuples of numbers, and `NodeRange` the expander.
`BracketRoundTrip` proves that expanding gives back the names, each in one token and in order,
`BracketLoss` and `BracketExact` that the condition for it is exact, `BracketCompact` how short the
result is, and `ReverseNodeRange` covers a set of nodes with groups and bracketed names.

**The logger** (`confluent_server/confluent/log.py`). `ConsoleLog` is the program: a deque that can
hold one entry object several times, files that grow and roll over. `LogModel` says what a turn of
the loop does to the queue as a value. `LogLoss` proves exactly when payload is kept over any number
of turns, `LogRuns` when an entry leaves the queue and when the queue drains, `LogSessions` that
ordinary use of log and writedata loses nothing, and `LogRecords` that the index reads back as the
messages that were logged.

**The worker queue** (`confluent_server/confluent/core.py`), **URL failover**
(`confluent_osdeploy/utils/urlmount.c`) and **framing** (`confluent_client/confluent/tlvdata.py`) are
modules `WorkerQueue`, `UrlMount` and `Tlv`. Where threads interleave, each locked or atomic section
is one step of a state machine, and the results hold for every order of the steps.

## What the proofs found

Code and intent differ in these places. The model follows the code; each has a lemma.

- `dump_vt` looks for ink only in the columns from 1 on (vtbufferd.c:91), so a row whose only
  character is in column 0 can be missing from the dump. `ScreenDump.BoxHoldsAllInk` gives the exact
  condition and `ScreenDump.FirstColumnIsMissed` a screen.
- A padding clash in the second pass of `Bracketer.extend` (noderange.py:124-131) leaves the fields
  to the left unset. r1u9 and r1u010 are abbreviated to r1u9 alone
  (`BracketCorollaries.PaddedPairIsLost`). `BracketExact.RoundTripExactly` says, for every list in
  order, exactly when its names are printed in their order without loss or addition, and
  `BracketLoss.RoundTripExactly` the same of a list in strictly growing order without asking for
  the order. Among names that are equal up to padding a lost name can come back further on, out of
  its order (`BracketTies.LostNameComesBack`).
- When a name differs from the one before it in two numbers, the later of them stays noted as the
  one that grows, so a next name that differs in the first of them alone is not joined to it: r1u1,
  r2u2, r3u2 become three tokens, though r2u2 and r3u2 alone are one (noderange.py:107-114,
  `BracketCompact.MergeIsMissed`).
- An entry over 65535 bytes whose first piece makes the log roll over is put back twice without
  that piece, because lines 581-582 of log.py change and requeue the very list that line 631
  requeues: 65535 bytes are lost and the last piece is written twice. `LogModel.TurnKeepsAccount`
  gives the exact condition for one turn and `LogLoss.RunKeepsAccountExactly` for any number;
  `LogRuns.SplitEntryIsLost` shows 65536 bytes of which two are written, both the last one.
  When no second brings more than 65535 bytes of console data and no other message is longer,
  nothing is lost (`LogSessions.ModerateKeepsAll`).
- `max_bytes` may be set as low as 8192, but an entry of at least `max_bytes` bytes, up to 65535, is
  rolled over for again and again and never leaves the queue (`LogRuns.TooLongStays`), and so does
  one of 8191 bytes, which fits in empty files but not after the rollover event
  (`LogRuns.JustBelowTheLimit`). `LogRuns.HeadLeavesExactly` and `LogRuns.QueueDrainsExactly` give the
  exact conditions.
- After a switch to a preferred URL, urlmount.c reports that all connections are down before it
  has tried them all, as `UrlMount.AllDownIsReported` says; `UrlMount.ReportedTooEarly` is a run with
  two URLs of which one is never tried.
- ESC c does not reset the terminal from within a character-set sequence, nor after ESC *, ESC + or
  ESC ). `TerminalSequences.ResetIsReadExactly` gives the condition for every state and
  `TerminalSequences.ResetIsMissedAfterOpening` a terminal. Two of them always reset it
  (`TerminalSequences.SecondResetWorks`).
- The cursor-up sequence past the top of the screen sends the cursor to the last row, because the
  subtraction wraps (tmt.c:296): `TerminalSequences.CursorUpLands`.
- A byte that does not decode costs the one after it: tmt.c:479-487 drops the byte that is at hand
  when the pending one turns out to be bad (`TerminalEffects.ByteAfterBadIsLost`).
- ESC ), ESC * and ESC + take what follows for parameters and swallow it up to the first byte that
  could end a control sequence, so of ESC ) 0 Hello the terminal shows ello
  (`TerminalEffects.DesignationSwallows`). A sequence that ends in a byte it does not know shows
  that byte as text (`TerminalEffects.UnknownFinalIsText`).
- A reset leaves line drawing on, and the bytes of an unfinished character waiting
  (`TerminalEffects.ResetClears`).
- Where ECMA-48 has 22 turn off bold and dim, tmt.c turns off only bold with it, and dim with 23
  (tmt.c:217-218, `TerminalRenditions.GraphicsAreRead`).
- Erasing to the cursor spares the last column in EL, and in ED the row above the cursor, or clears
  the whole screen from the first row (`TerminalEffects.LineIsErased`, `DisplayIsErased`); inserting
  characters blanks up to a column, not a count (`CellsAreInserted`).
- A frame of length 0 reads like the end of the stream (`Tlv.Receive`); `send` never writes one.

## Model

| member | source | states |
|---|---|---|
| `Terminal.RotatePointers` | confluent_vtbufferd/tmt.c:136-140 | the two memcpys and the memmove of scrup leave the pointer array as its old contents with the n pointers from r on moved to the end |
| `Terminal.RotatePointersBack` | confluent_vtbufferd/tmt.c:155-159 | those of scrdn bring the last n pointers to r and move the others down |
| `Terminal.RotationHeld` | confluent_vtbufferd/tmt.c:128-145 | the rotated pointers are still pairwise distinct rows, the same set of objects, and hold the rotated grid |
| `Terminal.Tmt.ScrUp` | confluent_vtbufferd/tmt.c:128-145 | scrolling through recycled row objects is deleting rows r to r+n-1 of the grid and adding blank rows at the bottom, n capped at nline-1-r |
| `Terminal.Tmt.ScrDn` | confluent_vtbufferd/tmt.c:147-164 | the same for inserting blank rows at r and dropping the bottom ones |
| `Terminal.ScrollUpSteps` | confluent_vtbufferd/tmt.c:131-144 | rotate, clear the recycled rows, mark from r on: together the delete-and-insert of the grid |
| `Terminal.ScrollDownSteps` | confluent_vtbufferd/tmt.c:150-163 | the same for scrdn |
| `Terminal.Tmt.ClearLines` | confluent_vtbufferd/tmt.c:121-126 | exactly the rows from r, n of them as far as the screen reaches, become blank and marked |
| `Terminal.Tmt.Dch` | confluent_vtbufferd/tmt.c:190-203 | the row under the cursor loses min(P1, ncol-c) cells at c and gains as many blanks at its end; no other row changes |
| `Terminal.Tmt.Ich` | confluent_vtbufferd/tmt.c:180-188 | ich as coded: the shift spares the last column and blanking stops at column n |
| `Terminal.Tmt.Ed` | confluent_vtbufferd/tmt.c:166-178 | ed as coded, with the wrap of r-1 at row 0 |
| `Terminal.Tmt.Sgr` | confluent_vtbufferd/tmt.c:213-234 | attributes and alternate character set after all stored parameters, in order |
| `Terminal.Tmt.WriteCharAtCurs` | confluent_vtbufferd/tmt.c:420-446 | the cell under the cursor alone changes, the cursor wraps, and the screen scrolls one row past the last |
| `Terminal.Tmt.Rep` | confluent_vtbufferd/tmt.c:236-241 | the character left of the cursor written P1 times, each as if it came from the stream |
| `Terminal.Tmt.TabForward` | confluent_vtbufferd/tmt.c:277-277 | the first stop right of the cursor, or the last column |
| `Terminal.Tmt.CursorTarget` | confluent_vtbufferd/tmt.c:296-304 | the target of each cursor motion in size_t arithmetic, wrapping included |
| `Terminal.Tmt.HandleChar` | confluent_vtbufferd/tmt.c:265-328 | one byte through the parser: taken exactly when its state has a test for it, NUL bytes included, and then the state machine's step; otherwise the parser is reset |
| `Terminal.Tmt.WriteText` | confluent_vtbufferd/tmt.c:471-488 | the branches after handlechar: alternate set, line drawing, full buffer, and the decoder |
| `Terminal.Tmt.TmtWrite` | confluent_vtbufferd/tmt.c:464-491 | a call with any bytes is the bytes fed one after another to the model, from any valid terminal |
| `Terminal.Tmt.TmtClean` | confluent_vtbufferd/tmt.c:505-510 | all flags off, cells untouched |
| `Terminal.Tmt.TmtReset` | confluent_vtbufferd/tmt.c:512-522 | the reset state, whatever the parser was in |
| `Terminal.Tmt.TmtResize` | confluent_vtbufferd/tmt.c:383-418 | false and unchanged below 2 by 2; otherwise kept row objects and new ones hold the resized grid |
| `Terminal.Tmt.AllocTabs` | confluent_vtbufferd/tmt.c:408-412 | stops at every eighth column and the last |
| `Terminal.Tmt.Open` | confluent_vtbufferd/tmt.c:357-373 | a blank terminal of the given size, every row marked |
| `Terminal.LookUpAcs` | confluent_vtbufferd/tmt.c:88-101 | the glyph of the first table entry equal to the byte, or the byte |
| `TerminalModel.Feed` | confluent_vtbufferd/tmt.c:265-328 | any byte keeps the screen invariant: rectangular grid, cursor on it, counters in bounds, nothing left over in the ground state |
| `TerminalRuns.ReachableIsSafe` | confluent_vtbufferd/tmt.c:249-328 | over every run of writes, resizes, cleans and resets the invariant holds, spelled out: row widths, cursor, npar <= 8, nmb <= 100, cleared parameters in the ground state |
| `TerminalRuns.WriteMarks` | confluent_vtbufferd/tmt.c:464-491 | after any bytes every row without its flag is the old row in the old place |
| `TerminalRuns.DamageIsSound` | confluent_vtbufferd/tmt.c:103-164 | over every run, a row whose cells differ from what its position showed at the last tmt_clean carries its dirty flag, and no row does unless the screen's flag is on |
| `TerminalRuns.CleanClears` | confluent_vtbufferd/tmt.c:505-510 | tmt_clean takes every mark off and changes nothing else |
| `TerminalRuns.QuietScreenUnchanged` | confluent_vtbufferd/tmt.c:505-510 | with vt->dirty off the whole screen is as it was at the last tmt_clean |
| `TerminalRuns.ResizeKeepsTopLeft` | confluent_vtbufferd/tmt.c:383-418 | after a resize every cell is the old one inside the common rectangle and blank outside, the cursor is clipped and the invariant holds |
| `TerminalRuns.ScrollBack` | confluent_vtbufferd/tmt.c:128-164 | inserting lines where as many were deleted brings back every row that was moved and leaves just those lines blank |
| `TerminalTape.NextDefaultTab` | confluent_vtbufferd/tmt.c:277-277 | with the default stops the tab loop goes to the next multiple of 8, or the last column |
| `TerminalTape.PutCells` | confluent_vtbufferd/tmt.c:420-446 | what a character does to the cells, scroll included |
| `TerminalTape.ByteKeepsShowing` | confluent_vtbufferd/tmt.c:275-279 | one printable, BS, HT, LF or CR byte moves screen and tape in step, whatever the tab stops |
| `TerminalTape.ScreenShowsTape` | confluent_vtbufferd/tmt.c:464-491 | for any plain text and any tab stops the screen stays the last nline rows of an unbounded tape and the cursor the tape's, less the rows scrolled off |
| `TerminalTape.OpenedShowsLastRows` | confluent_vtbufferd/tmt.c:357-373 | the same from a newly opened terminal |
| `TerminalTape.ResetShowsLastRows` | confluent_vtbufferd/tmt.c:512-522 | the same from a reset terminal with the tab stops it has kept |
| `TerminalTape.HistoryIsKept` | confluent_vtbufferd/tmt.c:128-145 | rows above the cursor are never changed by plain text |
| `TerminalTape.PrintingAppends` | confluent_vtbufferd/tmt.c:435-445 | printable text appends to what is before the cursor across any number of row ends: nothing lost, reordered or overwritten |
| `TerminalSequences.DecimalIsRead` | confluent_vtbufferd/tmt.c:295-295 | the digits of n, printed in decimal, accumulate to n in the argument, for every size_t |
| `TerminalSequences.ParamsAreRead` | confluent_vtbufferd/tmt.c:254-258 | parameters printed with semicolons are stored in order, the first eight of any number |
| `TerminalSequences.SequenceDelivers` | confluent_vtbufferd/tmt.c:265-328 | ESC [ parameters final, fed byte by byte from the ground state, performs its action once with those parameters and is back in the ground state |
| `TerminalSequences.CursorIsRestored` | confluent_vtbufferd/tmt.c:304-304 | the cursor sequence that dump_vt prints, fed to the parser, puts the cursor exactly there |
| `TerminalSequences.CursorPositionClips` | confluent_vtbufferd/tmt.c:260-263 | for any row and column numbers the cursor is clipped to the screen |
| `TerminalSequences.CursorUpLands` | confluent_vtbufferd/tmt.c:296-296 | where the cursor ends for every row count: that many rows up, and past the top the last row, or the wrapped one if it is still on screen |
| `TerminalSequences.CursorBackLands` | confluent_vtbufferd/tmt.c:299-299 | that many columns back, and past the left edge no move at all |
| `TerminalSequences.CursorDownLands` | confluent_vtbufferd/tmt.c:297-297 | where the cursor ends for every row count: that many rows down or the last row, and where the sum wraps to when it does not fit a size_t |
| `TerminalSequences.DownUndoesUp` | confluent_vtbufferd/tmt.c:296-297 | for every count: down undoes up if and only if there were that many rows above, or the cursor was on the last row and the sum did not wrap, or both wrapped |
| `TerminalSequences.ResetIsRead` | confluent_vtbufferd/tmt.c:285-290 | what the bytes of ESC c do in every state: a reset, a restarted parser while a sequence is ignored, or two characters of text within a character-set sequence |
| `TerminalSequences.ResetIsReadExactly` | confluent_vtbufferd/tmt.c:285-290 | for every state: the terminal is reset if and only if it was outside character-set sequences and no sequence was ignored, or there was nothing to reset: both cursors home, default attributes, and a blank screen with every row marked |
| `TerminalSequences.CharsetMissesReset` | confluent_vtbufferd/tmt.c:285-290 | from within a character-set sequence the result is never a reset terminal, whatever the locale |
| `TerminalSequences.ResetIsMissedAfterOpening` | confluent_vtbufferd/tmt.c:285-290 | a new terminal of any size that is sent ESC ( ESC c is not reset |
| `TerminalSequences.SecondResetWorks` | confluent_vtbufferd/tmt.c:289-289 | ESC c twice resets from every state |
| `TerminalRenditions.GraphicsAreRead` | confluent_vtbufferd/tmt.c:213-234 | ESC [ codes m for any codes: the first eight change the attributes as ECMA-48 has it, but that 22 leaves dim and 23 ends it, the last of 10 and 11 switches the alternate set, and nothing else changes |
| `TerminalRenditions.GraphicsFollowTheStandard` | confluent_vtbufferd/tmt.c:213-234 | without the codes 10, 11, 22 and 23 that is what the reader of the dump makes of the same codes |
| `TerminalEffects.CursorForwardLands` | confluent_vtbufferd/tmt.c:298-298 | CUF for every count: so many columns on, at most the last, and where the sum wraps to |
| `TerminalEffects.LineMotions` | confluent_vtbufferd/tmt.c:300-301 | CNL and CPL go where down and up go, in the first column |
| `TerminalEffects.AbsoluteMotions` | confluent_vtbufferd/tmt.c:302-304 | CHA and VPA go to a column and a row counted from 1, clipped, and HVP is CUP |
| `TerminalEffects.TabMotions` | confluent_vtbufferd/tmt.c:305-314 | CHT and CBT go to the first stop right and left of the cursor, whatever the stops, or to the edge |
| `TerminalEffects.CursorIsSaved` | confluent_vtbufferd/tmt.c:323-324 | CSI s keeps cursor and attributes, and CSI u brings back what was kept, clipped |
| `TerminalEffects.EscapesAre` | confluent_vtbufferd/tmt.c:282-290 | ESC 7 and 8 do the same, ESC M goes up one row and never scrolls, ESC H sets one tab stop |
| `TerminalEffects.LineIsErased` | confluent_vtbufferd/tmt.c:205-211 | EL for every parameter: which cells of the cursor's row are empty then, and that nothing else changes |
| `TerminalEffects.CharactersAreErased` | confluent_vtbufferd/tmt.c:313-313 | ECH empties n cells from the cursor on, and none if the end wraps |
| `TerminalEffects.DisplayIsErased` | confluent_vtbufferd/tmt.c:166-178 | ED for every parameter and cursor: which cells are empty then, and that nothing else changes |
| `TerminalEffects.LinesMoveDown` | confluent_vtbufferd/tmt.c:308-312 | IL and SD: each row from the cursor's or the first is where it was n rows up, and n rows there are empty |
| `TerminalEffects.LinesMoveUp` | confluent_vtbufferd/tmt.c:309-311 | DL and SU the other way |
| `TerminalEffects.CellsAreDeleted` | confluent_vtbufferd/tmt.c:190-203 | DCH: the cells right of the deleted ones close up, and as many empty ones follow |
| `TerminalEffects.CellsAreInserted` | confluent_vtbufferd/tmt.c:180-188 | ICH cell by cell, as it is coded |
| `TerminalEffects.TabsAreCleared` | confluent_vtbufferd/tmt.c:317-317 | TBC 3 clears every stop, any other TBC none |
| `TerminalEffects.ReportsChangeNothing` | confluent_vtbufferd/tmt.c:316-322 | DA, DSR, SM, RM and MC leave the terminal as it is |
| `TerminalEffects.LinesAreDrawn` | confluent_vtbufferd/tmt.c:80-86 | ESC ( 0 and ESC ( B switch line drawing, under which each printable byte is written as the glyph of the DEC special graphics |
| `TerminalEffects.AlternateSetIsUsed` | confluent_vtbufferd/tmt.c:88-101 | with the alternate set on, each byte is written as the glyph at its place among the terminfo codes, or as itself |
| `TerminalEffects.CharacterIsDecoded` | confluent_vtbufferd/tmt.c:448-488 | a character of any number of bytes up to 100 is written once, when its last byte comes, and the decoder's state is passed on |
| `TerminalEffects.ByteAfterBadIsLost` | confluent_vtbufferd/tmt.c:479-487 | after a byte that does not decode the next is swallowed, and the two show as one U+FFFD |
| `TerminalEffects.CharacterIsRepeated` | confluent_vtbufferd/tmt.c:236-241 | REP n is as if the character left of the cursor had been sent n times |
| `TerminalEffects.ResetClears` | confluent_vtbufferd/tmt.c:512-522 | all that a reset leaves: empty marked rows, cursor home, no attributes; size, tab stops, line drawing and pending bytes are kept |
| `TerminalEffects.OpenedIsClear` | confluent_vtbufferd/tmt.c:357-373 | all that a new terminal is, with stops at every eighth column and the last |
| `TerminalEffects.BytesTaken` | confluent_vtbufferd/tmt.c:275-325 | which bytes each state takes: those of its tests, and NUL |
| `TerminalEffects.UnknownFinalIsText` | confluent_vtbufferd/tmt.c:328-328 | a sequence that ends in a byte not known there is as if only that byte had been sent |
| `TerminalEffects.InsideParameters` | confluent_vtbufferd/tmt.c:292-294 | a question mark among parameters is skipped, and an escape or NUL byte begins another sequence that keeps them |
| `TerminalEffects.EscapeIsKept` | confluent_vtbufferd/tmt.c:281-281 | behind ESC another escape or NUL byte changes nothing |
| `TerminalEffects.BellChangesNothing` | confluent_vtbufferd/tmt.c:275-275 | BEL and NUL change nothing |
| `TerminalEffects.DesignationSwallows` | confluent_vtbufferd/tmt.c:285-285 | ESC ), ESC * and ESC + swallow digits and the first byte that could end a control sequence, and change nothing |
| `ScreenDump.NumberIsRead` | confluent_vtbufferd/vtbufferd.c:154-162 | a printed number at the end of a parameter string is read as that number |
| `ScreenDump.CodesChangeAttrs` | confluent_vtbufferd/vtbufferd.c:104-163 | the delta codes, read by ECMA-48, turn any attributes into any others, bold and dim through 22 included |
| `ScreenDump.SgrLine` | confluent_vtbufferd/vtbufferd.c:102-163 | the loop body builds a parameter string that reads as those codes and never exceeds 25 characters |
| `ScreenDump.CellIsRead` | confluent_vtbufferd/vtbufferd.c:164-172 | the sequence, the ESC [ ] that follows it and the character print one character with exactly its cell's attributes |
| `ScreenDump.FindExtent` | confluent_vtbufferd/vtbufferd.c:88-99 | the search finds the smallest box that holds all ink of the columns from 1 on |
| `ScreenDump.ExtentIsUnique` | confluent_vtbufferd/vtbufferd.c:88-99 | there is only one such box |
| `ScreenDump.BoxHoldsAllInk` | confluent_vtbufferd/vtbufferd.c:91-91 | the box holds all ink if and only if each row below the first that starts with ink has ink further right in it or in a later row |
| `ScreenDump.FirstColumnIsMissed` | confluent_vtbufferd/vtbufferd.c:91-91 | a new two-by-two terminal that is sent a line feed and one character: its only ink is not in the box |
| `ScreenDump.DumpVt` | confluent_vtbufferd/vtbufferd.c:70-181 | a reader of the dump sees the rows of the box, each printing character with its attributes, and the cursor position last; a cell that only does not print is skipped, and the rows above the first that holds an escape, CR or LF are seen whatever follows |
| `ScreenDump.TailIsRead` | confluent_vtbufferd/vtbufferd.c:178-178 | the trailing sequence gives the reader the cursor position |
| `Fips180.PadFillsBlocks` | confluent_osdeploy/utils/sha-256.c:208-228 | the padding of section 5.1.1 fills whole blocks with the least number of zeros |
| `Fips180.ParsingUndoesFlatten` | confluent_osdeploy/utils/sha-256.c:175-199 | cutting a message into blocks (section 5.2.1) gives back the blocks it was made of |
| `Fips180.RotrTurns` | confluent_osdeploy/utils/sha-256.c:50-59 | by each amount that is used, the two shifts turn the word and lose no bit |
| `Fips180.AddWraps` | confluent_osdeploy/utils/sha-256.c:124-128 | the sums are modulo 2^32 |
| `Fips180.WordOfBytes` | confluent_osdeploy/utils/sha-256.c:94-97 | the bytes of a word are read most significant first |
| `Fips180.BytesOfWord` | confluent_osdeploy/utils/sha-256.c:239-246 | and written so |
| `ShaConstants.ConstantsAreCubeRoots` | confluent_osdeploy/utils/sha-256.c:112-122 | the t-th round constant is the first 32 bits of the fraction of the cube root of the t-th prime number, for all 64 |
| `ShaConstants.InitialAreSquareRoots` | confluent_osdeploy/utils/sha-256.c:159-166 | the initial hash value is that of the square roots of the first eight |
| `Sha256Stream.NextScheduleWord` | confluent_osdeploy/utils/sha-256.c:92-104 | step 16i+j leaves W of section 6.2.2 in slot j, and every slot holds the latest word of its residue |
| `Sha256Stream.WindowSlots` | confluent_osdeploy/utils/sha-256.c:99-103 | the slots read at step t hold W at t-15, t-2, t-7 and t-16 |
| `Sha256Stream.RoundInPlace` | confluent_osdeploy/utils/sha-256.c:105-136 | the in-place shuffle of ah is one round of section 6.2.2 |
| `Sha256Stream.ConsumeChunk` | confluent_osdeploy/utils/sha-256.c:65-143 | h becomes the compression of h and the block, over all 64 rounds |
| `Sha256Stream.Stream.constructor` | confluent_osdeploy/utils/sha-256.c:149-167 | an empty stream in the initial hash value |
| `Sha256Stream.Stream.Write` | confluent_osdeploy/utils/sha-256.c:169-200 | the bytes are appended to all that was written; h is always the fold over the complete blocks and chunk the remainder |
| `Sha256Stream.Stream.AbsorbThroughBuffer` | confluent_osdeploy/utils/sha-256.c:187-198 | the buffered branch appends its piece |
| `Sha256Stream.PadInOneBlock` | confluent_osdeploy/utils/sha-256.c:212-228 | with room for the length, the closing block completes the padded message |
| `Sha256Stream.PadInTwoBlocks` | confluent_osdeploy/utils/sha-256.c:220-225 | without room, the two closing blocks do |
| `Sha256Stream.StoreBitLength` | confluent_osdeploy/utils/sha-256.c:229-236 | the byte loop over len << 3 and len >> 5 stores the 64-bit bit count, most significant byte first |
| `Sha256Stream.StoreDigest` | confluent_osdeploy/utils/sha-256.c:239-246 | the eight words, most significant byte first |
| `Sha256Stream.Stream.Close` | confluent_osdeploy/utils/sha-256.c:202-248 | the hash buffer holds the SHA-256 of all bytes written, below 2^61 of them |
| `Sha256Stream.DigestOfPieces` | confluent_osdeploy/utils/sha-256.c:149-248 | however the input is cut into writes, the digest is that of the concatenation |
| `Sha256Stream.CalcSha256` | confluent_osdeploy/utils/sha-256.c:250-256 | SHA-256 of the input |
| `Sha256Stream.HmacSha256` | confluent_osdeploy/utils/sha-256.c:6-37 | HMAC of RFC 2104, section 2, for keys shorter than, as long as and longer than a block |
| `NumberText.TextIsPad` | confluent_server/confluent/noderange.py:99-100 | every digit string is its number padded to its own length |
| `NumberText.NoClashKeepsPadding` | confluent_server/confluent/noderange.py:109-111 | a larger number that passes the padding test is its number padded to the width of the run's left end, whatever widths came between |
| `NumberText.RangeItemMeans` | confluent_server/confluent/noderange.py:333-387 | a printed range expands to its numbers at the left end's width |
| `BracketSteps.ExtendGrows` | confluent_server/confluent/noderange.py:88-147 | when one number alone differs and nothing clashes, both passes together only make that field's run grow |
| `BracketSteps.ExtendRestarts` | confluent_server/confluent/noderange.py:107-114 | otherwise the run is printed once and the name stands alone; what stays noted is the last field that differs |
| `BracketSteps.ExtendDrops` | confluent_server/confluent/noderange.py:124-131 | a clash before any field is noted prints the run and leaves the fields left of it unset |
| `BracketSteps.DroppedTakesHybrid` | confluent_server/confluent/noderange.py:101-104 | the next name is then read as if the one before had been a mixture of the two |
| `BracketRoundTrip.HoldingGrows` | confluent_server/confluent/noderange.py:134-147 | a growing run holds exactly its names, in any mixture of paddings |
| `BracketRoundTrip.HoldingPrints` | confluent_server/confluent/noderange.py:149-167 | what is printed for a run denotes exactly its names |
| `BracketRoundTrip.RunMeetsName` | confluent_server/confluent/noderange.py:88-147 | the three things a name can do to a run, and the state each leaves |
| `BracketRoundTrip.RoundTrip` | confluent_server/confluent/noderange.py:68-173 | for every ascending list of names, with any number of numbers and any padding, for which KeepsAll holds, the expansion of what is printed is the set of names, each name is in one token, earlier tokens are for earlier names, and each token varies in at most one field |
| `BracketLoss.StaysLost` | confluent_server/confluent/noderange.py:124-131 | a name that is dropped and not rescued is printed by no later state |
| `BracketLoss.RoundTripExactly` | confluent_server/confluent/noderange.py:68-173 | for names in strictly growing order: the tokens stand for just the names, each in one of them, if and only if KeepsAll |
| `BracketExact.RoundTripExactly` | confluent_server/confluent/noderange.py:68-173 | for every ascending list, names equal up to padding included: the tokens stand for just the names, in their order, if and only if KeepsAll |
| `BracketCorollaries.OneNumberRoundTrip` | confluent_server/confluent/noderange.py:474-495 | names with one number each, whatever the mix of paddings, always round-trip, each in one token |
| `BracketCorollaries.EvenPaddingRoundTrip` | confluent_server/confluent/noderange.py:474-495 | so do names with any count of numbers when each field is unpadded or of one width: the tokens partition the names and each varies in at most one field |
| `BracketCorollaries.PaddedPairIsLost` | confluent_server/confluent/noderange.py:124-131 | of r1u9 and r1u010 the second is not printed |
| `BracketTies.LostNameComesBack` | confluent_server/confluent/noderange.py:101-131 | six names, equal up to padding but for the last, that violate KeepsAll and are printed whole, though out of order |
| `BracketCompact.PrintedIsGapped` | confluent_server/confluent/noderange.py:134-147 | for any names in any order: between two neighbouring entries of a printed field there is a number missing, so neighbouring numbers are always one range |
| `BracketCompact.RangeEndsInName` | confluent_server/confluent/noderange.py:151-158 | a printed range ends in the last name's own digits |
| `BracketCompact.TokenIsPrinted` | confluent_server/confluent/noderange.py:107-131 | while every field is set, a name costs a token exactly when it does not join the run: it differs in another number than the noted one, or in several, or its padding clashes |
| `BracketCompact.ClashExactly` | confluent_server/confluent/noderange.py:109-111 | the padding test is whether the number, padded to the width before it, is another text |
| `BracketCompact.OneNumberTokens` | confluent_server/confluent/noderange.py:68-173 | names with one number each are one token, and one more for each padding clash, no fewer and no more |
| `BracketCompact.MergeIsMissed` | confluent_server/confluent/noderange.py:107-114 | for all names of this shape: three tokens where the last two names alone are one |
| `NodeNames.JoinUndoesSplit` | confluent_server/confluent/noderange.py:58-65 | cutting a name into texts and numbers loses nothing |
| `NodeNames.RenderDenotes` | confluent_server/confluent/noderange.py:159-164 | the token made of a template and fields stands for exactly the names whose numbers the fields contain |
| `Bracketer.Pass2Shape` | confluent_server/confluent/noderange.py:115-131 | wherever the second pass flushes, every field is set, so flush_current never fails |
| `Bracketer.Bracketer.constructor` | confluent_server/confluent/noderange.py:71-86 | the state after the first name |
| `Bracketer.Bracketer.ExtendWith` | confluent_server/confluent/noderange.py:88-147 | the two loops over the fields take the object from one state of the model to the next |
| `Bracketer.Bracketer.FlushCurrent` | confluent_server/confluent/noderange.py:149-167 | one token, rendered from the fields, and all fields unset |
| `Bracketer.Bracketer.Range` | confluent_server/confluent/noderange.py:169-173 | the rendered tokens after a last flush |
| `NodeRange.ExpandEntry` | confluent_server/confluent/noderange.py:333-387 | the loop over a range gives each number once at the left end's width, and failing ranges themselves |
| `NodeRange.FirstBracketSplits` | confluent_server/confluent/noderange.py:418-424 | replacing the first bracket by each of its numbers splits the token's strings among the results |
| `NodeRange.ExpandString` | confluent_server/confluent/noderange.py:401-438 | the recursion over brackets yields exactly the nodes of the strings the token stands for |
| `NodeRange.Abbreviate` | confluent_server/confluent/noderange.py:253-259 | the tokens of a chunk together stand for exactly the chunk's names, no name for two of them, earlier tokens for earlier names; neighbouring numbers are one range, a bracket is not a lone number, and names with one number make as many tokens as paddings clash, and one |
| `NodeRange.Evaluate` | confluent_server/confluent/noderange.py:308-326 | the loop with its carried sign gives what a nested expression of commas, ,- and @ means: the nodes that some operand adds and no later one takes away |
| `NodeRange.ListedMeans` | confluent_server/confluent/noderange.py:308-326 | tokens joined with commas mean their union |
| `NodeRange.RoundTripCase` | confluent_server/confluent/noderange.py:484-495 | the file's own check, for every list that meets the conditions: abbreviate, expand without a config, same set |
| `ReverseNodeRange.GroupElements` | confluent_server/confluent/noderange.py:176-194 | the list is cut exactly where the text changes; every chunk has one text and neighbours differ |
| `ReverseNodeRange.KeyOrdersNumbers` | confluent_server/confluent/noderange.py:49-56 | among names of one text the human order is the order of their numbers, field by field |
| `ReverseNodeRange.OnlyCaseIsIgnored` | confluent_server/confluent/noderange.py:55-56 | of letters that order ignores the case, and nothing else |
| `ReverseNodeRange.SortingExists` | confluent_server/confluent/noderange.py:251-251 | every set of names has a listing in that order |
| `ReverseNodeRange.CoverPartitions` | confluent_server/confluent/noderange.py:213-229 | the chosen groups are pairwise disjoint subsets, with the rest they make up the set, and no further group fits into the rest |
| `ReverseNodeRange.ReverseNodeRange.SubsetGroups` | confluent_server/confluent/noderange.py:213-229 | the loop with its early exit chooses those groups and leaves the rest in nodes |
| `ReverseNodeRange.ReverseNodeRange.Noderange` | confluent_server/confluent/noderange.py:209-262 | the ranges stand for the chosen groups and the nodes left, and in no bracket are neighbouring numbers apart |
| `ReverseNodeRange.EvenIsReady` | confluent_server/confluent/noderange.py:250-259 | no chunk loses a name when names of one text have one number or are evenly padded |
| `ReverseNodeRange.WriteAndExpand` | confluent_server/confluent/noderange.py:209-262 | writing a set of nodes as groups and brackets and expanding it against the same nodes and groups gives the same set; only the empty set can fail |
| `ConsoleLog.Logger.Log` | confluent_server/confluent/log.py:759-787 | the object does what LogSessions.Entered does to the queue as a value: console data of the last entry's second joins it, anything else is a new entry |
| `ConsoleLog.Logger.WriteOne` | confluent_server/confluent/log.py:571-634 | one turn on the deque of shared entries is LogModel.Step on the queue as a value, whatever it holds and whatever rolls over |
| `ConsoleLog.Logger.RollOver` | confluent_server/confluent/log.py:627-634 | the event goes first, the entry is put back behind it, twice when it was split, and the old files are closed as they were |
| `ConsoleLog.Logger.WriteData` | confluent_server/confluent/log.py:570-634 | the loop is LogModel.Run, turn by turn until the queue is empty |
| `ConsoleLog.Session` | confluent_server/confluent/log.py:570-787 | any calls of log and writedata on a new logger end in LogSessions.AfterCalls; for moderate calls the index and the queue read as the messages that were logged, with type, time, event and event data, and for an empty queue the files hold exactly what was logged |
| `LogModel.EmitAddsPayload` | confluent_server/confluent/log.py:595-603 | a record's offset and length slice its own payload out of the text, and no earlier slice changes |
| `LogModel.RecordReads` | confluent_server/confluent/log.py:585-615 | the text of a record: console data as it came, other messages of a console log in brackets with date and the event's words, and one line each in any other log |
| `LogRecords.MessagesAreRecorded` | confluent_server/confluent/log.py:570-787 | for moderate calls: reading the index back, record by record, and then the queue gives the logged messages in order, with data, type, time, event and the event data last given |
| `LogRecords.EntryIsJoined` | confluent_server/confluent/log.py:774-782 | a call adds no entry exactly when it brings console data of the same second as console data at the end of the queue |
| `LogRecords.FilesBeginWithEvent` | confluent_server/confluent/log.py:627-634 | after any session each file but the first begins with the rollover event, at the time of the entry it made way for |
| `LogModel.RepeatsExactly` | confluent_server/confluent/log.py:578-583 | writing the rest and its last piece equals writing the data only for one 65535-byte piece repeated |
| `LogModel.TurnKeepsAccount` | confluent_server/confluent/log.py:571-634 | one turn, for every state and kind of record, the rollover's own event aside: payload written and queued is unchanged if and only if the files did not roll over while splitting an entry, repeated pieces aside |
| `LogLoss.RunKeepsAccountExactly` | confluent_server/confluent/log.py:570-634 | any number of turns, for every state: the payload is unchanged if and only if no turn did that; no later turn makes up for it |
| `LogLoss.TurnNeverAdds` | confluent_server/confluent/log.py:571-634 | the payload never grows by a turn, and gets shorter when the last piece is shorter than 65535 bytes |
| `LogRuns.ShortNeverSpoils` | confluent_server/confluent/log.py:578-583 | with no entry and no file name over 65535 bytes no turn does it, whatever rolls over when |
| `LogRuns.TooLongStays` | confluent_server/confluent/log.py:621-634 | an entry of max_bytes or more, up to 65535, stays in the queue with all behind it, for any turns |
| `LogRuns.HeadLeavesExactly` | confluent_server/confluent/log.py:621-634 | without a rollover by time an entry of at most 65535 bytes leaves the head of the queue, or one of its copies does, if and only if its record fits in the current files, or in new ones after the rollover event; in one turn or three, or never |
| `LogRuns.QueueDrainsExactly` | confluent_server/confluent/log.py:570-634 | without a rollover by time any queue, of long and repeated entries too, drains if and only if each head in its turn is cut or finds room |
| `LogRuns.DrainsInTheEnd` | confluent_server/confluent/log.py:570-634 | the same after any turns before, with any rollovers by time |
| `LogRuns.QueueDrains` | confluent_server/confluent/log.py:570-634 | entries of any length: with room in new files for each piece, three turns a record empty the queue, whatever the rolled files are called |
| `LogRuns.ConsoleFits` | confluent_server/confluent/log.py:347-362 | console data has room exactly when text and index both stay below max_bytes and the offset fits four bytes |
| `LogRuns.JustBelowTheLimit` | confluent_server/confluent/log.py:621-634 | with max_bytes 8192 an entry of 8191 bytes is never written if the files are not empty; ten bytes are |
| `LogRuns.SplitEntryIsLost` | confluent_server/confluent/log.py:578-634 | of one entry of 65536 bytes the last is written, twice, and no other |
| `LogSessions.EnteringAdds` | confluent_server/confluent/log.py:774-782 | the payload queued grows by what is logged, joined or not |
| `LogSessions.SessionKeepsAll` | confluent_server/confluent/log.py:570-787 | after any calls of log and writedata all files and the queue hold what was logged, in order, if no turn rolled over while splitting |
| `LogSessions.ModerateKeepsAll` | confluent_server/confluent/log.py:570-787 | a condition on the calls alone: when no second brings more than 65535 bytes of console data and no other message is longer, nothing is lost, whatever rolls over when |
| `ConsoleLog.ComputeRollover` | confluent_server/confluent/log.py:287-345 | the least time after now that is a midnight, in weekly mode one that ends the configured day, at most seven days on |
| `ConsoleLog.DaysOfTheWeek` | confluent_server/confluent/log.py:322-334 | the days it counts by are those of the calendar |
| `UrlMount.Shared.Begin` | confluent_osdeploy/utils/urlmount.c:187-195 | a wanted change is taken and used up, without one the URL stays, and the URL that is read is registered |
| `UrlMount.ChangeIsTakenOnce` | confluent_osdeploy/utils/urlmount.c:108-203 | over every run: a read's first download goes to the URL last wanted since the read before it, and to the current one if none was; the wish is gone then, whatever the other thread does meanwhile; so the read moves to another URL if and only if one was wanted and it is not the current one |
| `UrlMount.WishCanBeCurrent` | confluent_osdeploy/utils/urlmount.c:108-230 | a run from the start in which the URL wanted is the one the reading thread has come to by itself |
| `UrlMount.Shared.Advance` | confluent_osdeploy/utils/urlmount.c:210-216 | on to the next registered URL or back to the first, from any index |
| `UrlMount.Shared.FindPreferred` | confluent_osdeploy/utils/urlmount.c:116-129 | the first URL that works before both snapshot indexes, if there is one |
| `UrlMount.FillBuffer` | confluent_osdeploy/utils/urlmount.c:144-151 | a chunk is taken whole at the end of what is there, or refused |
| `UrlMount.EveryInterleavingIsSafe` | confluent_osdeploy/utils/urlmount.c:108-230 | in every interleaving of the two threads urls[urlidx] is registered, newidx is 512 or a registered index below the snapshot it was found against, and every download goes to urls[urlidx] |
| `UrlMount.TriesGoRound` | confluent_osdeploy/utils/urlmount.c:203-230 | within one read the k-th download goes to the URL k places on, whatever the other thread does |
| `UrlMount.EachUrlOnce` | confluent_osdeploy/utils/urlmount.c:203-230 | any n downloads in a row of one read try each of the n URLs exactly once |
| `UrlMount.AllDownIsReported` | confluent_osdeploy/utils/urlmount.c:214-221 | when the message first comes: after n failures if and only if the read kept its URL, otherwise earlier, after the distance to the old URL |
| `UrlMount.ReportedTooEarly` | confluent_osdeploy/utils/urlmount.c:203-221 | a run from the start with two URLs that reports after trying one of them |
| `UrlMount.BufferHoldsOneDownload` | confluent_osdeploy/utils/urlmount.c:144-207 | the filled part of the buffer is exactly the chunks of the current download, in order |
| `WorkerQueue.NeverStuck` | confluent_server/confluent/core.py:1237-1262 | in no interleaving can the loop wait with all workers ended |
| `WorkerQueue.EverythingIsDelivered` | confluent_server/confluent/core.py:1237-1262 | when the loop ends the queue is empty, every worker has ended, and each worker's responses were handed out once, in its order |
| `WorkerQueue.FailureIsRaised` | confluent_server/confluent/core.py:1244-1260 | the first exception taken ends the loop, and of each worker a beginning was handed out, none skipped |
| `WorkerQueue.EveryStepIsProgress` | confluent_server/confluent/core.py:1251-1262 | every step leaves less to do, so the loop always ends |
| `WorkerQueue.IterateQueue` | confluent_server/confluent/core.py:1237-1248 | the loop over what arrives: what it hands out, and where it stops, waits or raises |
| `WorkerQueue.Bucket` | confluent_server/confluent/core.py:1156-1196 | a node is in the bucket it belongs in and in no other, no bucket is empty or has a node twice, and each keeps the order of the nodes |
| `WorkerQueue.PathIs` | confluent_server/confluent/core.py:1160-1165 | the plugin's path: the last attribute that is set names it, and the default stands in if that is empty or none is set |
| `WorkerQueue.BucketsAre` | confluent_server/confluent/core.py:1166-1196 | which nodes go where: to a manager just those it has and this member has not, to a plugin ours with its path, to an error those without a manager in a collective |
| `WorkerQueue.OneBucketEach` | confluent_server/confluent/core.py:1156-1196 | what Bucket ensures means for a node: exactly one bucket of the two maps together if it has a plugin path, and none otherwise |
| `Tlv.Send` | confluent_client/confluent/tlvdata.py:140-171 | what is written for a frame, nothing for an empty text, nothing and an error from 2^24 bytes on |
| `Tlv.Receive` | confluent_client/confluent/tlvdata.py:199-261 | one recv, whatever the reads return, is one decoding step of the whole stream |
| `Tlv.FrameIsRead` | confluent_client/confluent/tlvdata.py:151-171 | decoding a written frame followed by anything gives the frame and leaves the rest |
| `Tlv.FrameLooks` | confluent_client/confluent/tlvdata.py:151-171 | the bytes of a frame: its type, three bytes of length, most significant first, and the data |
| `Tlv.OtherFrames` | confluent_client/confluent/tlvdata.py:208-261 | what recv makes of first bytes that send never writes |
| `Tlv.CutFrameIsAnError` | confluent_client/confluent/tlvdata.py:203-207 | a frame cut anywhere is an error |
| `Tlv.ReceiveAll` | confluent_client/confluent/tlvdata.py:199-261 | for every fragmentation, and wherever the stream breaks off, exactly the frames that arrived whole are received, and the end is an error just when a frame was cut |

## Left out

- Terminal.Tmt.Ich: is modelled as coded (a shift that spares the last column, blanks up to column n); nothing is claimed about what inserting characters should do.
- Terminal.Tmt.Ed: is modelled as coded (erasing to the cursor leaves the row above it, and clears every row from row 0); nothing is claimed about what erasing should do.
- Terminal.Tmt.CursorTarget: is modelled as coded (the motions of lines 296-301 subtract in size_t and wrap); nothing is claimed about where those should go.
- Terminal.Tmt.TmtResize: does not model a failing allocation; the cells of a row are a sequence in the row's object, not memory after it.
- Terminal.Tmt.TmtWrite: does not model the callbacks (bell, answers, cursor, update and move notices), nor wcwidth; the multibyte decoder is a parameter, any function of its state and the pending bytes.
- ScreenDump.DumpVt: does not model the encoding of wide characters into bytes; the numbers it prints with %ld are bounded by the sizes int can index, and nothing is said of a row that holds an escape, CR or LF character, or of the rows below it.
- ScreenDump.CodesChangeAttrs: does not model reading the deltas with tmt.c's own sgr, which clears dim with 23 and keeps eight parameters.
- Sha256Stream.Stream.Close: does not model inputs of 2^61 bytes or more, which the header excludes.
- NodeNames.RenderDenotes: does not model str.format on names with braces, which it would take for fields; the modules above it exclude them.
- Sha256Stream.HmacSha256: does not model messages so long that their length plus 64 overflows an int.
- NodeRange.ExpandString: does not model attribute filters, regular expressions, paging, or the ranges written with '-', '..', '+' or a step, nor the exception for a name that is neither a node nor a group; tokens start after pyparsing and end before they are joined with commas.
- NodeRange.Abbreviate: does not cover names with a colon, which the printer also accepts, or with braces.
- NodeRange.Evaluate: does not model paging, nor the filters that are given the nodes so far.
- ReverseNodeRange.ReverseNodeRange.Noderange: does not model the lastnoderange shortcut, groups with a noderange of their own, the fallback for exceptions, or an empty set, whose empty text the parser refuses; the order of groups and the sorting of equal keys are parameters; letters are ASCII.
- ConsoleLog.Logger.WriteData: does not model file errors, locks, the 16-byte packing of index records, event data over 255, or the renaming and deletion of old files; closed generations are a list that keeps them all.
- LogSessions.SessionKeepsAll: goes one way only; the condition that is exact is that of RunKeepsAccountExactly, for the turns of writedata.
- LogRuns.HeadLeavesExactly: is for turns at which no rollover by time is due, where the rolled file is named alike each time; TooLongStays and QueueDrains allow any names, DrainsInTheEnd any turns before.
- ConsoleLog.ComputeRollover: does not model local time and its daylight-saving adjustments.
- UrlMount.EveryInterleavingIsSafe: does not model curl options that fail to be set, the start-up loop of main, or the number of bytes http_read returns.
- WorkerQueue.Bucket: does not model quorum checks, a plugin without the operation, or the lookups themselves.
- WorkerQueue.IterateQueue: does not model stripping node names from responses.
- Tlv.Send: does not model frames that carry file handles (tlvdata.py:172-187).
- Tlv.Receive: does not model frames that carry file handles; JSON documents are the bytes json.dumps gives.
- read_recent_text of log.py, set_termentbyname and the socket loops of vtbufferd.c, urlmount3.c, and the HTTP, certificate, discovery and message-class code are not part of this model.

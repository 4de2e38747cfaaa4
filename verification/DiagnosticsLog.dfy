/** The two-file rotating diagnostics log of one deployment, against the
    append-only sequence of every record ever written to it. */
module DiagnosticsLog {
  import opened Wrappers
  import opened DiagnosticsRecords

  const RESUME_WINDOW: nat := 200

  // ---- Files -------------------------------------------------------------

  /** A line as a reader gets it: a record, or a piece of a record whose message
      held a character that `splitlines` splits on. A piece never parses to an
      object with a sequence, because the quotes inside a message are escaped. */
  datatype Line = Whole(record: Record) | Fragment

  function Pieces(r: Record): (lines: seq<Line>)
    ensures lines != []
    ensures forall line | line in lines :: line == if Readable(r) then Whole(r) else Fragment
  {
    if Readable(r) then [Whole(r)] else seq(Splits(r.message) + 1, _ => Fragment)
  }

  function Lines(records: seq<Record>): seq<Line> {
    if records == [] then [] else Lines(records[..|records| - 1]) + Pieces(records[|records| - 1])
  }

  function Size(records: seq<Record>): nat {
    if records == [] then 0 else Size(records[..|records| - 1]) + LineBytes(records[|records| - 1])
  }

  /** A file that does not exist is None. */
  type File = Option<seq<Record>>

  function Content(f: File): seq<Record> {
    if f.None? then [] else f.value
  }

  datatype Disk = Disk(rotated: File, current: File)

  function Retained(d: Disk): seq<Record> {
    Content(d.rotated) + Content(d.current)
  }

  // ---- Resuming the sequence ---------------------------------------------

  function Highest(lines: seq<Line>): nat {
    if lines == [] then 0
    else
      var rest := Highest(lines[..|lines| - 1]);
      var line := lines[|lines| - 1];
      if line.Whole? && line.record.sequence > rest then line.record.sequence else rest
  }

  function Window(lines: seq<Line>): seq<Line> {
    if |lines| <= RESUME_WINDOW then lines else lines[|lines| - RESUME_WINDOW..]
  }

  function Max(a: nat, b: nat): nat {
    if a < b then b else a
  }

  /** `_resume_sequence`: only the last lines of each file are scanned. */
  function Resume(d: Disk): nat {
    Max(Highest(Window(Lines(Content(d.rotated)))), Highest(Window(Lines(Content(d.current))))) + 1
  }

  /** The same with every line scanned. */
  function ResumeFromEverything(d: Disk): nat {
    Max(Highest(Lines(Content(d.rotated))), Highest(Lines(Content(d.current)))) + 1
  }

  // ---- One sink and one event --------------------------------------------

  datatype Sink = Sink(disk: Disk, sequence: nat, bytesWritten: nat, open: bool, failed: bool)

  /** How the file operations of one record turn out. */
  datatype Io = Io(renames: bool, reopens: bool, writes: bool)

  datatype Event =
    | Output(stream: Stream, text: string, timestamp: string, io: Io)
    | Restart(opens: bool)

  /** A new sink on an existing directory, its writer thread started. */
  function Opened(d: Disk, opens: bool): Sink {
    if opens then Sink(d.(current := Some(Content(d.current))), Resume(d), Size(Content(d.current)), true, false)
    else Sink(d, Resume(d), Size(Content(d.current)), false, true)
  }

  /** `_rotate`, followed by the reread of the current file's size. */
  function Rotated(s: Sink, io: Io): Sink {
    var moved := if io.renames && s.disk.current.Some? then Disk(s.disk.current, None) else s.disk;
    var reopened := if io.reopens then moved.(current := Some(Content(moved.current))) else moved;
    s.(disk := reopened, bytesWritten := Size(Content(reopened.current)), open := io.reopens,
       failed := s.failed || !io.renames || !io.reopens)
  }

  function MakeRoom(s: Sink, budget: int, io: Io): Sink {
    if s.bytesWritten >= budget then Rotated(s, io) else s
  }

  /** `logged` is history: every record ever written, oldest first. */
  datatype State = State(sink: Sink, logged: seq<Record>)

  function Fresh(): State {
    State(Opened(Disk(None, None), true), [])
  }

  /** The write of one line, all or nothing; the sequence moves on either way. */
  function Appended(st: State, r: Record, writes: bool): State {
    var s := st.sink;
    if writes
    then State(s.(disk := s.disk.(current := Some(Content(s.disk.current) + [r])), sequence := s.sequence + 1,
                  bytesWritten := s.bytesWritten + LineBytes(r)),
               st.logged + [r])
    else st.(sink := s.(sequence := s.sequence + 1, failed := true))
  }

  /** One turn of the writer loop, for the record it makes. */
  function Logged(st: State, budget: int, r: Record, io: Io): State {
    if !st.sink.open then st
    else
      var room := st.(sink := MakeRoom(st.sink, budget, io));
      if !room.sink.open then room else Appended(room, r, io.writes)
  }

  /** One turn of the writer loop, or a restart of the runtime. */
  function Next(st: State, budget: int, e: Event): State {
    match e
    case Restart(opens) => st.(sink := Opened(st.sink.disk, opens))
    case Output(stream, text, timestamp, io) =>
      Logged(st, budget, MakeRecord(st.sink.sequence, timestamp, stream, text), io)
  }

  function After(st: State, budget: int, events: seq<Event>): State {
    if events == [] then st
    else Next(After(st, budget, events[..|events| - 1]), budget, events[|events| - 1])
  }

  // ---- What holds whatever the file operations do ------------------------

  ghost predicate IsSuffix<T>(part: seq<T>, whole: seq<T>) {
    |part| <= |whole| && whole[|whole| - |part|..] == part
  }

  /** Rotated-then-current is the end of everything logged, the byte counter is
      the size of the current file, and if anything was discarded the rotated
      file alone fills the budget. */
  ghost predicate Sound(st: State, budget: int) {
    && IsSuffix(Retained(st.sink.disk), st.logged)
    && st.sink.bytesWritten == Size(Content(st.sink.disk.current))
    && (st.sink.open ==> st.sink.disk.current.Some?)
    && (|st.logged| > |Retained(st.sink.disk)| ==> Size(Content(st.sink.disk.rotated)) >= budget)
  }

  lemma {:induction false} SuffixOfSuffix<T>(whole: seq<T>, dropped: seq<T>, kept: seq<T>)
    requires IsSuffix(dropped + kept, whole)
    ensures IsSuffix(kept, whole)
  {
    assert (dropped + kept)[|dropped|..] == kept;
  }

  /** What the files hold after a rotation. */
  lemma {:induction false} RotatedContent(s: Sink, io: Io)
    ensures
      var before, after := s.disk, Rotated(s, io).disk;
      && Content(after.current) == (if io.renames then [] else Content(before.current))
      && Content(after.rotated) ==
           (if io.renames && before.current.Some? then Content(before.current) else Content(before.rotated))
      && (io.reopens ==> after.current.Some?)
  {
  }

  lemma {:induction false} RotationIsSound(st: State, budget: int, io: Io)
    requires Sound(st, budget) && st.sink.open
    ensures Sound(st.(sink := MakeRoom(st.sink, budget, io)), budget)
  {
    if st.sink.bytesWritten >= budget {
      RotatedContent(st.sink, io);
      RotatedIsSound(st, st.(sink := Rotated(st.sink, io)), budget, io.renames);
    }
  }

  lemma {:induction false} RotatedIsSound(st: State, after: State, budget: int, renames: bool)
    requires Sound(st, budget) && st.sink.disk.current.Some? && Size(Content(st.sink.disk.current)) >= budget
    requires after.logged == st.logged && after.sink.bytesWritten == Size(Content(after.sink.disk.current))
    requires after.sink.open ==> after.sink.disk.current.Some?
    requires Content(after.sink.disk.current) == if renames then [] else Content(st.sink.disk.current)
    requires Content(after.sink.disk.rotated) ==
               if renames then Content(st.sink.disk.current) else Content(st.sink.disk.rotated)
    ensures Sound(after, budget)
  {
    var disk := st.sink.disk;
    if renames {
      SuffixOfSuffix(st.logged, Content(disk.rotated), Content(disk.current));
      assert Retained(after.sink.disk) == Content(disk.current);
    } else {
      assert Retained(after.sink.disk) == Retained(disk);
    }
  }

  lemma {:induction false} AppendingIsSound(st: State, budget: int, r: Record, writes: bool)
    requires Sound(st, budget) && st.sink.open
    ensures Sound(Appended(st, r, writes), budget)
  {
    if writes {
      GrownIsSound(st, Appended(st, r, writes), budget, r);
    } else {
      assert Retained(Appended(st, r, writes).sink.disk) == Retained(st.sink.disk);
    }
  }

  lemma {:induction false} GrownIsSound(st: State, after: State, budget: int, r: Record)
    requires Sound(st, budget)
    requires after.sink.disk.current == Some(Content(st.sink.disk.current) + [r])
    requires after.sink.disk.rotated == st.sink.disk.rotated && after.logged == st.logged + [r]
    requires after.sink.bytesWritten == st.sink.bytesWritten + LineBytes(r)
    ensures Sound(after, budget)
  {
    var rotated, current := Content(st.sink.disk.rotated), Content(st.sink.disk.current);
    SizeOfAppended(current, r);
    assert rotated + (current + [r]) == rotated + current + [r];
    SuffixGrows(Retained(st.sink.disk), st.logged, r);
  }

  lemma {:induction false} SizeOfAppended(records: seq<Record>, r: Record)
    ensures Size(records + [r]) == Size(records) + LineBytes(r)
  {
    assert (records + [r])[..|records + [r]| - 1] == records;
  }

  lemma {:induction false} SuffixGrows<T>(part: seq<T>, whole: seq<T>, x: T)
    requires IsSuffix(part, whole)
    ensures IsSuffix(part + [x], whole + [x])
  {
  }

  lemma {:induction false} LoggingIsSound(st: State, budget: int, r: Record, io: Io)
    requires Sound(st, budget)
    ensures Sound(Logged(st, budget, r, io), budget)
  {
    if st.sink.open {
      RotationIsSound(st, budget, io);
      var room := st.(sink := MakeRoom(st.sink, budget, io));
      if room.sink.open {
        AppendingIsSound(room, budget, r, io.writes);
      }
    }
  }

  lemma {:induction false} StepIsSound(st: State, budget: int, e: Event)
    requires Sound(st, budget)
    ensures Sound(Next(st, budget, e), budget)
  {
    if e.Output? {
      var r := MakeRecord(st.sink.sequence, e.timestamp, e.stream, e.text);
      assert Next(st, budget, e) == Logged(st, budget, r, e.io);
      LoggingIsSound(st, budget, r, e.io);
    } else {
      assert Retained(Next(st, budget, e).sink.disk) == Retained(st.sink.disk);
    }
  }

  /** Over any run, across rotations, restarts and failing file operations:
      rotated-then-current is a contiguous suffix of everything ever logged, the
      byte counter is exact, and nothing is discarded while the retained bytes
      would fall below the budget. */
  lemma {:induction false} RetainedIsASuffix(budget: int, events: seq<Event>)
    ensures Sound(After(Fresh(), budget, events), budget)
  {
    if events != [] {
      RetainedIsASuffix(budget, events[..|events| - 1]);
      StepIsSound(After(Fresh(), budget, events[..|events| - 1]), budget, events[|events| - 1]);
    }
  }

  // ---- Upper bound on the file sizes -------------------------------------

  function Cap(budget: int, line: nat): nat {
    (if budget > 0 then budget - 1 else 0) + line
  }

  ghost predicate WithinCap(d: Disk, budget: int, line: nat) {
    Size(Content(d.rotated)) <= Cap(budget, line) && Size(Content(d.current)) <= Cap(budget, line)
  }

  lemma {:induction false} AppendingStaysWithinCap(st: State, budget: int, r: Record, writes: bool, line: nat)
    requires Sound(st, budget) && WithinCap(st.sink.disk, budget, line) && LineBytes(r) <= line
    requires st.sink.bytesWritten < budget || st.sink.bytesWritten == 0
    ensures WithinCap(Appended(st, r, writes).sink.disk, budget, line)
  {
    SizeOfAppended(Content(st.sink.disk.current), r);
  }

  lemma {:induction false} RoomStaysWithinCap(s: Sink, budget: int, io: Io, line: nat)
    requires WithinCap(s.disk, budget, line) && io.renames
    ensures WithinCap(MakeRoom(s, budget, io).disk, budget, line)
    ensures MakeRoom(s, budget, io).bytesWritten < budget || MakeRoom(s, budget, io).bytesWritten == 0
  {
    RotatedContent(s, io);
  }

  lemma {:induction false} LoggingStaysWithinCap(st: State, budget: int, r: Record, io: Io, line: nat)
    requires Sound(st, budget) && WithinCap(st.sink.disk, budget, line) && io.renames
    requires forall q | q in Logged(st, budget, r, io).logged :: LineBytes(q) <= line
    ensures WithinCap(Logged(st, budget, r, io).sink.disk, budget, line)
  {
    if st.sink.open {
      RotationIsSound(st, budget, io);
      RoomStaysWithinCap(st.sink, budget, io, line);
      WriteStaysWithinCap(st.(sink := MakeRoom(st.sink, budget, io)), budget, r, io, line);
    }
  }

  lemma {:induction false} WriteStaysWithinCap(room: State, budget: int, r: Record, io: Io, line: nat)
    requires Sound(room, budget) && WithinCap(room.sink.disk, budget, line)
    requires room.sink.bytesWritten < budget || room.sink.bytesWritten == 0
    requires room.sink.open ==> forall q | q in Appended(room, r, io.writes).logged :: LineBytes(q) <= line
    ensures room.sink.open ==> WithinCap(Appended(room, r, io.writes).sink.disk, budget, line)
  {
    if room.sink.open && io.writes {
      assert r in Appended(room, r, io.writes).logged;
      AppendingStaysWithinCap(room, budget, r, io.writes, line);
    }
  }

  lemma {:induction false} StepStaysWithinCap(st: State, budget: int, e: Event, line: nat)
    requires Sound(st, budget) && WithinCap(st.sink.disk, budget, line)
    requires e.Output? ==> e.io.renames
    requires forall r | r in Next(st, budget, e).logged :: LineBytes(r) <= line
    ensures WithinCap(Next(st, budget, e).sink.disk, budget, line)
  {
    if e.Output? {
      LoggingStaysWithinCap(st, budget, MakeRecord(st.sink.sequence, e.timestamp, e.stream, e.text), e.io, line);
    }
  }

  lemma {:induction false} LoggedOnlyGrows(st: State, budget: int, e: Event)
    ensures st.logged <= Next(st, budget, e).logged
  {
  }

  /** With renames that succeed, each file stays below the budget plus one line. */
  lemma {:induction false} FilesStayWithinCap(budget: int, events: seq<Event>, line: nat)
    requires forall i | 0 <= i < |events| :: events[i].Output? ==> events[i].io.renames
    requires forall r | r in After(Fresh(), budget, events).logged :: LineBytes(r) <= line
    ensures WithinCap(After(Fresh(), budget, events).sink.disk, budget, line)
  {
    if events != [] {
      var before := events[..|events| - 1];
      var st := After(Fresh(), budget, before);
      LoggedOnlyGrows(st, budget, events[|events| - 1]);
      assert forall r | r in st.logged :: r in After(Fresh(), budget, events).logged;
      FilesStayWithinCap(budget, before, line);
      RetainedIsASuffix(budget, before);
      StepStaysWithinCap(st, budget, events[|events| - 1], line);
    }
  }

  lemma {:induction false} DigitsGrow(small: nat, large: nat)
    requires small <= large
    ensures Digits(small) <= Digits(large)
  {
    if small >= 10 {
      DigitsGrow(small / 10, large / 10);
    }
  }

  lemma {:induction false} LoggedAreBounded(budget: int, events: seq<Event>)
    requires forall i | 0 <= i < |events| && events[i].Output? :: |events[i].timestamp| <= MAX_TIMESTAMP_CHARS
    ensures forall r | r in After(Fresh(), budget, events).logged :: Bounded(r)
  {
    if events != [] {
      LoggedAreBounded(budget, events[..|events| - 1]);
      assert events[|events| - 1].Output? ==> |events[|events| - 1].timestamp| <= MAX_TIMESTAMP_CHARS;
    }
  }

  function MaxSequence(records: seq<Record>): nat {
    if records == [] then 0
    else Max(MaxSequence(records[..|records| - 1]), records[|records| - 1].sequence)
  }

  lemma {:induction false} MaxSequenceBounds(records: seq<Record>, r: Record)
    requires r in records
    ensures r.sequence <= MaxSequence(records)
  {
    if r in records[..|records| - 1] {
      MaxSequenceBounds(records[..|records| - 1], r);
    }
  }

  /** With renames that succeed, each file stays below the budget plus one maximal
      encoded line: the longest that the message limit, the timestamp and the digits
      of the highest sequence number allow. */
  lemma {:induction false} FilesStayWithinBudgetAndOneLine(budget: int, events: seq<Event>)
    requires forall i | 0 <= i < |events| && events[i].Output? ::
               events[i].io.renames && |events[i].timestamp| <= MAX_TIMESTAMP_CHARS
    ensures
      var st := After(Fresh(), budget, events);
      WithinCap(st.sink.disk, budget, MaxLineBytes(Digits(MaxSequence(st.logged))))
  {
    var logged := After(Fresh(), budget, events).logged;
    LoggedAreBounded(budget, events);
    forall r | r in logged ensures LineBytes(r) <= MaxLineBytes(Digits(MaxSequence(logged))) {
      MaxSequenceBounds(logged, r);
      DigitsGrow(r.sequence, MaxSequence(logged));
      BoundedLine(r);
    }
    FilesStayWithinCap(budget, events, MaxLineBytes(Digits(MaxSequence(logged))));
  }

  // ---- Resuming after a restart ------------------------------------------

  ghost predicate Increasing(records: seq<Record>) {
    forall i, j | 0 <= i < j < |records| :: records[i].sequence < records[j].sequence
  }

  /** Whole lines carry positive sequences, in increasing order, all above `floor`. */
  ghost predicate Ordered(lines: seq<Line>, floor: nat) {
    && (forall i | 0 <= i < |lines| && lines[i].Whole? :: lines[i].record.sequence > floor)
    && (forall i, j | 0 <= i < j < |lines| && lines[i].Whole? && lines[j].Whole? ::
          lines[i].record.sequence < lines[j].record.sequence)
  }

  ghost predicate HasWhole(lines: seq<Line>) {
    exists i | 0 <= i < |lines| :: lines[i].Whole?
  }

  lemma {:induction false} WholeLinesAreRecords(records: seq<Record>, line: Line)
    requires line in Lines(records) && line.Whole?
    ensures line.record in records && Readable(line.record)
  {
    if records != [] {
      var before := records[..|records| - 1];
      if line in Lines(before) {
        WholeLinesAreRecords(before, line);
      } else {
        assert line in Pieces(records[|records| - 1]);
      }
    }
  }

  lemma {:induction false} LinesAreOrdered(records: seq<Record>, floor: nat)
    requires Increasing(records) && forall r | r in records :: r.sequence > floor
    ensures Ordered(Lines(records), floor)
  {
    if records != [] {
      var before := records[..|records| - 1];
      var last := records[|records| - 1];
      LinesAreOrdered(before, floor);
      forall line | line in Lines(before) && line.Whole? ensures line.record.sequence < last.sequence {
        WholeLinesAreRecords(before, line);
      }
    }
  }

  /** The highest sequence is that of the last whole line. */
  lemma {:induction false} HighestIsLast(lines: seq<Line>, floor: nat)
    requires Ordered(lines, floor)
    ensures HasWhole(lines) ==> Highest(lines) > floor
    ensures !HasWhole(lines) ==> Highest(lines) == 0
    ensures forall i | 0 <= i < |lines| && lines[i].Whole? :: lines[i].record.sequence <= Highest(lines)
    ensures HasWhole(lines) ==> exists i | 0 <= i < |lines| ::
              lines[i].Whole? && lines[i].record.sequence == Highest(lines)
  {
    if lines != [] {
      var before := lines[..|lines| - 1];
      HighestIsLast(before, floor);
      if lines[|lines| - 1].Whole? {
        assert lines[|lines| - 1].record.sequence >= Highest(lines);
      } else if HasWhole(lines) {
        assert HasWhole(before);
        var i :| 0 <= i < |before| && before[i].Whole? && before[i].record.sequence == Highest(before);
        assert lines[i].Whole? && lines[i].record.sequence == Highest(lines);
      }
    }
  }

  lemma {:induction false} WindowOfOne(lines: seq<Line>, floor: nat)
    requires Ordered(lines, floor)
    ensures Highest(Window(lines)) <= Highest(lines)
    ensures if HasWhole(lines) then Highest(lines) > floor else Highest(lines) == 0 && !HasWhole(Window(lines))
    ensures if HasWhole(Window(lines)) then Highest(Window(lines)) > floor else Highest(Window(lines)) == 0
    ensures Highest(Window(lines)) == Highest(lines) <==> (HasWhole(Window(lines)) || !HasWhole(lines))
  {
    var window := Window(lines);
    var skip := |lines| - |window|;
    assert forall i | 0 <= i < |window| :: window[i] == lines[skip + i];
    HighestIsLast(lines, floor);
    HighestIsLast(window, floor);
    if HasWhole(window) {
      var i :| 0 <= i < |lines| && lines[i].Whole? && lines[i].record.sequence == Highest(lines);
      var k :| 0 <= k < |window| && window[k].Whole?;
      assert lines[skip + k].record.sequence <= lines[i].record.sequence;
      assert skip + k <= i;
      assert window[i - skip] == lines[i];
    }
  }

  lemma {:induction false} FilesAreOrdered(d: Disk)
    requires Increasing(Retained(d)) && forall r | r in Retained(d) :: r.sequence > 0
    ensures Ordered(Lines(Content(d.rotated)), 0)
    ensures Ordered(Lines(Content(d.current)), Highest(Lines(Content(d.rotated))))
  {
    var a, b := Content(d.rotated), Content(d.current);
    assert forall i | 0 <= i < |a| :: a[i] == Retained(d)[i];
    assert forall i | 0 <= i < |b| :: b[i] == Retained(d)[|a| + i];
    LinesAreOrdered(a, 0);
    HighestIsLast(Lines(a), 0);
    var floor := Highest(Lines(a));
    if floor > 0 {
      var i :| 0 <= i < |Lines(a)| && Lines(a)[i].Whole? && Lines(a)[i].record.sequence == floor;
      WholeLinesAreRecords(a, Lines(a)[i]);
    }
    LinesAreOrdered(b, floor);
  }

  /** Scanning only the last lines of each file gives the same resume number as
      scanning everything if and only if the newest file that holds a readable
      record shows one within its last lines. */
  lemma {:induction false} WindowScanIsExact(d: Disk)
    requires Increasing(Retained(d)) && forall r | r in Retained(d) :: r.sequence > 0
    ensures
      var older, newer := Lines(Content(d.rotated)), Lines(Content(d.current));
      Resume(d) == ResumeFromEverything(d) <==>
        if HasWhole(newer) then HasWhole(Window(newer)) else HasWhole(older) ==> HasWhole(Window(older))
  {
    FilesAreOrdered(d);
    WindowOfOne(Lines(Content(d.rotated)), 0);
    WindowOfOne(Lines(Content(d.current)), Highest(Lines(Content(d.rotated))));
  }

  lemma {:induction false} ReadableLines(records: seq<Record>)
    requires forall r | r in records :: Readable(r)
    ensures |Lines(records)| == |records|
    ensures forall i | 0 <= i < |records| :: Lines(records)[i] == Whole(records[i])
  {
    if records != [] {
      var before := records[..|records| - 1];
      assert forall r | r in before :: r in records;
      assert records[|records| - 1] in records;
      ReadableLines(before);
    }
  }

  lemma {:induction false} ReadableWindow(records: seq<Record>)
    requires forall r | r in records :: Readable(r)
    ensures HasWhole(Lines(records)) <==> records != []
    ensures HasWhole(Window(Lines(records))) <==> records != []
  {
    ReadableLines(records);
    var window := Window(Lines(records));
    if records != [] {
      assert Lines(records)[|records| - 1].Whole? && window[|window| - 1] == Lines(records)[|records| - 1];
    }
  }

  /** When every retained record is readable, scanning the last 200 lines of each
      file yields the same resume number as scanning everything. */
  lemma {:induction false} ReadableScanIsExact(d: Disk)
    requires Increasing(Retained(d)) && forall r | r in Retained(d) :: r.sequence > 0 && Readable(r)
    ensures Resume(d) == ResumeFromEverything(d)
  {
    assert forall r | r in Content(d.rotated) :: r in Retained(d);
    assert forall r | r in Content(d.current) :: r in Retained(d);
    WindowScanIsExact(d);
    ReadableWindow(Content(d.rotated));
    ReadableWindow(Content(d.current));
  }

  // ---- Consecutive sequence numbers --------------------------------------

  ghost predicate Consecutive(logged: seq<Record>) {
    forall i | 0 <= i < |logged| :: logged[i].sequence == i + 1
  }

  /** The newest retained record can be read back (or nothing was retained). */
  predicate Resumable(d: Disk) {
    Retained(d) == [] || Readable(Retained(d)[|Retained(d)| - 1])
  }

  lemma {:induction false} HighestIsBounded(lines: seq<Line>, bound: nat)
    requires forall i | 0 <= i < |lines| && lines[i].Whole? :: lines[i].record.sequence <= bound
    ensures Highest(lines) <= bound
  {
    if lines != [] {
      HighestIsBounded(lines[..|lines| - 1], bound);
    }
  }

  /** No record of a file resumes beyond the highest readable sequence in it. */
  lemma {:induction false} WindowIsBounded(records: seq<Record>, bound: nat)
    requires forall r | r in records && Readable(r) :: r.sequence <= bound
    ensures Highest(Window(Lines(records))) <= bound
  {
    var window := Window(Lines(records));
    forall i | 0 <= i < |window| && window[i].Whole? ensures window[i].record.sequence <= bound {
      assert window[i] in Lines(records);
      WholeLinesAreRecords(records, window[i]);
    }
    HighestIsBounded(window, bound);
  }

  lemma {:induction false} ReadableLastIsSeen(records: seq<Record>)
    requires records != [] && Readable(records[|records| - 1])
    ensures Highest(Window(Lines(records))) >= records[|records| - 1].sequence
  {
    var window := Window(Lines(records));
    assert window[|window| - 1] == Whole(records[|records| - 1]);
  }

  /** Where the retained records sit in a consecutively numbered log. */
  lemma {:induction false} RetainedNumbers(d: Disk, logged: seq<Record>)
    requires Consecutive(logged) && IsSuffix(Retained(d), logged) && Content(d.current) != []
    ensures
      var a, b := Content(d.rotated), Content(d.current);
      && (forall r | r in a :: r.sequence < |logged|)
      && (forall i | 0 <= i < |b| :: b[i].sequence == |logged| - |b| + 1 + i)
  {
    var a, b, kept := Content(d.rotated), Content(d.current), Retained(d);
    assert forall i | 0 <= i < |kept| :: kept[i] == logged[|logged| - |kept| + i];
    assert forall i | 0 <= i < |a| :: a[i] == kept[i];
    assert forall i | 0 <= i < |b| :: b[i] == kept[|a| + i];
  }

  /** The resume number is the one after the newest record on disk if that record
      can be read back; otherwise it repeats a number already used. */
  lemma {:induction false} ResumeIsExact(d: Disk, logged: seq<Record>)
    requires Consecutive(logged) && IsSuffix(Retained(d), logged) && Content(d.current) != []
    ensures if Resumable(d) then Resume(d) == |logged| + 1 else 1 <= Resume(d) <= |logged|
  {
    RetainedNumbers(d, logged);
    WindowIsBounded(Content(d.rotated), |logged| - 1);
    CurrentResumes(Content(d.current), |logged|);
    NewestIsInCurrent(d);
  }

  lemma {:induction false} NewestIsInCurrent(d: Disk)
    requires Content(d.current) != []
    ensures Resumable(d) <==> Readable(Content(d.current)[|Content(d.current)| - 1])
  {
  }

  lemma {:induction false} CurrentResumes(b: seq<Record>, newest: nat)
    requires b != [] && newest >= 1 && forall i | 0 <= i < |b| :: b[i].sequence == newest - |b| + 1 + i
    ensures if Readable(b[|b| - 1]) then Highest(Window(Lines(b))) == newest else Highest(Window(Lines(b))) < newest
  {
    var last := b[|b| - 1];
    if Readable(last) {
      ReadableLastIsSeen(b);
      WindowIsBounded(b, newest);
    } else {
      forall r | r in b && Readable(r) ensures r.sequence <= newest - 1 {
        assert r != last;
      }
      WindowIsBounded(b, newest - 1);
    }
  }

  /** Every file operation succeeds, and a restart finds the newest record readable. */
  predicate Uneventful(st: State, e: Event) {
    match e
    case Output(_, _, _, io) => io == Io(true, true, true)
    case Restart(opens) => opens && Resumable(st.sink.disk)
  }

  ghost predicate UneventfulRun(budget: int, events: seq<Event>) {
    forall i | 0 <= i < |events| :: Uneventful(After(Fresh(), budget, events[..i]), events[i])
  }

  ghost predicate Numbered(st: State) {
    && Consecutive(st.logged) && st.sink.open && st.sink.sequence == |st.logged| + 1
    && (st.logged != [] ==> Content(st.sink.disk.current) != [])
  }

  lemma {:induction false} StepIsNumbered(st: State, budget: int, e: Event)
    requires Sound(st, budget) && Numbered(st) && Uneventful(st, e)
    ensures Numbered(Next(st, budget, e))
  {
    if e.Restart? && st.logged != [] {
      ResumeIsExact(st.sink.disk, st.logged);
    }
  }

  /** When file operations succeed and every restart finds the newest record
      readable, the log is numbered 1, 2, 3, ... without gap or repetition,
      across any number of rotations and restarts. */
  lemma {:induction false} NumberingIsConsecutive(budget: int, events: seq<Event>)
    requires UneventfulRun(budget, events)
    ensures Numbered(After(Fresh(), budget, events))
  {
    if events != [] {
      var before := events[..|events| - 1];
      assert forall i | 0 <= i < |before| :: before[..i] == events[..i];
      NumberingIsConsecutive(budget, before);
      RetainedIsASuffix(budget, before);
      StepIsNumbered(After(Fresh(), budget, before), budget, events[|events| - 1]);
    }
  }

  /** A restart goes on with the next free number if and only if the newest
      record can be read back; otherwise the next record repeats a number. */
  lemma {:induction false} RestartKeepsNumberingExactly(st: State, budget: int)
    requires Sound(st, budget) && Numbered(st)
    ensures
      var next := Next(st, budget, Restart(true));
      && (Numbered(next) <==> Resumable(st.sink.disk))
      && (!Resumable(st.sink.disk) ==>
            exists i | 0 <= i < |st.logged| :: st.logged[i].sequence == next.sink.sequence)
  {
    if st.logged != [] {
      ResumeIsExact(st.sink.disk, st.logged);
      if !Resumable(st.sink.disk) {
        var repeated := Resume(st.sink.disk);
        assert st.logged[repeated - 1].sequence == repeated;
      }
    }
  }
}

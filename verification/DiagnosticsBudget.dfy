/** When a file of the diagnostics log outgrows the byte budget that is meant to
    bound it. */
module DiagnosticsBudget {
  import opened Wrappers
  import opened DiagnosticsRecords
  import opened DiagnosticsLog

  predicate WithinBudget(d: Disk, budget: nat) {
    Size(Content(d.rotated)) <= budget && Size(Content(d.current)) <= budget
  }

  /** The writer is open when it comes to the write, and the write succeeds. */
  predicate Writes(sink: Sink, budget: nat, e: Event) {
    e.Output? && sink.open && (sink.bytesWritten < budget || e.io.reopens) && e.io.writes
  }

  /** What the current file holds just before the write: nothing if it was full and
      could be moved away. */
  function BytesBefore(sink: Sink, budget: nat, e: Event): nat
    requires e.Output?
  {
    if sink.bytesWritten >= budget && e.io.renames then 0 else sink.bytesWritten
  }

  /** A line that is written does not take its file over the budget. */
  predicate Fits(sink: Sink, budget: nat, e: Event) {
    Writes(sink, budget, e) ==>
      BytesBefore(sink, budget, e) + LineBytes(MakeRecord(sink.sequence, e.timestamp, e.stream, e.text)) <= budget
  }

  /** The size of the current file after a write. */
  lemma {:induction false} SizeAfterWrite(st: State, budget: nat, e: Event)
    requires Sound(st, budget) && Writes(st.sink, budget, e)
    ensures Size(Content(Next(st, budget, e).sink.disk.current)) ==
              BytesBefore(st.sink, budget, e) + LineBytes(MakeRecord(st.sink.sequence, e.timestamp, e.stream, e.text))
  {
    var room := MakeRoom(st.sink, budget, e.io);
    SizeOfAppended(Content(room.disk.current), MakeRecord(st.sink.sequence, e.timestamp, e.stream, e.text));
  }

  /** From a disk within the budget, one event keeps both files within it if and only
      if the line it writes fits. */
  lemma {:induction false} StepStaysWithinExactly(st: State, budget: nat, e: Event)
    requires Sound(st, budget) && WithinBudget(st.sink.disk, budget)
    ensures WithinBudget(Next(st, budget, e).sink.disk, budget) <==> Fits(st.sink, budget, e)
  {
    if Writes(st.sink, budget, e) {
      SizeAfterWrite(st, budget, e);
      RotatedAfterWrite(st, budget, e);
    } else {
      NothingWritten(st, budget, e);
    }
  }

  lemma {:induction false} RotatedAfterWrite(st: State, budget: nat, e: Event)
    requires WithinBudget(st.sink.disk, budget) && Writes(st.sink, budget, e)
    ensures Size(Content(Next(st, budget, e).sink.disk.rotated)) <= budget
  {
    RotatedContent(st.sink, e.io);
  }

  lemma {:induction false} NothingWritten(st: State, budget: nat, e: Event)
    requires WithinBudget(st.sink.disk, budget) && !Writes(st.sink, budget, e)
    ensures WithinBudget(Next(st, budget, e).sink.disk, budget)
  {
    if e.Output? {
      RotatedContent(st.sink, e.io);
    }
  }

  /** Both files are within the budget at every moment of the run. */
  ghost predicate NeverOver(budget: nat, events: seq<Event>) {
    && WithinBudget(After(Fresh(), budget, events).sink.disk, budget)
    && (events != [] ==> NeverOver(budget, events[..|events| - 1]))
  }

  /** Every line of the run fits when it is written. */
  ghost predicate AllFit(budget: nat, events: seq<Event>) {
    events != [] ==>
      && AllFit(budget, events[..|events| - 1])
      && Fits(After(Fresh(), budget, events[..|events| - 1]).sink, budget, events[|events| - 1])
  }

  /** Over every run, across rotations, restarts and failing file operations: both
      files stay within the budget throughout if and only if every line that is
      written fits into what its file still has room for. */
  lemma {:induction false} BudgetIsKeptExactly(budget: nat, events: seq<Event>)
    ensures NeverOver(budget, events) <==> AllFit(budget, events)
  {
    if events != [] {
      var before, e := events[..|events| - 1], events[|events| - 1];
      BudgetIsKeptExactly(budget, before);
      RetainedIsASuffix(budget, before);
      if NeverOver(budget, before) {
        StepStaysWithinExactly(After(Fresh(), budget, before), budget, e);
      }
    }
  }

  // ---- The budget is exceeded --------------------------------------------

  function Plain(timestamp: string, text: string): Event {
    Output(Stdout, text, timestamp, Io(true, true, true))
  }

  lemma {:induction false} OneCharMore(sequence: nat, timestamp: string)
    ensures LineBytes(MakeRecord(sequence, timestamp, Stdout, "x")) ==
              LineBytes(MakeRecord(sequence, timestamp, Stdout, "")) + 1
  {
    assert DiskLength("x") == DiskCost('x') + DiskLength("");
  }

  lemma {:induction false} AfterOneMore(budget: nat, events: seq<Event>, e: Event)
    ensures After(Fresh(), budget, events + [e]) == Next(After(Fresh(), budget, events), budget, e)
  {
    assert (events + [e])[..|events|] == events;
  }

  /** The current file has room for at most one more empty line. */
  ghost predicate AlmostFull(budget: nat, events: seq<Event>, timestamp: string) {
    var sink := After(Fresh(), budget, events).sink;
    && sink.open && (sink.bytesWritten < budget || budget == 0)
    && sink.bytesWritten + LineBytes(MakeRecord(sink.sequence, timestamp, Stdout, "")) >= budget
  }

  ghost predicate AllSucceed(events: seq<Event>) {
    forall e | e in events :: e.Output? && e.io == Io(true, true, true) && |e.text| <= 1
  }

  lemma {:induction false} Fill(budget: nat, timestamp: string, before: seq<Event>) returns (events: seq<Event>)
    requires AllSucceed(before)
    requires var sink := After(Fresh(), budget, before).sink; sink.open && (sink.bytesWritten < budget || budget == 0)
    ensures AllSucceed(events) && AlmostFull(budget, events, timestamp)
    decreases budget - After(Fresh(), budget, before).sink.bytesWritten
  {
    events := before;
    if !AlmostFull(budget, before, timestamp) {
      AfterOneMore(budget, before, Plain(timestamp, ""));
      events := Fill(budget, timestamp, before + [Plain(timestamp, "")]);
    }
  }

  /** Whatever the budget, short lines and file operations that all succeed are enough
      to take the current file over it. */
  lemma {:induction false} SomeRunExceeds(budget: nat, timestamp: string) returns (events: seq<Event>)
    ensures AllSucceed(events)
    ensures Size(Content(After(Fresh(), budget, events).sink.disk.current)) > budget
  {
    events := Fill(budget, timestamp, []);
    RetainedIsASuffix(budget, events);
    var st := After(Fresh(), budget, events);
    var line := LineBytes(MakeRecord(st.sink.sequence, timestamp, Stdout, ""));
    var last := Plain(timestamp, if st.sink.bytesWritten + line == budget then "x" else "");
    OneCharMore(st.sink.sequence, timestamp);
    SizeAfterWrite(st, budget, last);
    AfterOneMore(budget, events, last);
    events := events + [last];
  }
}

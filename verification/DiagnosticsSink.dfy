/** The sink object that captures one deployment's output: its fields change record
    by record, and each method is one of the specified transitions. */
module DiagnosticsSink {
  import opened Wrappers
  import opened DiagnosticsRecords
  import opened DiagnosticsLog

  /** The scan of one file's last lines, going on from what was found so far. */
  method ScanTail(lines: seq<Line>, start: nat) returns (highest: nat)
    ensures highest == Max(start, Highest(lines))
  {
    highest := start;
    for i := 0 to |lines|
      invariant highest == Max(start, Highest(lines[..i]))
    {
      assert lines[..i + 1][..i] == lines[..i];
      if lines[i].Whole? {
        highest := Max(highest, lines[i].record.sequence);
      }
    }
    assert lines[..|lines|] == lines;
  }

  /** `_resume_sequence`, scanning the rotated file and then the current one. */
  method ResumeSequence(disk: Disk) returns (next: nat)
    ensures next == Resume(disk)
  {
    var highest := ScanTail(Window(Lines(Content(disk.rotated))), 0);
    highest := ScanTail(Window(Lines(Content(disk.current))), highest);
    next := highest + 1;
  }

  class ServingDiagnostics {
    const budget: int
    var rotated: File
    var current: File
    var sequence: nat
    var bytesWritten: nat
    var open: bool
    var failed: bool
    ghost var logged: seq<Record>

    ghost function Model(): State
      reads this
    {
      State(Sink(Disk(rotated, current), sequence, bytesWritten, open, failed), logged)
    }

    /** A sink on the files it finds, with its writer started. */
    constructor (disk: Disk, opens: bool, budget: int, ghost logged: seq<Record>)
      ensures Model() == State(Opened(disk, opens), logged) && this.budget == budget
      ensures rotated == disk.rotated && Content(current) == Content(disk.current) && open == opens
    {
      var next := ResumeSequence(disk);
      this.budget := budget;
      this.logged := logged;
      rotated := disk.rotated;
      current := if opens then Some(Content(disk.current)) else disk.current;
      sequence := next;
      bytesWritten := Size(Content(disk.current));
      open := opens;
      failed := !opens;
    }

    method Rotate(io: Io)
      modifies this
      ensures Model() == old(Model()).(sink := Rotated(old(Model()).sink, io))
      ensures rotated == if io.renames && old(current).Some? then old(current) else old(rotated)
      ensures Content(current) == if io.renames then [] else Content(old(current))
      ensures open == io.reopens && sequence == old(sequence) && logged == old(logged)
    {
      if io.renames {
        if current.Some? {
          rotated, current := current, None;
        }
      } else {
        failed := true;
      }
      if io.reopens {
        current := Some(Content(current));
      } else {
        failed := true;
      }
      open := io.reopens;
      bytesWritten := Size(Content(current));
    }

    method MakeNext(stream: Stream, text: string, timestamp: string) returns (r: Record)
      modifies this`sequence
      ensures r == MakeRecord(old(sequence), timestamp, stream, text) && sequence == old(sequence) + 1
    {
      r := MakeRecord(sequence, timestamp, stream, text);
      sequence := sequence + 1;
    }

    /** One item of the queue: a closed sink drops it; an open one moves a full file away
        first, and appends the whole text, cut at the limit, under the next number. */
    method Handle(stream: Stream, text: string, timestamp: string, io: Io)
      modifies this
      ensures Model() == Next(old(Model()), budget, Output(stream, text, timestamp, io))
      ensures !old(open) ==> Model() == old(Model())
      ensures open <==> old(open) && (old(bytesWritten) < budget || io.reopens)
      ensures rotated == if old(open) && old(bytesWritten) >= budget && io.renames && old(current).Some?
                         then old(current) else old(rotated)
      ensures open && io.writes ==>
                current.Some? && current.value != [] &&
                var r := current.value[|current.value| - 1];
                && current.value[..|current.value| - 1] ==
                     (if old(bytesWritten) >= budget && io.renames then [] else Content(old(current)))
                && logged == old(logged) + [r] && sequence == old(sequence) + 1
                && r.sequence == old(sequence) && r.timestamp == timestamp && r.stream == stream
                && r.message == (if |text| <= MAX_LINE_CHARS then text else text[..MAX_LINE_CHARS])
                && (r.truncated <==> |text| > MAX_LINE_CHARS)
      ensures !open || !io.writes ==> logged == old(logged)
    {
      if !open {
        return;
      }
      if bytesWritten >= budget {
        Rotate(io);
        if !open {
          return;
        }
      }
      var r := MakeNext(stream, text, timestamp);
      Append(r, io.writes);
    }

    method Append(r: Record, writes: bool)
      modifies this`current, this`bytesWritten, this`failed, this`logged
      ensures if writes
              then current == Some(Content(old(current)) + [r]) && bytesWritten == old(bytesWritten) + LineBytes(r)
                   && logged == old(logged) + [r] && failed == old(failed)
              else current == old(current) && bytesWritten == old(bytesWritten) && logged == old(logged) && failed
    {
      if !writes {
        failed := true;
        return;
      }
      current := Some(Content(current) + [r]);
      logged := logged + [r];
      bytesWritten := bytesWritten + LineBytes(r);
    }

    /** `_drain` over the items queued before the sink is closed: the object ends in
        the state the run of those outputs defines, still a suffix of the whole log. */
    method Drain(items: seq<Event>)
      requires forall i | 0 <= i < |items| :: items[i].Output?
      requires Sound(Model(), budget)
      modifies this
      ensures Model() == After(old(Model()), budget, items)
      ensures Sound(Model(), budget)
    {
      for i := 0 to |items|
        invariant Model() == After(old(Model()), budget, items[..i])
        invariant Sound(Model(), budget)
      {
        var e := items[i];
        assert items[..i + 1][..i] == items[..i];
        StepIsSound(Model(), budget, e);
        Handle(e.stream, e.text, e.timestamp, e.io);
      }
      assert items[..|items|] == items;
    }
  }
}

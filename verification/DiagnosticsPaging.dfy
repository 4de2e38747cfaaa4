/** Reading the diagnostics log page by page. */
module DiagnosticsPaging {
  import opened Wrappers
  import opened DiagnosticsRecords
  import opened DiagnosticsLog

  const PAGE_LIMIT: nat := 500

  /** The records after one sequence, in file order. */
  function Newer(lines: seq<Line>, after: int): seq<Record> {
    if lines == [] then []
    else
      var line := lines[|lines| - 1];
      Newer(lines[..|lines| - 1], after)
      + if line.Whole? && line.record.sequence > after then [line.record] else []
  }

  function JsonSum(items: seq<Record>): nat {
    if items == [] then 0 else JsonSum(items[..|items| - 1]) + JsonChars(items[|items| - 1])
  }

  /** Length of the page as a compact JSON array. */
  function PageChars(items: seq<Record>): nat {
    2 + JsonSum(items) + if items == [] then 0 else |items| - 1
  }

  function Trimmed(items: seq<Record>): (kept: seq<Record>)
    ensures kept <= items && PageChars(kept) <= Max(PAGE_MAX_CHARS, 2)
  {
    if items != [] && PageChars(items) > PAGE_MAX_CHARS then Trimmed(items[..|items| - 1]) else items
  }

  function Bound(limit: int): (n: nat)
    ensures 1 <= n <= PAGE_LIMIT
  {
    if limit < 1 then 1 else if limit > PAGE_LIMIT then PAGE_LIMIT else limit
  }

  function Taken(items: seq<Record>, n: nat): seq<Record> {
    if |items| <= n then items else items[..n]
  }

  /** The page of `lines` after one sequence. */
  function PageOf(lines: seq<Line>, after: int, limit: int): seq<Record> {
    Trimmed(Taken(Newer(lines, after), Bound(limit)))
  }

  /** `page`, given the lines of the two files as they were read: as many of the newer
      records, from the first on, as the limit, clamped to 1..500, and one MiB allow. */
  method Page(rotated: seq<Line>, current: seq<Line>, after: int, limit: int) returns (items: seq<Record>)
    ensures items == PageOf(rotated + current, after, limit)
    ensures LargestPage(items, Newer(rotated + current, after),
                        if limit < 1 then 1 else if limit > PAGE_LIMIT then PAGE_LIMIT else limit)
  {
    LargestPageIsTaken(rotated + current, after, limit);
    items := [];
    var lines := rotated + current;
    for i := 0 to |lines|
      invariant items == Newer(lines[..i], after)
    {
      assert lines[..i + 1][..i] == lines[..i];
      if lines[i].Whole? && lines[i].record.sequence > after {
        items := items + [lines[i].record];
      }
    }
    assert lines[..|lines|] == lines;
    items := Taken(items, Bound(limit));
    while items != [] && PageChars(items) > PAGE_MAX_CHARS
      invariant Trimmed(items) == PageOf(lines, after, limit)
      decreases |items|
    {
      items := items[..|items| - 1];
    }
  }

  /** `items` begins `all`, holds no more than `n` records and one MiB, and could not hold
      one record more. */
  predicate LargestPage(items: seq<Record>, all: seq<Record>, n: nat) {
    && items <= all && |items| <= n
    && (items == [] || PageChars(items) <= PAGE_MAX_CHARS)
    && (|items| == n || items == all || PageChars(all[..|items| + 1]) > PAGE_MAX_CHARS)
  }

  lemma {:induction false} LargestPageIsTaken(lines: seq<Line>, after: int, limit: int)
    ensures LargestPage(PageOf(lines, after, limit), Newer(lines, after),
                        if limit < 1 then 1 else if limit > PAGE_LIMIT then PAGE_LIMIT else limit)
  {
    var all, n := Newer(lines, after), Bound(limit);
    var taken := Taken(all, n);
    TrimmedIsLargest(taken);
    var items := Trimmed(taken);
    assert taken <= all;
    if items != taken {
      assert all[..|items| + 1] == taken[..|items| + 1];
    }
  }

  lemma {:induction false} TrimmedIsLargest(items: seq<Record>)
    ensures Trimmed(items) <= items
    ensures Trimmed(items) != items ==> PageChars(items[..|Trimmed(items)| + 1]) > PAGE_MAX_CHARS
  {
    if items != [] && PageChars(items) > PAGE_MAX_CHARS {
      var before := items[..|items| - 1];
      TrimmedIsLargest(before);
      if Trimmed(before) != before {
        assert before[..|Trimmed(before)| + 1] == items[..|Trimmed(before)| + 1];
      } else {
        assert items[..|items|] == items;
      }
    }
  }

  /** `nextSequence` of the response. */
  function NextSequence(items: seq<Record>, after: int): int {
    if items == [] then after else items[|items| - 1].sequence
  }

  lemma {:induction false} NewerAreAfter(lines: seq<Line>, after: int, r: Record)
    requires r in Newer(lines, after)
    ensures r.sequence > after && Whole(r) in lines
  {
    if lines != [] && r in Newer(lines[..|lines| - 1], after) {
      NewerAreAfter(lines[..|lines| - 1], after, r);
    }
  }

  lemma {:induction false} WholeLinesAreNewer(lines: seq<Line>, after: int, r: Record)
    requires Whole(r) in lines && r.sequence > after
    ensures r in Newer(lines, after)
  {
    var last := lines[|lines| - 1];
    if last != Whole(r) {
      assert Whole(r) in lines[..|lines| - 1];
      WholeLinesAreNewer(lines[..|lines| - 1], after, r);
    }
  }

  /** Moving the start past `later` keeps exactly the records above it. */
  function Above(records: seq<Record>, after: int): seq<Record> {
    if records == [] then []
    else
      Above(records[..|records| - 1], after)
      + if records[|records| - 1].sequence > after then [records[|records| - 1]] else []
  }

  lemma {:induction false} NewerOfNewer(lines: seq<Line>, after: int, later: int)
    requires after <= later
    ensures Newer(lines, later) == Above(Newer(lines, after), later)
  {
    if lines != [] {
      var before := lines[..|lines| - 1];
      NewerOfNewer(before, after, later);
      var line := lines[|lines| - 1];
      if line.Whole? && line.record.sequence > after {
        var grown := Newer(before, after) + [line.record];
        assert grown[..|grown| - 1] == Newer(before, after);
      } else {
        assert Newer(lines, after) == Newer(before, after);
        assert Newer(lines, later) == Newer(before, later);
      }
    }
  }

  lemma {:induction false} AboveAnElement(records: seq<Record>, k: nat)
    requires Increasing(records) && k < |records|
    ensures Above(records, records[k].sequence) == records[k + 1..]
  {
    var before := records[..|records| - 1];
    if k == |records| - 1 {
      NothingAbove(before, records[k].sequence);
    } else {
      AboveAnElement(before, k);
      assert before[k + 1..] + [records[|records| - 1]] == records[k + 1..];
    }
  }

  lemma {:induction false} NothingAbove(records: seq<Record>, bound: int)
    requires forall r | r in records :: r.sequence <= bound
    ensures Above(records, bound) == []
  {
    if records != [] {
      assert records[|records| - 1] in records;
      NothingAbove(records[..|records| - 1], bound);
    }
  }

  lemma {:induction false} NewerIsIncreasing(lines: seq<Line>, floor: nat, after: int)
    requires Ordered(lines, floor)
    ensures Increasing(Newer(lines, after))
  {
    if lines != [] {
      var before := lines[..|lines| - 1];
      NewerIsIncreasing(before, floor, after);
      var line := lines[|lines| - 1];
      forall r | r in Newer(before, after) && line.Whole? ensures r.sequence < line.record.sequence {
        NewerAreAfter(before, after, r);
      }
    }
  }

  // ---- One page ----------------------------------------------------------

  /** Every retained record fits a page by itself. */
  ghost predicate AllFit(lines: seq<Line>) {
    forall r | Whole(r) in lines :: JsonChars(r) + 2 <= PAGE_MAX_CHARS
  }

  lemma {:induction false} TrimmingKeepsOne(items: seq<Record>)
    requires items != [] && JsonChars(items[0]) + 2 <= PAGE_MAX_CHARS
    ensures Trimmed(items) != []
  {
    if |items| == 1 {
      assert items[..0] == [];
    } else {
      TrimmingKeepsOne(items[..|items| - 1]);
    }
  }

  /** A page is empty only when nothing is left to read; otherwise it is the
      beginning of what is left, within both limits. */
  lemma {:induction false} PageIsAPrefix(lines: seq<Line>, after: int, limit: int)
    requires AllFit(lines)
    ensures
      var items := PageOf(lines, after, limit);
      && items <= Newer(lines, after)
      && (items == [] <==> Newer(lines, after) == [])
      && |items| <= PAGE_LIMIT && PageChars(items) <= PAGE_MAX_CHARS
  {
    var all := Newer(lines, after);
    if all != [] {
      NewerAreAfter(lines, after, all[0]);
      TrimmingKeepsOne(Taken(all, Bound(limit)));
    }
  }

  // ---- Paging to the end -------------------------------------------------

  lemma {:induction false} PagingMovesOn(lines: seq<Line>, after: int, limit: int)
    requires PageOf(lines, after, limit) != []
    ensures NextSequence(PageOf(lines, after, limit), after) > after
    ensures |Newer(lines, NextSequence(PageOf(lines, after, limit), after))| < |Newer(lines, after)|
  {
    var items, all := PageOf(lines, after, limit), Newer(lines, after);
    var r := items[|items| - 1];
    assert r in all;
    NewerAreAfter(lines, after, r);
    NewerOfNewer(lines, after, r.sequence);
    AboveLosesOne(all, r);
  }

  lemma {:induction false} AboveLosesOne(records: seq<Record>, r: Record)
    requires r in records
    ensures |Above(records, r.sequence)| < |records|
  {
    var before := records[..|records| - 1];
    if r in before {
      AboveLosesOne(before, r);
    } else {
      AboveIsNoLonger(before, r.sequence);
    }
  }

  lemma {:induction false} AboveIsNoLonger(records: seq<Record>, bound: int)
    ensures |Above(records, bound)| <= |records|
  {
    if records != [] {
      AboveIsNoLonger(records[..|records| - 1], bound);
    }
  }

  /** What a client collects by feeding `nextSequence` back until a page is empty. */
  function Collected(lines: seq<Line>, after: int, limit: int): seq<Record>
    decreases |Newer(lines, after)|
  {
    var items := PageOf(lines, after, limit);
    if items == [] then []
    else
      PagingMovesOn(lines, after, limit);
      items + Collected(lines, NextSequence(items, after), limit)
  }

  /** Paging terminates and returns every readable record after the start exactly
      once, in order. */
  lemma {:induction false} PagingIsComplete(lines: seq<Line>, floor: nat, after: int, limit: int)
    requires Ordered(lines, floor) && AllFit(lines)
    ensures Collected(lines, after, limit) == Newer(lines, after)
    decreases |Newer(lines, after)|
  {
    var items, all := PageOf(lines, after, limit), Newer(lines, after);
    PageIsAPrefix(lines, after, limit);
    if items != [] {
      PagingMovesOn(lines, after, limit);
      PagingIsComplete(lines, floor, items[|items| - 1].sequence, limit);
      NewerIsIncreasing(lines, floor, after);
      RestAfterPage(lines, after, items);
    }
  }

  lemma {:induction false} RestAfterPage(lines: seq<Line>, after: int, items: seq<Record>)
    requires items <= Newer(lines, after) && items != [] && Increasing(Newer(lines, after))
    requires items[|items| - 1].sequence > after
    ensures items + Newer(lines, items[|items| - 1].sequence) == Newer(lines, after)
  {
    var all, last := Newer(lines, after), |items| - 1;
    assert items[last] == all[last];
    NewerOfNewer(lines, after, items[last].sequence);
    AboveAnElement(all, last);
    assert items + all[|items|..] == all;
  }

  // ---- Paging over the log of a run --------------------------------------

  lemma {:induction false} SplitLines(older: seq<Record>, newer: seq<Record>)
    ensures Lines(older + newer) == Lines(older) + Lines(newer)
  {
    if newer == [] {
      assert older + newer == older;
    } else {
      assert (older + newer)[..|older + newer| - 1] == older + newer[..|newer| - 1];
      SplitLines(older, newer[..|newer| - 1]);
    }
  }

  /** What a reader can see of an orderly log: in order, and each record fits. */
  lemma {:induction false} RetainedPartIsReadable(part: seq<Record>, logged: seq<Record>)
    requires Consecutive(logged) && IsSuffix(part, logged) && Digits(|logged|) <= 900000
    requires forall r | r in logged :: Bounded(r)
    ensures Ordered(Lines(part), 0) && AllFit(Lines(part))
  {
    var skip := |logged| - |part|;
    assert forall i | 0 <= i < |part| :: part[i] == logged[skip + i];
    LinesAreOrdered(part, 0);
    forall r | Whole(r) in Lines(part) ensures JsonChars(r) + 2 <= PAGE_MAX_CHARS {
      WholeLinesAreRecords(part, Whole(r));
      DigitsGrow(r.sequence, |logged|);
      OneRecordFitsAPage(r);
    }
  }

  /** After any run whose restarts find the newest record readable, feeding
      `nextSequence` back returns every readable retained record after the start
      exactly once, in order. */
  lemma {:induction false} RunPagesCompletely(budget: int, events: seq<Event>, after: int, limit: int)
    requires UneventfulRun(budget, events)
    requires forall i | 0 <= i < |events| && events[i].Output? :: |events[i].timestamp| <= MAX_TIMESTAMP_CHARS
    requires Digits(|After(Fresh(), budget, events).logged|) <= 900000
    ensures
      var lines := Lines(Retained(After(Fresh(), budget, events).sink.disk));
      Collected(lines, after, limit) == Newer(lines, after) && Increasing(Newer(lines, after))
  {
    var st := After(Fresh(), budget, events);
    NumberingIsConsecutive(budget, events);
    RetainedIsASuffix(budget, events);
    LoggedAreBounded(budget, events);
    RetainedPartIsReadable(Retained(st.sink.disk), st.logged);
    PagingIsComplete(Lines(Retained(st.sink.disk)), 0, after, limit);
    NewerIsIncreasing(Lines(Retained(st.sink.disk)), 0, after);
  }

  // ---- A page taken while the writer works -------------------------------

  /** Sequences grow through everything logged, and the next one is above them all. */
  ghost predicate Ahead(st: State) {
    Increasing(st.logged) && forall r | r in st.logged :: 0 < r.sequence < st.sink.sequence
  }

  ghost predicate AllOutput(events: seq<Event>) {
    forall i | 0 <= i < |events| :: events[i].Output?
  }

  /** Where the current file begins in everything logged. */
  function CurrentStart(st: State): int {
    |st.logged| - |Content(st.sink.disk.current)|
  }

  ghost predicate Working(st: State, budget: int) {
    Sound(st, budget) && Ahead(st) && st.sink.sequence > 0
  }

  /** `later` has everything `st` logged, and its current file begins no earlier. */
  ghost predicate Grew(st: State, later: State) {
    st.logged <= later.logged && CurrentStart(st) <= CurrentStart(later)
  }

  lemma {:induction false} LoggingStaysAhead(st: State, budget: int, r: Record, io: Io)
    requires Ahead(st) && r.sequence == st.sink.sequence > 0
    ensures Ahead(Logged(st, budget, r, io)) && st.sink.sequence <= Logged(st, budget, r, io).sink.sequence
  {
  }

  lemma {:induction false} WritingStaysAhead(st: State, budget: int, events: seq<Event>)
    requires Ahead(st) && st.sink.sequence > 0 && AllOutput(events)
    ensures Ahead(After(st, budget, events)) && After(st, budget, events).sink.sequence > 0
  {
    if events != [] {
      WritingStaysAhead(st, budget, events[..|events| - 1]);
      var middle, e := After(st, budget, events[..|events| - 1]), events[|events| - 1];
      LoggingStaysAhead(middle, budget, MakeRecord(middle.sink.sequence, e.timestamp, e.stream, e.text), e.io);
    }
  }

  lemma {:induction false} RunIsSound(st: State, budget: int, events: seq<Event>)
    requires Sound(st, budget)
    ensures Sound(After(st, budget, events), budget)
  {
    if events != [] {
      RunIsSound(st, budget, events[..|events| - 1]);
      StepIsSound(After(st, budget, events[..|events| - 1]), budget, events[|events| - 1]);
    }
  }

  /** The writer finds its file full and moves it, with at least one record, away. */
  predicate MovesAway(st: State, budget: int, e: Event) {
    && e.Output? && st.sink.open && st.sink.bytesWritten >= budget && e.io.renames
    && Content(st.sink.disk.current) != []
  }

  lemma {:induction false} StepGrows(st: State, budget: int, e: Event)
    requires e.Output?
    ensures Grew(st, Next(st, budget, e))
    ensures CurrentStart(st) == CurrentStart(Next(st, budget, e)) <==> !MovesAway(st, budget, e)
  {
  }

  lemma {:induction false} GrowthIsTransitive(a: State, b: State, c: State)
    requires Grew(a, b) && Grew(b, c)
    ensures Grew(a, c)
  {
  }

  /** While only the writer runs, the log grows at its end and the current file
      never begins earlier. */
  lemma {:induction false} WritingGrows(st: State, budget: int, events: seq<Event>)
    requires AllOutput(events)
    ensures Grew(st, After(st, budget, events))
  {
    if events != [] {
      var middle := After(st, budget, events[..|events| - 1]);
      WritingGrows(st, budget, events[..|events| - 1]);
      StepGrows(middle, budget, events[|events| - 1]);
      GrowthIsTransitive(st, middle, Next(middle, budget, events[|events| - 1]));
    }
  }

  /** Some event moves the current file away. */
  ghost predicate FileMoved(st: State, budget: int, events: seq<Event>) {
    exists i | 0 <= i < |events| :: MovesAway(After(st, budget, events[..i]), budget, events[i])
  }

  lemma {:induction false} FileMovedByLast(st: State, budget: int, before: seq<Event>, e: Event)
    ensures FileMoved(st, budget, before + [e]) <==>
              FileMoved(st, budget, before) || MovesAway(After(st, budget, before), budget, e)
  {
    var events := before + [e];
    assert forall i | 0 <= i <= |before| :: events[..i] == before[..i];
    assert before[..|before|] == before && events[|before|] == e;
    assert forall i | 0 <= i < |before| :: events[i] == before[i];
  }

  /** The current file begins where it did if and only if no event moved it away. */
  lemma {:induction false} CurrentStaysExactly(st: State, budget: int, events: seq<Event>)
    requires AllOutput(events)
    ensures CurrentStart(After(st, budget, events)) == CurrentStart(st) <==> !FileMoved(st, budget, events)
  {
    if events != [] {
      var before, e := events[..|events| - 1], events[|events| - 1];
      assert before + [e] == events;
      CurrentStaysExactly(st, budget, before);
      WritingGrows(st, budget, before);
      StepGrows(After(st, budget, before), budget, e);
      FileMovedByLast(st, budget, before, e);
    }
  }

  /** What a page misses when the rotated file is read in one state and the current
      file in a later one: everything logged between the two parts. */
  ghost function Gap(earlier: State, later: State): seq<Record>
    requires 0 <= CurrentStart(earlier) <= CurrentStart(later) <= |later.logged|
  {
    later.logged[CurrentStart(earlier)..CurrentStart(later)]
  }

  /** The two files are the two stretches of the log that end it. */
  ghost predicate EndsItsLog(st: State) {
    var a, b := Content(st.sink.disk.rotated), Content(st.sink.disk.current);
    && 0 <= CurrentStart(st) - |a|
    && st.logged[CurrentStart(st) - |a|..CurrentStart(st)] == a && st.logged[CurrentStart(st)..] == b
  }

  lemma {:induction false} SoundEndsItsLog(st: State, budget: int)
    requires Sound(st, budget)
    ensures EndsItsLog(st)
  {
    var a, b := Content(st.sink.disk.rotated), Content(st.sink.disk.current);
    var kept := st.logged[|st.logged| - |a + b|..];
    assert kept == a + b && kept[|a|..] == b && kept[..|a|] == a;
  }

  /** The two parts with the gap between them are the end of the log. */
  lemma {:induction false} MixedViewIsTheLogWithoutItsGap(earlier: State, later: State)
    requires EndsItsLog(earlier) && EndsItsLog(later) && Grew(earlier, later)
    ensures 0 <= CurrentStart(earlier) <= CurrentStart(later) <= |later.logged|
    ensures IsSuffix(Content(earlier.sink.disk.rotated) + Gap(earlier, later) + Content(later.sink.disk.current),
              later.logged)
  {
    var a := Content(earlier.sink.disk.rotated);
    Glue(a, Content(later.sink.disk.current), earlier.logged, later.logged,
         CurrentStart(earlier) - |a|, CurrentStart(earlier), CurrentStart(later));
  }

  lemma {:induction false} Glue<T>(a: seq<T>, b: seq<T>, short: seq<T>, long: seq<T>, from: nat, i: nat, j: nat)
    requires short <= long && from <= i <= |short| && i <= j <= |long|
    requires a == short[from..i] && b == long[j..]
    ensures IsSuffix(a + long[i..j] + b, long)
  {
    assert short[from..i] == long[from..i];
    assert long[from..] == long[from..i] + long[i..j] + long[j..];
  }

  /** If rotations fall between the two file reads, a page is still strictly
      increasing, and so free of duplicates. */
  lemma {:induction false} MixedPageIsIncreasing(st: State, budget: int, events: seq<Event>, after: int, limit: int)
    requires Working(st, budget) && AllOutput(events)
    ensures Increasing(MixedPage(st, After(st, budget, events), after, limit))
  {
    var later := After(st, budget, events);
    assert Working(later, budget) by {
      WritingStaysAhead(st, budget, events);
      RunIsSound(st, budget, events);
    }
    WritingGrows(st, budget, events);
    AnyMixedPageIsIncreasing(st, later, budget, after, limit);
  }

  /** Such a page sees the end of the log without one gap, and the gap is empty if and
      only if no event between the two reads moved the current file away. */
  lemma {:induction false} MixedPageMissesTheGap(st: State, budget: int, events: seq<Event>)
    requires Sound(st, budget) && AllOutput(events)
    ensures
      var later := After(st, budget, events);
      && 0 <= CurrentStart(st) <= CurrentStart(later) <= |later.logged|
      && IsSuffix(Content(st.sink.disk.rotated) + Gap(st, later) + Content(later.sink.disk.current), later.logged)
      && (Gap(st, later) == [] <==> !FileMoved(st, budget, events))
  {
    RunIsSound(st, budget, events);
    WritingGrows(st, budget, events);
    SoundEndsItsLog(st, budget);
    SoundEndsItsLog(After(st, budget, events), budget);
    MixedViewIsTheLogWithoutItsGap(st, After(st, budget, events));
    CurrentStaysExactly(st, budget, events);
  }

  /** The lines of such a page. */
  function MixedLines(earlier: State, later: State): seq<Line> {
    Lines(Content(earlier.sink.disk.rotated)) + Lines(Content(later.sink.disk.current))
  }

  lemma {:induction false} ReadableRecordsAreLines(records: seq<Record>, r: Record)
    ensures Whole(r) in Lines(records) <==> r in records && Readable(r)
  {
    if records != [] {
      ReadableRecordsAreLines(records[..|records| - 1], r);
    }
  }

  /** A record is in one of the two stretches around a gap, or in the gap, but not in
      both, when all sequences differ. */
  lemma {:induction false} GapIsApart(a: seq<Record>, gap: seq<Record>, b: seq<Record>, logged: seq<Record>, r: Record)
    requires IsSuffix(a + gap + b, logged) && Increasing(logged) && r in a + gap + b
    ensures r in a + b <==> r !in gap
  {
    assert r in a + b || r in gap;
    if r in gap {
      GapIsBetween(a, gap, b, logged, r, r);
    }
  }

  /** What was retained at the first read lies before the gap or in it or after it. */
  lemma {:induction false} RetainedIsAround(earlier: State, later: State, r: Record)
    requires EndsItsLog(earlier) && EndsItsLog(later) && Grew(earlier, later)
    requires r in Retained(earlier.sink.disk)
    ensures r in Content(earlier.sink.disk.rotated) + Gap(earlier, later) + Content(later.sink.disk.current)
  {
    var b := Content(earlier.sink.disk.current);
    if r in b {
      var i :| 0 <= i < |b| && b[i] == r;
      var place := CurrentStart(earlier) + i;
      assert earlier.logged[CurrentStart(earlier)..][i] == earlier.logged[place] == later.logged[place] == r;
      if place < CurrentStart(later) {
        assert Gap(earlier, later)[i] == r;
      } else {
        assert later.logged[CurrentStart(later)..][place - CurrentStart(later)] == r;
      }
    }
  }

  /** A readable record that was retained at the first read is among the lines read
      across rotations if and only if it does not lie in the gap. */
  lemma {:induction false} RetainedRecordIsReadExactly(st: State, budget: int, events: seq<Event>, after: int,
                                                       r: Record)
    requires Working(st, budget) && AllOutput(events)
    requires r in Retained(st.sink.disk) && Readable(r) && r.sequence > after
    ensures
      var later := After(st, budget, events);
      && 0 <= CurrentStart(st) <= CurrentStart(later) <= |later.logged|
      && (r in Newer(MixedLines(st, later), after) <==> r !in Gap(st, later))
  {
    WriterWorksOn(st, budget, events);
    ReadExactly(st, After(st, budget, events), budget, after, r);
  }

  lemma {:induction false} WriterWorksOn(st: State, budget: int, events: seq<Event>)
    requires Working(st, budget) && AllOutput(events)
    ensures Working(After(st, budget, events), budget) && Grew(st, After(st, budget, events))
  {
    WritingStaysAhead(st, budget, events);
    RunIsSound(st, budget, events);
    WritingGrows(st, budget, events);
  }

  lemma {:induction false} ReadExactly(earlier: State, later: State, budget: int, after: int, r: Record)
    requires Working(earlier, budget) && Working(later, budget) && Grew(earlier, later)
    requires r in Retained(earlier.sink.disk) && Readable(r) && r.sequence > after
    ensures 0 <= CurrentStart(earlier) <= CurrentStart(later) <= |later.logged|
    ensures r in Newer(MixedLines(earlier, later), after) <==> r !in Gap(earlier, later)
  {
    var a, b := Content(earlier.sink.disk.rotated), Content(later.sink.disk.current);
    assert EndsItsLog(earlier) && EndsItsLog(later) by {
      SoundEndsItsLog(earlier, budget);
      SoundEndsItsLog(later, budget);
    }
    MixedViewIsTheLogWithoutItsGap(earlier, later);
    RetainedIsAround(earlier, later, r);
    GapIsApart(a, Gap(earlier, later), b, later.logged, r);
    LinesOfMixedView(a, b, after, r);
  }

  /** The page ends with a record of the file that was read second. */
  predicate EndsIn(page: seq<Record>, second: seq<Record>) {
    page != [] && page[|page| - 1] in second
  }

  /** What a caller never sees: a readable record that was retained at the first read
      is left out of a page and passed by `nextSequence` if and only if it lies in the
      gap and the page, cut to its limits, still ends with a record of the current
      file. */
  lemma {:induction false} RetainedRecordIsPassedByExactly(st: State, budget: int, events: seq<Event>, after: int,
                                                           limit: int, r: Record)
    requires Working(st, budget) && AllOutput(events)
    requires r in Retained(st.sink.disk) && Readable(r) && r.sequence > after
    ensures
      var later := After(st, budget, events);
      var page := MixedPage(st, later, after, limit);
      && 0 <= CurrentStart(st) <= CurrentStart(later) <= |later.logged|
      && (r !in page && r.sequence <= NextSequence(page, after) <==>
            r in Gap(st, later) && EndsIn(page, Content(later.sink.disk.current)))
  {
    WriterWorksOn(st, budget, events);
    AnyRecordIsPassedByExactly(st, After(st, budget, events), budget, after, limit, r);
  }

  lemma {:induction false} AnyRecordIsPassedByExactly(earlier: State, later: State, budget: int, after: int, limit: int,
                                                      r: Record)
    requires Working(earlier, budget) && Working(later, budget) && Grew(earlier, later)
    requires r in Retained(earlier.sink.disk) && Readable(r) && r.sequence > after
    ensures 0 <= CurrentStart(earlier) <= CurrentStart(later) <= |later.logged|
    ensures
      var page := MixedPage(earlier, later, after, limit);
      r !in page && r.sequence <= NextSequence(page, after) <==>
        r in Gap(earlier, later) && EndsIn(page, Content(later.sink.disk.current))
  {
    var items, page := Newer(MixedLines(earlier, later), after), MixedPage(earlier, later, after, limit);
    PageBegins(MixedLines(earlier, later), after, limit);
    ReadExactly(earlier, later, budget, after, r);
    MixedLinesAreOrdered(earlier, later, budget, after);
    PassedByExactly(Content(earlier.sink.disk.rotated), Gap(earlier, later), Content(later.sink.disk.current),
                    later.logged, items, page, after, r);
  }

  lemma {:induction false} PageBegins(lines: seq<Line>, after: int, limit: int)
    ensures PageOf(lines, after, limit) <= Newer(lines, after)
  {
  }

  /** `items` are, in order, records of the two parts around a gap in the log. */
  ghost predicate DrawnFrom(items: seq<Record>, a: seq<Record>, gap: seq<Record>, b: seq<Record>, logged: seq<Record>) {
    && IsSuffix(a + gap + b, logged) && Increasing(logged)
    && Increasing(items) && forall r | r in items :: r in a + b
  }

  lemma {:induction false} MixedLinesAreOrdered(earlier: State, later: State, budget: int, after: int)
    requires Working(earlier, budget) && Working(later, budget) && Grew(earlier, later)
    ensures 0 <= CurrentStart(earlier) <= CurrentStart(later) <= |later.logged|
    ensures DrawnFrom(Newer(MixedLines(earlier, later), after), Content(earlier.sink.disk.rotated), Gap(earlier, later),
                      Content(later.sink.disk.current), later.logged)
  {
    var a, b := Content(earlier.sink.disk.rotated), Content(later.sink.disk.current);
    SoundEndsItsLog(earlier, budget);
    SoundEndsItsLog(later, budget);
    MixedViewIsTheLogWithoutItsGap(earlier, later);
    MixedViewIsIncreasing(a, Gap(earlier, later), b, later.logged);
    NewerOfTwoParts(a, b, after);
  }

  lemma {:induction false} NewerOfTwoParts(a: seq<Record>, b: seq<Record>, after: int)
    requires Increasing(a + b) && forall r | r in a + b :: r.sequence > 0
    ensures Increasing(Newer(Lines(a) + Lines(b), after))
    ensures forall r | r in Newer(Lines(a) + Lines(b), after) :: r in a + b
  {
    SplitLines(a, b);
    LinesAreOrdered(a + b, 0);
    NewerIsIncreasing(Lines(a + b), 0, after);
    forall r | r in Newer(Lines(a) + Lines(b), after) ensures r in a + b {
      NewerAreAfter(Lines(a + b), after, r);
      ReadableRecordsAreLines(a + b, r);
    }
  }

  lemma {:induction false} PassedByExactly(a: seq<Record>, gap: seq<Record>, b: seq<Record>, logged: seq<Record>,
                                           items: seq<Record>, page: seq<Record>, after: int, r: Record)
    requires DrawnFrom(items, a, gap, b, logged) && page <= items
    requires r.sequence > after && (r in items <==> r !in gap)
    ensures r !in page && r.sequence <= NextSequence(page, after) <==> r in gap && EndsIn(page, b)
  {
    if page != [] {
      var last := page[|page| - 1];
      assert last == items[|page| - 1];
      if r in items && r !in page {
        assert forall j | 0 <= j < |page| :: page[j] == items[j];
      } else if r in gap {
        assert r in page ==> r in items;
        assert last in items && last in a + b;
        GapIsBetween(a, gap, b, logged, r, last);
      }
    }
  }

  /** Where the three parts sit in the log. */
  lemma {:induction false} Places(a: seq<Record>, gap: seq<Record>, b: seq<Record>, logged: seq<Record>)
    requires IsSuffix(a + gap + b, logged)
    ensures
      var start := |logged| - |a + gap + b|;
      && 0 <= start
      && (forall i | 0 <= i < |a| :: logged[start + i] == a[i])
      && (forall i | 0 <= i < |gap| :: logged[start + |a| + i] == gap[i])
      && forall i | 0 <= i < |b| :: logged[start + |a| + |gap| + i] == b[i]
  {
    var whole := a + gap + b;
    var start := |logged| - |whole|;
    assert forall i | 0 <= i < |whole| :: logged[start..][i] == logged[start + i];
    assert forall i | 0 <= i < |a| :: whole[i] == a[i];
    assert forall i | 0 <= i < |gap| :: whole[|a| + i] == gap[i];
    assert forall i | 0 <= i < |b| :: whole[|a| + |gap| + i] == b[i];
  }

  lemma {:induction false} GapIsBetween(a: seq<Record>, gap: seq<Record>, b: seq<Record>, logged: seq<Record>,
                                        g: Record, q: Record)
    requires IsSuffix(a + gap + b, logged) && Increasing(logged) && g in gap
    ensures q in a ==> q.sequence < g.sequence
    ensures q in b ==> g.sequence < q.sequence
  {
    Places(a, gap, b, logged);
    var start := |logged| - |a + gap + b|;
    var k :| 0 <= k < |gap| && gap[k] == g;
    assert logged[start + |a| + k] == g;
  }

  lemma {:induction false} LinesOfMixedView(a: seq<Record>, b: seq<Record>, after: int, r: Record)
    requires Readable(r) && r.sequence > after
    ensures r in Newer(Lines(a) + Lines(b), after) <==> r in a + b
  {
    SplitLines(a, b);
    ReadableRecordsAreLines(a + b, r);
    if r in a + b {
      WholeLinesAreNewer(Lines(a + b), after, r);
    }
    if r in Newer(Lines(a + b), after) {
      NewerAreAfter(Lines(a + b), after, r);
    }
  }

  function MixedPage(earlier: State, later: State, after: int, limit: int): seq<Record> {
    PageOf(MixedLines(earlier, later), after, limit)
  }

  lemma {:induction false} AnyMixedPageIsIncreasing(earlier: State, later: State, budget: int, after: int, limit: int)
    requires Working(earlier, budget) && Working(later, budget) && Grew(earlier, later)
    ensures Increasing(MixedPage(earlier, later, after, limit))
  {
    var a, b := Content(earlier.sink.disk.rotated), Content(later.sink.disk.current);
    assert EndsItsLog(earlier) && EndsItsLog(later) by {
      SoundEndsItsLog(earlier, budget);
      SoundEndsItsLog(later, budget);
    }
    MixedViewIsTheLogWithoutItsGap(earlier, later);
    MixedViewIsIncreasing(a, Gap(earlier, later), b, later.logged);
    PageOfIncreasing(a, b, after, limit);
  }

  lemma {:induction false} PageOfIncreasing(a: seq<Record>, b: seq<Record>, after: int, limit: int)
    requires Increasing(a + b) && forall r | r in a + b :: r.sequence > 0
    ensures Increasing(PageOf(Lines(a) + Lines(b), after, limit))
  {
    SplitLines(a, b);
    LinesAreOrdered(a + b, 0);
    NewerIsIncreasing(Lines(a + b), 0, after);
    PageBegins(Lines(a) + Lines(b), after, limit);
    BeginningIsIncreasing(PageOf(Lines(a) + Lines(b), after, limit), Newer(Lines(a) + Lines(b), after));
  }

  lemma {:induction false} BeginningIsIncreasing(items: seq<Record>, all: seq<Record>)
    requires items <= all && Increasing(all)
    ensures Increasing(items)
  {
    assert forall i | 0 <= i < |items| :: items[i] == all[i];
  }

  /** Where an entry of the two parts sits in the log. */
  lemma {:induction false} PlaceInTheLog(a: seq<Record>, gap: seq<Record>, b: seq<Record>, logged: seq<Record>, i: nat)
    requires IsSuffix(a + gap + b, logged) && i < |a + b|
    ensures
      var place := |logged| - |a + gap + b| + i + if i < |a| then 0 else |gap|;
      place < |logged| && (a + b)[i] == logged[place]
  {
    var whole := a + gap + b;
    var start := |logged| - |whole|;
    var k := i + if i < |a| then 0 else |gap|;
    assert whole[k] == (a + b)[i];
    assert logged[start..][k] == logged[start + k];
  }

  lemma {:induction false} MixedViewIsIncreasing(a: seq<Record>, gap: seq<Record>, b: seq<Record>, logged: seq<Record>)
    requires IsSuffix(a + gap + b, logged) && Increasing(logged) && forall r | r in logged :: r.sequence > 0
    ensures Increasing(a + b) && forall r | r in a + b :: r.sequence > 0
  {
    forall i, j | 0 <= i < j < |a + b| ensures (a + b)[i].sequence < (a + b)[j].sequence {
      PlaceInTheLog(a, gap, b, logged, i);
      PlaceInTheLog(a, gap, b, logged, j);
    }
    forall i | 0 <= i < |a + b| ensures (a + b)[i].sequence > 0 {
      PlaceInTheLog(a, gap, b, logged, i);
    }
  }

  /** A page taken across a rotation can skip a record that both states retain, and
      feeding `nextSequence` back never returns to it: one record is logged, the
      empty rotated place is read, one more record rotates the file, and the
      current file is read. */
  lemma {:induction false} MixedPageCanSkip(timestamp: string, text: string, limit: int)
    requires |timestamp| <= MAX_TIMESTAMP_CHARS && |text| <= MAX_LINE_CHARS && Splits(text) == 0
    ensures
      var output := Output(Stdout, text, timestamp, Io(true, true, true));
      var earlier, later := After(Fresh(), 1, [output]), After(Fresh(), 1, [output, output]);
      var lines := Lines(Content(earlier.sink.disk.rotated)) + Lines(Content(later.sink.disk.current));
      var first, second := MakeRecord(1, timestamp, Stdout, text), MakeRecord(2, timestamp, Stdout, text);
      && Retained(earlier.sink.disk) == [first] && Retained(later.sink.disk) == [first, second]
      && PageOf(lines, 0, limit) == [second] && NextSequence([second], 0) == 2
  {
    var first, second := MakeRecord(1, timestamp, Stdout, text), MakeRecord(2, timestamp, Stdout, text);
    FirstTwoOutputs(timestamp, text);
    OneLine(second);
    OneRecordFitsAPage(second);
    OnePage(second, limit);
    assert Lines([]) + Lines([second]) == Lines([second]);
    assert [first] + [second] == [first, second];
  }

  lemma {:induction false} FirstTwoOutputs(timestamp: string, text: string)
    ensures
      var output := Output(Stdout, text, timestamp, Io(true, true, true));
      var first, second := MakeRecord(1, timestamp, Stdout, text), MakeRecord(2, timestamp, Stdout, text);
      && After(Fresh(), 1, [output]).sink.disk == Disk(None, Some([first]))
      && After(Fresh(), 1, [output, output]).sink.disk == Disk(Some([first]), Some([second]))
  {
    var output, io := Output(Stdout, text, timestamp, Io(true, true, true)), Io(true, true, true);
    var first, second := MakeRecord(1, timestamp, Stdout, text), MakeRecord(2, timestamp, Stdout, text);
    var one := Next(Fresh(), 1, output);
    AfterTwo(Fresh(), 1, output);
    assert Size([first]) == LineBytes(first) by {
      assert [first][..0] == [];
    }
    assert [] + [first] == [first] && [] + [second] == [second];
    assert Fresh().sink == Sink(Disk(None, Some([])), 1, 0, true, false);
    assert one.sink == Sink(Disk(None, Some([first])), 2, LineBytes(first), true, false);
    assert Next(one, 1, output) == Logged(one, 1, second, io);
  }

  lemma {:induction false} AfterTwo(st: State, budget: int, e: Event)
    ensures After(st, budget, [e]) == Next(st, budget, e)
    ensures After(st, budget, [e, e]) == Next(Next(st, budget, e), budget, e)
  {
    assert [e][..0] == [] && [e, e][..1] == [e];
  }

  lemma {:induction false} OneLine(r: Record)
    requires Readable(r)
    ensures Lines([r]) == [Whole(r)]
  {
    assert [r][..0] == [];
  }

  lemma {:induction false} OnePage(r: Record, limit: int)
    requires JsonChars(r) + 2 <= PAGE_MAX_CHARS && r.sequence > 0
    ensures PageOf([Whole(r)], 0, limit) == [r]
  {
    assert [Whole(r)][..0] == [];
    assert [r][..0] == [];
    assert Newer([Whole(r)], 0) == [r];
  }
}

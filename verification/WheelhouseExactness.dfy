/** Exactly which locks are read, which packages are accepted, and which wheels are
    assembled, and into what. */
module WheelhouseExactness {
  import opened Wrappers
  import opened Bytes
  import opened Wheelhouse

  // ---- The lock ----------------------------------------------------------

  /** The lines that are not comments, each of them a pin. */
  ghost predicate PinsOf(lines: seq<string>, pins: seq<Pin>) {
    |lines| == |pins| && forall i | 0 <= i < |pins| :: IsPin(lines[i], pins[i])
  }

  ghost predicate NamesDiffer(pins: seq<Pin>) {
    forall i, j | 0 <= i < j < |pins| :: Canonical(pins[i].name) != Canonical(pins[j].name)
  }

  ghost predicate Pins(pins: seq<Pin>, name: string) {
    exists pin | pin in pins :: Canonical(pin.name) == name
  }

  ghost predicate IsAPin(line: string) {
    exists pin :: IsPin(line, pin)
  }

  lemma {:induction false} LineMatchesExactly(line: string)
    ensures MatchPin(line).Some? <==> IsAPin(line)
    ensures MatchPin(line).Some? ==> IsPin(line, MatchPin(line).value)
  {
    if MatchPin(line).Some? {
      MatchIsExact(line, MatchPin(line).value);
    } else if IsAPin(line) {
      var pin :| IsPin(line, pin);
      MatchIsExact(line, pin);
    }
  }

  lemma {:induction false} MatchedExactly(lines: seq<string>)
    ensures Matched(lines).Some? <==> forall i | 0 <= i < |lines| :: IsAPin(lines[i])
    ensures Matched(lines).Some? ==> PinsOf(lines, Matched(lines).value)
  {
    if lines != [] {
      var before, last := lines[..|lines| - 1], lines[|lines| - 1];
      MatchedExactly(before);
      LineMatchesExactly(last);
      assert forall i | 0 <= i < |before| :: before[i] == lines[i];
    }
  }

  lemma {:induction false} ExpectedNames(pins: seq<Pin>, name: string)
    ensures name in Expected(pins) <==> Pins(pins, name)
  {
    if pins != [] {
      var before, last := pins[..|pins| - 1], pins[|pins| - 1];
      ExpectedNames(before, name);
      assert forall pin :: pin in pins <==> pin in before || pin == last;
    }
  }

  /** As many names as pins: no two pins have the same canonical name. */
  lemma {:induction false} AsManyNames(pins: seq<Pin>)
    ensures |Expected(pins)| == |pins| <==> NamesDiffer(pins)
  {
    if pins != [] {
      var before, last := pins[..|pins| - 1], pins[|pins| - 1];
      AsManyNames(before);
      ExpectedIsNoLarger(before);
      ExpectedNames(before, Canonical(last.name));
      LastNameDiffers(before, last);
      assert before + [last] == pins;
    }
  }

  lemma {:induction false} LastNameDiffers(before: seq<Pin>, last: Pin)
    ensures NamesDiffer(before + [last]) <==> NamesDiffer(before) && !Pins(before, Canonical(last.name))
  {
    var pins := before + [last];
    assert pins[|before|] == last && forall i | 0 <= i < |before| :: pins[i] == before[i] && before[i] in before;
    if Pins(before, Canonical(last.name)) {
      var pin :| pin in before && Canonical(pin.name) == Canonical(last.name);
      var i :| 0 <= i < |before| && before[i] == pin;
      assert pins[i] == pin;
    }
  }

  /** The lines are these pins, no distribution twice, and the runtime's two among them. */
  ghost predicate ReadsAs(lines: seq<string>, pins: seq<Pin>) {
    PinsOf(lines, pins) && NamesDiffer(pins) && Pins(pins, "grpcio") && Pins(pins, "protobuf")
  }

  lemma {:induction false} PinsAreMatched(lines: seq<string>, pins: seq<Pin>)
    requires PinsOf(lines, pins)
    ensures Matched(lines) == Some(pins)
  {
    MatchedExactly(lines);
    assert forall i | 0 <= i < |lines| :: IsPin(lines[i], pins[i]);
    assert forall i | 0 <= i < |lines| :: IsAPin(lines[i]);
    SamePins(lines, pins, Matched(lines).value);
  }

  lemma {:induction false} PinsAreRead(lines: seq<string>, pins: seq<Pin>)
    requires Matched(PinLines(lines)) == Some(pins) && PinLines(lines) != []
    ensures LockPins(lines).Ok? <==> NamesDiffer(pins) && Pins(pins, "grpcio") && Pins(pins, "protobuf")
    ensures LockPins(lines).Ok? ==> LockPins(lines).value == pins
  {
    AsManyNames(pins);
    RuntimeIsPinned(pins);
  }

  lemma {:induction false} RuntimeIsPinned(pins: seq<Pin>)
    ensures {"grpcio", "protobuf"} <= Expected(pins).Keys <==> Pins(pins, "grpcio") && Pins(pins, "protobuf")
  {
    ExpectedNames(pins, "grpcio");
    ExpectedNames(pins, "protobuf");
  }

  /** A lock is read exactly when it pins something, every line that is not a comment is
      a pin, no distribution is pinned twice, and the runtime's two are pinned; the pins
      are those lines, in order. */
  lemma {:induction false} LockIsReadExactly(lines: seq<string>, pins: seq<Pin>)
    ensures LockPins(lines) == Ok(pins) <==> PinLines(lines) != [] && ReadsAs(PinLines(lines), pins)
  {
    if PinLines(lines) != [] {
      if ReadsAs(PinLines(lines), pins) {
        PinsAreMatched(PinLines(lines), pins);
        PinsAreRead(lines, pins);
      }
      if LockPins(lines) == Ok(pins) {
        MatchedExactly(PinLines(lines));
        PinsAreRead(lines, Matched(PinLines(lines)).value);
      }
    }
  }

  lemma {:induction false} SamePins(lines: seq<string>, a: seq<Pin>, b: seq<Pin>)
    requires PinsOf(lines, a) && PinsOf(lines, b)
    ensures a == b
  {
    forall i | 0 <= i < |a| ensures a[i] == b[i] {
      MatchIsExact(lines[i], a[i]);
      MatchIsExact(lines[i], b[i]);
    }
  }

  // ---- The verifier ------------------------------------------------------

  /** A record of a file that is in the package, byte for byte, and whose name and
      metadata agree with the record. */
  ghost predicate Genuine(r: WheelRecord, entries: map<string, Content>, tools: Tools) {
    && SafeFilename(r.filename) && IsDigest(r.sha) && r.size >= 1
    && EntryName(r.filename) in entries && entries[EntryName(r.filename)].Wheel?
    && (var payload := entries[EntryName(r.filename)].payload;
        && tools.hash(payload) == r.sha && |payload| == r.size
        && tools.metadata(payload, r.filename) == Some(Identity(NameOf(r), r.version)))
    && tools.parse(r.filename).Some?
    && (var parsed := tools.parse(r.filename).value;
        Canonical(parsed.distribution) == NameOf(r) && parsed.version == r.version && parsed.compatible)
  }

  ghost predicate AllGenuine(wheels: seq<WheelRecord>, entries: map<string, Content>, tools: Tools) {
    forall r | r in wheels :: Genuine(r, entries, tools)
  }

  /** One turn accepts a record exactly when it is genuine, pinned, and new. */
  lemma {:induction false} TurnIsExact(r: WheelRecord, entries: map<string, Content>, expected: map<string, string>,
                                       tools: Tools, so: Progress)
    ensures CheckRecord(r, entries, expected, tools, so).Ok? <==>
              && Genuine(r, entries, tools) && NameOf(r) !in so.seen
              && NameOf(r) in expected && expected[NameOf(r)] == r.version
  {
  }

  lemma {:induction false} PassedAreGenuine(wheels: seq<WheelRecord>, entries: map<string, Content>,
                                            expected: map<string, string>, tools: Tools)
    requires CheckRecords(wheels, entries, expected, tools).Ok?
    ensures AllGenuine(wheels, entries, tools)
  {
    if wheels != [] {
      var before, last := wheels[..|wheels| - 1], wheels[|wheels| - 1];
      PassedAreGenuine(before, entries, expected, tools);
      TurnIsExact(last, entries, expected, tools, CheckRecords(before, entries, expected, tools).value);
      assert forall r :: r in wheels <==> r in before || r == last;
    }
  }

  ghost predicate AllExpected(wheels: seq<WheelRecord>, expected: map<string, string>) {
    forall r | r in wheels :: NameOf(r) in expected && expected[NameOf(r)] == r.version
  }

  lemma {:induction false} GenuinePass(wheels: seq<WheelRecord>, entries: map<string, Content>,
                                       expected: map<string, string>, tools: Tools)
    requires AllGenuine(wheels, entries, tools) && AllExpected(wheels, expected) && DistinctNames(wheels)
    ensures CheckRecords(wheels, entries, expected, tools).Ok?
  {
    if wheels != [] {
      var before, last := wheels[..|wheels| - 1], wheels[|wheels| - 1];
      assert forall r | r in before :: r in wheels;
      GenuinePass(before, entries, expected, tools);
      var so := CheckRecords(before, entries, expected, tools).value;
      LoopTracks(before, entries, expected, tools, so);
      assert forall i | 0 <= i < |before| :: before[i] == wheels[i];
      assert !NameFrom(NameOf(last), before);
      assert last in wheels;
      TurnIsExact(last, entries, expected, tools, so);
    }
  }

  /** What an accepted package is: a bound manifest, one genuine record for every pin and
      none besides, and no entries but the manifest and the files of the records. */
  ghost predicate Acceptable(entries: map<string, Content>, pins: seq<Pin>, tools: Tools) {
    && MANIFEST_ENTRY in entries && entries[MANIFEST_ENTRY].Manifest? && entries[MANIFEST_ENTRY].index.bound
    && (var wheels := entries[MANIFEST_ENTRY].index.wheels;
        && OneWheelPerPin(pins, wheels, entries) && RecordsArePinned(pins, wheels, entries)
        && AllGenuine(wheels, entries, tools))
  }

  lemma {:induction false} PinnedAreExpected(pins: seq<Pin>, wheels: seq<WheelRecord>, entries: map<string, Content>)
    requires NamesDiffer(pins) && RecordsArePinned(pins, wheels, entries)
    ensures AllExpected(wheels, Expected(pins))
  {
    AsManyNames(pins);
    ExpectedHoldsThePins(pins);
    forall r | r in wheels ensures NameOf(r) in Expected(pins) && Expected(pins)[NameOf(r)] == r.version {
      var pin :| pin in pins && Carries(entries, r, pin);
    }
  }

  lemma {:induction false} PathsAreTheEntries(wheels: seq<WheelRecord>, entries: map<string, Content>, tools: Tools,
                                              so: Progress)
    requires Gathered(wheels, so) && AllGenuine(wheels, entries, tools) && NothingElse(wheels, entries)
    requires MANIFEST_ENTRY in entries
    ensures entries.Keys == so.paths
  {
    forall p | p in entries ensures p in so.paths {
      if p != MANIFEST_ENTRY {
        assert PathFrom(p, wheels);
        var r :| r in wheels && EntryName(r.filename) == p;
      }
    }
    forall p | p in so.paths ensures p in entries {
      if p != MANIFEST_ENTRY {
        assert PathFrom(p, wheels);
        var r :| r in wheels && EntryName(r.filename) == p;
        assert Genuine(r, entries, tools);
      }
    }
  }

  lemma {:induction false} AcceptableIsAccepted(entries: map<string, Content>, lock: seq<string>, tools: Tools)
    requires LockPins(lock).Ok? && Acceptable(entries, LockPins(lock).value, tools)
    ensures Verify(entries, lock, tools).Ok?
  {
    var pins, wheels := LockPins(lock).value, entries[MANIFEST_ENTRY].index.wheels;
    var expected := Expected(pins);
    AsManyNames(pins);
    PinnedAreExpected(pins, wheels, entries);
    GenuinePass(wheels, entries, expected, tools);
    NameCheckIsRedundant(wheels, entries, expected, tools);
    LoopTracks(wheels, entries, expected, tools, CheckRecords(wheels, entries, expected, tools).value);
    PathsAreTheEntries(wheels, entries, tools, CheckRecords(wheels, entries, expected, tools).value);
  }

  /** The verifier accepts exactly the acceptable packages of a lock it can read. */
  lemma {:induction false} AcceptanceIsExact(entries: map<string, Content>, lock: seq<string>, tools: Tools)
    ensures Verify(entries, lock, tools).Ok? <==>
              LockPins(lock).Ok? && Acceptable(entries, LockPins(lock).value, tools)
  {
    if Verify(entries, lock, tools).Ok? {
      AcceptanceIsABijection(entries, lock, tools);
      EveryWheelIsPinned(entries, lock, tools);
      PassedAreGenuine(entries[MANIFEST_ENTRY].index.wheels, entries, Expected(LockPins(lock).value), tools);
    }
    if LockPins(lock).Ok? && Acceptable(entries, LockPins(lock).value, tools) {
      AcceptableIsAccepted(entries, lock, tools);
    }
  }

  // ---- The builder -------------------------------------------------------

  /** The distribution that a wheel's filename names. */
  function Distribution(w: WheelFile, tools: Tools): string {
    if tools.parse(w.filename).None? then "" else Canonical(tools.parse(w.filename).value.distribution)
  }

  /** A wheel that the builder may take: a safe regular file whose name and metadata
      agree on a pinned distribution, compatible with the target. */
  ghost predicate Suits(w: WheelFile, expected: map<string, string>, tools: Tools) {
    && w.regular && SafeFilename(w.filename) && w.filename != SUFFIX && tools.parse(w.filename).Some?
    && (var parsed := tools.parse(w.filename).value;
        && Distribution(w, tools) in expected && expected[Distribution(w, tools)] == parsed.version && parsed.compatible
        && tools.metadata(w.payload, w.filename) == Some(Identity(Distribution(w, tools), parsed.version)))
  }

  ghost predicate AllSuit(wheels: seq<WheelFile>, expected: map<string, string>, tools: Tools) {
    && (forall i | 0 <= i < |wheels| :: Suits(wheels[i], expected, tools))
    && forall i, j | 0 <= i < j < |wheels| :: Distribution(wheels[i], tools) != Distribution(wheels[j], tools)
  }

  /** The record of a wheel, with the hash and the size of its bytes. */
  function RecordFor(w: WheelFile, tools: Tools): WheelRecord
    requires tools.parse(w.filename).Some?
  {
    WheelRecord(w.filename, Distribution(w, tools), tools.parse(w.filename).value.version, tools.hash(w.payload),
                |w.payload|)
  }

  /** A record per wheel, in their order. */
  ghost predicate HoldsRecords(records: seq<WheelRecord>, wheels: seq<WheelFile>, tools: Tools) {
    && |records| == |wheels|
    && forall i | 0 <= i < |wheels| ::
         tools.parse(wheels[i].filename).Some? && records[i] == RecordFor(wheels[i], tools)
  }

  /** An entry per wheel, its bytes. */
  ghost predicate HoldsFiles(entries: map<string, Content>, wheels: seq<WheelFile>) {
    && (forall i | 0 <= i < |wheels| ::
          EntryName(wheels[i].filename) in entries &&
          entries[EntryName(wheels[i].filename)] == Wheel(wheels[i].payload))
    && forall p | p in entries :: IsFile(p, wheels)
  }

  ghost predicate IsFile(p: string, wheels: seq<WheelFile>) {
    exists i | 0 <= i < |wheels| :: p == EntryName(wheels[i].filename)
  }

  ghost predicate HoldsNames(found: map<string, string>, wheels: seq<WheelFile>, tools: Tools) {
    forall name :: name in found <==> Names(wheels, name, tools)
  }

  /** What the loop gathers. */
  ghost predicate Holds(built: Built, wheels: seq<WheelFile>, tools: Tools) {
    && HoldsRecords(built.records, wheels, tools) && HoldsFiles(built.entries, wheels)
    && HoldsNames(built.found, wheels, tools)
  }

  ghost predicate Names(wheels: seq<WheelFile>, name: string, tools: Tools) {
    exists i | 0 <= i < |wheels| :: Distribution(wheels[i], tools) == name
  }

  lemma {:induction false} WheelIsTakenExactly(w: WheelFile, expected: map<string, string>, tools: Tools, so: Built)
    ensures AddWheel(w, expected, tools, so).Ok? <==>
              Suits(w, expected, tools) && Distribution(w, tools) !in so.found
  {
    if |w.filename| == |SUFFIX| && EndsWithSuffix(w.filename) {
      assert w.filename[0..] == w.filename;
    }
  }

  lemma {:induction false} OneMoreWheel(before: seq<WheelFile>, w: WheelFile)
    ensures (before + [w])[|before|] == w && forall i | 0 <= i < |before| :: (before + [w])[i] == before[i]
  {
  }

  lemma {:induction false} OneMoreName(before: seq<WheelFile>, w: WheelFile, name: string, tools: Tools)
    ensures Names(before + [w], name, tools) <==> Names(before, name, tools) || Distribution(w, tools) == name
  {
    OneMoreWheel(before, w);
    if Names(before, name, tools) {
      var i :| 0 <= i < |before| && Distribution(before[i], tools) == name;
      assert (before + [w])[i] == before[i];
    }
  }

  lemma {:induction false} OneMoreFile(entries: map<string, Content>, before: seq<WheelFile>, w: WheelFile)
    requires HoldsFiles(entries, before) && SafeFilename(w.filename)
    requires forall i | 0 <= i < |before| :: before[i].filename != w.filename
    ensures HoldsFiles(entries[EntryName(w.filename) := Wheel(w.payload)], before + [w])
  {
    OneMoreWheel(before, w);
    forall i | 0 <= i < |before| ensures EntryName(before[i].filename) != EntryName(w.filename) {
      EntryNamesDiffer(w.filename, before[i].filename);
    }
    forall p | IsFile(p, before) ensures IsFile(p, before + [w]) {
      var i :| 0 <= i < |before| && p == EntryName(before[i].filename);
      assert p == EntryName((before + [w])[i].filename);
    }
    assert EntryName(w.filename) == EntryName((before + [w])[|before|].filename);
  }

  lemma {:induction false} OneMoreSuits(before: seq<WheelFile>, w: WheelFile, expected: map<string, string>,
                                        tools: Tools)
    ensures AllSuit(before + [w], expected, tools) <==>
              AllSuit(before, expected, tools) && Suits(w, expected, tools)
              && !Names(before, Distribution(w, tools), tools)
  {
    OneMoreWheel(before, w);
    var wheels := before + [w];
    if AllSuit(wheels, expected, tools) {
      assert forall i | 0 <= i < |before| :: Distribution(wheels[i], tools) != Distribution(wheels[|before|], tools);
    }
  }

  lemma {:induction false} WheelAdds(w: WheelFile, expected: map<string, string>, tools: Tools, so: Built)
    requires AddWheel(w, expected, tools, so).Ok?
    ensures tools.parse(w.filename).Some?
    ensures AddWheel(w, expected, tools, so).value ==
              Built(so.records + [RecordFor(w, tools)], so.entries[EntryName(w.filename) := Wheel(w.payload)],
                    so.found[Distribution(w, tools) := w.filename])
  {
  }

  lemma {:induction false} FilesDiffer(before: seq<WheelFile>, w: WheelFile, tools: Tools)
    requires !Names(before, Distribution(w, tools), tools)
    ensures forall i | 0 <= i < |before| :: before[i].filename != w.filename
  {
    assert forall i | 0 <= i < |before| :: Distribution(before[i], tools) != Distribution(w, tools);
  }

  lemma {:induction false} TurnHolds(before: seq<WheelFile>, w: WheelFile, expected: map<string, string>, tools: Tools,
                                     so: Built)
    requires Holds(so, before, tools) && AddWheel(w, expected, tools, so).Ok?
    ensures Holds(AddWheel(w, expected, tools, so).value, before + [w], tools)
    ensures Suits(w, expected, tools) && !Names(before, Distribution(w, tools), tools)
  {
    WheelIsTakenExactly(w, expected, tools, so);
    WheelAdds(w, expected, tools, so);
    FilesDiffer(before, w, tools);
    OneMoreFile(so.entries, before, w);
    OneMoreWheel(before, w);
    forall name ensures name in AddWheel(w, expected, tools, so).value.found <==> Names(before + [w], name, tools) {
      OneMoreName(before, w, name, tools);
    }
  }

  lemma {:induction false} LastWheel(before: seq<WheelFile>, last: WheelFile, expected: map<string, string>,
                                     tools: Tools) returns (so: Built)
    requires AddWheels(before + [last], expected, tools).Ok?
    ensures AddWheels(before, expected, tools) == Ok(so)
    ensures AddWheels(before + [last], expected, tools) == AddWheel(last, expected, tools, so)
  {
    assert (before + [last])[..|before|] == before;
    so := AddWheels(before, expected, tools).value;
  }

  lemma {:induction false} LoopHolds(wheels: seq<WheelFile>, expected: map<string, string>, tools: Tools)
    requires AddWheels(wheels, expected, tools).Ok?
    ensures Holds(AddWheels(wheels, expected, tools).value, wheels, tools) && AllSuit(wheels, expected, tools)
  {
    if wheels == [] {
      NothingHolds(expected, tools);
    } else {
      var before, last := wheels[..|wheels| - 1], wheels[|wheels| - 1];
      assert before + [last] == wheels;
      var so := LastWheel(before, last, expected, tools);
      LoopHolds(before, expected, tools);
      TurnHolds(before, last, expected, tools, so);
      OneMoreSuits(before, last, expected, tools);
    }
  }

  lemma {:induction false} NothingHolds(expected: map<string, string>, tools: Tools)
    ensures Holds(Built([], map[], map[]), [], tools) && AllSuit([], expected, tools)
  {
  }

  lemma {:induction false} SuitingAreTaken(wheels: seq<WheelFile>, expected: map<string, string>, tools: Tools)
    requires AllSuit(wheels, expected, tools)
    ensures AddWheels(wheels, expected, tools).Ok?
  {
    if wheels != [] {
      var before, last := wheels[..|wheels| - 1], wheels[|wheels| - 1];
      assert before + [last] == wheels;
      OneMoreSuits(before, last, expected, tools);
      SuitingAreTaken(before, expected, tools);
      LoopHolds(before, expected, tools);
      WheelIsTakenExactly(last, expected, tools, AddWheels(before, expected, tools).value);
    }
  }

  /** Every pin has a wheel. */
  ghost predicate Covers(wheels: seq<WheelFile>, expected: map<string, string>, tools: Tools) {
    forall name | name in expected :: Names(wheels, name, tools)
  }

  /** The builder succeeds exactly on one suitable wheel for every pin of a lock that it
      can read. */
  lemma {:induction false} AssemblyIsExact(lock: seq<string>, wheels: seq<WheelFile>, tools: Tools)
    ensures Assemble(lock, wheels, tools).Ok? <==>
              && LockPins(lock).Ok?
              && AllSuit(wheels, Expected(LockPins(lock).value), tools)
              && Covers(wheels, Expected(LockPins(lock).value), tools)
  {
    if LockPins(lock).Ok? {
      var expected := Expected(LockPins(lock).value);
      if AllSuit(wheels, expected, tools) {
        SuitingAreTaken(wheels, expected, tools);
      }
      if AddWheels(wheels, expected, tools).Ok? {
        LoopHolds(wheels, expected, tools);
        FoundAreExpected(AddWheels(wheels, expected, tools).value, wheels, expected, tools);
      }
    }
  }

  lemma {:induction false} FoundAreExpected(built: Built, wheels: seq<WheelFile>, expected: map<string, string>,
                                            tools: Tools)
    requires Holds(built, wheels, tools) && AllSuit(wheels, expected, tools)
    ensures built.found.Keys == expected.Keys <==> Covers(wheels, expected, tools)
  {
    forall name | name in built.found ensures name in expected {
      assert Names(wheels, name, tools);
      var i :| 0 <= i < |wheels| && Distribution(wheels[i], tools) == name;
      assert Suits(wheels[i], expected, tools);
    }
  }

  /** The assembled package: every wheel's bytes under its name, and a manifest with a
      record of each in order. */
  lemma {:induction false} AssembledExactly(lock: seq<string>, wheels: seq<WheelFile>, tools: Tools)
    requires Assemble(lock, wheels, tools).Ok?
    ensures
      var entries := Assemble(lock, wheels, tools).value;
      && MANIFEST_ENTRY in entries && entries[MANIFEST_ENTRY].Manifest? && entries[MANIFEST_ENTRY].index.bound
      && HoldsRecords(entries[MANIFEST_ENTRY].index.wheels, wheels, tools)
      && HoldsFiles(entries - {MANIFEST_ENTRY}, wheels)
  {
    var expected := Expected(LockPins(lock).value);
    var built := AddWheels(wheels, expected, tools).value;
    LoopHolds(wheels, expected, tools);
    NoManifestAmongThem(built.entries, wheels, expected, tools);
    WithoutAgain(built.entries, MANIFEST_ENTRY, Manifest(Index(true, built.records)));
  }

  lemma {:induction false} NoManifestAmongThem(entries: map<string, Content>, wheels: seq<WheelFile>,
                                               expected: map<string, string>, tools: Tools)
    requires HoldsFiles(entries, wheels) && AllSuit(wheels, expected, tools)
    ensures MANIFEST_ENTRY !in entries
  {
    if MANIFEST_ENTRY in entries {
      assert IsFile(MANIFEST_ENTRY, wheels);
      var i :| 0 <= i < |wheels| && MANIFEST_ENTRY == EntryName(wheels[i].filename);
      assert Suits(wheels[i], expected, tools);
      EntryNamesDiffer(wheels[i].filename, wheels[i].filename);
    }
  }

  lemma {:induction false} WithoutAgain(entries: map<string, Content>, key: string, value: Content)
    requires key !in entries
    ensures entries[key := value] - {key} == entries
  {
  }
}

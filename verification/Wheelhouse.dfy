/** A plugin package's wheelhouse: built from one wheel per pin of a dependency lock,
    and verified against the lock before it ships. Wheel parsing, wheel metadata and
    the hash are given functions. */
module Wheelhouse {
  import opened Bytes
  import opened Wrappers

  const MANIFEST_ENTRY := "wheelhouse/manifest.json"
  const SUFFIX := ".whl"

  // ---- Names and pins ----------------------------------------------------

  predicate IsSeparator(c: char) {
    c == '-' || c == '_' || c == '.'
  }

  function LowerChar(c: char): char {
    if 'A' <= c <= 'Z' then c + (32 as char) else c
  }

  /** `canonicalize_name`: runs of separators become one dash, letters lower case. */
  function Canonical(name: string): string {
    if name == [] then []
    else if !IsSeparator(name[0]) then [LowerChar(name[0])] + Canonical(name[1..])
    else if |name| > 1 && IsSeparator(name[1]) then Canonical(name[1..])
    else "-" + Canonical(name[1..])
  }

  /** Lower case, and no two separators in a row, each of them a dash. */
  predicate IsCanonical(name: string) {
    name == [] ||
    (&& name[0] == LowerChar(name[0]) && (IsSeparator(name[0]) ==> name[0] == '-')
     && !(|name| > 1 && IsSeparator(name[0]) && IsSeparator(name[1]))
     && IsCanonical(name[1..]))
  }

  lemma {:induction false} CanonicalIsCanonical(name: string)
    ensures IsCanonical(Canonical(name))
    ensures Canonical(name) != [] && name != [] ==> (IsSeparator(Canonical(name)[0]) <==> IsSeparator(name[0]))
  {
    if name != [] {
      CanonicalIsCanonical(name[1..]);
      if IsSeparator(name[0]) && !(|name| > 1 && IsSeparator(name[1])) {
        assert ("-" + Canonical(name[1..]))[1..] == Canonical(name[1..]);
      } else if !IsSeparator(name[0]) {
        assert ([LowerChar(name[0])] + Canonical(name[1..]))[1..] == Canonical(name[1..]);
      }
    }
  }

  lemma {:induction false} CanonicalStays(name: string)
    requires IsCanonical(name)
    ensures Canonical(name) == name
  {
    if name != [] {
      CanonicalStays(name[1..]);
      assert [name[0]] + name[1..] == name;
    }
  }

  /** Canonicalizing twice is canonicalizing once. */
  lemma {:induction false} CanonicalTwice(name: string)
    ensures Canonical(Canonical(name)) == Canonical(name)
  {
    CanonicalIsCanonical(name);
    CanonicalStays(Canonical(name));
  }

  datatype Pin = Pin(name: string, version: string)

  predicate IsAlphanumeric(c: char) {
    'A' <= c <= 'Z' || 'a' <= c <= 'z' || '0' <= c <= '9'
  }

  predicate IsNameChar(c: char) {
    IsAlphanumeric(c) || IsSeparator(c)
  }

  predicate IsVersionChar(c: char) {
    IsAlphanumeric(c) || IsSeparator(c) || c == '+' || c == '!'
  }

  /** `([A-Za-z0-9_.-]+)==([A-Za-z0-9][A-Za-z0-9_.+!-]*)`, the whole line. */
  predicate IsPin(line: string, pin: Pin) {
    && line == pin.name + "==" + pin.version && pin.name != [] && pin.version != []
    && (forall i | 0 <= i < |pin.name| :: IsNameChar(pin.name[i]))
    && (forall i | 0 <= i < |pin.version| :: IsVersionChar(pin.version[i])) && IsAlphanumeric(pin.version[0])
  }

  function EqualsSign(line: string): (i: nat)
    ensures i <= |line| && (i < |line| ==> line[i] == '=') && forall j | 0 <= j < i :: line[j] != '='
  {
    if line == [] || line[0] == '=' then 0 else 1 + EqualsSign(line[1..])
  }

  function MatchPin(line: string): Option<Pin> {
    var i := EqualsSign(line);
    if i + 2 > |line| then None
    else
      var pin := Pin(line[..i], line[i + 2..]);
      if IsPin(line, pin) then Some(pin) else None
  }

  /** A line is matched exactly when it is a pin, and then in one way only. */
  lemma {:induction false} MatchIsExact(line: string, pin: Pin)
    ensures MatchPin(line) == Some(pin) <==> IsPin(line, pin)
  {
    if IsPin(line, pin) {
      assert line[|pin.name|] == '=';
      assert forall j | 0 <= j < |pin.name| :: line[j] == pin.name[j] && IsNameChar(line[j]);
      assert EqualsSign(line) == |pin.name|;
      assert line[..|pin.name|] == pin.name && line[|pin.name| + 2..] == pin.version;
    }
  }

  datatype Fault =
    | NotExactPins | RepeatedDistribution | RuntimeNotLocked
    | UnsafeFile | InvalidFilename | NotLocked | MetadataMismatch | Incompatible | MissingWheels
    | ManifestUnbound | IncompleteManifest | UnsafeRecord | UnpinnedRecord | WheelMissing | DigestMismatch
    | IdentityMismatch | OmittedWheels | UnlistedFiles

  function PinLines(lines: seq<string>): seq<string> {
    if lines == [] then []
    else PinLines(lines[..|lines| - 1]) + if |lines[|lines| - 1]| > 0 && lines[|lines| - 1][0] == '#' then []
      else [lines[|lines| - 1]]
  }

  function Matched(lines: seq<string>): Option<seq<Pin>> {
    if lines == [] then Some([])
    else
      var before, last := Matched(lines[..|lines| - 1]), MatchPin(lines[|lines| - 1]);
      if before.None? || last.None? then None else Some(before.value + [last.value])
  }

  /** The names that a lock pins, with their versions. */
  function Expected(pins: seq<Pin>): map<string, string> {
    if pins == [] then map[]
    else Expected(pins[..|pins| - 1])[Canonical(pins[|pins| - 1].name) := pins[|pins| - 1].version]
  }

  /** `_lock_lines` over the stripped, non-empty lines of the lock. */
  function LockPins(lines: seq<string>): (r: Result<seq<Pin>, Fault>) {
    var pins := Matched(PinLines(lines));
    if PinLines(lines) == [] || pins.None? then Err(NotExactPins)
    else if |Expected(pins.value)| != |pins.value| then Err(RepeatedDistribution)
    else if !({"grpcio", "protobuf"} <= Expected(pins.value).Keys) then Err(RuntimeNotLocked)
    else Ok(pins.value)
  }

  // ---- Wheels ------------------------------------------------------------

  datatype WheelName = WheelName(distribution: string, version: string, compatible: bool)

  datatype Identity = Identity(name: string, version: string)

  /** The libraries the code relies on. */
  datatype Tools = Tools(parse: string -> Option<WheelName>, metadata: (seq<Byte>, string) -> Option<Identity>,
                         hash: seq<Byte> -> string)

  datatype WheelFile = WheelFile(filename: string, regular: bool, payload: seq<Byte>)

  datatype WheelRecord = WheelRecord(filename: string, name: string, version: string, sha: string, size: int)

  /** The manifest's own fields; `bound` says that schema, target and lock digest fit. */
  datatype Index = Index(bound: bool, wheels: seq<WheelRecord>)

  datatype Content = Wheel(payload: seq<Byte>) | Manifest(index: Index)

  function EntryName(filename: string): string {
    "wheelhouse/" + filename
  }

  predicate EndsWithSuffix(filename: string) {
    |filename| >= |SUFFIX| && filename[|filename| - |SUFFIX|..] == SUFFIX
  }

  predicate SafeFilename(filename: string) {
    '/' !in filename && '\\' !in filename && EndsWithSuffix(filename)
  }

  /** `sha256:` and sixty-four lower-case hexadecimal digits. */
  predicate IsDigest(sha: string) {
    && |sha| == 71 && sha[..7] == "sha256:"
    && forall i | 7 <= i < 71 :: '0' <= sha[i] <= '9' || 'a' <= sha[i] <= 'f'
  }

  lemma {:induction false} EntryNamesDiffer(a: string, b: string)
    requires SafeFilename(a)
    ensures EntryName(a) == EntryName(b) ==> a == b
    ensures EntryName(a) != MANIFEST_ENTRY
  {
    var prefix := "wheelhouse/";
    assert EntryName(a)[|prefix|..] == a && EntryName(b)[|prefix|..] == b;
    assert MANIFEST_ENTRY[|prefix|..] == "manifest.json";
    assert |"manifest.json"| == 13 && "manifest.json"[9..] == "json";
  }

  // ---- The verifier ------------------------------------------------------

  /** What the loop over the records has gathered. */
  datatype Progress = Progress(seen: map<string, string>, paths: set<string>)

  /** One turn of the verifier's loop. */
  function CheckRecord(r: WheelRecord, entries: map<string, Content>, expected: map<string, string>, tools: Tools,
                       so: Progress): Result<Progress, Fault>
  {
    var name := Canonical(r.name);
    if !SafeFilename(r.filename) || !IsDigest(r.sha) || r.size < 1 then Err(UnsafeRecord)
    else if name in so.seen || name !in expected || expected[name] != r.version then Err(UnpinnedRecord)
    else if EntryName(r.filename) !in entries then Err(WheelMissing)
    else if !entries[EntryName(r.filename)].Wheel? then Err(DigestMismatch)
    else
      var payload := entries[EntryName(r.filename)].payload;
      if tools.hash(payload) != r.sha || |payload| != r.size then Err(DigestMismatch)
      else if tools.parse(r.filename).None? then Err(InvalidFilename)
      else
        var parsed, metadata := tools.parse(r.filename).value, tools.metadata(payload, r.filename);
        if metadata.None? then Err(MetadataMismatch)
        else if Canonical(parsed.distribution) != name || parsed.version != r.version
                || metadata.value != Identity(name, r.version) || !parsed.compatible
        then Err(IdentityMismatch)
        else Ok(Progress(so.seen[name := r.filename], so.paths + {EntryName(r.filename)}))
  }

  function CheckRecords(wheels: seq<WheelRecord>, entries: map<string, Content>, expected: map<string, string>,
                        tools: Tools): Result<Progress, Fault>
  {
    if wheels == [] then Ok(Progress(map[], {MANIFEST_ENTRY}))
    else
      var before := CheckRecords(wheels[..|wheels| - 1], entries, expected, tools);
      if before.Err? then before else CheckRecord(wheels[|wheels| - 1], entries, expected, tools, before.value)
  }

  /** `_verify_wheelhouse_entries`. */
  function Verify(entries: map<string, Content>, lock: seq<string>, tools: Tools): Result<Index, Fault> {
    if MANIFEST_ENTRY !in entries || !entries[MANIFEST_ENTRY].Manifest? || !entries[MANIFEST_ENTRY].index.bound
    then Err(ManifestUnbound)
    else
      var index, pins := entries[MANIFEST_ENTRY].index, LockPins(lock);
      if pins.Err? then Err(pins.error)
      else
        var expected := Expected(pins.value);
        if |index.wheels| != |expected| then Err(IncompleteManifest)
        else
          var end := CheckRecords(index.wheels, entries, expected, tools);
          if end.Err? then Err(end.error)
          else if end.value.seen.Keys != expected.Keys then Err(OmittedWheels)
          else if entries.Keys != end.value.paths then Err(UnlistedFiles)
          else Ok(index)
  }

  /** The verifier's loop as it runs. */
  method VerifyRecords(wheels: seq<WheelRecord>, entries: map<string, Content>, expected: map<string, string>,
                       tools: Tools)
    returns (r: Result<Progress, Fault>)
    ensures r == CheckRecords(wheels, entries, expected, tools)
  {
    var so := Progress(map[], {MANIFEST_ENTRY});
    for i := 0 to |wheels|
      invariant CheckRecords(wheels[..i], entries, expected, tools) == Ok(so)
    {
      assert wheels[..i + 1][..i] == wheels[..i];
      var next := CheckRecord(wheels[i], entries, expected, tools, so);
      if next.Err? {
        RejectionStays(wheels, i + 1, entries, expected, tools);
        return next;
      }
      so := next.value;
    }
    assert wheels[..|wheels|] == wheels;
    r := Ok(so);
  }

  lemma {:induction false} RejectionStays(wheels: seq<WheelRecord>, i: nat, entries: map<string, Content>,
                                          expected: map<string, string>, tools: Tools)
    requires i <= |wheels| && CheckRecords(wheels[..i], entries, expected, tools).Err?
    ensures CheckRecords(wheels, entries, expected, tools) == CheckRecords(wheels[..i], entries, expected, tools)
    decreases |wheels|
  {
    if i == |wheels| {
      assert wheels[..i] == wheels;
    } else {
      assert wheels[..|wheels| - 1][..i] == wheels[..i];
      RejectionStays(wheels[..|wheels| - 1], i, entries, expected, tools);
    }
  }

  // ---- What acceptance means ---------------------------------------------

  function NameOf(r: WheelRecord): string {
    Canonical(r.name)
  }

  /** What the loop establishes about one record. */
  ghost predicate RecordPassed(r: WheelRecord, entries: map<string, Content>, expected: map<string, string>,
                               tools: Tools) {
    && SafeFilename(r.filename) && EntryName(r.filename) in entries
    && NameOf(r) in expected && expected[NameOf(r)] == r.version
    && tools.parse(r.filename).Some? && Canonical(tools.parse(r.filename).value.distribution) == NameOf(r)
  }

  ghost predicate Extends(so: Progress, r: WheelRecord, next: Progress) {
    && NameOf(r) !in so.seen && next.seen == so.seen[NameOf(r) := r.filename]
    && next.paths == so.paths + {EntryName(r.filename)}
  }

  lemma {:induction false} TurnPasses(r: WheelRecord, entries: map<string, Content>, expected: map<string, string>,
                                      tools: Tools, so: Progress)
    requires CheckRecord(r, entries, expected, tools, so).Ok?
    ensures RecordPassed(r, entries, expected, tools)
              && Extends(so, r, CheckRecord(r, entries, expected, tools, so).value)
  {
  }

  ghost predicate AllPassed(wheels: seq<WheelRecord>, entries: map<string, Content>, expected: map<string, string>,
                            tools: Tools) {
    forall r | r in wheels :: RecordPassed(r, entries, expected, tools)
  }

  ghost predicate NameFrom(name: string, wheels: seq<WheelRecord>) {
    exists r | r in wheels :: NameOf(r) == name
  }

  ghost predicate PathFrom(path: string, wheels: seq<WheelRecord>) {
    exists r | r in wheels :: EntryName(r.filename) == path
  }

  /** The gathered names and paths are those of the records, each once. */
  ghost predicate Gathered(wheels: seq<WheelRecord>, so: Progress) {
    && (forall r | r in wheels :: NameOf(r) in so.seen && so.seen[NameOf(r)] == r.filename
          && EntryName(r.filename) in so.paths)
    && (forall name {:trigger NameFrom(name, wheels)} | name in so.seen :: NameFrom(name, wheels))
    && (forall p {:trigger PathFrom(p, wheels)} | p in so.paths && p != MANIFEST_ENTRY :: PathFrom(p, wheels))
    && MANIFEST_ENTRY in so.paths && |so.seen| == |wheels| && |so.paths| == |wheels| + 1
  }

  ghost predicate DistinctNames(wheels: seq<WheelRecord>) {
    forall i, j | 0 <= i < j < |wheels| :: NameOf(wheels[i]) != NameOf(wheels[j])
      && wheels[i].filename != wheels[j].filename
  }

  /** All that holds of the records passed so far and of what was gathered. */
  ghost predicate Tracked(wheels: seq<WheelRecord>, entries: map<string, Content>, expected: map<string, string>,
                          tools: Tools, so: Progress)
  {
    AllPassed(wheels, entries, expected, tools) && Gathered(wheels, so) && DistinctNames(wheels)
  }

  lemma {:induction false} LoopTracks(wheels: seq<WheelRecord>, entries: map<string, Content>,
                                      expected: map<string, string>, tools: Tools, so: Progress)
    requires CheckRecords(wheels, entries, expected, tools) == Ok(so)
    ensures Tracked(wheels, entries, expected, tools, so)
  {
    if wheels == [] {
      NothingIsTracked(entries, expected, tools);
    } else {
      var last := |wheels| - 1;
      var before := LastTurn(wheels, entries, expected, tools, so);
      LoopTracks(wheels[..last], entries, expected, tools, before);
      TurnTracks(wheels[..last], wheels[last], wheels, entries, expected, tools, before, so);
    }
  }

  lemma {:induction false} NothingIsTracked(entries: map<string, Content>, expected: map<string, string>, tools: Tools)
    ensures Tracked([], entries, expected, tools, Progress(map[], {MANIFEST_ENTRY}))
  {
  }

  lemma {:induction false} LastTurn(wheels: seq<WheelRecord>, entries: map<string, Content>,
                                    expected: map<string, string>,
                                    tools: Tools, so: Progress) returns (before: Progress)
    requires wheels != [] && CheckRecords(wheels, entries, expected, tools) == Ok(so)
    ensures CheckRecords(wheels[..|wheels| - 1], entries, expected, tools) == Ok(before)
    ensures CheckRecord(wheels[|wheels| - 1], entries, expected, tools, before) == Ok(so)
  {
    before := CheckRecords(wheels[..|wheels| - 1], entries, expected, tools).value;
  }

  lemma {:induction false} TurnTracks(wheels: seq<WheelRecord>, r: WheelRecord, longer: seq<WheelRecord>,
                                      entries: map<string, Content>, expected: map<string, string>, tools: Tools,
                                      so: Progress, next: Progress)
    requires longer == wheels + [r]
    requires Tracked(wheels, entries, expected, tools, so) && CheckRecord(r, entries, expected, tools, so) == Ok(next)
    ensures Tracked(longer, entries, expected, tools, next)
  {
    TurnPasses(r, entries, expected, tools, so);
    FilenameIsNew(wheels, r, entries, expected, tools, so);
    assert AllPassed(longer, entries, expected, tools);
    assert Gathered(longer, next) by {
      GathersOneMore(wheels, r, so, next);
    }
    assert DistinctNames(longer) by {
      OneMoreIsDistinct(wheels, r, so);
    }
  }

  lemma {:induction false} GathersOneMore(wheels: seq<WheelRecord>, r: WheelRecord, so: Progress, next: Progress)
    requires Gathered(wheels, so) && Extends(so, r, next) && EntryName(r.filename) !in so.paths
    ensures Gathered(wheels + [r], next)
  {
    assert r in wheels + [r];
    forall name | name in next.seen ensures NameFrom(name, wheels + [r]) {
      if name in so.seen {
        assert NameFrom(name, wheels);
        var x :| x in wheels && NameOf(x) == name;
        assert x in wheels + [r];
      }
    }
    forall p | p in next.paths && p != MANIFEST_ENTRY ensures PathFrom(p, wheels + [r]) {
      if p in so.paths {
        assert PathFrom(p, wheels);
        var x :| x in wheels && EntryName(x.filename) == p;
        assert x in wheels + [r];
      }
    }
  }

  /** One filename has one distribution, so a new distribution has a new file. */
  lemma {:induction false} FilenameIsNew(wheels: seq<WheelRecord>, r: WheelRecord, entries: map<string, Content>,
                                         expected: map<string, string>, tools: Tools, so: Progress)
    requires AllPassed(wheels, entries, expected, tools) && Gathered(wheels, so)
    requires RecordPassed(r, entries, expected, tools) && NameOf(r) !in so.seen
    ensures EntryName(r.filename) !in so.paths
  {
    var p := EntryName(r.filename);
    EntryNamesDiffer(r.filename, r.filename);
    forall x | x in wheels ensures EntryName(x.filename) != p {
      EntryNamesDiffer(r.filename, x.filename);
    }
    assert !PathFrom(p, wheels);
  }

  lemma {:induction false} OneMoreIsDistinct(wheels: seq<WheelRecord>, r: WheelRecord, so: Progress)
    requires DistinctNames(wheels) && Gathered(wheels, so) && NameOf(r) !in so.seen
               && EntryName(r.filename) !in so.paths
    ensures DistinctNames(wheels + [r])
  {
    forall i | 0 <= i < |wheels| ensures NameOf(wheels[i]) != NameOf(r) && wheels[i].filename != r.filename {
      assert wheels[i] in wheels;
    }
  }

  lemma {:induction false} SameSizeSubset<T>(a: set<T>, b: set<T>)
    requires a <= b && |a| == |b|
    ensures a == b
  {
    assert |b - a| == |b| - |a|;
    assert b == a + (b - a);
  }

  /** Once the loop has passed as many records as there are pins, every pinned name
      has been seen: the last comparison of names cannot fail. */
  lemma {:induction false} NameCheckIsRedundant(wheels: seq<WheelRecord>, entries: map<string, Content>,
                                                expected: map<string, string>, tools: Tools)
    requires |wheels| == |expected| && CheckRecords(wheels, entries, expected, tools).Ok?
    ensures CheckRecords(wheels, entries, expected, tools).value.seen.Keys == expected.Keys
  {
    LoopTracks(wheels, entries, expected, tools, CheckRecords(wheels, entries, expected, tools).value);
    AllNamesAreSeen(wheels, entries, expected, tools, CheckRecords(wheels, entries, expected, tools).value);
  }

  lemma {:induction false} AllNamesAreSeen(wheels: seq<WheelRecord>, entries: map<string, Content>,
                                           expected: map<string, string>, tools: Tools, so: Progress)
    requires |wheels| == |expected| && AllPassed(wheels, entries, expected, tools) && Gathered(wheels, so)
    ensures so.seen.Keys == expected.Keys
  {
    forall name | name in so.seen.Keys ensures name in expected.Keys {
      assert NameFrom(name, wheels);
      var r :| r in wheels && NameOf(r) == name;
      assert RecordPassed(r, entries, expected, tools);
    }
    SameSizeSubset(so.seen.Keys, expected.Keys);
  }

  lemma {:induction false} ExpectedIsNoLarger(pins: seq<Pin>)
    ensures |Expected(pins)| <= |pins|
    ensures forall name | name in Expected(pins) ::
              exists pin | pin in pins :: Canonical(pin.name) == name && pin.version == Expected(pins)[name]
  {
    if pins != [] {
      var before, last := pins[..|pins| - 1], pins[|pins| - 1];
      ExpectedIsNoLarger(before);
      forall name | name in Expected(pins)
        ensures exists pin | pin in pins :: Canonical(pin.name) == name && pin.version == Expected(pins)[name]
      {
        if name == Canonical(last.name) {
          assert last in pins;
        } else {
          var pin :| pin in before && Canonical(pin.name) == name && pin.version == Expected(before)[name];
          assert pin in pins;
        }
      }
    }
  }

  lemma {:induction false} ExpectedHoldsThePins(pins: seq<Pin>)
    requires |Expected(pins)| == |pins|
    ensures forall pin | pin in pins :: Canonical(pin.name) in Expected(pins)
              && Expected(pins)[Canonical(pin.name)] == pin.version
  {
    if pins != [] {
      var before, last := pins[..|pins| - 1], pins[|pins| - 1];
      ExpectedIsNoLarger(before);
      ExpectedHoldsThePins(before);
      assert forall pin | pin in pins :: pin in before || pin == last;
    }
  }

  /** The record of a pin: same distribution, same version, its file in the package. */
  ghost predicate Carries(entries: map<string, Content>, r: WheelRecord, pin: Pin) {
    NameOf(r) == Canonical(pin.name) && r.version == pin.version && EntryName(r.filename) in entries
  }

  ghost predicate PinsAreCarried(pins: seq<Pin>, wheels: seq<WheelRecord>, entries: map<string, Content>) {
    forall pin | pin in pins :: exists r | r in wheels :: Carries(entries, r, pin)
  }

  ghost predicate RecordsArePinned(pins: seq<Pin>, wheels: seq<WheelRecord>, entries: map<string, Content>) {
    forall r | r in wheels :: exists pin | pin in pins :: Carries(entries, r, pin)
  }

  ghost predicate NothingElse(wheels: seq<WheelRecord>, entries: map<string, Content>) {
    forall p | p in entries && p != MANIFEST_ENTRY :: PathFrom(p, wheels)
  }

  /** As many records as pins, a record for each pin, pairwise distinct distributions
      and files, and no entries but those files and the manifest. */
  ghost predicate OneWheelPerPin(pins: seq<Pin>, wheels: seq<WheelRecord>, entries: map<string, Content>) {
    && |wheels| == |pins| && |entries.Keys| == |pins| + 1 && DistinctNames(wheels)
    && PinsAreCarried(pins, wheels, entries) && NothingElse(wheels, entries)
  }

  /** An accepted package holds exactly one wheel per pin and nothing else. */
  lemma {:induction false} AcceptanceIsABijection(entries: map<string, Content>, lock: seq<string>, tools: Tools)
    requires Verify(entries, lock, tools).Ok?
    ensures LockPins(lock).Ok?
    ensures OneWheelPerPin(LockPins(lock).value, Verify(entries, lock, tools).value.wheels, entries)
  {
    var pins, wheels := LockPins(lock).value, entries[MANIFEST_ENTRY].index.wheels;
    PassedLoopIsABijection(pins, wheels, entries, tools);
  }

  lemma {:induction false} PassedLoopIsABijection(pins: seq<Pin>, wheels: seq<WheelRecord>,
                                                  entries: map<string, Content>, tools: Tools)
    requires |Expected(pins)| == |pins| == |wheels| && CheckRecords(wheels, entries, Expected(pins), tools).Ok?
    requires entries.Keys == CheckRecords(wheels, entries, Expected(pins), tools).value.paths
    ensures OneWheelPerPin(pins, wheels, entries)
  {
    var expected := Expected(pins);
    LoopTracks(wheels, entries, expected, tools, CheckRecords(wheels, entries, expected, tools).value);
    NameCheckIsRedundant(wheels, entries, expected, tools);
    TrackedIsABijection(pins, wheels, entries, tools, CheckRecords(wheels, entries, expected, tools).value);
  }

  lemma {:induction false} TrackedIsABijection(pins: seq<Pin>, wheels: seq<WheelRecord>, entries: map<string, Content>,
                                               tools: Tools, so: Progress)
    requires |Expected(pins)| == |pins| == |wheels| && Tracked(wheels, entries, Expected(pins), tools, so)
    requires so.seen.Keys == Expected(pins).Keys && entries.Keys == so.paths
    ensures OneWheelPerPin(pins, wheels, entries)
  {
    EachPinIsCarried(pins, wheels, entries, tools, so);
    OnlyTheFiles(wheels, entries, so);
    assert |entries.Keys| == |pins| + 1;
  }

  /** Conversely, every record of an accepted package is that of a pin. */
  lemma {:induction false} EveryWheelIsPinned(entries: map<string, Content>, lock: seq<string>, tools: Tools)
    requires Verify(entries, lock, tools).Ok?
    ensures LockPins(lock).Ok?
    ensures RecordsArePinned(LockPins(lock).value, Verify(entries, lock, tools).value.wheels, entries)
  {
    var pins, wheels := LockPins(lock).value, entries[MANIFEST_ENTRY].index.wheels;
    PassedRecordsArePinned(pins, wheels, entries, tools);
  }

  lemma {:induction false} PassedRecordsArePinned(pins: seq<Pin>, wheels: seq<WheelRecord>,
                                                  entries: map<string, Content>, tools: Tools)
    requires CheckRecords(wheels, entries, Expected(pins), tools).Ok?
    ensures RecordsArePinned(pins, wheels, entries)
  {
    LoopTracks(wheels, entries, Expected(pins), tools, CheckRecords(wheels, entries, Expected(pins), tools).value);
    EachRecordIsPinned(pins, wheels, entries, tools);
  }

  lemma {:induction false} OnlyTheFiles(wheels: seq<WheelRecord>, entries: map<string, Content>, so: Progress)
    requires Gathered(wheels, so) && entries.Keys == so.paths
    ensures NothingElse(wheels, entries)
  {
    forall p | p in entries && p != MANIFEST_ENTRY ensures PathFrom(p, wheels) {
    }
  }

  lemma {:induction false} EachPinIsCarried(pins: seq<Pin>, wheels: seq<WheelRecord>, entries: map<string, Content>,
                                            tools: Tools, so: Progress)
    requires |Expected(pins)| == |pins|
    requires AllPassed(wheels, entries, Expected(pins), tools) && Gathered(wheels, so)
               && so.seen.Keys == Expected(pins).Keys
    ensures PinsAreCarried(pins, wheels, entries)
  {
    ExpectedHoldsThePins(pins);
    forall pin | pin in pins ensures exists r | r in wheels :: Carries(entries, r, pin) {
      assert Canonical(pin.name) in so.seen && NameFrom(Canonical(pin.name), wheels);
      var r :| r in wheels && NameOf(r) == Canonical(pin.name);
      assert RecordPassed(r, entries, Expected(pins), tools);
      assert Carries(entries, r, pin);
    }
  }

  lemma {:induction false} EachRecordIsPinned(pins: seq<Pin>, wheels: seq<WheelRecord>, entries: map<string, Content>,
                                              tools: Tools)
    requires AllPassed(wheels, entries, Expected(pins), tools)
    ensures RecordsArePinned(pins, wheels, entries)
  {
    ExpectedIsNoLarger(pins);
    forall r | r in wheels ensures exists pin | pin in pins :: Carries(entries, r, pin) {
      assert RecordPassed(r, entries, Expected(pins), tools);
      var pin :| pin in pins && Canonical(pin.name) == NameOf(r) && pin.version == Expected(pins)[NameOf(r)];
      assert Carries(entries, r, pin);
    }
  }

  // ---- The builder -----------------------------------------------------------

  datatype Built = Built(records: seq<WheelRecord>, entries: map<string, Content>, found: map<string, string>)

  /** One turn of the builder's loop. */
  function AddWheel(w: WheelFile, expected: map<string, string>, tools: Tools, so: Built): Result<Built, Fault> {
    if !w.regular || !EndsWithSuffix(w.filename) || |w.filename| == |SUFFIX| || !SafeFilename(w.filename)
      then Err(UnsafeFile)
    else if tools.parse(w.filename).None? then Err(InvalidFilename)
    else
      var parsed := tools.parse(w.filename).value;
      var name := Canonical(parsed.distribution);
      if name !in expected || expected[name] != parsed.version || name in so.found then Err(NotLocked)
      else if tools.metadata(w.payload, w.filename) != Some(Identity(name, parsed.version)) then Err(MetadataMismatch)
      else if !parsed.compatible then Err(Incompatible)
      else
        Ok(Built(so.records + [WheelRecord(w.filename, name, parsed.version, tools.hash(w.payload), |w.payload|)],
                 so.entries[EntryName(w.filename) := Wheel(w.payload)], so.found[name := w.filename]))
  }

  function AddWheels(wheels: seq<WheelFile>, expected: map<string, string>, tools: Tools): Result<Built, Fault> {
    if wheels == [] then Ok(Built([], map[], map[]))
    else
      var before := AddWheels(wheels[..|wheels| - 1], expected, tools);
      if before.Err? then before else AddWheel(wheels[|wheels| - 1], expected, tools, before.value)
  }

  /** `_wheelhouse_entries` up to its closing verification, over the wheels in order. */
  function Assemble(lock: seq<string>, wheels: seq<WheelFile>, tools: Tools): Result<map<string, Content>, Fault> {
    var pins := LockPins(lock);
    if pins.Err? then Err(pins.error)
    else
      var built := AddWheels(wheels, Expected(pins.value), tools);
      if built.Err? then Err(built.error)
      else if built.value.found.Keys != Expected(pins.value).Keys then Err(MissingWheels)
      else Ok(built.value.entries[MANIFEST_ENTRY := Manifest(Index(true, built.value.records))])
  }

  /** The builder's loop as it runs. */
  method BuildWheels(wheels: seq<WheelFile>, expected: map<string, string>, tools: Tools)
    returns (r: Result<Built, Fault>)
    ensures r == AddWheels(wheels, expected, tools)
  {
    var so := Built([], map[], map[]);
    for i := 0 to |wheels|
      invariant AddWheels(wheels[..i], expected, tools) == Ok(so)
    {
      assert wheels[..i + 1][..i] == wheels[..i];
      var next := AddWheel(wheels[i], expected, tools, so);
      if next.Err? {
        RefusalStays(wheels, i + 1, expected, tools);
        return next;
      }
      so := next.value;
    }
    assert wheels[..|wheels|] == wheels;
    r := Ok(so);
  }

  lemma {:induction false} RefusalStays(wheels: seq<WheelFile>, i: nat, expected: map<string, string>, tools: Tools)
    requires i <= |wheels| && AddWheels(wheels[..i], expected, tools).Err?
    ensures AddWheels(wheels, expected, tools) == AddWheels(wheels[..i], expected, tools)
    decreases |wheels|
  {
    if i == |wheels| {
      assert wheels[..i] == wheels;
    } else {
      assert wheels[..|wheels| - 1][..i] == wheels[..i];
      RefusalStays(wheels[..|wheels| - 1], i, expected, tools);
    }
  }

  /** Hashes are well formed, and nothing reads an empty file as a wheel. */
  ghost predicate Sensible(tools: Tools) {
    && (forall payload :: IsDigest(tools.hash(payload)))
    && (forall filename :: tools.metadata([], filename) == None)
  }

  /** Every collected entry is the file of a distribution already found. */
  ghost predicate FilesAreFound(b: Built, tools: Tools) {
    && |b.records| == |b.found|
    && forall p | p in b.entries ::
         exists filename | SafeFilename(filename) && EntryName(filename) == p ::
           tools.parse(filename).Some? && Canonical(tools.parse(filename).value.distribution) in b.found
  }

  lemma {:induction false} TurnFinds(w: WheelFile, expected: map<string, string>, tools: Tools, so: Built)
    requires FilesAreFound(so, tools) && AddWheel(w, expected, tools, so).Ok?
    ensures FilesAreFound(AddWheel(w, expected, tools, so).value, tools)
    ensures EntryName(w.filename) !in so.entries
  {
    var next := AddWheel(w, expected, tools, so).value;
    if EntryName(w.filename) in so.entries {
      var filename :| SafeFilename(filename) && EntryName(filename) == EntryName(w.filename)
        && tools.parse(filename).Some? && Canonical(tools.parse(filename).value.distribution) in so.found;
      EntryNamesDiffer(filename, w.filename);
    }
    forall p | p in next.entries
      ensures exists filename | SafeFilename(filename) && EntryName(filename) == p ::
                tools.parse(filename).Some? && Canonical(tools.parse(filename).value.distribution) in next.found
    {
      if p in so.entries {
        var filename :| SafeFilename(filename) && EntryName(filename) == p
          && tools.parse(filename).Some? && Canonical(tools.parse(filename).value.distribution) in so.found;
        assert Canonical(tools.parse(filename).value.distribution) in next.found;
      }
    }
  }

  lemma {:induction false} BuilderFinds(wheels: seq<WheelFile>, expected: map<string, string>, tools: Tools)
    requires AddWheels(wheels, expected, tools).Ok?
    ensures FilesAreFound(AddWheels(wheels, expected, tools).value, tools)
  {
    if wheels != [] {
      BuilderFinds(wheels[..|wheels| - 1], expected, tools);
      TurnFinds(wheels[|wheels| - 1], expected, tools, AddWheels(wheels[..|wheels| - 1], expected, tools).value);
    }
  }

  ghost predicate Includes(all: map<string, Content>, part: map<string, Content>) {
    forall p | p in part :: p in all && all[p] == part[p]
  }

  /** The verifier's turn on a record the builder just wrote. */
  lemma {:induction false} TurnChecks(w: WheelFile, expected: map<string, string>, tools: Tools, so: Built,
                                      all: map<string, Content>)
    requires AddWheel(w, expected, tools, so).Ok? && Sensible(tools)
    requires EntryName(w.filename) in all && all[EntryName(w.filename)] == Wheel(w.payload)
    ensures
      var next := AddWheel(w, expected, tools, so).value;
      CheckRecord(next.records[|so.records|], all, expected, tools,
        Progress(so.found, {MANIFEST_ENTRY} + so.entries.Keys))
        == Ok(Progress(next.found, {MANIFEST_ENTRY} + next.entries.Keys))
  {
    var name := Canonical(tools.parse(w.filename).value.distribution);
    CanonicalTwice(tools.parse(w.filename).value.distribution);
    assert w.payload != [];
    assert {MANIFEST_ENTRY} + so.entries.Keys + {EntryName(w.filename)}
        == {MANIFEST_ENTRY} + so.entries[EntryName(w.filename) := Wheel(w.payload)].Keys;
  }

  lemma {:induction false} BuiltRecordsCheck(wheels: seq<WheelFile>, expected: map<string, string>, tools: Tools,
                                             all: map<string, Content>)
    requires AddWheels(wheels, expected, tools).Ok? && Sensible(tools)
    requires Includes(all, AddWheels(wheels, expected, tools).value.entries)
    ensures
      var built := AddWheels(wheels, expected, tools).value;
      CheckRecords(built.records, all, expected, tools) ==
        Ok(Progress(built.found, {MANIFEST_ENTRY} + built.entries.Keys))
  {
    if wheels == [] {
      assert {MANIFEST_ENTRY} + AddWheels(wheels, expected, tools).value.entries.Keys == {MANIFEST_ENTRY};
    } else {
      var before, w := wheels[..|wheels| - 1], wheels[|wheels| - 1];
      var so, built := AddWheels(before, expected, tools).value, AddWheels(wheels, expected, tools).value;
      BuilderFinds(before, expected, tools);
      TurnFinds(w, expected, tools, so);
      assert Includes(all, so.entries);
      BuiltRecordsCheck(before, expected, tools, all);
      TurnChecks(w, expected, tools, so, all);
      assert built.records[..|built.records| - 1] == so.records;
    }
  }

  /** Whatever the builder assembles passes the verifier it ends with. */
  lemma {:induction false} BuiltWheelhouseIsAccepted(lock: seq<string>, wheels: seq<WheelFile>, tools: Tools)
    requires Sensible(tools) && Assemble(lock, wheels, tools).Ok?
    ensures Verify(Assemble(lock, wheels, tools).value, lock, tools).Ok?
  {
    var expected := Expected(LockPins(lock).value);
    var built := AddWheels(wheels, expected, tools).value;
    var all := Assemble(lock, wheels, tools).value;
    BuilderFinds(wheels, expected, tools);
    forall p | p in built.entries ensures p != MANIFEST_ENTRY {
      var filename :| SafeFilename(filename) && EntryName(filename) == p;
      EntryNamesDiffer(filename, filename);
    }
    assert Includes(all, built.entries);
    BuiltRecordsCheck(wheels, expected, tools, all);
    assert |built.found.Keys| == |built.found| && |expected.Keys| == |expected|;
    assert all.Keys == {MANIFEST_ENTRY} + built.entries.Keys;
  }
}

/** The compatibility evaluator on a node inventory, fed with the analyzer's bounds. */
module CompatibilityRules {
  import opened Wrappers
  import Analyzer = ModelAnalyzer
  import Doubles

  datatype Severity = Blocked | Warning | NotKnown

  datatype Code =
    | IdentityMissing | InventoryMissing
    | RuntimeUnknown | RuntimeMismatch | DriverUnknown | DriverTooOld
    | PrecisionUnknown | PrecisionUnsupported
    | MemoryUnknown | MemoryInsufficient | MemoryOverlap

  datatype Issue = Issue(code: Code, severity: Severity)

  datatype Verdict = Rejected | Advised(severity: Severity) | Chosen

  /** `subject` is None for the one decision that everything passed. */
  datatype Decision = Decision(subject: Option<Code>, verdict: Verdict)

  datatype Report = Report(compatible: bool, issues: seq<Issue>, decisions: seq<Decision>)

  /** An inventory item; None is an item that is not an object. A missing amount of
      memory counts as zero. */
  datatype Accelerator = Accelerator(features: set<string>, memory: int)

  type Accelerators = seq<Option<Accelerator>>

  /** Empty or missing texts are None. */
  datatype Hardware = Hardware(runtime: Option<string>, driver: Option<string>, accelerators: Accelerators)

  datatype Environment = Environment(identity: bool, runtime: Option<string>, minimumDriver: Option<string>)

  /** The model's estimate as the evaluator finds it: None, or bounds that may fail to
      be integers. */
  datatype Bounds = Bounds(lower: Option<int>, upper: Option<int>)

  datatype Model = Model(precision: string, estimate: Option<Bounds>)

  // ---- Versions ----------------------------------------------------------

  predicate IsDigit(c: char) {
    '0' <= c <= '9'
  }

  /** The runs of digits, as numbers; `open` is the run being read. */
  function Numbers(s: string, open: Option<nat>): seq<nat> {
    var closed := if open.Some? then [open.value] else [];
    if s == [] then closed
    else if IsDigit(s[0]) then
      Numbers(s[1..], Some((if open.Some? then 10 * open.value else 0) + (s[0] as int - '0' as int)))
    else closed + Numbers(s[1..], None)
  }

  datatype Version = Version(major: nat, minor: nat, patch: nat)

  function Part(numbers: seq<nat>, i: nat): nat {
    if i < |numbers| then numbers[i] else 0
  }

  /** `_version`: the first three numbers of a text, zero where there are fewer. */
  function VersionOf(s: string): Version {
    var numbers := Numbers(s, None);
    Version(Part(numbers, 0), Part(numbers, 1), Part(numbers, 2))
  }

  predicate Older(a: Version, b: Version) {
    a.major < b.major || (a.major == b.major && (a.minor < b.minor || (a.minor == b.minor && a.patch < b.patch)))
  }

  /** Versions compare as the numbers they write in any base above their parts. */
  lemma {:induction false} OlderIsSmaller(a: Version, b: Version, base: nat)
    requires a.major < base && a.minor < base && a.patch < base
    requires b.major < base && b.minor < base && b.patch < base
    ensures Older(a, b) <==>
              (a.major * base + a.minor) * base + a.patch < (b.major * base + b.minor) * base + b.patch
  {
    var high, low := a.major * base + a.minor, b.major * base + b.minor;
    assert Older(a, b) <==> high < low || (high == low && a.patch < b.patch) by {
      DigitsCompare(a.major, a.minor, b.major, b.minor, base);
    }
    DigitsCompare(high, a.patch, low, b.patch, base);
  }

  lemma {:induction false} DigitsCompare(a: nat, x: nat, b: nat, y: nat, base: nat)
    requires x < base && y < base
    ensures a * base + x < b * base + y <==> a < b || (a == b && x < y)
    ensures a * base + x == b * base + y <==> a == b && x == y
  {
    if a < b {
      Multiply(a + 1, b, base);
    } else if b < a {
      Multiply(b + 1, a, base);
    }
  }

  lemma {:induction false} Multiply(a: nat, b: nat, factor: nat)
    requires a <= b
    ensures a * factor <= b * factor
  {
  }

  function Written(n: nat): string {
    if n < 10 then ["0123456789"[n]] else Written(n / 10) + ["0123456789"[n % 10]]
  }

  lemma {:induction false} NumberReadsBack(n: nat, rest: string)
    ensures Numbers(Written(n) + rest, None) == Numbers(rest, Some(n))
  {
    var digit := "0123456789"[n % 10];
    assert digit as int - '0' as int == n % 10;
    if n < 10 {
      assert (Written(n) + rest)[1..] == rest;
    } else {
      assert Written(n) + rest == Written(n / 10) + ([digit] + rest);
      NumberReadsBack(n / 10, [digit] + rest);
      assert ([digit] + rest)[1..] == rest;
    }
  }

  lemma {:induction false} PartReadsBack(n: nat, rest: string)
    ensures Numbers(Written(n) + ("." + rest), None) == [n] + Numbers(rest, None)
  {
    NumberReadsBack(n, "." + rest);
    assert ("." + rest)[1..] == rest;
  }

  lemma {:induction false} LastPartReadsBack(n: nat)
    ensures Numbers(Written(n), None) == [n]
  {
    NumberReadsBack(n, "");
    assert Written(n) + "" == Written(n);
  }

  /** A version is read back from its parts with dots between them. */
  lemma {:induction false} VersionReadsBack(v: Version)
    ensures VersionOf(Written(v.major) + ("." + (Written(v.minor) + ("." + Written(v.patch))))) == v
  {
    var minor := Written(v.minor) + ("." + Written(v.patch));
    PartReadsBack(v.major, minor);
    PartReadsBack(v.minor, Written(v.patch));
    LastPartReadsBack(v.patch);
    ThreeParts(Written(v.major) + ("." + minor), v);
  }

  lemma {:induction false} ThreeParts(text: string, v: Version)
    requires Numbers(text, None) == [v.major] + ([v.minor] + [v.patch])
    ensures VersionOf(text) == v
  {
  }

  // ---- The rules ---------------------------------------------------------

  function RuntimeIssues(expected: Option<string>, actual: Option<string>): seq<Issue> {
    if expected.None? then []
    else if actual.None? then [Issue(RuntimeUnknown, NotKnown)]
    else if actual != expected then [Issue(RuntimeMismatch, Blocked)]
    else []
  }

  function DriverIssues(minimum: Option<string>, driver: Option<string>): seq<Issue> {
    if minimum.None? then []
    else if driver.None? then [Issue(DriverUnknown, NotKnown)]
    else if Older(VersionOf(driver.value), VersionOf(minimum.value)) then [Issue(DriverTooOld, Blocked)]
    else []
  }

  predicate Supports(a: Accelerator, precision: string) {
    "precision:" + precision in a.features || precision in a.features
  }

  predicate HasAccelerator(accelerators: Accelerators) {
    exists i | 0 <= i < |accelerators| :: accelerators[i].Some?
  }

  predicate SomeSupports(accelerators: Accelerators, precision: string) {
    exists i | 0 <= i < |accelerators| :: accelerators[i].Some? && Supports(accelerators[i].value, precision)
  }

  function PrecisionIssues(accelerators: Accelerators, precision: string): seq<Issue> {
    if !HasAccelerator(accelerators) then [Issue(PrecisionUnknown, NotKnown)]
    else if !SomeSupports(accelerators, precision) then [Issue(PrecisionUnsupported, Blocked)]
    else []
  }

  function Available(accelerators: Accelerators): int {
    if accelerators == [] then 0
    else
      var last := accelerators[|accelerators| - 1];
      Available(accelerators[..|accelerators| - 1]) + if last.Some? then last.value.memory else 0
  }

  function MemoryIssues(estimate: Option<Bounds>, available: int): seq<Issue> {
    if estimate.None? || estimate.value.lower.None? || estimate.value.upper.None? then [Issue(MemoryUnknown, NotKnown)]
    else if available < estimate.value.lower.value then [Issue(MemoryInsufficient, Blocked)]
    else if available < estimate.value.upper.value then [Issue(MemoryOverlap, Warning)]
    else []
  }

  function IdentityIssues(environment: Environment): seq<Issue> {
    if environment.identity then [] else [Issue(IdentityMissing, NotKnown)]
  }

  function InventoryIssues(hardware: Hardware, model: Model, environment: Environment): seq<Issue> {
    RuntimeIssues(environment.runtime, hardware.runtime) + DriverIssues(environment.minimumDriver, hardware.driver)
    + PrecisionIssues(hardware.accelerators, model.precision)
    + MemoryIssues(model.estimate, Available(hardware.accelerators))
  }

  function Issues(hardware: Option<Hardware>, model: Model, environment: Environment): seq<Issue> {
    IdentityIssues(environment)
    + if hardware.None? then [Issue(InventoryMissing, NotKnown)]
      else InventoryIssues(hardware.value, model, environment)
  }

  predicate AnyBlocked(issues: seq<Issue>) {
    exists i | 0 <= i < |issues| :: issues[i].severity == Blocked
  }

  function DecisionFor(issue: Issue): Decision {
    Decision(Some(issue.code), if issue.severity == Blocked then Rejected else Advised(issue.severity))
  }

  /** `_evaluate_inventory` with its appends, its loop over the accelerators and its
      loop over the issues. A report without an inventory carries no decisions. */
  method Evaluate(hardware: Option<Hardware>, model: Model, environment: Environment) returns (report: Report)
    ensures report.issues == Issues(hardware, model, environment)
    ensures report.compatible <==> !AnyBlocked(report.issues)
    ensures hardware.None? ==> report.decisions == [] && report.compatible
    ensures hardware.Some? && report.issues == [] ==> report.decisions == [Decision(None, Chosen)]
    ensures hardware.Some? && report.issues != [] ==>
              |report.decisions| == |report.issues| &&
              forall i | 0 <= i < |report.issues| :: report.decisions[i] == DecisionFor(report.issues[i])
  {
    var issues := IdentityIssues(environment);
    if hardware.None? {
      issues := issues + [Issue(InventoryMissing, NotKnown)];
      var blocked := FindBlocked(issues);
      return Report(!blocked, issues, []);
    }
    issues := issues + RuntimeIssues(environment.runtime, hardware.value.runtime);
    issues := issues + DriverIssues(environment.minimumDriver, hardware.value.driver);
    issues := issues + PrecisionIssues(hardware.value.accelerators, model.precision);
    var available := SumMemory(hardware.value.accelerators);
    issues := issues + MemoryIssues(model.estimate, available);
    assert issues == Issues(hardware, model, environment);
    var decisions := Decide(issues);
    var blocked := FindBlocked(issues);
    report := Report(!blocked, issues, decisions);
  }

  /** One decision per issue, or a single one if there is none. */
  method Decide(issues: seq<Issue>) returns (decisions: seq<Decision>)
    ensures issues == [] ==> decisions == [Decision(None, Chosen)]
    ensures issues != [] ==> |decisions| == |issues| && forall i | 0 <= i < |issues| ::
              decisions[i] == DecisionFor(issues[i])
  {
    decisions := [];
    for i := 0 to |issues|
      invariant |decisions| == i && forall j | 0 <= j < i :: decisions[j] == DecisionFor(issues[j])
    {
      decisions := decisions + [DecisionFor(issues[i])];
    }
    if decisions == [] {
      decisions := [Decision(None, Chosen)];
    }
  }

  method SumMemory(accelerators: Accelerators) returns (available: int)
    ensures available == Available(accelerators)
  {
    available := 0;
    for i := 0 to |accelerators|
      invariant available == Available(accelerators[..i])
    {
      assert accelerators[..i + 1][..i] == accelerators[..i];
      if accelerators[i].Some? {
        available := available + accelerators[i].value.memory;
      }
    }
    assert accelerators[..|accelerators|] == accelerators;
  }

  method FindBlocked(issues: seq<Issue>) returns (blocked: bool)
    ensures blocked <==> AnyBlocked(issues)
  {
    for i := 0 to |issues|
      invariant forall j | 0 <= j < i :: issues[j].severity != Blocked
    {
      if issues[i].severity == Blocked {
        return true;
      }
    }
    blocked := false;
  }

  predicate Compatible(hardware: Option<Hardware>, model: Model, environment: Environment) {
    !AnyBlocked(Issues(hardware, model, environment))
  }

  // ---- Which issues a report holds -----------------------------------------

  /** What an issue arises from, code by code. */
  predicate Arises(code: Code, hardware: Option<Hardware>, model: Model, environment: Environment) {
    match code
    case IdentityMissing => !environment.identity
    case InventoryMissing => hardware.None?
    case _ => hardware.Some? && ArisesFrom(code, hardware.value, model, environment)
  }

  predicate ArisesFrom(code: Code, hardware: Hardware, model: Model, environment: Environment) {
    var estimate, available := model.estimate, Available(hardware.accelerators);
    var known := estimate.Some? && estimate.value.lower.Some? && estimate.value.upper.Some?;
    match code
    case RuntimeUnknown => environment.runtime.Some? && hardware.runtime.None?
    case RuntimeMismatch =>
      environment.runtime.Some? && hardware.runtime.Some? && hardware.runtime.value != environment.runtime.value
    case DriverUnknown => environment.minimumDriver.Some? && hardware.driver.None?
    case DriverTooOld =>
      environment.minimumDriver.Some? && hardware.driver.Some? &&
      Older(VersionOf(hardware.driver.value), VersionOf(environment.minimumDriver.value))
    case PrecisionUnknown => forall i | 0 <= i < |hardware.accelerators| :: hardware.accelerators[i].None?
    case PrecisionUnsupported =>
      && (exists i | 0 <= i < |hardware.accelerators| :: hardware.accelerators[i].Some?)
      && forall i | 0 <= i < |hardware.accelerators| && hardware.accelerators[i].Some? ::
           model.precision !in hardware.accelerators[i].value.features &&
           "precision:" + model.precision !in hardware.accelerators[i].value.features
    case MemoryUnknown => !known
    case MemoryInsufficient => known && available < estimate.value.lower.value
    case MemoryOverlap => known && estimate.value.lower.value <= available < estimate.value.upper.value
    case _ => false
  }

  /** Mismatches block, missing facts are unknown, and only an overlap is a warning. */
  function SeverityOf(code: Code): Severity {
    match code
    case MemoryOverlap => Warning
    case RuntimeMismatch => Blocked
    case DriverTooOld => Blocked
    case PrecisionUnsupported => Blocked
    case MemoryInsufficient => Blocked
    case _ => NotKnown
  }

  /** A report holds exactly the issues that arise, each with its severity. */
  lemma {:induction false} IssuesAreExact(hardware: Option<Hardware>, model: Model, environment: Environment,
                                          issue: Issue)
    ensures issue in Issues(hardware, model, environment) <==>
              Arises(issue.code, hardware, model, environment) && issue.severity == SeverityOf(issue.code)
  {
    if hardware.Some? {
      RuntimeIssuesAreExact(hardware.value, model, environment, issue);
      PrecisionIssuesAreExact(hardware.value, model, environment, issue);
      MemoryIssuesAreExact(hardware.value, model, environment, issue);
      var a := RuntimeIssues(environment.runtime, hardware.value.runtime);
      var b := DriverIssues(environment.minimumDriver, hardware.value.driver);
      assert issue in InventoryIssues(hardware.value, model, environment) <==>
             issue in a || issue in b || issue in PrecisionIssues(hardware.value.accelerators, model.precision)
             || issue in MemoryIssues(model.estimate, Available(hardware.value.accelerators));
    }
  }

  lemma {:induction false} RuntimeIssuesAreExact(hardware: Hardware, model: Model, environment: Environment,
                                                 issue: Issue)
    ensures issue in RuntimeIssues(environment.runtime, hardware.runtime) <==>
              && (issue.code.RuntimeUnknown? || issue.code.RuntimeMismatch?)
              && ArisesFrom(issue.code, hardware, model, environment) && issue.severity == SeverityOf(issue.code)
    ensures issue in DriverIssues(environment.minimumDriver, hardware.driver) <==>
              && (issue.code.DriverUnknown? || issue.code.DriverTooOld?)
              && ArisesFrom(issue.code, hardware, model, environment) && issue.severity == SeverityOf(issue.code)
  {
  }

  lemma {:induction false} PrecisionIssuesAreExact(hardware: Hardware, model: Model, environment: Environment,
                                                   issue: Issue)
    ensures issue in PrecisionIssues(hardware.accelerators, model.precision) <==>
              && (issue.code.PrecisionUnknown? || issue.code.PrecisionUnsupported?)
              && ArisesFrom(issue.code, hardware, model, environment) && issue.severity == SeverityOf(issue.code)
  {
  }

  lemma {:induction false} MemoryIssuesAreExact(hardware: Hardware, model: Model, environment: Environment,
                                                issue: Issue)
    ensures issue in MemoryIssues(model.estimate, Available(hardware.accelerators)) <==>
              && (issue.code.MemoryUnknown? || issue.code.MemoryInsufficient? || issue.code.MemoryOverlap?)
              && ArisesFrom(issue.code, hardware, model, environment) && issue.severity == SeverityOf(issue.code)
  {
  }

  // ---- Which rules can block ---------------------------------------------

  predicate RuntimeBlocks(environment: Environment, hardware: Hardware) {
    environment.runtime.Some? && hardware.runtime.Some? && hardware.runtime != environment.runtime
  }

  predicate DriverBlocks(environment: Environment, hardware: Hardware) {
    environment.minimumDriver.Some? && hardware.driver.Some?
    && Older(VersionOf(hardware.driver.value), VersionOf(environment.minimumDriver.value))
  }

  predicate PrecisionBlocks(model: Model, accelerators: Accelerators) {
    HasAccelerator(accelerators) && !SomeSupports(accelerators, model.precision)
  }

  predicate MemoryBlocks(model: Model, available: int) {
    model.estimate.Some? && model.estimate.value.lower.Some? && model.estimate.value.upper.Some?
    && available < model.estimate.value.lower.value
  }

  lemma {:induction false} BlockedInParts(a: seq<Issue>, b: seq<Issue>)
    ensures AnyBlocked(a + b) <==> AnyBlocked(a) || AnyBlocked(b)
  {
    if AnyBlocked(a) {
      var i :| 0 <= i < |a| && a[i].severity == Blocked;
      assert (a + b)[i] == a[i];
    }
    if AnyBlocked(b) {
      var i :| 0 <= i < |b| && b[i].severity == Blocked;
      assert (a + b)[|a| + i] == b[i];
    }
  }

  lemma {:induction false} BlockedAlone(issue: Issue)
    ensures AnyBlocked([issue]) <==> issue.severity == Blocked
  {
    assert [issue][0] == issue;
  }

  /** The report is incompatible exactly when one of four rules blocks. */
  lemma {:induction false} WhatBlocks(hardware: Hardware, model: Model, environment: Environment)
    ensures !Compatible(Some(hardware), model, environment) <==>
              || RuntimeBlocks(environment, hardware) || DriverBlocks(environment, hardware)
              || PrecisionBlocks(model, hardware.accelerators) || MemoryBlocks(model, Available(hardware.accelerators))
  {
    var a, b := RuntimeIssues(environment.runtime, hardware.runtime),
      DriverIssues(environment.minimumDriver, hardware.driver);
    var c := PrecisionIssues(hardware.accelerators, model.precision);
    var d := MemoryIssues(model.estimate, Available(hardware.accelerators));
    BlockedInParts(IdentityIssues(environment), InventoryIssues(hardware, model, environment));
    BlockedInParts(a + b + c, d);
    BlockedInParts(a + b, c);
    BlockedInParts(a, b);
    BlockedAlone(Issue(IdentityMissing, NotKnown));
    BlockedAlone(Issue(RuntimeUnknown, NotKnown));
    BlockedAlone(Issue(RuntimeMismatch, Blocked));
    BlockedAlone(Issue(DriverUnknown, NotKnown));
    BlockedAlone(Issue(DriverTooOld, Blocked));
    BlockedAlone(Issue(PrecisionUnknown, NotKnown));
    BlockedAlone(Issue(PrecisionUnsupported, Blocked));
    BlockedAlone(Issue(MemoryUnknown, NotKnown));
    BlockedAlone(Issue(MemoryInsufficient, Blocked));
    BlockedAlone(Issue(MemoryOverlap, Warning));
  }

  // ---- Memory across the two plugins -------------------------------------

  function Produced(request: Analyzer.Request): Option<Bounds> {
    if Analyzer.Analyzable(request)
    then Some(Bounds(Some(Analyzer.Bounds(request).lower), Some(Analyzer.Bounds(request).upper)))
    else None
  }

  lemma {:induction false} AvailableIsAtLeast(accelerators: Accelerators, memory: nat)
    requires forall i | 0 <= i < |accelerators| :: accelerators[i].Some? && accelerators[i].value.memory >= memory
    ensures Available(accelerators) >= |accelerators| * memory
  {
    if accelerators != [] {
      AvailableIsAtLeast(accelerators[..|accelerators| - 1], memory);
      assert |accelerators| * memory == (|accelerators| - 1) * memory + memory;
    }
  }

  lemma {:induction false} AvailableIsExactly(accelerators: Accelerators, memory: nat)
    requires forall i | 0 <= i < |accelerators| :: accelerators[i].Some? && accelerators[i].value.memory == memory
    ensures Available(accelerators) == |accelerators| * memory
  {
    if accelerators != [] {
      AvailableIsExactly(accelerators[..|accelerators| - 1], memory);
      assert |accelerators| * memory == (|accelerators| - 1) * memory + memory;
    }
  }

  /** How many accelerators of the stated size the upper bound needs: the recommended
      number, or one more if the analyzer's quotient rounds down to an integer. */
  function Needed(request: Analyzer.Request): nat
    requires Analyzer.Analyzable(request) && Analyzer.Recommends(request).Some?
  {
    Analyzer.Recommends(request).value + Analyzer.Missing(Analyzer.Bounds(request).upper,
      request.acceleratorMemory.value)
  }

  /** That many accelerators of the stated size, or more of them, or larger ones, get no
      memory issue from the evaluator. */
  lemma {:induction false} RecommendedInventoryFits(request: Analyzer.Request, accelerators: Accelerators)
    requires Analyzer.Analyzable(request) && Analyzer.Recommends(request).Some?
    requires Analyzer.Bounds(request).upper / request.acceleratorMemory.value < Doubles.EXACT_DOUBLES
    requires |accelerators| >= Needed(request)
    requires forall i | 0 <= i < |accelerators| ::
               accelerators[i].Some? && accelerators[i].value.memory >= request.acceleratorMemory.value
    ensures MemoryIssues(Produced(request), Available(accelerators)) == []
  {
    var memory, upper := request.acceleratorMemory.value, Analyzer.Bounds(request).upper;
    Analyzer.BoundsAreOrdered(request);
    Analyzer.RecommendationIsLeast(upper, memory, |accelerators|);
    AvailableIsAtLeast(accelerators, memory);
  }

  /** Of equal accelerators of the stated size, a non-empty inventory is free of memory
      issues if and only if it holds at least the recommended number, or one more if
      the analyzer's quotient rounds down to an integer. */
  lemma {:induction false} RecommendationIsExact(request: Analyzer.Request, accelerators: Accelerators)
    requires Analyzer.Analyzable(request) && Analyzer.Recommends(request).Some? && accelerators != []
    requires Analyzer.Bounds(request).upper / request.acceleratorMemory.value < Doubles.EXACT_DOUBLES
    requires forall i | 0 <= i < |accelerators| ::
               accelerators[i].Some? && accelerators[i].value.memory == request.acceleratorMemory.value
    ensures MemoryIssues(Produced(request), Available(accelerators)) == [] <==> |accelerators| >= Needed(request)
  {
    var memory, upper := request.acceleratorMemory.value, Analyzer.Bounds(request).upper;
    Analyzer.BoundsAreOrdered(request);
    Analyzer.RecommendationIsLeast(upper, memory, |accelerators|);
    AvailableIsExactly(accelerators, memory);
  }

  /** Below 2^53 bytes the recommended number is what the inventory needs. */
  lemma {:induction false} SmallRecommendationIsExact(request: Analyzer.Request, accelerators: Accelerators)
    requires Analyzer.Analyzable(request) && Analyzer.Recommends(request).Some? && accelerators != []
    requires Analyzer.Bounds(request).upper < Doubles.EXACT_DOUBLES
    requires forall i | 0 <= i < |accelerators| ::
               accelerators[i].Some? && accelerators[i].value.memory == request.acceleratorMemory.value
    ensures MemoryIssues(Produced(request), Available(accelerators)) == [] <==>
              |accelerators| >= Analyzer.Recommends(request).value
  {
    var memory, upper := request.acceleratorMemory.value, Analyzer.Bounds(request).upper;
    Analyzer.Shrinks(upper, memory);
    Doubles.SmallNeverRoundsShort(upper, memory);
    RecommendationIsExact(request, accelerators);
  }

  // ---- Better inventories ------------------------------------------------

  /** The same items, some with more memory. */
  ghost predicate Raised(before: Accelerators, after: Accelerators) {
    && |before| == |after|
    && forall i | 0 <= i < |before| ::
         && before[i].Some? == after[i].Some?
         && (before[i].Some? ==> before[i].value.features == after[i].value.features &&
                                 before[i].value.memory <= after[i].value.memory)
  }

  lemma {:induction false} RaisedHasMore(before: Accelerators, after: Accelerators)
    requires Raised(before, after)
    ensures Available(before) <= Available(after)
  {
    if before != [] {
      RaisedHasMore(before[..|before| - 1], after[..|after| - 1]);
    }
  }

  lemma {:induction false} RaisedSupportsTheSame(before: Accelerators, after: Accelerators, precision: string)
    requires Raised(before, after)
    ensures HasAccelerator(before) <==> HasAccelerator(after)
    ensures SomeSupports(before, precision) <==> SomeSupports(after, precision)
  {
  }

  /** Raising accelerator memory never turns a compatible report incompatible. */
  lemma {:induction false} MoreMemoryStaysCompatible(hardware: Hardware, after: Accelerators, model: Model,
                                                     environment: Environment)
    requires Raised(hardware.accelerators, after) && Compatible(Some(hardware), model, environment)
    ensures Compatible(Some(hardware.(accelerators := after)), model, environment)
  {
    WhatBlocks(hardware, model, environment);
    WhatBlocks(hardware.(accelerators := after), model, environment);
    RaisedHasMore(hardware.accelerators, after);
    RaisedSupportsTheSame(hardware.accelerators, after, model.precision);
  }

  lemma {:induction false} OneMore(accelerators: Accelerators, extra: Accelerator, precision: string)
    ensures
      var after := accelerators + [Some(extra)];
      && Available(after) == Available(accelerators) + extra.memory && HasAccelerator(after)
      && (SomeSupports(after, precision) <==> SomeSupports(accelerators, precision) || Supports(extra, precision))
  {
    var after := accelerators + [Some(extra)];
    assert after[..|after| - 1] == accelerators && after[|accelerators|] == Some(extra);
    assert forall i | 0 <= i < |accelerators| :: after[i] == accelerators[i];
    if SomeSupports(accelerators, precision) {
      var i :| 0 <= i < |accelerators| && accelerators[i].Some? && Supports(accelerators[i].value, precision);
      assert after[i].Some? && Supports(after[i].value, precision);
    }
  }

  /** Adding an accelerator with non-negative memory keeps a compatible report
      compatible if and only if the inventory already had an accelerator or the new
      one supports the precision. */
  lemma {:induction false} OneMoreAcceleratorStaysCompatible(hardware: Hardware, extra: Accelerator, model: Model,
                                                             environment: Environment)
    requires extra.memory >= 0 && Compatible(Some(hardware), model, environment)
    ensures
      var after := hardware.(accelerators := hardware.accelerators + [Some(extra)]);
      Compatible(Some(after), model, environment) <==>
        HasAccelerator(hardware.accelerators) || Supports(extra, model.precision)
  {
    WhatBlocks(hardware, model, environment);
    WhatBlocks(hardware.(accelerators := hardware.accelerators + [Some(extra)]), model, environment);
    OneMore(hardware.accelerators, extra, model.precision);
    if SomeSupports(hardware.accelerators, model.precision) {
      assert HasAccelerator(hardware.accelerators);
    }
  }
}

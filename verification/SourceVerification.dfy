/** `verify_manifest`, and when it accepts what `refresh` wrote. */
module SourceVerification {
  import opened Bytes
  import opened Wrappers
  import opened Utf8Order
  import opened SourceTree
  import opened SourceManifest

  // ---- Paths and links ---------------------------------------------------

  predicate SafeText(s: string) {
    '\\' !in s && '\0' !in s
  }

  /** `_safe_relative` on a path given by its components. */
  predicate SafePath(path: Path) {
    && path != [] && path[0] != "" && ".." !in path
    && forall i | 0 <= i < |path| :: SafeText(path[i])
  }

  function SplitSlashes(s: string): (parts: seq<string>)
    ensures parts != []
  {
    if s == [] then [[]]
    else
      var rest := SplitSlashes(s[1..]);
      if s[0] == '/' then [[]] + rest else [[s[0]] + rest[0]] + rest[1..]
  }

  /** The parts that `PurePosixPath` keeps: neither empty nor a dot. */
  function KeptParts(parts: seq<string>): Path {
    if parts == [] then []
    else (if parts[0] == "" || parts[0] == "." then [] else [parts[0]]) + KeptParts(parts[1..])
  }

  function Parts(target: string): Path {
    KeptParts(SplitSlashes(target))
  }

  predicate SafeTarget(target: string) {
    target != "" && SafeText(target) && target[0] != '/' && ".." !in Parts(target)
  }

  /** Where a link at `path` points, inside the tree. */
  function Resolved(path: Path, target: string): Path {
    (if path == [] then [] else path[..|path| - 1]) + Parts(target)
  }

  // ---- Finding an entry in the tree --------------------------------------

  function ChildNamed(children: seq<Child>, name: string): Option<Node> {
    if children == [] then None
    else if children[0].name == name then Some(children[0].node)
    else ChildNamed(children[1..], name)
  }

  function Lookup(children: seq<Child>, path: Path): Option<Node>
    decreases |path|
  {
    if path == [] then None
    else
      var here := ChildNamed(children, path[0]);
      if |path| == 1 || here.None? then here
      else if here.value.Directory? then Lookup(here.value.children, path[1..])
      else None
  }

  // ---- Verification ------------------------------------------------------

  predicate ModeFitsKind(r: FileRecord)
    requires r.FileRecord?
  {
    (r.kind == File ==> r.mode == Plain || r.mode == Executable) && (r.kind == Link ==> r.mode == LinkMode)
  }

  /** A record that may enter the table of entries. */
  predicate Admissible(r: FileRecord, entries: map<Path, FileRecord>) {
    && r.FileRecord? && SafePath(r.path) && r.path != [MANIFEST] && r.path !in entries
    && r.size >= 0 && ModeFitsKind(r)
  }

  /** The table of entries, if every record is admissible and no path repeats. */
  function Entries(files: seq<FileRecord>): (r: Option<map<Path, FileRecord>>)
    ensures r.Some? ==> forall p | p in r.value :: r.value[p].FileRecord? && r.value[p].path == p && SafePath(p)
  {
    if files == [] then Some(map[])
    else
      var before, last := Entries(files[..|files| - 1]), files[|files| - 1];
      if before.None? || !Admissible(last, before.value) then None else Some(before.value[last.path := last])
  }

  predicate RegularAt(children: seq<Child>, path: Path) {
    Lookup(children, path).Some? && Lookup(children, path).value.Regular?
  }

  /** One declared entry against the tree. */
  predicate EntryHolds(children: seq<Child>, entries: map<Path, FileRecord>, r: FileRecord, hash: Hash)
    requires r.FileRecord? && forall p | p in entries :: entries[p].FileRecord?
  {
    var node := Lookup(children, r.path);
    match r.kind
    case OtherKind => false
    case File =>
      && node.Some? && node.value.Regular?
      && r.mode == (if node.value.executable then Executable else Plain)
      && |node.value.content| == r.size && hash(node.value.content) == r.sha
    case Link =>
      && r.target.Some? && SafeTarget(r.target.value)
      && (var to := Resolved(r.path, r.target.value);
          to in entries && entries[to].kind == File && RegularAt(children, to))
      && node.Some? && node.value.Symlink? && node.value.target == r.target.value
      && r.mode == LinkMode
      && |Encode(r.target.value)| == r.size && hash(Encode(r.target.value)) == r.sha
  }

  /** The license and the protected files: declared regular files with the same digest. */
  predicate PinHolds(pinned: Option<Pinned>, entries: map<Path, FileRecord>)
    requires forall p | p in entries :: entries[p].FileRecord?
  {
    && pinned.Some? && SafePath(pinned.value.path) && pinned.value.path in entries
    && entries[pinned.value.path].kind == File && entries[pinned.value.path].sha == pinned.value.sha
  }

  function Paths(leaves: seq<Leaf>): set<Path> {
    set leaf | leaf in leaves :: leaf.path
  }

  predicate EntriesHold(children: seq<Child>, entries: map<Path, FileRecord>, hash: Hash)
    requires forall p | p in entries :: entries[p].FileRecord?
  {
    forall p | p in entries :: EntryHolds(children, entries, entries[p], hash)
  }

  predicate PinsHold(m: Manifest, entries: map<Path, FileRecord>)
    requires forall p | p in entries :: entries[p].FileRecord?
  {
    && PinHolds(m.license, entries) && m.protectedFiles != []
    && forall i | 0 <= i < |m.protectedFiles| :: PinHolds(m.protectedFiles[i], entries)
  }

  /** `verify_manifest` does not raise. */
  predicate Accepts(children: seq<Child>, ignored: set<Path>, hash: Hash, m: Manifest, allowGit: bool) {
    && m.header && m.files != []
    && (var entries, walk := Entries(m.files), Observe(children, [], ignored, allowGit);
        && entries.Some? && walk.Ok? && Paths(walk.value) == entries.value.Keys
        && EntriesHold(children, entries.value, hash) && PinsHold(m, entries.value))
  }

  /** The loop that fills the table of entries. */
  method FillEntries(files: seq<FileRecord>) returns (entries: Option<map<Path, FileRecord>>)
    ensures entries == Entries(files)
  {
    var table: map<Path, FileRecord> := map[];
    for i := 0 to |files|
      invariant Entries(files[..i]) == Some(table)
    {
      assert files[..i + 1][..i] == files[..i];
      if !Admissible(files[i], table) {
        FaultStays(files, i + 1);
        return None;
      }
      table := table[files[i].path := files[i]];
    }
    assert files[..|files|] == files;
    entries := Some(table);
  }

  lemma {:induction false} FaultStays(files: seq<FileRecord>, i: nat)
    requires i <= |files| && Entries(files[..i]).None?
    ensures Entries(files).None?
    decreases |files|
  {
    if i == |files| {
      assert files[..i] == files;
    } else {
      assert files[..|files| - 1][..i] == files[..i];
      FaultStays(files[..|files| - 1], i);
    }
  }

  /** `verify_manifest` with its loops. */
  method VerifyManifest(children: seq<Child>, ignored: set<Path>, hash: Hash, m: Manifest, allowGit: bool)
    returns (accepted: bool)
    ensures accepted <==> Accepts(children, ignored, hash, m, allowGit)
  {
    if !m.header || m.files == [] {
      return false;
    }
    var entries := FillEntries(m.files);
    if entries.None? {
      return false;
    }
    var walk := WalkPayload(children, [], ignored, allowGit);
    if walk.Err? || Paths(walk.value) != entries.value.Keys {
      return false;
    }
    var held := CheckEntries(children, entries.value, hash);
    if !held {
      return false;
    }
    accepted := CheckPins(m, entries.value);
  }

  method CheckEntries(children: seq<Child>, entries: map<Path, FileRecord>, hash: Hash) returns (held: bool)
    requires forall p | p in entries :: entries[p].FileRecord?
    ensures held <==> EntriesHold(children, entries, hash)
  {
    var left := entries.Keys;
    while left != {}
      invariant left <= entries.Keys
      invariant forall p | p in entries && p !in left :: EntryHolds(children, entries, entries[p], hash)
      decreases |left|
    {
      var p :| p in left;
      if !EntryHolds(children, entries, entries[p], hash) {
        return false;
      }
      left := left - {p};
    }
    held := true;
  }

  method CheckPins(m: Manifest, entries: map<Path, FileRecord>) returns (held: bool)
    requires forall p | p in entries :: entries[p].FileRecord?
    ensures held <==> PinsHold(m, entries)
  {
    if !PinHolds(m.license, entries) || m.protectedFiles == [] {
      return false;
    }
    for i := 0 to |m.protectedFiles|
      invariant forall j | 0 <= j < i :: PinHolds(m.protectedFiles[j], entries)
    {
      if !PinHolds(m.protectedFiles[i], entries) {
        return false;
      }
    }
    held := true;
  }

  // ---- Trees as a file system holds them ---------------------------------

  /** Names are distinct within a directory, and none is empty or a double dot. */
  predicate WellFormed(children: seq<Child>)
    decreases children, 1
  {
    children == [] ||
    (&& children[0].name != "" && children[0].name != ".."
     && ChildNamed(children[1..], children[0].name).None?
     && (children[0].node.Directory? ==> WellFormed(children[0].node.children))
     && WellFormed(children[1..]))
  }

  /** Every leaf is found again under its path. */
  lemma {:induction false} LeafIsFound(children: seq<Child>, path: Path, leaf: Leaf)
    requires WellFormed(children) && leaf in Leaves(children, path)
    ensures |path| < |leaf.path| && leaf.path[..|path|] == path
    ensures Lookup(children, leaf.path[|path|..]) == Some(leaf.node)
    ensures forall i | |path| <= i < |leaf.path| :: leaf.path[i] != "" && leaf.path[i] != ".."
    ensures ChildNamed(children, leaf.path[|path|]).Some?
    decreases children, 1
  {
    var child := children[0];
    if leaf in Below(child, path) {
      var here := path + [child.name];
      if child.node.Directory? {
        LeafIsFound(child.node.children, here, leaf);
        assert leaf.path[..|path|] == leaf.path[..|here|][..|path|] == path;
        assert leaf.path[|path|] == leaf.path[..|here|][|path|] == child.name;
        assert leaf.path[|path|..][1..] == leaf.path[|here|..];
      } else {
        assert leaf.path[|path|..] == [child.name];
      }
    } else {
      LeafIsFound(children[1..], path, leaf);
      SkipFirst(children, leaf.path[|path|..]);
    }
  }

  /** A path that starts with a later child does not see the first one. */
  lemma {:induction false} SkipFirst(children: seq<Child>, path: Path)
    requires WellFormed(children) && children != [] && path != [] && ChildNamed(children[1..], path[0]).Some?
    ensures Lookup(children, path) == Lookup(children[1..], path)
    ensures ChildNamed(children, path[0]).Some?
  {
  }

  // ---- What the producer records is what the tree holds ------------------

  /** An entry the manifest is about. */
  ghost predicate IsPayload(children: seq<Child>, ignored: set<Path>, leaf: Leaf) {
    leaf in Leaves(children, []) && Kept(leaf, ignored)
  }

  lemma {:induction false} RecordsHoldLeaves(leaves: seq<Leaf>, hash: Hash, leaf: Leaf)
    requires forall x | x in leaves :: Recordable(x.node)
    requires forall x, y | x in leaves && y in leaves && x.path == y.path :: x == y
    requires leaf in leaves
    ensures leaf.path in Records(leaves, hash) && Records(leaves, hash)[leaf.path] == RecordOf(leaf, hash)
  {
    var before, last := leaves[..|leaves| - 1], leaves[|leaves| - 1];
    if leaf != last {
      RecordsHoldLeaves(before, hash, leaf);
      assert last in leaves;
    }
  }

  lemma {:induction false} RecordsComeFromLeaves(leaves: seq<Leaf>, hash: Hash, p: Path)
    requires forall x | x in leaves :: Recordable(x.node)
    ensures p in Records(leaves, hash) ==> exists leaf | leaf in leaves :: leaf.path == p
  {
    if leaves != [] {
      RecordsComeFromLeaves(leaves[..|leaves| - 1], hash, p);
      assert leaves[|leaves| - 1] in leaves;
    }
  }

  lemma {:induction false} OneLeafPerPath(children: seq<Child>, x: Leaf, y: Leaf)
    requires WellFormed(children) && x in Leaves(children, []) && y in Leaves(children, []) && x.path == y.path
    ensures x == y
  {
    LeafIsFound(children, [], x);
    LeafIsFound(children, [], y);
  }

  /** The producer's dictionary holds exactly the records of the payload. */
  lemma {:induction false} PayloadIsRecorded(children: seq<Child>, ignored: set<Path>, hash: Hash, leaf: Leaf)
    requires WellFormed(children) && Collect(children, [], ignored).Ok? && IsPayload(children, ignored, leaf)
    ensures Recordable(leaf.node) && leaf.path in Observed(children, ignored, hash)
    ensures Observed(children, ignored, hash)[leaf.path] == RecordOf(leaf, hash)
  {
    var found := Collect(children, [], ignored).value;
    PrunedWalkIsFilteredWalk(children, [], ignored);
    CollectedAreRecordable(children, [], ignored);
    forall x, y | x in found && y in found && x.path == y.path ensures x == y {
      OneLeafPerPath(children, x, y);
    }
    RecordsHoldLeaves(found, hash, leaf);
  }

  lemma {:induction false} RecordedIsPayload(children: seq<Child>, ignored: set<Path>, hash: Hash, p: Path)
    returns (leaf: Leaf)
    requires WellFormed(children) && Collect(children, [], ignored).Ok? && p in Observed(children, ignored, hash)
    ensures IsPayload(children, ignored, leaf) && leaf.path == p && Recordable(leaf.node)
    ensures Observed(children, ignored, hash)[p] == RecordOf(leaf, hash)
  {
    var found := Collect(children, [], ignored).value;
    PrunedWalkIsFilteredWalk(children, [], ignored);
    CollectedAreRecordable(children, [], ignored);
    RecordsComeFromLeaves(found, hash, p);
    leaf :| leaf in found && leaf.path == p;
    PayloadIsRecorded(children, ignored, hash, leaf);
  }

  // ---- The refreshed manifest passes -------------------------------------

  /** A regular file that the manifest records at this path. */
  ghost predicate PayloadFile(children: seq<Child>, ignored: set<Path>, path: Path) {
    exists leaf: Leaf :: IsPayload(children, ignored, leaf) && leaf.path == path && leaf.node.Regular?
  }

  /** The names and links that the verifier insists on. */
  ghost predicate LeafIsVerifiable(children: seq<Child>, ignored: set<Path>, leaf: Leaf) {
    && SafePath(leaf.path)
    && (leaf.node.Symlink? ==> SafeTarget(leaf.node.target) &&
                               PayloadFile(children, ignored, Resolved(leaf.path, leaf.node.target)))
  }

  ghost predicate PinIsVerifiable(children: seq<Child>, ignored: set<Path>, pinned: Option<Pinned>) {
    pinned.Some? && PayloadFile(children, ignored, pinned.value.path)
  }

  /** What the tree and the unrefreshed parts of the manifest must provide. */
  ghost predicate Verifiable(children: seq<Child>, ignored: set<Path>, m: Manifest) {
    && m.header && !NestedGit(children, [], ignored)
    && (forall leaf | IsPayload(children, ignored, leaf) :: LeafIsVerifiable(children, ignored, leaf))
    && PinIsVerifiable(children, ignored, m.license)
    && m.protectedFiles != []
    && (forall i | 0 <= i < |m.protectedFiles| :: PinIsVerifiable(children, ignored, m.protectedFiles[i]))
  }

  lemma {:induction false} FileIsRecorded(children: seq<Child>, ignored: set<Path>, hash: Hash, p: Path)
    requires WellFormed(children) && Collect(children, [], ignored).Ok?
    ensures
      var observed := Observed(children, ignored, hash);
      PayloadFile(children, ignored, p) <==> p in observed && observed[p].kind == File
    ensures PayloadFile(children, ignored, p) ==> RegularAt(children, p)
  {
    var observed := Observed(children, ignored, hash);
    if PayloadFile(children, ignored, p) {
      var leaf: Leaf :| IsPayload(children, ignored, leaf) && leaf.path == p && leaf.node.Regular?;
      PayloadIsRecorded(children, ignored, hash, leaf);
      LeafIsFound(children, [], leaf);
      assert leaf.path[0..] == leaf.path;
    }
    if p in observed && observed[p].kind == File {
      var leaf := RecordedIsPayload(children, ignored, hash, p);
      assert IsPayload(children, ignored, leaf) && leaf.path == p && leaf.node.Regular?;
    }
  }

  lemma {:induction false} PayloadIsAdmissible(children: seq<Child>, ignored: set<Path>, hash: Hash, p: Path,
                                               entries: map<Path, FileRecord>)
    requires WellFormed(children) && Collect(children, [], ignored).Ok? && p in Observed(children, ignored, hash)
    requires p !in entries
    ensures Admissible(Observed(children, ignored, hash)[p], entries) <==> SafePath(p)
  {
    var leaf := RecordedIsPayload(children, ignored, hash, p);
  }

  /** The refreshed records enter the table exactly when their paths are safe. */
  lemma {:induction false} ListingIsAdmissible(children: seq<Child>, ignored: set<Path>, hash: Hash, order: seq<Path>)
    requires WellFormed(children) && Collect(children, [], ignored).Ok? && NoDuplicates(order)
    requires forall p | p in order :: p in Observed(children, ignored, hash)
    ensures
      var observed := Observed(children, ignored, hash);
      var entries := Entries(Listed(order, observed));
      && (entries.Some? <==> forall p | p in order :: SafePath(p))
      && (entries.Some? ==> entries.value.Keys == (set p | p in order) && forall p | p in order ::
            entries.value[p] == observed[p])
  {
    var observed := Observed(children, ignored, hash);
    if order != [] {
      var before, last := order[..|order| - 1], order[|order| - 1];
      assert Listed(order, observed)[..|order| - 1] == Listed(before, observed);
      ListingIsAdmissible(children, ignored, hash, before);
      assert forall p :: p in order <==> p in before || p == last;
      assert last !in before;
      var entries := Entries(Listed(before, observed));
      if entries.Some? {
        PayloadIsAdmissible(children, ignored, hash, last, entries.value);
      }
    }
  }

  lemma {:induction false} UpdatedEntries(children: seq<Child>, ignored: set<Path>, hash: Hash, m: Manifest)
    requires WellFormed(children) && Collect(children, [], ignored).Ok?
    ensures
      var observed := Observed(children, ignored, hash);
      var entries := Entries(Updated(m, observed).files);
      && (entries.Some? <==> forall p | p in observed :: SafePath(p))
      && (entries.Some? ==> entries.value == observed)
  {
    var observed := Observed(children, ignored, hash);
    ListingIsAdmissible(children, ignored, hash, Sorted(observed.Keys));
    var entries := Entries(Updated(m, observed).files);
    if entries.Some? {
      assert entries.value.Keys == observed.Keys;
    }
  }

  lemma {:induction false} EntryOfLeaf(children: seq<Child>, ignored: set<Path>, hash: Hash, leaf: Leaf)
    requires WellFormed(children) && Collect(children, [], ignored).Ok? && IsPayload(children, ignored, leaf)
    requires SafePath(leaf.path)
    ensures
      var observed := Observed(children, ignored, hash);
      leaf.path in observed &&
      (EntryHolds(children, observed, observed[leaf.path], hash) <==> LeafIsVerifiable(children, ignored, leaf))
  {
    PayloadIsRecorded(children, ignored, hash, leaf);
    LeafIsFound(children, [], leaf);
    assert leaf.path[0..] == leaf.path;
    if leaf.node.Symlink? {
      FileIsRecorded(children, ignored, hash, Resolved(leaf.path, leaf.node.target));
    }
  }

  lemma {:induction false} PinOfRefreshed(children: seq<Child>, ignored: set<Path>, hash: Hash, pinned: Option<Pinned>)
    requires WellFormed(children) && Collect(children, [], ignored).Ok?
    requires forall p | p in Observed(children, ignored, hash) :: SafePath(p)
    ensures
      var observed := Observed(children, ignored, hash);
      PinHolds(RepinnedRecord(pinned, observed), observed) <==> PinIsVerifiable(children, ignored, pinned)
  {
    if pinned.Some? {
      FileIsRecorded(children, ignored, hash, pinned.value.path);
    }
  }

  lemma {:induction false} ObservedPaths(children: seq<Child>, ignored: set<Path>, hash: Hash)
    requires WellFormed(children) && Collect(children, [], ignored).Ok?
    ensures Paths(Collect(children, [], ignored).value) == Observed(children, ignored, hash).Keys
  {
    var found, observed := Collect(children, [], ignored).value, Observed(children, ignored, hash);
    PrunedWalkIsFilteredWalk(children, [], ignored);
    forall p | p in Paths(found) ensures p in observed {
      var leaf :| leaf in found && leaf.path == p;
      PayloadIsRecorded(children, ignored, hash, leaf);
    }
    forall p | p in observed ensures p in Paths(found) {
      var leaf := RecordedIsPayload(children, ignored, hash, p);
      assert leaf in found;
    }
  }

  lemma {:induction false} SafePathsOfPayload(children: seq<Child>, ignored: set<Path>, hash: Hash)
    requires WellFormed(children) && Collect(children, [], ignored).Ok?
    ensures (forall p | p in Observed(children, ignored, hash) :: SafePath(p)) <==>
            forall leaf | IsPayload(children, ignored, leaf) :: SafePath(leaf.path)
  {
    forall leaf | IsPayload(children, ignored, leaf) ensures leaf.path in Observed(children, ignored, hash) {
      PayloadIsRecorded(children, ignored, hash, leaf);
    }
    forall p | p in Observed(children, ignored, hash)
      ensures exists leaf | IsPayload(children, ignored, leaf) :: leaf.path == p
    {
      var leaf := RecordedIsPayload(children, ignored, hash, p);
    }
  }

  /** The refreshed manifest of a tree is accepted with Git metadata allowed if and
      only if the header verifies, no walked directory below the root holds a `.git`
      file, names and link targets are safe, links lead to recorded regular files,
      and the license and at least one protected file, all of them recorded regular
      files, are named. */
  lemma {:induction false} RefreshedIsAccepted(children: seq<Child>, ignored: set<Path>, hash: Hash, m: Manifest,
                                               accept: bool)
    requires WellFormed(children) && Refresh(children, ignored, hash, m, accept).Ok?
    ensures Accepts(children, ignored, hash, Refresh(children, ignored, hash, m, accept).value.0, true) <==>
            Verifiable(children, ignored, m)
  {
    UpdatedIsAccepted(children, ignored, hash, m);
  }

  lemma {:induction false} UpdatedIsAccepted(children: seq<Child>, ignored: set<Path>, hash: Hash, m: Manifest)
    requires WellFormed(children) && Collect(children, [], ignored).Ok?
    ensures Accepts(children, ignored, hash, Updated(m, Observed(children, ignored, hash)), true) <==>
            Verifiable(children, ignored, m)
  {
    var observed := Observed(children, ignored, hash);
    UpdatedEntries(children, ignored, hash, m);
    SafePathsOfPayload(children, ignored, hash);
    WalksAgree(children, [], ignored);
    ObservedPaths(children, ignored, hash);
    if forall p | p in observed :: SafePath(p) {
      EntriesOfRefreshed(children, ignored, hash);
      PinOfRefreshed(children, ignored, hash, m.license);
      forall i | 0 <= i < |m.protectedFiles|
        ensures PinHolds(RepinnedRecord(m.protectedFiles[i], observed), observed) <==>
                PinIsVerifiable(children, ignored, m.protectedFiles[i])
      {
        PinOfRefreshed(children, ignored, hash, m.protectedFiles[i]);
      }
      LicenseIsListed(m, observed);
    }
  }

  lemma {:induction false} EntriesOfRefreshed(children: seq<Child>, ignored: set<Path>, hash: Hash)
    requires WellFormed(children) && Collect(children, [], ignored).Ok?
    requires forall p | p in Observed(children, ignored, hash) :: SafePath(p)
    ensures
      var observed := Observed(children, ignored, hash);
      EntriesHold(children, observed, hash) <==>
      (forall leaf | IsPayload(children, ignored, leaf) :: LeafIsVerifiable(children, ignored, leaf))
  {
    var observed := Observed(children, ignored, hash);
    SafePathsOfPayload(children, ignored, hash);
    forall leaf | IsPayload(children, ignored, leaf)
      ensures leaf.path in observed &&
              (EntryHolds(children, observed, observed[leaf.path], hash) <==> LeafIsVerifiable(children, ignored, leaf))
    {
      EntryOfLeaf(children, ignored, hash, leaf);
    }
    forall p | p in observed ensures exists leaf | IsPayload(children, ignored, leaf) :: leaf.path == p {
      var leaf := RecordedIsPayload(children, ignored, hash, p);
    }
  }

  lemma {:induction false} LicenseIsListed(m: Manifest, observed: map<Path, FileRecord>)
    requires AllRecords(observed)
    ensures m.license.Some? && m.license.value.path in observed ==> Updated(m, observed).files != []
  {
    if m.license.Some? && m.license.value.path in observed {
      assert m.license.value.path in Sorted(observed.Keys);
    }
  }
}

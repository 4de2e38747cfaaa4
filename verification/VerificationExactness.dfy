/** Exactly which manifests of a tree the verifier accepts: those that say of the tree
    what a refresh would make them say. */
module VerificationExactness {
  import opened Wrappers
  import opened Bytes
  import opened Utf8Order
  import opened SourceTree
  import opened SourceManifest
  import opened SourceVerification

  /** The same record; a target is only read from the record of a link. */
  ghost predicate SaysTheSame(r: FileRecord, s: FileRecord) {
    && r.FileRecord? && s.FileRecord?
    && r.path == s.path && r.kind == s.kind && r.mode == s.mode && r.sha == s.sha && r.size == s.size
    && (s.kind == Link ==> r.target == s.target)
  }

  /** One record for every payload entry, each saying what the tree holds, and no other. */
  ghost predicate RecordsTheTree(files: seq<FileRecord>, observed: map<Path, FileRecord>) {
    && (forall i | 0 <= i < |files| ::
          files[i].FileRecord? && files[i].path in observed && SaysTheSame(files[i], observed[files[i].path]))
    && (forall p | p in observed :: exists i | 0 <= i < |files| :: files[i].FileRecord? && files[i].path == p)
    && forall i, j | 0 <= i < j < |files| && files[i].FileRecord? && files[j].FileRecord? ::
      files[i].path != files[j].path
  }

  /** A named regular file with the digest that the tree holds. */
  ghost predicate PinsTheTree(pinned: Option<Pinned>, observed: map<Path, FileRecord>) {
    && pinned.Some? && pinned.value.path in observed && observed[pinned.value.path].FileRecord?
    && observed[pinned.value.path].kind == File && observed[pinned.value.path].sha == pinned.value.sha
  }

  // ---- The table of entries ----------------------------------------------

  /** A record that the table takes wherever its path is not taken yet. */
  ghost predicate Fit(r: FileRecord) {
    r.FileRecord? && SafePath(r.path) && r.path != [MANIFEST] && r.size >= 0 && ModeFitsKind(r)
  }

  ghost predicate AllFit(files: seq<FileRecord>) {
    && (forall i | 0 <= i < |files| :: Fit(files[i]))
    && forall i, j | 0 <= i < j < |files| :: files[i].FileRecord? && files[j].FileRecord? ==>
      files[i].path != files[j].path
  }

  ghost predicate HasPath(files: seq<FileRecord>, p: Path) {
    exists i | 0 <= i < |files| :: files[i].FileRecord? && files[i].path == p
  }

  ghost predicate IsTable(files: seq<FileRecord>, entries: map<Path, FileRecord>) {
    && (forall i | 0 <= i < |files| ::
          files[i].FileRecord? && files[i].path in entries && entries[files[i].path] == files[i])
    && forall p | p in entries :: HasPath(files, p)
  }

  lemma {:induction false} OneMoreFits(before: seq<FileRecord>, last: FileRecord)
    ensures AllFit(before + [last]) <==> AllFit(before) && Fit(last) && !HasPath(before, last.path)
  {
    var files := before + [last];
    assert files[|before|] == last && forall i | 0 <= i < |before| :: files[i] == before[i];
  }

  lemma {:induction false} OneMoreInTable(before: seq<FileRecord>, last: FileRecord, entries: map<Path, FileRecord>)
    requires IsTable(before, entries) && last.FileRecord? && last.path !in entries
    ensures IsTable(before + [last], entries[last.path := last])
  {
    var files := before + [last];
    assert files[|before|] == last && forall i | 0 <= i < |before| :: files[i] == before[i];
    forall p | HasPath(before, p) ensures HasPath(files, p) {
      var i :| 0 <= i < |before| && before[i].FileRecord? && before[i].path == p;
      assert files[i].path == p;
    }
    assert HasPath(files, last.path);
  }

  lemma {:induction false} TableExactly(files: seq<FileRecord>)
    ensures Entries(files).Some? <==> AllFit(files)
    ensures Entries(files).Some? ==> IsTable(files, Entries(files).value)
  {
    if files != [] {
      var before, last := files[..|files| - 1], files[|files| - 1];
      assert before + [last] == files;
      TableExactly(before);
      if last.FileRecord? {
        OneMoreFits(before, last);
        if Entries(before).Some? {
          PathIsTaken(before, Entries(before).value, last.path);
          if Entries(files).Some? {
            OneMoreInTable(before, last, Entries(before).value);
          }
        }
      } else {
        assert !Fit(files[|files| - 1]);
      }
    }
  }

  lemma {:induction false} PathIsTaken(files: seq<FileRecord>, entries: map<Path, FileRecord>, p: Path)
    requires IsTable(files, entries)
    ensures p in entries <==> HasPath(files, p)
  {
  }

  // ---- Entries and tree --------------------------------------------------

  ghost predicate Same(entries: map<Path, FileRecord>, observed: map<Path, FileRecord>) {
    entries.Keys == observed.Keys && forall p | p in observed :: SaysTheSame(entries[p], observed[p])
  }

  /** An entry that holds says what the tree holds, and its link can be verified. */
  lemma {:induction false} HoldingSaysTheSame(children: seq<Child>, ignored: set<Path>, hash: Hash,
                                              entries: map<Path, FileRecord>, leaf: Leaf)
    requires WellFormed(children) && Collect(children, [], ignored).Ok? && IsPayload(children, ignored, leaf)
    requires entries.Keys == Observed(children, ignored, hash).Keys
    requires forall p | p in entries :: entries[p].FileRecord? && entries[p].path == p && SafePath(p)
    requires leaf.path in entries && EntryHolds(children, entries, entries[leaf.path], hash)
    ensures leaf.path in Observed(children, ignored, hash)
    ensures SaysTheSame(entries[leaf.path], Observed(children, ignored, hash)[leaf.path])
    ensures LeafIsVerifiable(children, ignored, leaf)
  {
    PayloadIsRecorded(children, ignored, hash, leaf);
    LeafIsFound(children, [], leaf);
    assert leaf.path[0..] == leaf.path;
    if leaf.node.Symlink? {
      RegularIsRecorded(children, ignored, hash, Resolved(leaf.path, leaf.node.target));
    }
  }

  /** A path that is recorded and leads to a regular file is recorded as one. */
  lemma {:induction false} RegularIsRecorded(children: seq<Child>, ignored: set<Path>, hash: Hash, p: Path)
    requires WellFormed(children) && Collect(children, [], ignored).Ok?
    ensures p in Observed(children, ignored, hash) && RegularAt(children, p) ==> PayloadFile(children, ignored, p)
  {
    if p in Observed(children, ignored, hash) && RegularAt(children, p) {
      var leaf := RecordedIsPayload(children, ignored, hash, p);
      LeafIsFound(children, [], leaf);
      assert leaf.path[0..] == leaf.path;
      assert IsPayload(children, ignored, leaf) && leaf.path == p && leaf.node.Regular?;
    }
  }

  lemma {:induction false} SameEntryHolds(children: seq<Child>, ignored: set<Path>, hash: Hash,
                                          entries: map<Path, FileRecord>, leaf: Leaf)
    requires WellFormed(children) && Collect(children, [], ignored).Ok? && IsPayload(children, ignored, leaf)
    requires Same(entries, Observed(children, ignored, hash)) && LeafIsVerifiable(children, ignored, leaf)
    ensures leaf.path in entries && EntryHolds(children, entries, entries[leaf.path], hash)
  {
    PayloadIsRecorded(children, ignored, hash, leaf);
    LeafIsFound(children, [], leaf);
    assert leaf.path[0..] == leaf.path;
    if leaf.node.Symlink? {
      FileIsRecorded(children, ignored, hash, Resolved(leaf.path, leaf.node.target));
    }
  }

  /** All entries hold if and only if they say what the tree holds and its names and
      links can be verified. */
  lemma {:induction false} EntriesHoldExactly(children: seq<Child>, ignored: set<Path>, hash: Hash,
                                              entries: map<Path, FileRecord>)
    requires WellFormed(children) && Collect(children, [], ignored).Ok?
    requires entries.Keys == Observed(children, ignored, hash).Keys
    requires forall p | p in entries :: entries[p].FileRecord? && entries[p].path == p && SafePath(p)
    ensures EntriesHold(children, entries, hash) <==>
              && Same(entries, Observed(children, ignored, hash))
              && forall leaf | IsPayload(children, ignored, leaf) :: LeafIsVerifiable(children, ignored, leaf)
  {
    var observed := Observed(children, ignored, hash);
    if EntriesHold(children, entries, hash) {
      forall leaf | IsPayload(children, ignored, leaf) ensures LeafIsVerifiable(children, ignored, leaf) {
        PayloadIsRecorded(children, ignored, hash, leaf);
        HoldingSaysTheSame(children, ignored, hash, entries, leaf);
      }
      forall p | p in observed ensures SaysTheSame(entries[p], observed[p]) {
        var leaf := RecordedIsPayload(children, ignored, hash, p);
        HoldingSaysTheSame(children, ignored, hash, entries, leaf);
      }
    }
    if Same(entries, observed)
       && forall leaf | IsPayload(children, ignored, leaf) :: LeafIsVerifiable(children, ignored, leaf) {
      forall p | p in entries ensures EntryHolds(children, entries, entries[p], hash) {
        var leaf := RecordedIsPayload(children, ignored, hash, p);
        SameEntryHolds(children, ignored, hash, entries, leaf);
      }
    }
  }

  // ---- Records and entries -----------------------------------------------

  /** Records that say what the tree holds are fit for the table, and the table says the
      same. */
  lemma {:induction false} TreeRecordsAreFit(children: seq<Child>, ignored: set<Path>, hash: Hash,
                                             files: seq<FileRecord>)
    requires WellFormed(children) && Collect(children, [], ignored).Ok?
    requires RecordsTheTree(files, Observed(children, ignored, hash))
    requires forall leaf | IsPayload(children, ignored, leaf) :: SafePath(leaf.path)
    ensures Entries(files).Some? && Same(Entries(files).value, Observed(children, ignored, hash))
  {
    var observed := Observed(children, ignored, hash);
    forall i | 0 <= i < |files| ensures Fit(files[i]) {
      var leaf := RecordedIsPayload(children, ignored, hash, files[i].path);
    }
    TableExactly(files);
    var entries := Entries(files).value;
    forall p | p in observed ensures p in entries && SaysTheSame(entries[p], observed[p]) {
      var i :| 0 <= i < |files| && files[i].FileRecord? && files[i].path == p;
    }
    forall p | p in entries ensures p in observed {
      var i :| 0 <= i < |files| && files[i].FileRecord? && files[i].path == p;
    }
  }

  lemma {:induction false} SameTableRecordsTheTree(files: seq<FileRecord>, observed: map<Path, FileRecord>)
    requires Entries(files).Some? && Same(Entries(files).value, observed)
    ensures RecordsTheTree(files, observed)
  {
    TableExactly(files);
    var entries := Entries(files).value;
    forall p | p in observed ensures exists i | 0 <= i < |files| :: files[i].FileRecord? && files[i].path == p {
      assert p in entries && HasPath(files, p);
    }
  }

  // ---- The verifier ------------------------------------------------------

  ghost predicate PinsAllTheTree(m: Manifest, observed: map<Path, FileRecord>) {
    && PinsTheTree(m.license, observed) && m.protectedFiles != []
    && forall i | 0 <= i < |m.protectedFiles| :: PinsTheTree(m.protectedFiles[i], observed)
  }

  lemma {:induction false} PinsHoldExactly(m: Manifest, entries: map<Path, FileRecord>, observed: map<Path, FileRecord>)
    requires Same(entries, observed) && forall p | p in entries :: entries[p].FileRecord? && SafePath(p)
    ensures PinsHold(m, entries) <==> PinsAllTheTree(m, observed)
  {
  }

  /** What can be accepted of a tree: a header that verifies, no walked directory below
      the root with a `.git` file, safe names, and links to recorded regular files. */
  ghost predicate Admits(children: seq<Child>, ignored: set<Path>, m: Manifest) {
    && m.header && !NestedGit(children, [], ignored)
    && forall leaf | IsPayload(children, ignored, leaf) :: LeafIsVerifiable(children, ignored, leaf)
  }

  lemma {:induction false} AcceptedSaysTheTree(children: seq<Child>, ignored: set<Path>, hash: Hash, m: Manifest)
    requires WellFormed(children) && Accepts(children, ignored, hash, m, true)
    ensures Collect(children, [], ignored).Ok? && Admits(children, ignored, m)
    ensures RecordsTheTree(m.files, Observed(children, ignored, hash))
    ensures PinsAllTheTree(m, Observed(children, ignored, hash))
  {
    WalksAgree(children, [], ignored);
    ObservedPaths(children, ignored, hash);
    EntriesHoldExactly(children, ignored, hash, Entries(m.files).value);
    SameTableRecordsTheTree(m.files, Observed(children, ignored, hash));
    PinsHoldExactly(m, Entries(m.files).value, Observed(children, ignored, hash));
  }

  lemma {:induction false} SayingTheTreeIsAccepted(children: seq<Child>, ignored: set<Path>, hash: Hash, m: Manifest)
    requires WellFormed(children) && Collect(children, [], ignored).Ok? && Admits(children, ignored, m)
    requires RecordsTheTree(m.files, Observed(children, ignored, hash))
    requires PinsAllTheTree(m, Observed(children, ignored, hash))
    ensures Accepts(children, ignored, hash, m, true)
  {
    WalksAgree(children, [], ignored);
    ObservedPaths(children, ignored, hash);
    TreeRecordsAreFit(children, ignored, hash, m.files);
    SafePathsOfPayload(children, ignored, hash);
    EntriesHoldExactly(children, ignored, hash, Entries(m.files).value);
    PinsHoldExactly(m, Entries(m.files).value, Observed(children, ignored, hash));
    assert m.files != [];
  }

  /** The verifier accepts a manifest exactly when the tree can be walked and admits it,
      its records are one for every payload entry with the digest, size, mode and target
      that the tree holds, and so are the digests of the license and of at least one
      protected file. A manifest that differs from the tree in any of these is rejected. */
  lemma {:induction false} AcceptanceIsExact(children: seq<Child>, ignored: set<Path>, hash: Hash, m: Manifest)
    requires WellFormed(children)
    ensures Accepts(children, ignored, hash, m, true) <==>
              && Collect(children, [], ignored).Ok? && Admits(children, ignored, m)
              && RecordsTheTree(m.files, Observed(children, ignored, hash))
              && PinsAllTheTree(m, Observed(children, ignored, hash))
  {
    if Accepts(children, ignored, hash, m, true) {
      AcceptedSaysTheTree(children, ignored, hash, m);
    } else if Collect(children, [], ignored).Ok? && Admits(children, ignored, m)
              && RecordsTheTree(m.files, Observed(children, ignored, hash))
              && PinsAllTheTree(m, Observed(children, ignored, hash)) {
      SayingTheTreeIsAccepted(children, ignored, hash, m);
    }
  }

  // ---- Without Git metadata ----------------------------------------------

  predicate IsGit(child: Child, path: Path, ignored: set<Path>) {
    child.name == GIT && (ListedAsDirectory(child.node) ==> !IsIgnored(path + [child.name], ignored))
  }

  /** Something called `.git` in a walked directory, other than an ignored directory. */
  predicate AnyGit(children: seq<Child>, path: Path, ignored: set<Path>)
    decreases children
  {
    children != [] &&
    (|| IsGit(children[0], path, ignored)
     || (Enters(children[0], path, ignored) && AnyGit(children[0].node.children, path + [children[0].name], ignored))
     || AnyGit(children[1..], path, ignored))
  }

  predicate GitName(children: seq<Child>, path: Path, ignored: set<Path>, directory: bool) {
    children != [] &&
    ((ListedAsDirectory(children[0].node) == directory && IsGit(children[0], path, ignored))
     || GitName(children[1..], path, ignored, directory))
  }

  predicate AnyGitBelow(children: seq<Child>, path: Path, ignored: set<Path>) {
    children != [] &&
    ((Enters(children[0], path, ignored) && AnyGit(children[0].node.children, path + [children[0].name], ignored))
     || AnyGitBelow(children[1..], path, ignored))
  }

  lemma {:induction false} AnyGitByPass(children: seq<Child>, path: Path, ignored: set<Path>)
    ensures AnyGit(children, path, ignored) <==>
              GitName(children, path, ignored, true) || GitName(children, path, ignored, false)
              || AnyGitBelow(children, path, ignored)
  {
    if children != [] {
      AnyGitByPass(children[1..], path, ignored);
    }
  }

  lemma {:induction false} StrictNamesFollow(children: seq<Child>, path: Path, ignored: set<Path>)
    ensures Follows(ObserveNames(children, path, ignored, false), CollectNames(children, path, ignored),
                    GitName(children, path, ignored, true))
  {
    if children != [] {
      StrictNamesFollow(children[1..], path, ignored);
      var child := children[0];
      JoinFollows(ObserveName(child, path, ignored, false), ObserveNames(children[1..], path, ignored, false),
                  CollectName(child, path, ignored), CollectNames(children[1..], path, ignored),
                  ListedAsDirectory(child.node) && IsGit(child, path, ignored),
                  GitName(children[1..], path, ignored, true));
    }
  }

  lemma {:induction false} StrictFilesFollow(children: seq<Child>, path: Path, ignored: set<Path>)
    ensures Follows(ObserveFiles(children, path, ignored, false), CollectFiles(children, path, ignored),
                    GitName(children, path, ignored, false))
  {
    if children != [] {
      StrictFilesFollow(children[1..], path, ignored);
      var child := children[0];
      assert path + [child.name] == [MANIFEST] ==> child.name == [MANIFEST][0];
      JoinFollows(ObserveFile(child, path, ignored, false), ObserveFiles(children[1..], path, ignored, false),
                  CollectFile(child, path, ignored), CollectFiles(children[1..], path, ignored),
                  !ListedAsDirectory(child.node) && IsGit(child, path, ignored),
                  GitName(children[1..], path, ignored, false));
    }
  }

  lemma {:induction false} StrictBelowFollows(children: seq<Child>, path: Path, ignored: set<Path>)
    ensures Follows(ObserveBelow(children, path, ignored, false), CollectBelow(children, path, ignored),
                    AnyGitBelow(children, path, ignored))
    decreases children, 1
  {
    if children != [] {
      StrictBelowFollows(children[1..], path, ignored);
      var child := children[0];
      var here := path + [child.name];
      var entered := Enters(child, path, ignored);
      if entered {
        StrictWalkFollows(child.node.children, here, ignored);
      }
      JoinFollows(if entered then Observe(child.node.children, here, ignored, false) else Ok([]),
                  ObserveBelow(children[1..], path, ignored, false),
                  if entered then Collect(child.node.children, here, ignored) else Ok([]),
                  CollectBelow(children[1..], path, ignored),
                  entered && AnyGit(child.node.children, here, ignored), AnyGitBelow(children[1..], path, ignored));
    }
  }

  /** Without Git metadata the verifier lists what the producer recorded, unless a walked
      directory holds anything called `.git`. */
  lemma {:induction false} StrictWalkFollows(children: seq<Child>, path: Path, ignored: set<Path>)
    ensures Follows(Observe(children, path, ignored, false), Collect(children, path, ignored),
                    AnyGit(children, path, ignored))
    decreases children, 2
  {
    StrictNamesFollow(children, path, ignored);
    StrictFilesFollow(children, path, ignored);
    StrictBelowFollows(children, path, ignored);
    AnyGitByPass(children, path, ignored);
    JoinFollows(ObserveFiles(children, path, ignored, false), ObserveBelow(children, path, ignored, false),
                CollectFiles(children, path, ignored), CollectBelow(children, path, ignored),
                GitName(children, path, ignored, false), AnyGitBelow(children, path, ignored));
    JoinFollows(ObserveNames(children, path, ignored, false),
                Then(ObserveFiles(children, path, ignored, false), ObserveBelow(children, path, ignored, false)),
                CollectNames(children, path, ignored),
                Then(CollectFiles(children, path, ignored), CollectBelow(children, path, ignored)),
                GitName(children, path, ignored, true),
                GitName(children, path, ignored, false) || AnyGitBelow(children, path, ignored));
  }

  lemma {:induction false} NestedGitIsGit(children: seq<Child>, path: Path, ignored: set<Path>)
    ensures NestedGit(children, path, ignored) ==> AnyGit(children, path, ignored)
    decreases children
  {
    if children != [] {
      var child := children[0];
      NestedGitIsGit(children[1..], path, ignored);
      if Enters(child, path, ignored) {
        NestedGitIsGit(child.node.children, path + [child.name], ignored);
      }
      assert GitAt(child, path, ignored) ==>
             || IsGit(child, path, ignored)
             || (Enters(child, path, ignored) && AnyGit(child.node.children, path + [child.name], ignored));
    }
  }

  /** Without Git metadata the verifier accepts what it accepts with it, of trees without
      anything called `.git`. */
  lemma {:induction false} StrictAcceptanceIsExact(children: seq<Child>, ignored: set<Path>, hash: Hash, m: Manifest)
    ensures Accepts(children, ignored, hash, m, false) <==>
              Accepts(children, ignored, hash, m, true) && !AnyGit(children, [], ignored)
  {
    StrictWalkFollows(children, [], ignored);
    WalksAgree(children, [], ignored);
    NestedGitIsGit(children, [], ignored);
  }
}

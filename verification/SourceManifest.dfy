/** The source manifest: `refresh` brings its records in line with the working tree,
    `verify_manifest` accepts a tree only if its records match. Digests are values of
    any hash; hexadecimal spelling is not part of the model. */
module SourceManifest {
  import opened Bytes
  import opened Wrappers
  import opened Utf8Order
  import opened SourceTree

  type Digest = string
  type Hash = seq<Byte> -> Digest

  const POLICY := "repository-policy.yaml"

  datatype Kind = File | Link | OtherKind
  datatype Mode = Plain | Executable | LinkMode | OtherMode

  datatype FileRecord =
    | FileRecord(path: Path, kind: Kind, mode: Mode, sha: Digest, size: int, target: Option<string>)
    | Unreadable

  datatype Pinned = Pinned(path: Path, sha: Digest)

  /** `header` stands for the schema, history, commit and repository fields, which
      refreshing does not touch. An entry that is not an object is None. */
  datatype Manifest = Manifest(header: bool, files: seq<FileRecord>, protectedFiles: seq<Option<Pinned>>,
                               license: Option<Pinned>, policy: Digest)

  datatype Summary = Summary(added: set<Path>, changed: set<Path>, removed: set<Path>, protectedChanges: set<Path>)

  datatype RefreshFault = WalkFailed(fault: SourceTree.Fault) | RecordWithoutPath | ProtectedChanged(paths: set<Path>)

  // ---- Records of the tree -----------------------------------------------

  function RecordOf(leaf: Leaf, hash: Hash): FileRecord
    requires Recordable(leaf.node)
  {
    match leaf.node
    case Regular(executable, content) =>
      FileRecord(leaf.path, File, if executable then Executable else Plain, hash(content), |content|, None)
    case Symlink(target, _) =>
      FileRecord(leaf.path, Link, LinkMode, hash(Encode(target)), |Encode(target)|, Some(target))
  }

  /** The producer's dictionary of records. */
  function Records(leaves: seq<Leaf>, hash: Hash): map<Path, FileRecord>
    requires forall leaf | leaf in leaves :: Recordable(leaf.node)
  {
    if leaves == [] then map[]
    else Records(leaves[..|leaves| - 1], hash)[leaves[|leaves| - 1].path := RecordOf(leaves[|leaves| - 1], hash)]
  }

  // ---- Sorted listings ---------------------------------------------------

  function Posix(path: Path): string {
    if path == [] then [] else if |path| == 1 then path[0] else path[0] + "/" + Posix(path[1..])
  }

  /** Python's string order on the written paths. */
  predicate Before(p: Path, q: Path) {
    NameLess(Posix(p), Posix(q))
  }

  lemma {:induction false} SomePathIsFirst(paths: set<Path>)
    requires paths != {}
    ensures exists p | p in paths :: forall q | q in paths :: !Before(q, p)
    decreases |paths|
  {
    var p :| p in paths;
    NameIsNotLess(Posix(p));
    if paths != {p} {
      SomePathIsFirst(paths - {p});
      var m :| m in paths - {p} && forall q | q in paths - {p} :: !Before(q, m);
      if Before(p, m) {
        forall q | q in paths - {p} ensures !Before(q, p) {
          if Before(q, p) {
            NameOrderIsTransitive(Posix(q), Posix(p), Posix(m));
          }
        }
        assert forall q | q in paths :: q == p || q in paths - {p};
      }
    }
  }

  /** `sorted` over the keys of a dictionary. */
  ghost function Sorted(paths: set<Path>): (listing: seq<Path>)
    ensures forall p :: p in listing <==> p in paths
    ensures NoDuplicates(listing)
    ensures forall i, j | 0 <= i < j < |listing| :: !Before(listing[j], listing[i])
    decreases |paths|
  {
    if paths == {} then []
    else
      SomePathIsFirst(paths);
      var first :| first in paths && forall q | q in paths :: !Before(q, first);
      [first] + Sorted(paths - {first})
  }

  function Listed(order: seq<Path>, records: map<Path, FileRecord>): seq<FileRecord>
    requires forall p | p in order :: p in records
  {
    seq(|order|, i requires 0 <= i < |order| => records[order[i]])
  }

  // ---- Refreshing --------------------------------------------------------

  /** `_existing_records`: the last record of a path counts. */
  function Existing(files: seq<FileRecord>): (r: Result<map<Path, FileRecord>, RefreshFault>)
    ensures r.Ok? ==> forall p | p in r.value :: r.value[p].FileRecord? && r.value[p].path == p
  {
    if files == [] then Ok(map[])
    else
      var before, last := Existing(files[..|files| - 1]), files[|files| - 1];
      if before.Err? then before
      else if last.Unreadable? then Err(RecordWithoutPath)
      else Ok(before.value[last.path := last])
  }

  function ProtectedDigests(records: seq<Option<Pinned>>): map<Path, Digest> {
    if records == [] then map[]
    else
      var before, last := ProtectedDigests(records[..|records| - 1]), records[|records| - 1];
      if last.None? then before else before[last.value.path := last.value.sha]
  }

  function Changed(existing: map<Path, FileRecord>, observed: map<Path, FileRecord>): set<Path> {
    set p | p in existing && p in observed && observed[p] != existing[p]
  }

  /** `_protected_changes`. */
  function ProtectedChanges(m: Manifest, changed: set<Path>, observed: map<Path, FileRecord>): set<Path>
    requires forall p | p in observed :: observed[p].FileRecord?
  {
    var digests := ProtectedDigests(m.protectedFiles);
    set p | p in changed && p in digests && p in observed && observed[p].sha != digests[p]
  }

  function Repinned(pinned: Pinned, observed: map<Path, FileRecord>): Pinned
    requires forall p | p in observed :: observed[p].FileRecord?
  {
    if pinned.path in observed then pinned.(sha := observed[pinned.path].sha) else pinned
  }

  function RepinnedRecord(record: Option<Pinned>, observed: map<Path, FileRecord>): Option<Pinned>
    requires forall p | p in observed :: observed[p].FileRecord?
  {
    if record.None? then None else Some(Repinned(record.value, observed))
  }

  function RepinnedAll(records: seq<Option<Pinned>>, observed: map<Path, FileRecord>): (r: seq<Option<Pinned>>)
    requires forall p | p in observed :: observed[p].FileRecord?
    ensures |r| == |records|
    ensures forall i | 0 <= i < |records| :: r[i] == RepinnedRecord(records[i], observed)
  {
    if records == [] then []
    else RepinnedAll(records[..|records| - 1], observed) + [RepinnedRecord(records[|records| - 1], observed)]
  }

  ghost predicate AllRecords(observed: map<Path, FileRecord>) {
    forall p | p in observed :: observed[p].FileRecord? && observed[p].path == p
  }

  lemma {:induction false} RecordsAreRecords(leaves: seq<Leaf>, hash: Hash)
    requires forall leaf | leaf in leaves :: Recordable(leaf.node)
    ensures AllRecords(Records(leaves, hash))
  {
    if leaves != [] {
      RecordsAreRecords(leaves[..|leaves| - 1], hash);
    }
  }

  /** The manifest with its records and derived digests taken from the tree. */
  ghost function Updated(m: Manifest, observed: map<Path, FileRecord>): Manifest
    requires AllRecords(observed)
  {
    m.(files := Listed(Sorted(observed.Keys), observed),
       protectedFiles := RepinnedAll(m.protectedFiles, observed),
       license := RepinnedRecord(m.license, observed),
       policy := if [POLICY] in observed then observed[[POLICY]].sha else m.policy)
  }

  function SummaryOf(m: Manifest, existing: map<Path, FileRecord>, observed: map<Path, FileRecord>): Summary
    requires forall p | p in observed :: observed[p].FileRecord?
  {
    var changed := Changed(existing, observed);
    Summary(observed.Keys - existing.Keys, changed, existing.Keys - observed.Keys,
      ProtectedChanges(m, changed, observed))
  }

  /** `refresh`, given what the walk collected. */
  ghost function RefreshWith(m: Manifest, observed: map<Path, FileRecord>, accept: bool)
    : Result<(Manifest, Summary), RefreshFault>
    requires AllRecords(observed)
  {
    var existing := Existing(m.files);
    if existing.Err? then Err(existing.error)
    else
      var summary := SummaryOf(m, existing.value, observed);
      if summary.protectedChanges != {} && !accept then Err(ProtectedChanged(summary.protectedChanges))
      else Ok((Updated(m, observed), summary))
  }

  /** What the producer records of a tree that it can walk. */
  ghost function Observed(children: seq<Child>, ignored: set<Path>, hash: Hash): (observed: map<Path, FileRecord>)
    requires Collect(children, [], ignored).Ok?
    ensures AllRecords(observed)
  {
    CollectedAreRecordable(children, [], ignored);
    RecordsAreRecords(Collect(children, [], ignored).value, hash);
    Records(Collect(children, [], ignored).value, hash)
  }

  ghost function Refresh(children: seq<Child>, ignored: set<Path>, hash: Hash, m: Manifest, accept: bool)
    : Result<(Manifest, Summary), RefreshFault>
  {
    var walk := Collect(children, [], ignored);
    if walk.Err? then Err(WalkFailed(walk.error)) else RefreshWith(m, Observed(children, ignored, hash), accept)
  }

  lemma {:induction false} CollectedAreRecordable(children: seq<Child>, path: Path, ignored: set<Path>)
    requires Collect(children, path, ignored).Ok?
    ensures forall leaf | leaf in Collect(children, path, ignored).value :: Recordable(leaf.node)
    decreases children, 2
  {
    NamesAreRecordable(children, path, ignored);
    FilesAreRecordable(children, path, ignored);
    BelowIsRecordable(children, path, ignored);
  }

  lemma {:induction false} NamesAreRecordable(children: seq<Child>, path: Path, ignored: set<Path>)
    requires CollectNames(children, path, ignored).Ok?
    ensures CollectNames(children, path, ignored).value == []
  {
    if children != [] {
      NamesAreRecordable(children[1..], path, ignored);
    }
  }

  lemma {:induction false} FilesAreRecordable(children: seq<Child>, path: Path, ignored: set<Path>)
    requires CollectFiles(children, path, ignored).Ok?
    ensures forall leaf | leaf in CollectFiles(children, path, ignored).value :: Recordable(leaf.node)
  {
    if children != [] {
      FilesAreRecordable(children[1..], path, ignored);
    }
  }

  lemma {:induction false} BelowIsRecordable(children: seq<Child>, path: Path, ignored: set<Path>)
    requires CollectBelow(children, path, ignored).Ok?
    ensures forall leaf | leaf in CollectBelow(children, path, ignored).value :: Recordable(leaf.node)
    decreases children, 1
  {
    if children != [] {
      BelowIsRecordable(children[1..], path, ignored);
      if Enters(children[0], path, ignored) {
        CollectedAreRecordable(children[0].node.children, path + [children[0].name], ignored);
      }
    }
  }

  // ---- What refreshing does ----------------------------------------------

  /** `r` is the last record of its path. */
  ghost predicate RecordsPath(files: seq<FileRecord>, p: Path, r: FileRecord) {
    exists i | 0 <= i < |files| ::
      && files[i] == r && r.FileRecord? && r.path == p
      && forall j | i < j < |files| && files[j].FileRecord? :: files[j].path != p
  }

  /** `sha` is the digest of the last pin of its path. */
  ghost predicate PinsPath(records: seq<Option<Pinned>>, p: Path, sha: Digest) {
    exists i | 0 <= i < |records| ::
      && records[i] == Some(Pinned(p, sha))
      && forall j | i < j < |records| && records[j].Some? :: records[j].value.path != p
  }

  lemma {:induction false} LastRecordOf(before: seq<FileRecord>, last: FileRecord, p: Path, r: FileRecord)
    requires last.FileRecord?
    ensures RecordsPath(before + [last], p, r) <==> if last.path == p then r == last else RecordsPath(before, p, r)
  {
    var files := before + [last];
    assert files[|before|] == last && forall i | 0 <= i < |before| :: files[i] == before[i];
    if last.path != p && RecordsPath(before, p, r) {
      var i :| 0 <= i < |before| && before[i] == r && r.FileRecord? && r.path == p
        && forall j | i < j < |before| && before[j].FileRecord? :: before[j].path != p;
      assert files[i] == r;
    }
  }

  lemma {:induction false} ExistingIsTheLast(files: seq<FileRecord>, p: Path, r: FileRecord)
    requires Existing(files).Ok?
    ensures p in Existing(files).value && Existing(files).value[p] == r <==> RecordsPath(files, p, r)
  {
    if files != [] {
      var before, last := files[..|files| - 1], files[|files| - 1];
      ExistingIsTheLast(before, p, r);
      LastRecordOf(before, last, p, r);
      assert before + [last] == files;
    }
  }

  ghost predicate AllReadable(files: seq<FileRecord>) {
    forall i | 0 <= i < |files| :: files[i].FileRecord?
  }

  lemma {:induction false} ExistingFails(files: seq<FileRecord>)
    ensures Existing(files).Ok? <==> AllReadable(files)
    ensures Existing(files).Err? ==> Existing(files).error == RecordWithoutPath
  {
    if files != [] {
      var before := files[..|files| - 1];
      ExistingFails(before);
      assert forall i | 0 <= i < |before| :: before[i] == files[i];
    }
  }

  lemma {:induction false} LastPinOf(before: seq<Option<Pinned>>, last: Option<Pinned>, p: Path, sha: Digest)
    ensures PinsPath(before + [last], p, sha) <==>
              if last.Some? && last.value.path == p then sha == last.value.sha else PinsPath(before, p, sha)
  {
    var records := before + [last];
    assert records[|before|] == last && forall i | 0 <= i < |before| :: records[i] == before[i];
    if !(last.Some? && last.value.path == p) && PinsPath(before, p, sha) {
      var i :| 0 <= i < |before| && before[i] == Some(Pinned(p, sha))
        && forall j | i < j < |before| && before[j].Some? :: before[j].value.path != p;
      assert records[i] == Some(Pinned(p, sha));
    }
  }

  lemma {:induction false} DigestIsTheLast(records: seq<Option<Pinned>>, p: Path, sha: Digest)
    ensures p in ProtectedDigests(records) && ProtectedDigests(records)[p] == sha <==> PinsPath(records, p, sha)
  {
    if records != [] {
      var before, last := records[..|records| - 1], records[|records| - 1];
      DigestIsTheLast(before, p, sha);
      LastPinOf(before, last, p, sha);
      assert before + [last] == records;
    }
  }

  /** A recorded file changed, and its last pin has another digest than was observed. */
  ghost predicate ProtectionBroken(m: Manifest, observed: map<Path, FileRecord>, p: Path)
    requires AllRecords(observed)
  {
    p in observed &&
    exists r, sha :: RecordsPath(m.files, p, r) && r != observed[p] && PinsPath(m.protectedFiles, p, sha)
                     && sha != observed[p].sha
  }

  /** The summary: paths without a record, with another record, with a record but gone,
      and the changed ones whose protection is broken. */
  ghost predicate Tells(summary: Summary, m: Manifest, observed: map<Path, FileRecord>, p: Path)
    requires AllRecords(observed)
  {
    && (p in summary.added <==> p in observed && forall r :: !RecordsPath(m.files, p, r))
    && (p in summary.changed <==> p in observed && exists r :: RecordsPath(m.files, p, r) && r != observed[p])
    && (p in summary.removed <==> p !in observed && exists r :: RecordsPath(m.files, p, r))
    && (p in summary.protectedChanges <==> ProtectionBroken(m, observed, p))
  }

  /** A digest that is brought in line, if its file was observed. */
  ghost predicate BroughtInLine(before: Option<Pinned>, after: Option<Pinned>, observed: map<Path, FileRecord>)
    requires AllRecords(observed)
  {
    && before.Some? == after.Some?
    && (before.Some? ==>
          && after.value.path == before.value.path
          && after.value.sha == if before.value.path in observed then observed[before.value.path].sha
                                else before.value.sha)
  }

  /** Every observed record once, by path in the order of the written paths. */
  ghost predicate ListsInOrder(files: seq<FileRecord>, observed: map<Path, FileRecord>) {
    && (forall p | p in observed :: observed[p] in files)
    && (forall i | 0 <= i < |files| ::
          files[i].FileRecord? && files[i].path in observed && observed[files[i].path] == files[i])
    && (forall i, j | 0 <= i < j < |files| ::
          files[i].path != files[j].path && !Before(files[j].path, files[i].path))
  }

  /** The refreshed manifest: the observed records, each once and in order, and every
      digest derived from them. */
  ghost predicate InLine(m: Manifest, after: Manifest, observed: map<Path, FileRecord>)
    requires AllRecords(observed)
  {
    && after.header == m.header
    && ListsInOrder(after.files, observed)
    && |after.protectedFiles| == |m.protectedFiles|
    && (forall i | 0 <= i < |m.protectedFiles| ::
          BroughtInLine(m.protectedFiles[i], after.protectedFiles[i], observed))
    && BroughtInLine(m.license, after.license, observed)
    && after.policy == if [POLICY] in observed then observed[[POLICY]].sha else m.policy
  }

  /** There is at most one last record of a path, and it is the one that counts. */
  lemma {:induction false} RecordCounts(files: seq<FileRecord>, p: Path)
    requires Existing(files).Ok?
    ensures p in Existing(files).value ==> RecordsPath(files, p, Existing(files).value[p])
    ensures forall r :: RecordsPath(files, p, r) ==> p in Existing(files).value && Existing(files).value[p] == r
  {
    if p in Existing(files).value {
      ExistingIsTheLast(files, p, Existing(files).value[p]);
    }
    forall r ensures RecordsPath(files, p, r) ==> p in Existing(files).value && Existing(files).value[p] == r {
      ExistingIsTheLast(files, p, r);
    }
  }

  lemma {:induction false} PinCounts(records: seq<Option<Pinned>>, p: Path)
    ensures p in ProtectedDigests(records) ==> PinsPath(records, p, ProtectedDigests(records)[p])
    ensures forall sha :: PinsPath(records, p, sha) ==>
              p in ProtectedDigests(records) && ProtectedDigests(records)[p] == sha
  {
    if p in ProtectedDigests(records) {
      DigestIsTheLast(records, p, ProtectedDigests(records)[p]);
    }
    forall sha
      ensures PinsPath(records, p, sha) ==> p in ProtectedDigests(records) && ProtectedDigests(records)[p] == sha
    {
      DigestIsTheLast(records, p, sha);
    }
  }

  lemma {:induction false} BrokenExactly(m: Manifest, observed: map<Path, FileRecord>, p: Path)
    requires AllRecords(observed) && Existing(m.files).Ok?
    ensures
      var existing, digests := Existing(m.files).value, ProtectedDigests(m.protectedFiles);
      ProtectionBroken(m, observed, p) <==>
        p in observed && p in existing && existing[p] != observed[p] && p in digests && digests[p] != observed[p].sha
  {
    RecordCounts(m.files, p);
    PinCounts(m.protectedFiles, p);
  }

  lemma {:induction false} SummaryIsExact(m: Manifest, observed: map<Path, FileRecord>, p: Path)
    requires AllRecords(observed) && Existing(m.files).Ok?
    ensures Tells(SummaryOf(m, Existing(m.files).value, observed), m, observed, p)
  {
    RecordCounts(m.files, p);
    BrokenExactly(m, observed, p);
  }

  lemma {:induction false} ListingIsInOrder(order: seq<Path>, observed: map<Path, FileRecord>)
    requires AllRecords(observed) && NoDuplicates(order) && forall p :: p in order <==> p in observed
    requires forall i, j | 0 <= i < j < |order| :: !Before(order[j], order[i])
    ensures ListsInOrder(Listed(order, observed), observed)
  {
    var files := Listed(order, observed);
    assert forall i | 0 <= i < |order| :: files[i] == observed[order[i]] && files[i].path == order[i];
    forall p | p in observed ensures observed[p] in files {
      assert p in order;
      var i :| 0 <= i < |order| && order[i] == p;
      assert files[i] == observed[p];
    }
  }

  lemma {:induction false} UpdatedIsInLine(m: Manifest, observed: map<Path, FileRecord>)
    requires AllRecords(observed)
    ensures InLine(m, Updated(m, observed), observed)
  {
    ListingIsInOrder(Sorted(observed.Keys), observed);
    PinsComeInLine(m.protectedFiles, observed);
  }

  lemma {:induction false} PinsComeInLine(records: seq<Option<Pinned>>, observed: map<Path, FileRecord>)
    requires AllRecords(observed)
    ensures forall i | 0 <= i < |records| :: BroughtInLine(records[i], RepinnedAll(records, observed)[i], observed)
  {
  }

  lemma {:induction false} SummaryTells(m: Manifest, observed: map<Path, FileRecord>)
    requires AllRecords(observed) && Existing(m.files).Ok?
    ensures forall p :: Tells(SummaryOf(m, Existing(m.files).value, observed), m, observed, p)
  {
    forall p ensures Tells(SummaryOf(m, Existing(m.files).value, observed), m, observed, p) {
      SummaryIsExact(m, observed, p);
    }
  }

  lemma {:induction false} NothingBroken(summary: Summary, m: Manifest, observed: map<Path, FileRecord>)
    requires AllRecords(observed) && forall p :: Tells(summary, m, observed, p)
    ensures summary.protectedChanges == {} <==> forall p :: !ProtectionBroken(m, observed, p)
    ensures forall p :: p in summary.protectedChanges <==> ProtectionBroken(m, observed, p)
  {
    forall p ensures p in summary.protectedChanges <==> ProtectionBroken(m, observed, p) {
      assert Tells(summary, m, observed, p);
    }
  }

  /** When a refresh succeeds: every record has a path, and with the accept flag or
      without a broken protection. */
  lemma {:induction false} RefreshSucceedsExactly(m: Manifest, observed: map<Path, FileRecord>, accept: bool)
    requires AllRecords(observed)
    ensures RefreshWith(m, observed, accept).Ok? <==>
              AllReadable(m.files) && (accept || forall p :: !ProtectionBroken(m, observed, p))
    ensures RefreshWith(m, observed, accept) == Err(RecordWithoutPath) <==> !AllReadable(m.files)
  {
    ExistingFails(m.files);
    if AllReadable(m.files) {
      SummaryTells(m, observed);
      NothingBroken(SummaryOf(m, Existing(m.files).value, observed), m, observed);
    }
  }

  /** A refresh that succeeds brings the manifest in line and tells what it found; one
      that is refused names the files whose protection is broken. */
  lemma {:induction false} RefreshedExactly(m: Manifest, observed: map<Path, FileRecord>, accept: bool)
    requires AllRecords(observed)
    ensures
      var r := RefreshWith(m, observed, accept);
      && (r.Ok? ==> InLine(m, r.value.0, observed) && forall p :: Tells(r.value.1, m, observed, p))
      && (r.Err? && r.error != RecordWithoutPath ==>
            r.error.ProtectedChanged? && forall p :: p in r.error.paths <==> ProtectionBroken(m, observed, p))
  {
    ExistingFails(m.files);
    UpdatedIsInLine(m, observed);
    if AllReadable(m.files) {
      SummaryTells(m, observed);
      NothingBroken(SummaryOf(m, Existing(m.files).value, observed), m, observed);
    }
  }

  // ---- Refreshing twice --------------------------------------------------

  lemma {:induction false} ListingIndexesBack(order: seq<Path>, records: map<Path, FileRecord>)
    requires AllRecords(records) && forall p | p in order :: p in records
    ensures Existing(Listed(order, records)).Ok?
    ensures Existing(Listed(order, records)).value.Keys == set p | p in order
    ensures forall p | p in order :: Existing(Listed(order, records)).value[p] == records[p]
  {
    if order != [] {
      var before := order[..|order| - 1];
      assert Listed(order, records)[..|order| - 1] == Listed(before, records);
      ListingIndexesBack(before, records);
      assert forall p :: p in order <==> p in before || p == order[|order| - 1];
    }
  }

  lemma {:induction false} UpdatedIndexesBack(m: Manifest, observed: map<Path, FileRecord>)
    requires AllRecords(observed)
    ensures Existing(Updated(m, observed).files) == Ok(observed)
  {
    ListingIndexesBack(Sorted(observed.Keys), observed);
    var back := Existing(Updated(m, observed).files).value;
    assert back.Keys == observed.Keys;
    assert back == observed;
  }

  lemma {:induction false} RepinningTwice(records: seq<Option<Pinned>>, observed: map<Path, FileRecord>)
    requires AllRecords(observed)
    ensures RepinnedAll(RepinnedAll(records, observed), observed) == RepinnedAll(records, observed)
  {
  }

  lemma {:induction false} UpdatingTwice(m: Manifest, observed: map<Path, FileRecord>)
    requires AllRecords(observed)
    ensures Updated(Updated(m, observed), observed) == Updated(m, observed)
  {
    RepinningTwice(m.protectedFiles, observed);
  }

  const NOTHING: Summary := Summary({}, {}, {}, {})

  /** A second refresh of the same tree changes nothing and reports nothing, with or
      without the accept flag. */
  lemma {:induction false} RefreshIsIdempotent(children: seq<Child>, ignored: set<Path>, hash: Hash, m: Manifest,
                                               accept: bool, again: bool)
    requires Refresh(children, ignored, hash, m, accept).Ok?
    ensures
      var refreshed := Refresh(children, ignored, hash, m, accept).value.0;
      Refresh(children, ignored, hash, refreshed, again) == Ok((refreshed, NOTHING))
  {
    var observed := Observed(children, ignored, hash);
    UpdatedIndexesBack(m, observed);
    UpdatingTwice(m, observed);
    SameRecordsSayNothing(Updated(m, observed), observed);
  }

  lemma {:induction false} SameRecordsSayNothing(m: Manifest, observed: map<Path, FileRecord>)
    requires AllRecords(observed)
    ensures SummaryOf(m, observed, observed) == NOTHING
  {
    assert Changed(observed, observed) == {};
    assert observed.Keys - observed.Keys == {};
  }

  // ---- Protected files ---------------------------------------------------

  /** Every protected digest is that of the file's record in the same manifest. */
  ghost predicate ProtectionAgrees(m: Manifest) {
    && Existing(m.files).Ok?
    && forall i | 0 <= i < |m.protectedFiles| && m.protectedFiles[i].Some? ::
         var pinned := m.protectedFiles[i].value;
         pinned.path in Existing(m.files).value && Existing(m.files).value[pinned.path].sha == pinned.sha
  }

  lemma {:induction false} ProtectedPathsAreKeys(records: seq<Option<Pinned>>, p: Path)
    ensures p in ProtectedDigests(records) <==> exists i | 0 <= i < |records| ::
              records[i].Some? && records[i].value.path == p
  {
    if records != [] {
      var before := records[..|records| - 1];
      ProtectedPathsAreKeys(before, p);
      assert forall i | 0 <= i < |before| :: before[i] == records[i];
      if p in ProtectedDigests(before) {
        var i :| 0 <= i < |before| && before[i].Some? && before[i].value.path == p;
        assert records[i].Some? && records[i].value.path == p;
      }
    }
  }

  /** A pin that the guard on changed paths does not look at: its path has no record
      yet or an unchanged one, or a later pin of the same path takes its place. */
  predicate Unguarded(m: Manifest, existing: map<Path, FileRecord>, observed: map<Path, FileRecord>, pinned: Pinned) {
    || pinned.path !in existing
    || (pinned.path in observed && existing[pinned.path] == observed[pinned.path])
    || (pinned.path in ProtectedDigests(m.protectedFiles)
      && ProtectedDigests(m.protectedFiles)[pinned.path] != pinned.sha)
  }

  predicate CarriesObserved(pinned: Pinned, observed: map<Path, FileRecord>)
    requires forall p | p in observed :: observed[p].FileRecord?
  {
    pinned.path in observed ==> observed[pinned.path].sha == pinned.sha
  }

  /** Without the accept flag, a refresh that succeeds leaves every protected digest as
      it was if and only if each pin that the guard does not look at already carries
      the digest that was observed. */
  lemma {:induction false} ProtectedDigestsStayExactly(m: Manifest, observed: map<Path, FileRecord>)
    requires AllRecords(observed) && RefreshWith(m, observed, false).Ok?
    ensures RefreshWith(m, observed, false).value.0.protectedFiles == m.protectedFiles <==>
              forall i | 0 <= i < |m.protectedFiles| && m.protectedFiles[i].Some? ::
                Unguarded(m, Existing(m.files).value, observed, m.protectedFiles[i].value) ==>
                  CarriesObserved(m.protectedFiles[i].value, observed)
  {
    var existing := Existing(m.files).value;
    var after := RefreshWith(m, observed, false).value.0.protectedFiles;
    assert ProtectedChanges(m, Changed(existing, observed), observed) == {};
    forall i | 0 <= i < |m.protectedFiles| && m.protectedFiles[i].Some?
      ensures after[i] == m.protectedFiles[i] <==> CarriesObserved(m.protectedFiles[i].value, observed)
      ensures Unguarded(m, existing, observed, m.protectedFiles[i].value)
                || CarriesObserved(m.protectedFiles[i].value, observed)
    {
      var pinned := m.protectedFiles[i].value;
      ProtectedPathsAreKeys(m.protectedFiles, pinned.path);
      if pinned.path in observed && !Unguarded(m, existing, observed, pinned) {
        assert pinned.path in Changed(existing, observed);
        assert pinned.path !in ProtectedChanges(m, Changed(existing, observed), observed);
      }
    }
  }

  lemma {:induction false} AgreeingPinIsLast(m: Manifest, records: seq<Option<Pinned>>, p: Path)
    requires Existing(m.files).Ok? && p in Existing(m.files).value
    requires forall i | 0 <= i < |records| && records[i].Some? && records[i].value.path == p ::
               records[i].value.sha == Existing(m.files).value[p].sha
    ensures p in ProtectedDigests(records) ==> ProtectedDigests(records)[p] == Existing(m.files).value[p].sha
  {
    if records != [] {
      var before := records[..|records| - 1];
      assert forall i | 0 <= i < |before| :: before[i] == records[i];
      AgreeingPinIsLast(m, before, p);
    }
  }

  /** So a manifest whose protected digests agree with its records keeps them, or the
      refresh fails. */
  lemma {:induction false} ProtectedDigestsStay(m: Manifest, observed: map<Path, FileRecord>)
    requires AllRecords(observed) && ProtectionAgrees(m) && RefreshWith(m, observed, false).Ok?
    ensures RefreshWith(m, observed, false).value.0.protectedFiles == m.protectedFiles
  {
    ProtectedDigestsStayExactly(m, observed);
    forall i | 0 <= i < |m.protectedFiles| && m.protectedFiles[i].Some? &&
               Unguarded(m, Existing(m.files).value, observed, m.protectedFiles[i].value)
      ensures CarriesObserved(m.protectedFiles[i].value, observed)
    {
      AgreeingPinIsLast(m, m.protectedFiles, m.protectedFiles[i].value.path);
    }
  }

  /** The agreement is needed: a protected file that has no record yet is rewritten
      without the flag. */
  lemma {:induction false} UnrecordedProtectedFileIsRewritten(path: Path, pinned: Digest, record: FileRecord)
    requires record.FileRecord? && record.path == path && record.sha != pinned
    ensures
      var m := Manifest(true, [], [Some(Pinned(path, pinned))], None, pinned);
      && RefreshWith(m, map[path := record], false).Ok?
      && RefreshWith(m, map[path := record], false).value.0.protectedFiles == [Some(Pinned(path, record.sha))]
  {
    var m := Manifest(true, [], [Some(Pinned(path, pinned))], None, pinned);
    assert Existing([]) == Ok(map[]);
    assert Changed(map[], map[path := record]) == {};
    var r := RepinnedAll(m.protectedFiles, map[path := record]);
    assert r[0] == Some(Pinned(path, record.sha));
  }

  // ---- The document that is refreshed in place ---------------------------

  /** `_existing_records` as it runs. */
  method IndexRecords(files: seq<FileRecord>) returns (r: Result<map<Path, FileRecord>, RefreshFault>)
    ensures r == Existing(files)
  {
    var records: map<Path, FileRecord> := map[];
    for i := 0 to |files|
      invariant Existing(files[..i]) == Ok(records)
    {
      assert files[..i + 1][..i] == files[..i];
      if files[i].Unreadable? {
        MissingPathStays(files, i + 1);
        return Err(RecordWithoutPath);
      }
      records := records[files[i].path := files[i]];
    }
    assert files[..|files|] == files;
    r := Ok(records);
  }

  lemma {:induction false} MissingPathStays(files: seq<FileRecord>, i: nat)
    requires i <= |files| && Existing(files[..i]) == Err(RecordWithoutPath)
    ensures Existing(files) == Err(RecordWithoutPath)
    decreases |files|
  {
    if i == |files| {
      assert files[..i] == files;
    } else {
      assert files[..|files| - 1][..i] == files[..i];
      MissingPathStays(files[..|files| - 1], i);
    }
  }

  class ManifestDocument {
    const header: bool
    var files: seq<FileRecord>
    var protectedFiles: seq<Option<Pinned>>
    var license: Option<Pinned>
    var policy: Digest

    ghost function Value(): Manifest
      reads this
    {
      Manifest(header, files, protectedFiles, license, policy)
    }

    constructor (m: Manifest)
      ensures Value() == m
    {
      header, files, protectedFiles, license, policy := m.header, m.files, m.protectedFiles, m.license, m.policy;
    }

    /** `refresh` on the collected records; `order` is their sorted paths. A failing
        refresh leaves the document as it was. */
    method Refresh(observed: map<Path, FileRecord>, order: seq<Path>, accept: bool)
      returns (r: Result<Summary, RefreshFault>)
      requires AllRecords(observed) && order == Sorted(observed.Keys)
      modifies this
      ensures
        var result := RefreshWith(old(Value()), observed, accept);
        if result.Ok? then r == Ok(result.value.1) && Value() == result.value.0
        else r == Err(result.error) && Value() == old(Value())
    {
      var existing := IndexRecords(files);
      if existing.Err? {
        return Err(existing.error);
      }
      var summary := SummaryOf(Manifest(header, files, protectedFiles, license, policy), existing.value, observed);
      if summary.protectedChanges != {} && !accept {
        return Err(ProtectedChanged(summary.protectedChanges));
      }
      files := Listed(order, observed);
      RepinProtected(observed);
      if license.Some? && license.value.path in observed {
        license := Some(license.value.(sha := observed[license.value.path].sha));
      }
      if [POLICY] in observed {
        policy := observed[[POLICY]].sha;
      }
      r := Ok(summary);
    }

    /** Every protected record whose file was collected takes its digest. */
    method RepinProtected(observed: map<Path, FileRecord>)
      requires AllRecords(observed)
      modifies this`protectedFiles
      ensures protectedFiles == RepinnedAll(old(protectedFiles), observed)
    {
      var i := 0;
      while i < |protectedFiles|
        invariant i <= |protectedFiles| == |old(protectedFiles)|
        invariant forall j | 0 <= j < i :: protectedFiles[j] == RepinnedRecord(old(protectedFiles)[j], observed)
        invariant forall j | i <= j < |protectedFiles| :: protectedFiles[j] == old(protectedFiles)[j]
      {
        if protectedFiles[i].Some? && protectedFiles[i].value.path in observed {
          var pinned := protectedFiles[i].value;
          protectedFiles := protectedFiles[i := Some(pinned.(sha := observed[pinned.path].sha))];
        }
        i := i + 1;
      }
    }
  }
}

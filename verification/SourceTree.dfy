/** A working tree and the two walks over it: the producer's, which collects records,
    and the verifier's, which lists the payload. Both prune directories as they go. */
module SourceTree {
  import opened Bytes
  import opened Wrappers

  /** A relative path by its components. */
  type Path = seq<string>

  /** What `os.walk` finds under a name; a symbolic link to a directory is listed
      with the directories but not entered. */
  datatype Node =
    | Regular(executable: bool, content: seq<Byte>)
    | Symlink(target: string, toDirectory: bool)
    | Special
    | Directory(children: seq<Child>)

  datatype Child = Child(name: string, node: Node)

  datatype Leaf = Leaf(path: Path, node: Node)

  datatype Fault = DirectorySymlink(path: Path) | NonRegular(path: Path) | GitMetadata(path: Path)

  type Found = Result<seq<Leaf>, Fault>

  const GIT := ".git"
  const MANIFEST := "source-manifest.json"

  predicate ListedAsDirectory(node: Node) {
    node.Directory? || (node.Symlink? && node.toDirectory)
  }

  // ---- Ignored paths -----------------------------------------------------

  /** Some ancestor of the path, or the path itself, is ignored. */
  predicate IsIgnored(path: Path, ignored: set<Path>) {
    exists k | 0 < k <= |path| :: path[..k] in ignored
  }

  /** `_is_ignored`: up through the parents until nothing is left. */
  method CheckIgnored(path: Path, ignored: set<Path>) returns (found: bool)
    ensures found <==> IsIgnored(path, ignored)
  {
    var candidate := path;
    while candidate != []
      invariant candidate <= path
      invariant forall k | |candidate| < k <= |path| :: path[..k] !in ignored
      decreases |candidate|
    {
      assert candidate == path[..|candidate|];
      if candidate in ignored {
        return true;
      }
      candidate := candidate[..|candidate| - 1];
    }
    found := false;
  }

  lemma {:induction false} IgnoredBelow(path: Path, name: string, ignored: set<Path>)
    ensures IsIgnored(path + [name], ignored) <==> IsIgnored(path, ignored) || path + [name] in ignored
    ensures IsIgnored(path, ignored) ==> IsIgnored(path + [name], ignored)
  {
    var longer := path + [name];
    assert forall k | 0 < k <= |path| :: longer[..k] == path[..k];
    assert longer[..|longer|] == longer;
  }

  // ---- The full walk -----------------------------------------------------

  /** Every entry that is not a directory, wherever it is. */
  function Leaves(children: seq<Child>, path: Path): seq<Leaf>
    decreases children, 1
  {
    if children == [] then [] else Below(children[0], path) + Leaves(children[1..], path)
  }

  function Below(child: Child, path: Path): seq<Leaf>
    decreases child, 0
  {
    if child.node.Directory? then Leaves(child.node.children, path + [child.name])
    else [Leaf(path + [child.name], child.node)]
  }

  /** The entries that the manifest is about. */
  predicate Kept(leaf: Leaf, ignored: set<Path>) {
    && GIT !in leaf.path && !IsIgnored(leaf.path, ignored)
    && (leaf.path == [MANIFEST] ==> ListedAsDirectory(leaf.node))
  }

  predicate Recordable(node: Node) {
    node.Regular? || (node.Symlink? && !node.toDirectory)
  }

  // ---- The producer's walk -----------------------------------------------

  function Then(a: Found, b: Found): Found {
    if a.Err? then a else if b.Err? then b else Ok(a.value + b.value)
  }

  /** `_collect` in one directory: the directory names, the files, then what is below. */
  function Collect(children: seq<Child>, path: Path, ignored: set<Path>): Found
    decreases children, 2
  {
    Then(CollectNames(children, path, ignored),
         Then(CollectFiles(children, path, ignored), CollectBelow(children, path, ignored)))
  }

  /** A directory link that is not pruned ends the walk. */
  function CollectName(child: Child, path: Path, ignored: set<Path>): Found {
    if child.node.Symlink? && child.node.toDirectory && child.name != GIT && !IsIgnored(path + [child.name], ignored)
    then Err(DirectorySymlink(path + [child.name]))
    else Ok([])
  }

  function CollectNames(children: seq<Child>, path: Path, ignored: set<Path>): Found {
    if children == [] then Ok([])
    else Then(CollectName(children[0], path, ignored), CollectNames(children[1..], path, ignored))
  }

  function CollectFile(child: Child, path: Path, ignored: set<Path>): Found {
    var here := path + [child.name];
    if ListedAsDirectory(child.node) || child.name == GIT || IsIgnored(here, ignored) || here == [MANIFEST] then Ok([])
    else if Recordable(child.node) then Ok([Leaf(here, child.node)])
    else Err(NonRegular(here))
  }

  function CollectFiles(children: seq<Child>, path: Path, ignored: set<Path>): Found {
    if children == [] then Ok([])
    else Then(CollectFile(children[0], path, ignored), CollectFiles(children[1..], path, ignored))
  }

  predicate Enters(child: Child, path: Path, ignored: set<Path>) {
    child.node.Directory? && child.name != GIT && !IsIgnored(path + [child.name], ignored)
  }

  function CollectBelow(children: seq<Child>, path: Path, ignored: set<Path>): Found
    decreases children, 1
  {
    if children == [] then Ok([])
    else
      Then(if Enters(children[0], path, ignored)
           then Collect(children[0].node.children, path + [children[0].name], ignored) else Ok([]),
           CollectBelow(children[1..], path, ignored))
  }

  // ---- The verifier's walk -----------------------------------------------

  /** `_walk_payload` in one directory. */
  function Observe(children: seq<Child>, path: Path, ignored: set<Path>, allowGit: bool): Found
    decreases children, 2
  {
    Then(ObserveNames(children, path, ignored, allowGit),
         Then(ObserveFiles(children, path, ignored, allowGit), ObserveBelow(children, path, ignored, allowGit)))
  }

  function ObserveName(child: Child, path: Path, ignored: set<Path>, allowGit: bool): Found {
    var here := path + [child.name];
    if !ListedAsDirectory(child.node) || IsIgnored(here, ignored) then Ok([])
    else if child.name == GIT then if allowGit then Ok([]) else Err(GitMetadata(here))
    else if child.node.Symlink? then Err(DirectorySymlink(here))
    else Ok([])
  }

  function ObserveNames(children: seq<Child>, path: Path, ignored: set<Path>, allowGit: bool): Found {
    if children == [] then Ok([])
    else Then(ObserveName(children[0], path, ignored, allowGit), ObserveNames(children[1..], path, ignored, allowGit))
  }

  function ObserveFile(child: Child, path: Path, ignored: set<Path>, allowGit: bool): Found {
    var here := path + [child.name];
    if ListedAsDirectory(child.node) || here == [MANIFEST] then Ok([])
    else if child.name == GIT then if allowGit && path == [] then Ok([]) else Err(GitMetadata(here))
    else if IsIgnored(here, ignored) then Ok([])
    else if Recordable(child.node) then Ok([Leaf(here, child.node)])
    else Err(NonRegular(here))
  }

  function ObserveFiles(children: seq<Child>, path: Path, ignored: set<Path>, allowGit: bool): Found {
    if children == [] then Ok([])
    else Then(ObserveFile(children[0], path, ignored, allowGit), ObserveFiles(children[1..], path, ignored, allowGit))
  }

  function ObserveBelow(children: seq<Child>, path: Path, ignored: set<Path>, allowGit: bool): Found
    decreases children, 1
  {
    if children == [] then Ok([])
    else
      Then(if Enters(children[0], path, ignored)
           then Observe(children[0].node.children, path + [children[0].name], ignored, allowGit) else Ok([]),
           ObserveBelow(children[1..], path, ignored, allowGit))
  }

  // ---- The pruned walk is the filtered full walk -------------------------

  /** The directory itself is walked. */
  ghost predicate Reached(path: Path, ignored: set<Path>) {
    GIT !in path && !IsIgnored(path, ignored)
  }

  /** Everything below a pruned directory would be filtered out. */
  lemma {:induction false} NothingKeptBelow(children: seq<Child>, path: Path, ignored: set<Path>, leaf: Leaf)
    requires GIT in path || IsIgnored(path, ignored)
    requires leaf in Leaves(children, path)
    ensures !Kept(leaf, ignored)
    decreases children, 1
  {
    if leaf in Below(children[0], path) {
      IgnoredBelow(path, children[0].name, ignored);
      if children[0].node.Directory? {
        NothingKeptBelow(children[0].node.children, path + [children[0].name], ignored, leaf);
      }
    } else {
      NothingKeptBelow(children[1..], path, ignored, leaf);
    }
  }

  /** What one directory's names, files and subdirectories contribute together. */
  ghost predicate Exact(found: Found, leaves: seq<Leaf>, ignored: set<Path>) {
    && (found.Ok? <==> forall leaf | leaf in leaves && Kept(leaf, ignored) :: Recordable(leaf.node))
    && (found.Ok? ==> forall leaf :: leaf in found.value <==> leaf in leaves && Kept(leaf, ignored))
  }

  /** The same over a list of children, its three passes taken together. */
  lemma {:induction false} PrunedWalkIsFilteredWalk(children: seq<Child>, path: Path, ignored: set<Path>)
    requires Reached(path, ignored)
    ensures Exact(Collect(children, path, ignored), Leaves(children, path), ignored)
    decreases children, 1
  {
    if children != [] {
      PrunedWalkIsFilteredWalk(children[1..], path, ignored);
      ChildIsExact(children[0], path, ignored);
      JoinExact(ChildFound(children[0], path, ignored), Collect(children[1..], path, ignored),
                Below(children[0], path), Leaves(children[1..], path), ignored);
      PassesByChild(children, path, ignored);
    }
  }

  /** The three passes over one child alone. */
  function ChildFound(child: Child, path: Path, ignored: set<Path>): Found {
    Then(CollectName(child, path, ignored),
         Then(CollectFile(child, path, ignored),
              if Enters(child, path, ignored) then Collect(child.node.children, path + [child.name], ignored)
              else Ok([])))
  }

  lemma {:induction false} ChildIsExact(child: Child, path: Path, ignored: set<Path>)
    requires Reached(path, ignored)
    ensures Exact(ChildFound(child, path, ignored), Below(child, path), ignored)
    decreases child, 0
  {
    var here := path + [child.name];
    IgnoredBelow(path, child.name, ignored);
    if child.node.Directory? {
      if Enters(child, path, ignored) {
        PrunedWalkIsFilteredWalk(child.node.children, here, ignored);
        Unpadded(Collect(child.node.children, here, ignored));
      } else {
        forall leaf | leaf in Below(child, path) ensures !Kept(leaf, ignored) {
          NothingKeptBelow(child.node.children, here, ignored, leaf);
        }
      }
    } else {
      assert GIT in here <==> child.name == GIT;
      assert Leaf(here, child.node) in Below(child, path);
      LeafIsExact(ChildFound(child, path, ignored), Leaf(here, child.node), ignored);
    }
  }

  lemma {:induction false} LeafIsExact(found: Found, leaf: Leaf, ignored: set<Path>)
    requires if !Kept(leaf, ignored) then found == Ok([]) || (found.Ok? && found.value == [])
             else if Recordable(leaf.node) then found.Ok? && found.value == [leaf] else found.Err?
    ensures Exact(found, [leaf], ignored)
  {
    assert leaf in [leaf];
  }

  lemma {:induction false} Unpadded(found: Found)
    ensures Then(Ok([]), Then(Ok([]), found)) == found
  {
    if found.Ok? {
      assert [] + found.value == found.value;
    }
  }

  lemma {:induction false} JoinExact(a: Found, b: Found, left: seq<Leaf>, right: seq<Leaf>, ignored: set<Path>)
    requires Exact(a, left, ignored) && Exact(b, right, ignored)
    ensures Exact(Then(a, b), left + right, ignored)
  {
  }

  /** Same outcome: both fail, or both find the same entries. */
  ghost predicate Alike(a: Found, b: Found) {
    (a.Ok? <==> b.Ok?) && (a.Ok? ==> forall leaf :: leaf in a.value <==> leaf in b.value)
  }

  lemma {:induction false} PassesByChild(children: seq<Child>, path: Path, ignored: set<Path>)
    requires children != []
    ensures Alike(Collect(children, path, ignored),
                  Then(ChildFound(children[0], path, ignored), Collect(children[1..], path, ignored)))
  {
    var child := children[0];
    Shuffle(CollectName(child, path, ignored), CollectFile(child, path, ignored),
            if Enters(child, path, ignored) then Collect(child.node.children, path + [child.name], ignored) else Ok([]),
            CollectNames(children[1..], path, ignored), CollectFiles(children[1..], path, ignored),
            CollectBelow(children[1..], path, ignored));
  }

  lemma {:induction false} Shuffle(a: Found, b: Found, c: Found, x: Found, y: Found, z: Found)
    ensures Alike(Then(Then(a, x), Then(Then(b, y), Then(c, z))), Then(Then(a, Then(b, c)), Then(x, Then(y, z))))
  {
  }

  // ---- The two walks agree -----------------------------------------------

  /** A file called `.git` where the verifier tolerates none: in a directory it walks
      other than the root. */
  predicate NestedGit(children: seq<Child>, path: Path, ignored: set<Path>)
    decreases children, 1
  {
    children != [] && (GitAt(children[0], path, ignored) || NestedGit(children[1..], path, ignored))
  }

  predicate GitAt(child: Child, path: Path, ignored: set<Path>)
    decreases child, 0
  {
    || (!ListedAsDirectory(child.node) && child.name == GIT && path != [])
    || (Enters(child, path, ignored) && NestedGit(child.node.children, path + [child.name], ignored))
  }

  /** The verifier's outcome is the producer's, failing besides on `git`. */
  ghost predicate Follows(verifier: Found, producer: Found, git: bool) {
    (verifier.Ok? <==> producer.Ok? && !git) && (verifier.Ok? ==> verifier == producer)
  }

  lemma {:induction false} JoinFollows(a: Found, b: Found, a': Found, b': Found, git: bool, git': bool)
    requires Follows(a, a', git) && Follows(b, b', git')
    ensures Follows(Then(a, b), Then(a', b'), git || git')
  {
  }

  lemma {:induction false} NamesFollow(children: seq<Child>, path: Path, ignored: set<Path>)
    ensures Follows(ObserveNames(children, path, ignored, true), CollectNames(children, path, ignored), false)
  {
    if children != [] {
      NamesFollow(children[1..], path, ignored);
    }
  }

  predicate GitFile(children: seq<Child>, path: Path) {
    children != [] &&
    ((!ListedAsDirectory(children[0].node) && children[0].name == GIT && path != []) || GitFile(children[1..], path))
  }

  lemma {:induction false} FilesFollow(children: seq<Child>, path: Path, ignored: set<Path>)
    ensures Follows(ObserveFiles(children, path, ignored, true), CollectFiles(children, path, ignored),
              GitFile(children, path))
  {
    if children != [] {
      FilesFollow(children[1..], path, ignored);
      var child := children[0];
      assert path + [child.name] == [MANIFEST] ==> child.name == [MANIFEST][0];
      JoinFollows(ObserveFile(child, path, ignored, true), ObserveFiles(children[1..], path, ignored, true),
                  CollectFile(child, path, ignored), CollectFiles(children[1..], path, ignored),
                  !ListedAsDirectory(child.node) && child.name == GIT && path != [], GitFile(children[1..], path));
    }
  }

  predicate GitBelow(children: seq<Child>, path: Path, ignored: set<Path>)
  {
    children != [] &&
    ((Enters(children[0], path, ignored) && NestedGit(children[0].node.children, path + [children[0].name], ignored)) ||
     GitBelow(children[1..], path, ignored))
  }

  lemma {:induction false} NestedGitByPass(children: seq<Child>, path: Path, ignored: set<Path>)
    ensures NestedGit(children, path, ignored) <==> GitFile(children, path) || GitBelow(children, path, ignored)
  {
    if children != [] {
      NestedGitByPass(children[1..], path, ignored);
    }
  }

  lemma {:induction false} BelowFollows(children: seq<Child>, path: Path, ignored: set<Path>)
    ensures Follows(ObserveBelow(children, path, ignored, true), CollectBelow(children, path, ignored),
                    GitBelow(children, path, ignored))
    decreases children, 1
  {
    if children != [] {
      BelowFollows(children[1..], path, ignored);
      var child := children[0];
      var here := path + [child.name];
      if Enters(child, path, ignored) {
        WalksAgree(child.node.children, here, ignored);
        JoinFollows(Observe(child.node.children, here, ignored, true), ObserveBelow(children[1..], path, ignored, true),
                    Collect(child.node.children, here, ignored), CollectBelow(children[1..], path, ignored),
                    NestedGit(child.node.children, here, ignored), GitBelow(children[1..], path, ignored));
      } else {
        JoinFollows(Ok([]), ObserveBelow(children[1..], path, ignored, true), Ok([]),
          CollectBelow(children[1..], path, ignored),
                    false, GitBelow(children[1..], path, ignored));
      }
    }
  }

  /** With Git metadata allowed the verifier lists exactly what the producer
      recorded, in the same order, unless some walked directory other than the root
      holds a file called `.git`: then it fails although the producer may not. */
  lemma {:induction false} WalksAgree(children: seq<Child>, path: Path, ignored: set<Path>)
    ensures Follows(Observe(children, path, ignored, true), Collect(children, path, ignored),
              NestedGit(children, path, ignored))
    decreases children, 2
  {
    NamesFollow(children, path, ignored);
    FilesFollow(children, path, ignored);
    BelowFollows(children, path, ignored);
    NestedGitByPass(children, path, ignored);
    JoinFollows(ObserveFiles(children, path, ignored, true), ObserveBelow(children, path, ignored, true),
                CollectFiles(children, path, ignored), CollectBelow(children, path, ignored),
                GitFile(children, path), GitBelow(children, path, ignored));
    JoinFollows(ObserveNames(children, path, ignored, true),
                Then(ObserveFiles(children, path, ignored, true), ObserveBelow(children, path, ignored, true)),
                CollectNames(children, path, ignored),
                Then(CollectFiles(children, path, ignored), CollectBelow(children, path, ignored)),
                false, GitFile(children, path) || GitBelow(children, path, ignored));
  }

  // ---- The walks as they run ---------------------------------------------

  lemma {:induction false} ThenIsAssociative(a: Found, b: Found, c: Found)
    ensures Then(Then(a, b), c) == Then(a, Then(b, c))
    ensures Then(Ok([]), a) == a == Then(a, Ok([]))
  {
    if a.Ok? {
      assert a.value + [] == a.value == [] + a.value;
      if b.Ok? && c.Ok? {
        assert a.value + b.value + c.value == a.value + (b.value + c.value);
      }
    }
  }

  /** `_walk_payload`, one directory at a time: first the directory names, then the
      files, then the directories that were not pruned. */
  method WalkPayload(children: seq<Child>, path: Path, ignored: set<Path>, allowGit: bool) returns (r: Found)
    ensures r == Observe(children, path, ignored, allowGit)
    decreases children, 1
  {
    for i := 0 to |children|
      invariant ObserveNames(children, path, ignored, allowGit) == ObserveNames(children[i..], path, ignored, allowGit)
    {
      ThenIsAssociative(ObserveNames(children[i + 1..], path, ignored, allowGit), Ok([]), Ok([]));
      assert children[i..][1..] == children[i + 1..];
      if ListedAsDirectory(children[i].node) {
        var pruned := CheckIgnored(path + [children[i].name], ignored);
        if !pruned {
          if children[i].name == GIT {
            if !allowGit {
              return Err(GitMetadata(path + [GIT]));
            }
          } else if children[i].node.Symlink? {
            return Err(DirectorySymlink(path + [children[i].name]));
          }
        }
      }
    }
    var files := WalkFiles(children, path, ignored, allowGit);
    if files.Err? {
      return files;
    }
    var below := WalkBelow(children, path, ignored, allowGit);
    ThenIsAssociative(Then(files, below), Ok([]), Ok([]));
    r := Then(files, below);
  }

  method WalkFiles(children: seq<Child>, path: Path, ignored: set<Path>, allowGit: bool) returns (r: Found)
    ensures r == ObserveFiles(children, path, ignored, allowGit)
  {
    var observed: seq<Leaf> := [];
    ThenIsAssociative(ObserveFiles(children, path, ignored, allowGit), Ok([]), Ok([]));
    for i := 0 to |children|
      invariant Then(Ok(observed), ObserveFiles(children[i..], path, ignored, allowGit))
             == ObserveFiles(children, path, ignored, allowGit)
    {
      assert children[i..][1..] == children[i + 1..];
      var child, here := children[i], path + [children[i].name];
      ThenIsAssociative(Ok(observed), ObserveFile(child, path, ignored, allowGit),
                        ObserveFiles(children[i + 1..], path, ignored, allowGit));
      ThenIsAssociative(Ok(observed), Ok([]), Ok([]));
      if !ListedAsDirectory(child.node) && here != [MANIFEST] {
        if child.name == GIT {
          if !allowGit || path != [] {
            return Err(GitMetadata(here));
          }
        } else {
          var skipped := CheckIgnored(here, ignored);
          if !skipped {
            if !Recordable(child.node) {
              return Err(NonRegular(here));
            }
            observed := observed + [Leaf(here, child.node)];
          }
        }
      }
    }
    ThenIsAssociative(Ok(observed), Ok([]), Ok([]));
    r := Ok(observed);
  }

  method WalkBelow(children: seq<Child>, path: Path, ignored: set<Path>, allowGit: bool) returns (r: Found)
    ensures r == ObserveBelow(children, path, ignored, allowGit)
    decreases children, 0
  {
    var observed: seq<Leaf> := [];
    ThenIsAssociative(ObserveBelow(children, path, ignored, allowGit), Ok([]), Ok([]));
    for i := 0 to |children|
      invariant Then(Ok(observed), ObserveBelow(children[i..], path, ignored, allowGit))
             == ObserveBelow(children, path, ignored, allowGit)
    {
      assert children[i..][1..] == children[i + 1..];
      var found: Found := Ok([]);
      if Enters(children[i], path, ignored) {
        found := WalkPayload(children[i].node.children, path + [children[i].name], ignored, allowGit);
      }
      ThenIsAssociative(Ok(observed), found, ObserveBelow(children[i + 1..], path, ignored, allowGit));
      if found.Err? {
        return found;
      }
      observed := observed + found.value;
    }
    ThenIsAssociative(Ok(observed), Ok([]), Ok([]));
    r := Ok(observed);
  }
}

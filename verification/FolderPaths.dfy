/** Where each file of a share lands: the top-down plan and the bottom-up walk (core/folder_downloader.py). */
module FolderPaths {
  import opened Basics
  import opened FolderTree

  /** Components below the output directory. */
  type Path = seq<string>

  // ---- Top down

  function RootPath(m: Tree, root: Handle, sanitize: string -> string): Path {
    if root in m && !m[root].isFile then [sanitize(m[root].name)] else []
  }

  /** The directory map after the given nodes, in order. */
  function Directories(order: seq<FolderNode>, root: Handle, rootPath: Path, sanitize: string -> string): map<Handle, Path> {
    if order == [] then map[root := rootPath]
    else
      var dirs := Directories(order[..|order| - 1], root, rootPath, sanitize);
      var n := order[|order| - 1];
      if n.isFile || n.handle == root then dirs
      else dirs[n.handle := (if n.parent in dirs then dirs[n.parent] else rootPath) + [sanitize(n.name)]]
  }

  method FillDirectories(order: seq<FolderNode>, root: Handle, rootPath: Path, sanitize: string -> string) returns (dirs: map<Handle, Path>)
    ensures dirs == Directories(order, root, rootPath, sanitize)
  {
    dirs := map[root := rootPath];
    for k := 0 to |order|
      invariant dirs == Directories(order[..k], root, rootPath, sanitize)
    {
      var n := order[k];
      assert order[..k + 1][..k] == order[..k];
      if n.isFile || n.handle == root { continue; }
      var parentPath := if n.parent in dirs then dirs[n.parent] else rootPath;
      dirs := dirs[n.handle := parentPath + [sanitize(n.name)]];
    }
    assert order[..|order|] == order;
  }

  /** `_build_directory_paths`. */
  method BuildDirectoryPaths(nodes: seq<FolderNode>, root: Handle, sanitize: string -> string)
    returns (r: Result<map<Handle, Path>, TreeError>)
    ensures r == DirectoryPlan(nodes, root, sanitize)
  {
    var m := ByHandle(nodes);
    var rootPath := if root in m && !m[root].isFile then [sanitize(m[root].name)] else [];
    var order := SortByDepth(nodes, root);
    if order.Err? { return Err(order.error); }
    var dirs := FillDirectories(order.value, root, rootPath, sanitize);
    r := Ok(dirs);
  }

  function DirectoryPlan(nodes: seq<FolderNode>, root: Handle, sanitize: string -> string): Result<map<Handle, Path>, TreeError> {
    var m := ByHandle(nodes);
    match Depths(nodes, m, root)
    case Err(error) => Err(error)
    case Ok(d) => Ok(Directories(SortByKey(nodes, d), root, RootPath(m, root, sanitize), sanitize))
  }

  function PlannedPath(dirs: map<Handle, Path>, n: FolderNode, sanitize: string -> string): Path {
    (if n.parent in dirs then dirs[n.parent] else []) + [sanitize(n.name)]
  }

  /** `plan_file_jobs`: one destination for every file, in listing order, none for a folder. */
  method PlanFileJobs(nodes: seq<FolderNode>, root: Handle, sanitize: string -> string)
    returns (r: Result<seq<(FolderNode, Path)>, TreeError>)
    ensures r.Ok? <==> DirectoryPlan(nodes, root, sanitize).Ok?
    ensures r.Ok? ==> r.value == Jobs(nodes, DirectoryPlan(nodes, root, sanitize).value, sanitize)
  {
    var dirs := BuildDirectoryPaths(nodes, root, sanitize);
    if dirs.Err? { return Err(dirs.error); }
    var jobs := [];
    for k := 0 to |nodes|
      invariant jobs == Jobs(nodes[..k], dirs.value, sanitize)
    {
      assert nodes[..k + 1][..k] == nodes[..k];
      if !nodes[k].isFile { continue; }
      jobs := jobs + [(nodes[k], PlannedPath(dirs.value, nodes[k], sanitize))];
    }
    assert nodes[..|nodes|] == nodes;
    r := Ok(jobs);
  }

  function Jobs(nodes: seq<FolderNode>, dirs: map<Handle, Path>, sanitize: string -> string): seq<(FolderNode, Path)> {
    if nodes == [] then []
    else
      var n := nodes[|nodes| - 1];
      Jobs(nodes[..|nodes| - 1], dirs, sanitize) + if n.isFile then [(n, PlannedPath(dirs, n, sanitize))] else []
  }

  // ---- Bottom up

  /** The names along a chain, topmost first. */
  function Names(chain: seq<FolderNode>, sanitize: string -> string): Path {
    if chain == [] then [] else Names(chain[1..], sanitize) + [sanitize(chain[0].name)]
  }

  function LocalPath(m: Tree, root: Handle, n: FolderNode, sanitize: string -> string): Result<Path, TreeError> {
    match Climb(m, ParentOf(m, n), {}, {root})
    case Cyclic => Err(CyclicParentChain)
    case Ended(chain) => Ok(Names(chain, sanitize) + [sanitize(n.name)])
    case Stopped(chain, anchor) => Ok([sanitize(anchor.name)] + Names(chain, sanitize) + [sanitize(n.name)])
  }

  method ReversedParts(chain: seq<FolderNode>, leaf: string, sanitize: string -> string) returns (path: Path)
    ensures path == Names(chain, sanitize) + [leaf]
  {
    path := [leaf];
    for k := 0 to |chain|
      invariant Names(chain, sanitize) + [leaf] == Names(chain[k..], sanitize) + path
    {
      assert chain[k..][1..] == chain[k + 1..];
      path := [sanitize(chain[k].name)] + path;
    }
  }

  /** `_local_path_for_node`: collect the parts going up, then reverse them. */
  method LocalPathForNode(nodes: seq<FolderNode>, root: Handle, n: FolderNode, sanitize: string -> string)
    returns (r: Result<Path, TreeError>)
    ensures r == LocalPath(ByHandle(nodes), root, n, sanitize)
  {
    var m := ByHandle(nodes);
    var w := WalkUp(m, ParentOf(m, n), {root});
    if w.Cyclic? { return Err(CyclicParentChain); }
    var path := ReversedParts(w.chain, sanitize(n.name), sanitize);
    r := Ok(if w.Stopped? then [sanitize(w.anchor.name)] + path else path);
    if w.Stopped? {
      assert [sanitize(w.anchor.name)] + path == [sanitize(w.anchor.name)] + Names(w.chain, sanitize) + [sanitize(n.name)];
    }
  }

  // ---- The path both should give

  ghost function DirPath(m: Tree, d: map<Handle, nat>, root: Handle, rootPath: Path, sanitize: string -> string, h: Handle): Path
    requires Ranked(m, d, root) && h in d
    decreases d[h]
  {
    if h == root then rootPath
    else
      assert RankedAt(m, d, h);
      (if m[h].parent in m then DirPath(m, d, root, rootPath, sanitize, m[h].parent) else rootPath) + [sanitize(m[h].name)]
  }

  /** Every listed parent is a folder. */
  ghost predicate FolderParents(m: Tree) {
    forall h :: h in m && m[h].parent in m ==> !m[m[h].parent].isFile
  }

  /** The depth order of the listing, and what the proofs below use of it. */
  ghost predicate Ordered(order: seq<FolderNode>, m: Tree, d: map<Handle, nat>, root: Handle) {
    && Ranked(m, d, root) && FolderParents(m) && UniqueHandles(order)
    && (forall n :: n in order <==> n.handle in m && m[n.handle] == n)
    && (forall n :: n in order ==> n.handle in d)
    && FollowsParents(order, root)
  }

  ghost predicate DirsRight(dirs: map<Handle, Path>, done: seq<FolderNode>, m: Tree, d: map<Handle, nat>, root: Handle, rootPath: Path, sanitize: string -> string)
    requires Ranked(m, d, root)
  {
    && (forall h :: h in dirs <==> h == root || exists n :: n in done && n.handle == h && !n.isFile)
    && (forall h :: h in dirs ==> h in d && dirs[h] == DirPath(m, d, root, rootPath, sanitize, h))
  }

  lemma {:induction false} DirectoriesRight(order: seq<FolderNode>, k: nat, m: Tree, d: map<Handle, nat>, root: Handle, rootPath: Path, sanitize: string -> string)
    requires Ordered(order, m, d, root) && k <= |order|
    ensures DirsRight(Directories(order[..k], root, rootPath, sanitize), order[..k], m, d, root, rootPath, sanitize)
  {
    if k > 0 {
      DirectoriesRight(order, k - 1, m, d, root, rootPath, sanitize);
      assert order[..k][..k - 1] == order[..k - 1];
      assert order[..k] == order[..k - 1] + [order[k - 1]];
      var dirs, n := Directories(order[..k - 1], root, rootPath, sanitize), order[k - 1];
      assert n in order;
      if n.handle != root && !n.isFile {
        ParentIsDone(order, k - 1, m, d, root);
        OneMoreDir(dirs, order[..k - 1], n, m, d, root, rootPath, sanitize);
      }
    }
  }

  lemma ParentIsDone(order: seq<FolderNode>, k: nat, m: Tree, d: map<Handle, nat>, root: Handle)
    requires Ordered(order, m, d, root) && k < |order| && order[k].handle != root
    ensures order[k].parent in m ==> exists n :: n in order[..k] && n.handle == order[k].parent && !n.isFile
  {
    var n := order[k];
    assert n in order;
    if n.parent in m {
      var p := m[n.parent];
      assert p in order;
      var i :| 0 <= i < |order| && order[i] == p;
      assert order[..k][i] == p;
    }
  }

  lemma OneMoreDir(dirs: map<Handle, Path>, done: seq<FolderNode>, n: FolderNode, m: Tree, d: map<Handle, nat>, root: Handle, rootPath: Path, sanitize: string -> string)
    requires Ranked(m, d, root) && DirsRight(dirs, done, m, d, root, rootPath, sanitize)
    requires n.handle in d && n.handle in m && m[n.handle] == n && n.handle != root && !n.isFile
    requires n.parent in m ==> n.parent in dirs
    requires n.parent !in m ==> n.parent in dirs ==> n.parent == root
    ensures DirsRight(dirs[n.handle := (if n.parent in dirs then dirs[n.parent] else rootPath) + [sanitize(n.name)]],
                      done + [n], m, d, root, rootPath, sanitize)
  {
  }

  // ---- Bottom up gives the same names

  /** Climbing from a ranked handle: never refused, and the names passed are the directory path below the root. */
  lemma {:induction false} ClimbNames(m: Tree, d: map<Handle, nat>, root: Handle, rootPath: Path, sanitize: string -> string, n: FolderNode, seen: set<Handle>)
    requires Ranked(m, d, root) && n.handle in d && n.handle in m && m[n.handle] == n
    requires forall s :: s in seen ==> s in d && d[s] > d[n.handle]
    ensures var w := Climb(m, Some(n), seen, {root});
      && !w.Cyclic? && DirPath(m, d, root, rootPath, sanitize, n.handle) == rootPath + Names(w.chain, sanitize)
    decreases d[n.handle]
  {
    if n.handle == root {
      assert rootPath + [] == rootPath;
    } else {
      assert RankedAt(m, d, n.handle);
      var w := Climb(m, Some(n), seen, {root});
      var up := Climb(m, ParentOf(m, n), seen + {n.handle}, {root});
      if n.parent in m {
        ClimbNames(m, d, root, rootPath, sanitize, m[n.parent], seen + {n.handle});
      }
      assert w == Before([n], up);
      assert ([n] + up.chain)[1..] == up.chain;
    }
  }

  /** Some ancestor of the node is the root. */
  ghost predicate ReachesRoot(m: Tree, n: FolderNode, root: Handle) {
    exists k: nat :: Up(m, ParentOf(m, n), k).Some? && Up(m, ParentOf(m, n), k).value.handle == root
  }

  lemma {:induction false} ClimbMisses(m: Tree, cur: Option<FolderNode>, seen: set<Handle>, stop: set<Handle>, k: nat)
    requires cur.Some? ==> cur.value.handle in m
    requires Climb(m, cur, seen, stop).Ended? && Up(m, cur, k).Some?
    ensures Up(m, cur, k).value.handle !in stop
    decreases k
  {
    if k > 0 {
      ClimbMisses(m, ParentOf(m, cur.value), seen + {cur.value.handle}, stop, k - 1);
    }
  }

  lemma StoppedIsReached(m: Tree, n: FolderNode, root: Handle)
    requires !Climb(m, ParentOf(m, n), {}, {root}).Cyclic?
    ensures Climb(m, ParentOf(m, n), {}, {root}).Stopped? <==> ReachesRoot(m, n, root)
  {
    var w := Climb(m, ParentOf(m, n), {}, {root});
    ClimbArrives(m, ParentOf(m, n), {}, {root});
    if w.Ended? {
      forall k: nat | Up(m, ParentOf(m, n), k).Some? ensures Up(m, ParentOf(m, n), k).value.handle != root {
        ClimbMisses(m, ParentOf(m, n), {}, {root}, k);
      }
    }
  }

  lemma ListingIsOrdered(nodes: seq<FolderNode>, root: Handle)
    requires UniqueHandles(nodes) && FolderParents(ByHandle(nodes)) && Depths(nodes, ByHandle(nodes), root).Ok?
    ensures var d := Depths(nodes, ByHandle(nodes), root).value;
      Ordered(SortByKey(nodes, d), ByHandle(nodes), d, root)
  {
    var m := ByHandle(nodes);
    var d := Depths(nodes, m, root).value;
    var order := SortByKey(nodes, d);
    forall n | n in nodes ensures m[n.handle] == n { ByUniqueHandle(nodes, n); }
    DepthsRanked(nodes, m, root);
    SortIsOrdered(nodes, d);
    SortIsUnique(nodes, d);
    ParentsComeFirst(nodes, root);
  }

  /** The directory a file's listed parent was given, in terms of the bottom-up walk from it. */
  lemma ParentDirectory(nodes: seq<FolderNode>, root: Handle, sanitize: string -> string, f: FolderNode)
    requires UniqueHandles(nodes) && FolderParents(ByHandle(nodes)) && f in nodes
    ensures var plan := DirectoryPlan(nodes, root, sanitize);
      plan.Ok? ==> ParentDirectoryRight(ByHandle(nodes), root, sanitize, f, plan.value)
  {
    var m := ByHandle(nodes);
    ByUniqueHandle(nodes, f);
    if Depths(nodes, m, root).Ok? {
      var d := Depths(nodes, m, root).value;
      var order := SortByKey(nodes, d);
      ListingIsOrdered(nodes, root);
      AllDirectoriesRight(order, m, d, root, sanitize, f);
    }
  }

  lemma AllDirectoriesRight(order: seq<FolderNode>, m: Tree, d: map<Handle, nat>, root: Handle, sanitize: string -> string, f: FolderNode)
    requires Ordered(order, m, d, root) && f.handle in m && m[f.handle] == f
    ensures ParentDirectoryRight(m, root, sanitize, f, Directories(order, root, RootPath(m, root, sanitize), sanitize))
  {
    DirectoriesRight(order, |order|, m, d, root, RootPath(m, root, sanitize), sanitize);
    assert order[..|order|] == order;
    FoundDirectory(m, d, order, root, sanitize, f, Directories(order, root, RootPath(m, root, sanitize), sanitize));
  }

  ghost predicate ParentDirectoryRight(m: Tree, root: Handle, sanitize: string -> string, f: FolderNode, dirs: map<Handle, Path>) {
    var w := Climb(m, ParentOf(m, f), {}, {root});
    if f.parent in m then
      !w.Cyclic? && f.parent in dirs && dirs[f.parent] == RootPath(m, root, sanitize) + Names(w.chain, sanitize)
    else
      w == Ended([]) && (f.parent in dirs ==> dirs[f.parent] == [])
  }

  lemma FoundDirectory(m: Tree, d: map<Handle, nat>, order: seq<FolderNode>, root: Handle, sanitize: string -> string, f: FolderNode, dirs: map<Handle, Path>)
    requires Ordered(order, m, d, root) && f.handle in m && m[f.handle] == f
    requires DirsRight(dirs, order, m, d, root, RootPath(m, root, sanitize), sanitize)
    ensures ParentDirectoryRight(m, root, sanitize, f, dirs)
  {
    if f.parent in m {
      var p := m[f.parent];
      assert p in order && !p.isFile;
      ClimbNames(m, d, root, RootPath(m, root, sanitize), sanitize, p, {});
    }
  }

  lemma AnchorIsRoot(m: Tree, f: FolderNode, root: Handle)
    requires f.handle in m && m[f.handle] == f && FolderParents(m) && Climb(m, ParentOf(m, f), {}, {root}).Stopped?
    ensures root in m && Climb(m, ParentOf(m, f), {}, {root}).anchor == m[root] && !m[root].isFile
  {
    ClimbIsLinked(m, ParentOf(m, f), {}, {root});
  }

  /**
   * The planned path and the walked path of a file are the same exactly when the file's chain reaches
   * the root, or the root is not a listed folder, or the file's own parent is not listed. (The third
   * case is a file the plan puts at the top; a file in a stray folder is planned below the root's name
   * but walked without it.)
   */
  lemma PathsAgreeExactly(nodes: seq<FolderNode>, root: Handle, sanitize: string -> string, f: FolderNode)
    requires UniqueHandles(nodes) && FolderParents(ByHandle(nodes)) && DirectoryPlan(nodes, root, sanitize).Ok?
    requires f in nodes && f.isFile
    ensures var m := ByHandle(nodes);
      LocalPath(m, root, f, sanitize) == Ok(PlannedPath(DirectoryPlan(nodes, root, sanitize).value, f, sanitize))
      <==> ReachesRoot(m, f, root) || root !in m || m[root].isFile || f.parent !in m
  {
    var m := ByHandle(nodes);
    var w := Climb(m, ParentOf(m, f), {}, {root});
    ByUniqueHandle(nodes, f);
    ParentDirectory(nodes, root, sanitize, f);
    StoppedIsReached(m, f, root);
    if w.Stopped? {
      AnchorIsRoot(m, f, root);
    }
    SameNames(RootPath(m, root, sanitize), Names(w.chain, sanitize), sanitize(f.name));
  }

  /** Prefixing one name never gives the same path back. */
  lemma SameNames(prefix: Path, names: Path, leaf: string)
    ensures prefix + names + [leaf] == names + [leaf] <==> prefix == []
  {
    if prefix == [] {
      assert prefix + names == names;
    } else {
      assert |prefix + names + [leaf]| > |names + [leaf]|;
    }
  }

  // ---- With the root the source picks

  /** The first node whose parent is not listed, or the length. */
  function FirstOutside(nodes: seq<FolderNode>, m: Tree): (i: nat)
    ensures i <= |nodes|
    ensures i < |nodes| ==> nodes[i].parent !in m
    ensures forall j :: 0 <= j < i ==> nodes[j].parent in m
  {
    if nodes == [] || nodes[0].parent !in m then 0 else 1 + FirstOutside(nodes[1..], m)
  }

  function FolderRoot(nodes: seq<FolderNode>): Handle {
    var i := FirstOutside(nodes, ByHandle(nodes));
    if i < |nodes| then (if nodes[i].parent != "" then nodes[i].parent else nodes[i].handle)
    else if nodes != [] then nodes[0].handle else ""
  }

  /** The search loop of `_find_folder_root`. */
  method FindOutside(nodes: seq<FolderNode>, m: Tree) returns (k: nat)
    ensures k == FirstOutside(nodes, m)
  {
    k := 0;
    while k < |nodes| && nodes[k].parent in m
      invariant k <= |nodes| && forall j :: 0 <= j < k ==> nodes[j].parent in m
    {
      k := k + 1;
    }
  }

  /** `_find_folder_root`. */
  method FindFolderRoot(nodes: seq<FolderNode>) returns (root: Handle)
    ensures root == FolderRoot(nodes)
  {
    var k := FindOutside(nodes, ByHandle(nodes));
    if k < |nodes| {
      return if nodes[k].parent != "" then nodes[k].parent else nodes[k].handle;
    }
    root := if nodes != [] then nodes[0].handle else "";
  }

  /** Whenever the first node with an outside parent names that parent, both paths of every file agree. */
  lemma FoundRootPathsAgree(nodes: seq<FolderNode>, sanitize: string -> string, f: FolderNode)
    requires UniqueHandles(nodes) && FolderParents(ByHandle(nodes)) && f in nodes && f.isFile
    requires var i := FirstOutside(nodes, ByHandle(nodes)); i < |nodes| && nodes[i].parent != ""
    ensures var plan := DirectoryPlan(nodes, FolderRoot(nodes), sanitize);
      plan.Ok? ==> LocalPath(ByHandle(nodes), FolderRoot(nodes), f, sanitize) == Ok(PlannedPath(plan.value, f, sanitize))
  {
    if DirectoryPlan(nodes, FolderRoot(nodes), sanitize).Ok? {
      PathsAgreeExactly(nodes, FolderRoot(nodes), sanitize, f);
    }
  }

  /** A root folder without a parent, a folder below something unlisted, and a file in that folder. */
  const TOP: FolderNode := FolderNode("r", "", false, "R")
  const STRAY: FolderNode := FolderNode("s", "x", false, "S")
  const INSIDE: FolderNode := FolderNode("f", "s", true, "F")
  const STRAY_LISTING: seq<FolderNode> := [TOP, STRAY, INSIDE]
  const STRAY_INDEX: Tree := map["r" := TOP, "s" := STRAY, "f" := INSIDE]

  lemma StrayIndex()
    ensures UniqueHandles(STRAY_LISTING) && ByHandle(STRAY_LISTING) == STRAY_INDEX && FolderRoot(STRAY_LISTING) == "r"
  {
    assert STRAY_LISTING[..2] == [TOP, STRAY] && STRAY_LISTING[..2][..1] == [TOP] && STRAY_LISTING[..2][..1][..0] == [];
    assert ByHandle(STRAY_LISTING[..2]) == map["r" := TOP, "s" := STRAY];
  }

  lemma StrayIsPlanned(sanitize: string -> string)
    ensures DirectoryPlan(STRAY_LISTING, "r", sanitize).Ok?
  {
    StrayIndex();
    forall n | n in STRAY_LISTING ensures !Endless(STRAY_INDEX, Some(n), {"r"}) {
      assert Up(STRAY_INDEX, Some(n), 2) == None;
    }
    AgreeingSortRefusesExactly(STRAY_LISTING, "r");
  }

  lemma StrayMissesRoot()
    ensures FolderParents(STRAY_INDEX) && !ReachesRoot(STRAY_INDEX, INSIDE, "r")
  {
    forall k: nat | Up(STRAY_INDEX, Some(STRAY), k).Some? ensures Up(STRAY_INDEX, Some(STRAY), k).value.handle != "r" {
      assert Up(STRAY_INDEX, Some(STRAY), 1) == None;
    }
  }

  /** A file below a listed folder that misses a listed root folder. */
  ghost predicate Strays(m: Tree, f: FolderNode, root: Handle) {
    f.isFile && f.parent in m && root in m && !m[root].isFile && !ReachesRoot(m, f, root)
  }

  lemma StrayPathsDiffer(nodes: seq<FolderNode>, root: Handle, sanitize: string -> string, f: FolderNode)
    requires UniqueHandles(nodes) && FolderParents(ByHandle(nodes)) && f in nodes && Strays(ByHandle(nodes), f, root)
    ensures var plan := DirectoryPlan(nodes, root, sanitize);
      plan.Ok? ==> LocalPath(ByHandle(nodes), root, f, sanitize) != Ok(PlannedPath(plan.value, f, sanitize))
  {
    if DirectoryPlan(nodes, root, sanitize).Ok? { PathsAgreeExactly(nodes, root, sanitize, f); }
  }

  lemma StrayListingStrays()
    ensures FolderParents(ByHandle(STRAY_LISTING)) && INSIDE in STRAY_LISTING && Strays(ByHandle(STRAY_LISTING), INSIDE, "r")
  {
    StrayIndex();
    StrayMissesRoot();
    assert STRAY_LISTING[2] == INSIDE;
  }

  /** In that listing, with the root the source finds, the plan succeeds and the file gets two different paths, whatever names become on disk. */
  lemma StrayFolderPathsDiffer(sanitize: string -> string)
    ensures FolderRoot(STRAY_LISTING) == "r" && DirectoryPlan(STRAY_LISTING, "r", sanitize).Ok?
    ensures LocalPath(ByHandle(STRAY_LISTING), "r", INSIDE, sanitize)
      != Ok(PlannedPath(DirectoryPlan(STRAY_LISTING, "r", sanitize).value, INSIDE, sanitize))
  {
    StrayIndex();
    StrayIsPlanned(sanitize);
    StrayListingStrays();
    StrayPathsDiffer(STRAY_LISTING, "r", sanitize, INSIDE);
  }
}

/** The order in which a public share is imported, and where each node lands (core/shares.py). */
module ShareImport {
  import opened Basics

  datatype Handle = Handle(text: string)

  /** A missing "p", or a reply that names no node. */
  const NO_HANDLE: Handle := Handle("")

  /** One raw node of the listing. */
  datatype SharedNode = SharedNode(handle: Handle, parent: Handle, nodeType: int, key: string)

  function HandleSet(nodes: seq<SharedNode>): set<Handle> { set n | n in nodes :: n.handle }

  ghost predicate UniqueHandles(nodes: seq<SharedNode>) {
    forall i, j :: 0 <= i < j < |nodes| ==> nodes[i].handle != nodes[j].handle
  }

  lemma AppendHandle(nodes: seq<SharedNode>, n: SharedNode)
    ensures HandleSet(nodes + [n]) == HandleSet(nodes) + {n.handle}
    ensures UniqueHandles(nodes) && n.handle !in HandleSet(nodes) ==> UniqueHandles(nodes + [n])
  {
    var s := nodes + [n];
    forall h | h in HandleSet(nodes) + {n.handle} ensures h in HandleSet(s) {
      if h == n.handle { assert n in s && s[|nodes|] == n; } else {
        var x :| x in nodes && x.handle == h;
        assert x in s;
      }
    }
    if n.handle !in HandleSet(nodes) {
      forall i | 0 <= i < |nodes| ensures nodes[i].handle != n.handle { assert nodes[i] in nodes; }
    }
  }

  // ---- The share's root

  /** The first node with a parent that is named but not listed. */
  function FirstOutside(nodes: seq<SharedNode>, listed: set<Handle>): (r: Option<SharedNode>)
    ensures r.Some? ==> r.value in nodes && r.value.parent != NO_HANDLE && r.value.parent !in listed
    ensures r.None? ==> forall n :: n in nodes ==> n.parent == NO_HANDLE || n.parent in listed
  {
    if nodes == [] then None
    else if nodes[0].parent != NO_HANDLE && nodes[0].parent !in listed then Some(nodes[0])
    else FirstOutside(nodes[1..], listed)
  }

  /** What the import takes for "the parent of the share root" of a plain folder link. */
  function RootParent(nodes: seq<SharedNode>): Handle
    requires nodes != []
  {
    match FirstOutside(nodes, HandleSet(nodes))
    case Some(n) => n.parent
    case None => nodes[0].parent
  }

  // ---- Children, in listing order

  function ChildrenOf(nodes: seq<SharedNode>, p: Handle): (r: seq<SharedNode>)
    ensures forall n :: n in r <==> n in nodes && n.parent == p
  {
    if nodes == [] then []
    else
      var n := nodes[|nodes| - 1];
      ChildrenOf(nodes[..|nodes| - 1], p) + if n.parent == p then [n] else []
  }

  function Lookup(m: map<Handle, seq<SharedNode>>, p: Handle): seq<SharedNode> { if p in m then m[p] else [] }

  /** `children_by_parent`. */
  method GroupByParent(nodes: seq<SharedNode>) returns (m: map<Handle, seq<SharedNode>>)
    ensures forall p :: Lookup(m, p) == ChildrenOf(nodes, p)
  {
    m := map[];
    for k := 0 to |nodes|
      invariant forall p :: Lookup(m, p) == ChildrenOf(nodes[..k], p)
    {
      var n := nodes[k];
      assert nodes[..k + 1][..k] == nodes[..k];
      m := m[n.parent := Lookup(m, n.parent) + [n]];
    }
    assert nodes[..|nodes|] == nodes;
  }

  // ---- Breadth-first layers

  /** One layer: the nodes not seen before join the order, and their children form the next layer. */
  function VisitLayer(nodes: seq<SharedNode>, layer: seq<SharedNode>, ordered: seq<SharedNode>): (seq<SharedNode>, seq<SharedNode>)
    decreases |layer|
  {
    if layer == [] then (ordered, [])
    else
      var n := layer[0];
      if n.handle in HandleSet(ordered) then VisitLayer(nodes, layer[1..], ordered)
      else
        var r := VisitLayer(nodes, layer[1..], ordered + [n]);
        (r.0, ChildrenOf(nodes, n.handle) + r.1)
  }

  lemma {:induction false} VisitFacts(nodes: seq<SharedNode>, layer: seq<SharedNode>, ordered: seq<SharedNode>)
    ensures var r := VisitLayer(nodes, layer, ordered);
      && ordered <= r.0 && HandleSet(ordered) <= HandleSet(r.0)
      && (HandleSet(ordered) == HandleSet(r.0) ==> r.1 == [])
      && (forall n :: n in r.0 ==> n in ordered || n in layer)
      && (forall n :: n in r.1 ==> n in nodes && n.parent in HandleSet(r.0))
      && (UniqueHandles(ordered) ==> UniqueHandles(r.0))
    decreases |layer|
  {
    if layer != [] {
      var n := layer[0];
      assert forall x :: x in layer[1..] ==> x in layer;
      if n.handle in HandleSet(ordered) {
        VisitFacts(nodes, layer[1..], ordered);
      } else {
        AppendHandle(ordered, n);
        VisitFacts(nodes, layer[1..], ordered + [n]);
      }
    }
  }

  /** The layers from here on. */
  function Layers(nodes: seq<SharedNode>, layer: seq<SharedNode>, ordered: seq<SharedNode>): (r: seq<SharedNode>)
    requires (forall n :: n in layer ==> n in nodes) && (forall n :: n in ordered ==> n in nodes)
    ensures ordered <= r && forall n :: n in r ==> n in nodes
    ensures UniqueHandles(ordered) ==> UniqueHandles(r)
    decreases HandleSet(nodes) - HandleSet(ordered), |layer|
  {
    if layer == [] then ordered
    else
      var (next, children) := VisitLayer(nodes, layer, ordered);
      VisitFacts(nodes, layer, ordered);
      Shrinks(nodes, ordered, next);
      Layers(nodes, children, next)
  }

  lemma Shrinks(nodes: seq<SharedNode>, before: seq<SharedNode>, after: seq<SharedNode>)
    requires HandleSet(before) <= HandleSet(after) && forall n :: n in after ==> n in nodes
    ensures HandleSet(before) == HandleSet(after) || HandleSet(nodes) - HandleSet(after) < HandleSet(nodes) - HandleSet(before)
  {
    if HandleSet(before) != HandleSet(after) {
      var h :| h in HandleSet(after) && h !in HandleSet(before);
      assert h in HandleSet(nodes) - HandleSet(before) && h !in HandleSet(nodes) - HandleSet(after);
    }
  }

  /** The nodes reached from the share root, in import order. */
  function Reached(nodes: seq<SharedNode>, rootParent: Handle): (r: seq<SharedNode>)
    ensures UniqueHandles(r) && forall n :: n in r ==> n in nodes
  {
    Layers(nodes, ChildrenOf(nodes, rootParent), [])
  }

  /** One more listed node behind what is there, unless its handle is. */
  lemma OneMoreOrphan(front: seq<SharedNode>, ordered: seq<SharedNode>, nodes: seq<SharedNode>, n: SharedNode)
    requires ordered <= front && HandleSet(front) == HandleSet(ordered) + HandleSet(nodes)
    ensures var r := if n.handle in HandleSet(front) then front else front + [n];
      && ordered <= r && HandleSet(r) == HandleSet(ordered) + HandleSet(nodes + [n]) && (UniqueHandles(front) ==> UniqueHandles(r))
  {
    AppendHandle(nodes, n);
    AppendHandle(front, n);
  }

  /** Whatever was not reached goes to the end, in listing order. */
  function AddOrphans(nodes: seq<SharedNode>, ordered: seq<SharedNode>): (r: seq<SharedNode>)
    ensures ordered <= r && HandleSet(r) == HandleSet(ordered) + HandleSet(nodes)
    ensures forall n :: n in r ==> n in ordered || n in nodes
    ensures UniqueHandles(ordered) ==> UniqueHandles(r)
  {
    if nodes == [] then ordered
    else
      var k := |nodes| - 1;
      var front := AddOrphans(nodes[..k], ordered);
      assert nodes == nodes[..k] + [nodes[k]];
      OneMoreOrphan(front, ordered, nodes[..k], nodes[k]);
      if nodes[k].handle in HandleSet(front) then front else front + [nodes[k]]
  }

  function ImportOrder(nodes: seq<SharedNode>, rootParent: Handle): seq<SharedNode> {
    AddOrphans(nodes, Reached(nodes, rootParent))
  }

  /** On every listing, cyclic or with repeated handles, each handle is imported exactly once. */
  lemma EachHandleOnce(nodes: seq<SharedNode>, rootParent: Handle)
    ensures var order := ImportOrder(nodes, rootParent);
      UniqueHandles(order) && HandleSet(order) == HandleSet(nodes) && forall n :: n in order ==> n in nodes
  {
    var r := Reached(nodes, rootParent);
    forall h | h in HandleSet(r) ensures h in HandleSet(nodes) {
      var n :| n in r && n.handle == h;
      assert n in nodes;
    }
  }

  /** The whole of a layer's visit: what joined the order, and the next layer so far followed by the rest's. */
  ghost predicate Splits(all: (seq<SharedNode>, seq<SharedNode>), next: seq<SharedNode>, rest: (seq<SharedNode>, seq<SharedNode>)) {
    all.0 == rest.0 && all.1 == next + rest.1
  }

  lemma LayerStep(nodes: seq<SharedNode>, layer: seq<SharedNode>, k: nat, ordered: seq<SharedNode>,
                  all: (seq<SharedNode>, seq<SharedNode>), next: seq<SharedNode>)
    requires k < |layer| && Splits(all, next, VisitLayer(nodes, layer[k..], ordered))
    ensures var n := layer[k];
      if n.handle in HandleSet(ordered) then Splits(all, next, VisitLayer(nodes, layer[k + 1..], ordered))
      else Splits(all, next + ChildrenOf(nodes, n.handle), VisitLayer(nodes, layer[k + 1..], ordered + [n]))
  {
    assert layer[k..][1..] == layer[k + 1..];
    var rest := VisitLayer(nodes, layer[k + 1..], ordered + [layer[k]]);
    assert next + (ChildrenOf(nodes, layer[k].handle) + rest.1) == next + ChildrenOf(nodes, layer[k].handle) + rest.1;
  }

  /** The inner loop over one layer. */
  method RunLayer(nodes: seq<SharedNode>, children: map<Handle, seq<SharedNode>>, layer: seq<SharedNode>,
                  before: seq<SharedNode>, seenBefore: set<Handle>)
    returns (ordered: seq<SharedNode>, seen: set<Handle>, next: seq<SharedNode>)
    requires seenBefore == HandleSet(before) && forall p :: Lookup(children, p) == ChildrenOf(nodes, p)
    ensures (ordered, next) == VisitLayer(nodes, layer, before) && seen == HandleSet(ordered)
  {
    ordered, seen, next := before, seenBefore, [];
    ghost var all := VisitLayer(nodes, layer, before);
    assert layer[0..] == layer && [] + all.1 == all.1;
    for k := 0 to |layer|
      invariant seen == HandleSet(ordered)
      invariant Splits(all, next, VisitLayer(nodes, layer[k..], ordered))
    {
      var n := layer[k];
      LayerStep(nodes, layer, k, ordered, all, next);
      if n.handle in seen { continue; }
      AppendHandle(ordered, n);
      ordered := ordered + [n];
      seen := seen + {n.handle};
      next := next + Lookup(children, n.handle);
    }
    assert layer[|layer|..] == [] && next + [] == next;
  }

  /** The loop over layers, from the root's parent down. */
  method RunLayers(nodes: seq<SharedNode>, rootParent: Handle) returns (ordered: seq<SharedNode>, seen: set<Handle>)
    ensures ordered == Reached(nodes, rootParent) && seen == HandleSet(ordered)
  {
    var children := GroupByParent(nodes);
    ordered, seen := [], {};
    var layer := Lookup(children, rootParent);
    while layer != []
      invariant (forall n :: n in layer ==> n in nodes) && (forall n :: n in ordered ==> n in nodes)
      invariant seen == HandleSet(ordered) && Layers(nodes, layer, ordered) == Reached(nodes, rootParent)
      decreases HandleSet(nodes) - HandleSet(ordered), |layer|
    {
      ghost var before := ordered;
      VisitFacts(nodes, layer, before);
      ordered, seen, layer := RunLayer(nodes, children, layer, ordered, seen);
      Shrinks(nodes, before, ordered);
    }
  }

  /** The topological ordering of `import_public_share`: layers, then orphans. */
  method OrderNodes(nodes: seq<SharedNode>, rootParent: Handle) returns (ordered: seq<SharedNode>)
    ensures ordered == ImportOrder(nodes, rootParent)
  {
    var seen;
    ordered, seen := RunLayers(nodes, rootParent);
    ghost var reached := ordered;
    for k := 0 to |nodes|
      invariant ordered == AddOrphans(nodes[..k], reached) && seen == HandleSet(ordered)
    {
      assert nodes[..k + 1][..k] == nodes[..k];
      if nodes[k].handle !in seen {
        AppendHandle(ordered, nodes[k]);
        ordered := ordered + [nodes[k]];
        seen := seen + {nodes[k].handle};
      }
    }
    assert nodes[..|nodes|] == nodes;
  }

  // ---- Parents before children

  /** Every node's parent is the root's parent, or came earlier. */
  ghost predicate ParentsEarlier(s: seq<SharedNode>, rootParent: Handle) {
    forall i :: 0 <= i < |s| ==> s[i].parent == rootParent || s[i].parent in HandleSet(s[..i])
  }

  lemma AppendKeepsParents(s: seq<SharedNode>, n: SharedNode, rootParent: Handle)
    requires ParentsEarlier(s, rootParent) && (n.parent == rootParent || n.parent in HandleSet(s))
    ensures ParentsEarlier(s + [n], rootParent)
  {
    var t := s + [n];
    forall i | 0 <= i < |t| ensures t[i].parent == rootParent || t[i].parent in HandleSet(t[..i]) {
      assert t[..i] == s[..i];
      if i == |s| { assert s[..i] == s; }
    }
  }

  lemma {:induction false} LayerKeepsParents(nodes: seq<SharedNode>, layer: seq<SharedNode>, ordered: seq<SharedNode>, rootParent: Handle)
    requires ParentsEarlier(ordered, rootParent)
    requires forall n :: n in layer ==> n.parent == rootParent || n.parent in HandleSet(ordered)
    ensures ParentsEarlier(VisitLayer(nodes, layer, ordered).0, rootParent)
    decreases |layer|
  {
    if layer != [] {
      var n := layer[0];
      if n.handle in HandleSet(ordered) {
        LayerKeepsParents(nodes, layer[1..], ordered, rootParent);
      } else {
        AppendHandle(ordered, n);
        AppendKeepsParents(ordered, n, rootParent);
        LayerKeepsParents(nodes, layer[1..], ordered + [n], rootParent);
      }
    }
  }

  lemma {:induction false} LayersKeepParents(nodes: seq<SharedNode>, layer: seq<SharedNode>, ordered: seq<SharedNode>, rootParent: Handle)
    requires (forall n :: n in layer ==> n in nodes) && (forall n :: n in ordered ==> n in nodes)
    requires ParentsEarlier(ordered, rootParent)
    requires forall n :: n in layer ==> n.parent == rootParent || n.parent in HandleSet(ordered)
    ensures ParentsEarlier(Layers(nodes, layer, ordered), rootParent)
    decreases HandleSet(nodes) - HandleSet(ordered), |layer|
  {
    if layer != [] {
      var (next, children) := VisitLayer(nodes, layer, ordered);
      VisitFacts(nodes, layer, ordered);
      Shrinks(nodes, ordered, next);
      LayerKeepsParents(nodes, layer, ordered, rootParent);
      LayersKeepParents(nodes, children, next, rootParent);
    }
  }

  /** Every child of the root's parent, or of a node already in s, is itself in s or still waiting. */
  ghost predicate CatchesAll(nodes: seq<SharedNode>, s: seq<SharedNode>, waiting: seq<SharedNode>, rootParent: Handle) {
    forall n :: n in nodes && (n.parent == rootParent || n.parent in HandleSet(s)) ==> n.handle in HandleSet(s) || n in waiting
  }

  lemma {:induction false} LayersClose(nodes: seq<SharedNode>, layer: seq<SharedNode>, ordered: seq<SharedNode>, rootParent: Handle)
    requires (forall n :: n in layer ==> n in nodes) && (forall n :: n in ordered ==> n in nodes)
    requires CatchesAll(nodes, ordered, layer, rootParent)
    ensures CatchesAll(nodes, Layers(nodes, layer, ordered), [], rootParent)
    decreases HandleSet(nodes) - HandleSet(ordered), |layer|
  {
    if layer != [] {
      var (next, children) := VisitLayer(nodes, layer, ordered);
      VisitFacts(nodes, layer, ordered);
      Shrinks(nodes, ordered, next);
      VisitCatches(nodes, layer, ordered, [], rootParent);
      assert layer + [] == layer && [] + children == children;
      LayersClose(nodes, children, next, rootParent);
    }
  }

  lemma {:induction false} VisitCatches(nodes: seq<SharedNode>, layer: seq<SharedNode>, ordered: seq<SharedNode>, next: seq<SharedNode>, rootParent: Handle)
    requires CatchesAll(nodes, ordered, layer + next, rootParent)
    ensures var r := VisitLayer(nodes, layer, ordered); CatchesAll(nodes, r.0, next + r.1, rootParent)
    decreases |layer|
  {
    if layer == [] {
      assert layer + next == next + [];
    } else {
      var n := layer[0];
      if n.handle in HandleSet(ordered) {
        assert layer + next == [n] + layer[1..] + next;
        OneCaught(nodes, ordered, n, layer[1..], next, rootParent);
        VisitCatches(nodes, layer[1..], ordered, next, rootParent);
      } else {
        assert layer + next == [n] + layer[1..] + next;
        OneJoins(nodes, ordered, n, layer[1..], next, rootParent);
        VisitCatches(nodes, layer[1..], ordered + [n], next + ChildrenOf(nodes, n.handle), rootParent);
        var r := VisitLayer(nodes, layer[1..], ordered + [n]);
        assert next + (ChildrenOf(nodes, n.handle) + r.1) == next + ChildrenOf(nodes, n.handle) + r.1;
      }
    }
  }

  lemma OneCaught(nodes: seq<SharedNode>, ordered: seq<SharedNode>, n: SharedNode, layer: seq<SharedNode>, next: seq<SharedNode>, rootParent: Handle)
    requires CatchesAll(nodes, ordered, [n] + layer + next, rootParent) && n.handle in HandleSet(ordered)
    ensures CatchesAll(nodes, ordered, layer + next, rootParent)
  {
  }

  lemma OneJoins(nodes: seq<SharedNode>, ordered: seq<SharedNode>, n: SharedNode, layer: seq<SharedNode>, next: seq<SharedNode>, rootParent: Handle)
    requires CatchesAll(nodes, ordered, [n] + layer + next, rootParent)
    ensures CatchesAll(nodes, ordered + [n], layer + (next + ChildrenOf(nodes, n.handle)), rootParent)
  {
    AppendHandle(ordered, n);
  }

  /** Reached means reached: from the root's parent down, by listed parents that came earlier, and nothing missed. */
  lemma ReachedIsTheSubtree(nodes: seq<SharedNode>, rootParent: Handle)
    ensures ParentsEarlier(Reached(nodes, rootParent), rootParent)
    ensures CatchesAll(nodes, Reached(nodes, rootParent), [], rootParent)
  {
    LayersKeepParents(nodes, ChildrenOf(nodes, rootParent), [], rootParent);
    LayersClose(nodes, ChildrenOf(nodes, rootParent), [], rootParent);
  }

  /** Every listed parent comes before its child. */
  ghost predicate ParentsFirst(s: seq<SharedNode>, listed: set<Handle>) {
    forall i :: 0 <= i < |s| && s[i].parent in listed ==> s[i].parent in HandleSet(s[..i])
  }

  lemma FirstReached(nodes: seq<SharedNode>, rootParent: Handle)
    requires ChildrenOf(nodes, rootParent) != []
    ensures [ChildrenOf(nodes, rootParent)[0]] <= Reached(nodes, rootParent)
  {
    var layer := ChildrenOf(nodes, rootParent);
    assert [] + [layer[0]] == [layer[0]];
    VisitFacts(nodes, layer[1..], [layer[0]]);
    assert VisitLayer(nodes, layer, []).0 == VisitLayer(nodes, layer[1..], [layer[0]]).0;
    var (next, children) := VisitLayer(nodes, layer, []);
    VisitFacts(nodes, layer, []);
    assert next <= Layers(nodes, children, next);
  }

  /**
   * The reached nodes follow their listed parents exactly when the handle taken for the root's parent is
   * itself not in the listing. Otherwise the very first node imported precedes its parent.
   */
  lemma ReachedFollowParentsExactly(nodes: seq<SharedNode>, rootParent: Handle)
    requires ChildrenOf(nodes, rootParent) != []
    ensures ParentsFirst(Reached(nodes, rootParent), HandleSet(nodes)) <==> rootParent !in HandleSet(nodes)
  {
    var r := Reached(nodes, rootParent);
    ReachedIsTheSubtree(nodes, rootParent);
    FirstReached(nodes, rootParent);
    assert r[0].parent == rootParent && HandleSet(r[..0]) == {};
  }

  /** Parents have smaller ranks than their children: the listing has no cycle. */
  ghost predicate RankedBy(nodes: seq<SharedNode>, rank: Handle -> nat) {
    forall n :: n in nodes ==> rank(n.parent) < rank(n.handle)
  }

  /**
   * Being acyclic is not enough for a plain folder link: with no named outside parent, the parent of the
   * first listed node is taken for the root's parent, and that node is imported before its parent.
   */
  lemma AcyclicIsNotEnough()
    ensures exists nodes: seq<SharedNode>, rank ::
              nodes != [] && UniqueHandles(nodes) && RankedBy(nodes, rank) && !ParentsFirst(Reached(nodes, RootParent(nodes)), HandleSet(nodes))
  {
    var child, top := SharedNode(Handle("child"), Handle("top"), 0, ""), SharedNode(Handle("top"), NO_HANDLE, 1, "");
    var nodes := [child, top];
    var rank: Handle -> nat := (h: Handle) => |h.text|;
    assert nodes[0] == child && nodes[1] == top;
    assert top in nodes && Handle("top") in HandleSet(nodes);
    assert child in ChildrenOf(nodes, Handle("top"));
    ReachedFollowParentsExactly(nodes, Handle("top"));
    assert RankedBy(nodes, rank);
  }

  /**
   * For a plain folder link, parents come first exactly when some node names a parent outside the listing,
   * or the first node's own parent is not listed.
   */
  lemma PlainFolderOrder(nodes: seq<SharedNode>)
    requires nodes != []
    ensures ParentsFirst(Reached(nodes, RootParent(nodes)), HandleSet(nodes))
      <==> (exists n :: n in nodes && n.parent != NO_HANDLE && n.parent !in HandleSet(nodes)) || nodes[0].parent !in HandleSet(nodes)
  {
    var root := RootParent(nodes);
    assert ChildrenOf(nodes, root) != [] by {
      var n := if FirstOutside(nodes, HandleSet(nodes)).Some? then FirstOutside(nodes, HandleSet(nodes)).value else nodes[0];
      assert n in ChildrenOf(nodes, root);
    }
    ReachedFollowParentsExactly(nodes, root);
  }

  // ---- A subfolder link: the subtree below the folder

  /** The least set holding the root and closed under "child of". */
  ghost predicate IsSubtree(nodes: seq<SharedNode>, root: Handle, s: set<Handle>) {
    && root in s && ClosedDown(nodes, s)
    && forall t: set<Handle> :: root in t && ClosedDown(nodes, t) ==> s <= t
  }

  ghost predicate ClosedDown(nodes: seq<SharedNode>, s: set<Handle>) {
    forall n :: n in nodes && n.parent in s ==> n.handle in s
  }

  /** The stack walk over `children`, on any listing. */
  method KeepSubtree(nodes: seq<SharedNode>, root: Handle) returns (keep: set<Handle>)
    ensures IsSubtree(nodes, root, keep)
  {
    var children := GroupByParent(nodes);
    keep := {root};
    var stack := [root];
    while stack != []
      invariant root in keep && keep <= HandleSet(nodes) + {root}
      invariant forall h :: h in stack ==> h in keep
      invariant forall n :: n in nodes && n.parent in keep ==> n.handle in keep || n.parent in stack
      invariant forall t: set<Handle> :: root in t && ClosedDown(nodes, t) ==> keep <= t
      decreases HandleSet(nodes) + {root} - keep, |stack|
    {
      ghost var before := keep;
      var current := stack[|stack| - 1];
      assert stack == stack[..|stack| - 1] + [current];
      var grown, more := PushChildren(nodes, root, Lookup(children, current), current, keep);
      keep, stack := grown, stack[..|stack| - 1] + more;
      assert keep == before || exists h :: h in keep && h !in before;
    }
  }

  method PushChildren(nodes: seq<SharedNode>, ghost root: Handle, kids: seq<SharedNode>, current: Handle, before: set<Handle>)
    returns (keep: set<Handle>, more: seq<Handle>)
    requires kids == ChildrenOf(nodes, current) && current in before && before <= HandleSet(nodes) + {root}
    ensures before <= keep <= HandleSet(nodes) + {root} && (keep == before ==> more == [])
    ensures forall h :: h in keep <==> h in before || h in more
    ensures forall n :: n in kids ==> n.handle in keep
    ensures forall t: set<Handle> :: before <= t && ClosedDown(nodes, t) ==> keep <= t
  {
    keep, more := before, [];
    for k := 0 to |kids|
      invariant before <= keep <= HandleSet(nodes) + {root} && (keep == before ==> more == [])
      invariant forall h :: h in keep <==> h in before || h in more
      invariant forall j :: 0 <= j < k ==> kids[j].handle in keep
      invariant forall t: set<Handle> :: before <= t && ClosedDown(nodes, t) ==> keep <= t
    {
      var child := kids[k];
      assert child in nodes && child.parent == current;
      if child.handle !in keep {
        keep := keep + {child.handle};
        more := more + [child.handle];
      }
    }
  }

  function Kept(nodes: seq<SharedNode>, keep: set<Handle>): seq<SharedNode> {
    if nodes == [] then []
    else
      var n := nodes[|nodes| - 1];
      Kept(nodes[..|nodes| - 1], keep) + if n.handle in keep then [n] else []
  }

  lemma {:induction false} KeptMembers(nodes: seq<SharedNode>, keep: set<Handle>)
    ensures forall n :: n in Kept(nodes, keep) <==> n in nodes && n.handle in keep
  {
    if nodes != [] {
      var front, last := nodes[..|nodes| - 1], nodes[|nodes| - 1];
      KeptMembers(front, keep);
      assert nodes == front + [last];
    }
  }

  /** On an acyclic listing a subfolder's parent lies outside its subtree, so there parents do come first. */
  lemma SubfolderOrder(nodes: seq<SharedNode>, rank: Handle -> nat, folder: SharedNode, keep: set<Handle>)
    requires RankedBy(nodes, rank) && folder in nodes && IsSubtree(nodes, folder.handle, keep)
    ensures ParentsFirst(Reached(Kept(nodes, keep), folder.parent), HandleSet(Kept(nodes, keep)))
  {
    var kept := Kept(nodes, keep);
    KeptMembers(nodes, keep);
    assert folder in ChildrenOf(kept, folder.parent);
    var above := set n | n in nodes && rank(n.handle) >= rank(folder.handle) :: n.handle;
    assert folder.handle in above;
    forall n | n in nodes && n.parent in above ensures n.handle in above {
      assert rank(n.parent) >= rank(folder.handle);
    }
    assert ClosedDown(nodes, above);
    assert rank(folder.parent) < rank(folder.handle);
    ReachedFollowParentsExactly(kept, folder.parent);
  }
}

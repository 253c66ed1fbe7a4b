/** Walking and laying out an untrusted folder listing (core/folder_downloader.py). */
module FolderTree {
  import opened Basics

  type Handle = string

  /** One decrypted node of a public share. */
  datatype FolderNode = FolderNode(handle: Handle, parent: Handle, isFile: bool, name: string)

  datatype TreeError = CyclicParentChain

  /** The listing indexed by handle. */
  type Tree = m: map<Handle, FolderNode> | forall h :: h in m ==> m[h].handle == h witness map[]

  /** `{n.handle: n for n in nodes}`: a repeated handle keeps the last node. */
  function ByHandle(nodes: seq<FolderNode>): (m: Tree)
    ensures forall h :: h in m ==> m[h] in nodes
    ensures forall n :: n in nodes ==> n.handle in m
  {
    if nodes == [] then map[]
    else
      var last := nodes[|nodes| - 1];
      ByHandle(nodes[..|nodes| - 1])[last.handle := last]
  }

  ghost predicate UniqueHandles(nodes: seq<FolderNode>) {
    forall i, j :: 0 <= i < j < |nodes| ==> nodes[i].handle != nodes[j].handle
  }

  lemma {:induction false} ByUniqueHandle(nodes: seq<FolderNode>, n: FolderNode)
    requires UniqueHandles(nodes) && n in nodes
    ensures ByHandle(nodes)[n.handle] == n
  {
    var k := |nodes| - 1;
    if n != nodes[k] {
      assert n in nodes[..k];
      ByUniqueHandle(nodes[..k], n);
    }
  }

  /** The index agrees with this copy of a node about its parent. */
  ghost predicate Agrees(m: Tree, n: FolderNode) { n.handle in m && m[n.handle].parent == n.parent }

  /** A handle may be listed again, but not under another parent. */
  ghost predicate SameParents(nodes: seq<FolderNode>) {
    forall i, j :: 0 <= i < |nodes| && 0 <= j < |nodes| && nodes[i].handle == nodes[j].handle ==> nodes[i].parent == nodes[j].parent
  }

  lemma CopiesAgree(nodes: seq<FolderNode>)
    requires SameParents(nodes)
    ensures forall n :: n in nodes ==> Agrees(ByHandle(nodes), n)
  {
    var m := ByHandle(nodes);
    forall n | n in nodes ensures Agrees(m, n) {
      assert m[n.handle] in nodes;
    }
  }

  function ParentOf(m: Tree, n: FolderNode): Option<FolderNode> {
    if n.parent in m then Some(m[n.parent]) else None
  }

  // ---- The guarded parent walk

  /** How a walk over `_parent_chain` ends: at a handle its consumer stops at, past the listing, or refused. */
  datatype Walk =
    | Stopped(chain: seq<FolderNode>, anchor: FolderNode)
    | Ended(chain: seq<FolderNode>)
    | Cyclic

  function Before(done: seq<FolderNode>, w: Walk): Walk {
    match w
    case Stopped(chain, anchor) => Stopped(done + chain, anchor)
    case Ended(chain) => Ended(done + chain)
    case Cyclic => Cyclic
  }

  function Climb(m: Tree, cur: Option<FolderNode>, seen: set<Handle>, stop: set<Handle>): Walk
    requires cur.Some? ==> cur.value.handle in m
    decreases m.Keys - seen
  {
    match cur
    case None => Ended([])
    case Some(n) =>
      if n.handle in seen then Cyclic
      else if n.handle in stop then Stopped([], n)
      else
        assert n.handle in m.Keys - seen && n.handle !in m.Keys - (seen + {n.handle});
        Before([n], Climb(m, ParentOf(m, n), seen + {n.handle}, stop))
  }

  /** `for ancestor in _parent_chain(...)` with the consumer's early `break`, collecting what it passed. */
  method WalkUp(m: Tree, start: Option<FolderNode>, stop: set<Handle>) returns (w: Walk)
    requires start.Some? ==> start.value.handle in m
    ensures w == Climb(m, start, {}, stop)
  {
    var seen: set<Handle> := {};
    var chain: seq<FolderNode> := [];
    var cur := start;
    BeforeNothing(Climb(m, start, {}, stop));
    while cur.Some?
      invariant cur.Some? ==> cur.value.handle in m
      invariant Climb(m, start, {}, stop) == Before(chain, Climb(m, cur, seen, stop))
      decreases m.Keys - seen
    {
      var n := cur.value;
      if n.handle in seen { return Cyclic; }
      assert n.handle in m.Keys - seen && n.handle !in m.Keys - (seen + {n.handle});
      if n.handle in stop { return Stopped(chain, n); }
      BeforeTwice(chain, [n], Climb(m, ParentOf(m, n), seen + {n.handle}, stop));
      seen := seen + {n.handle};
      chain := chain + [n];
      cur := ParentOf(m, n);
    }
    w := Ended(chain);
  }

  lemma BeforeNothing(w: Walk)
    ensures Before([], w) == w
  {
    if !w.Cyclic? { assert [] + w.chain == w.chain; }
  }

  lemma BeforeTwice(a: seq<FolderNode>, b: seq<FolderNode>, w: Walk)
    ensures Before(a, Before(b, w)) == Before(a + b, w)
  {
    if !w.Cyclic? { assert a + (b + w.chain) == a + b + w.chain; }
  }

  // ---- When the walk is refused

  /** The k-th node met going up, the start being the 0th. */
  function Up(m: Tree, cur: Option<FolderNode>, k: nat): Option<FolderNode>
    decreases k
  {
    if k == 0 || cur.None? then cur else Up(m, ParentOf(m, cur.value), k - 1)
  }

  /** The parent pointers never run out and never meet a handle in `stop`. */
  ghost predicate Endless(m: Tree, cur: Option<FolderNode>, stop: set<Handle>) {
    forall k: nat :: Up(m, cur, k).Some? && Up(m, cur, k).value.handle !in stop
  }

  lemma {:induction false} ClimbArrives(m: Tree, cur: Option<FolderNode>, seen: set<Handle>, stop: set<Handle>)
    requires cur.Some? ==> cur.value.handle in m
    ensures match Climb(m, cur, seen, stop)
      case Stopped(chain, anchor) => Up(m, cur, |chain|) == Some(anchor) && anchor.handle in stop
      case Ended(chain) => Up(m, cur, |chain|) == None
      case Cyclic => true
    decreases m.Keys - seen
  {
    if cur.Some? && cur.value.handle !in seen && cur.value.handle !in stop {
      var n := cur.value;
      assert n.handle in m.Keys - seen && n.handle !in m.Keys - (seen + {n.handle});
      ClimbArrives(m, ParentOf(m, n), seen + {n.handle}, stop);
    }
  }

  /** A set of listed handles closed under "parent of". */
  ghost predicate Trap(m: Tree, s: set<Handle>, stop: set<Handle>) {
    forall h :: h in s ==> h in m && h !in stop && m[h].parent in s
  }

  /** A refused walk has found such a set. */
  lemma {:induction false} CyclicIsTrapped(m: Tree, cur: Option<FolderNode>, seen: set<Handle>, stop: set<Handle>) returns (s: set<Handle>)
    requires cur.Some? ==> Agrees(m, cur.value)
    requires Climb(m, cur, seen, stop).Cyclic?
    requires forall h :: h in seen ==> h in m && h !in stop && (m[h].parent in seen || cur == ParentOf(m, m[h]))
    ensures cur.Some? && cur.value.handle in s && seen <= s && Trap(m, s, stop)
    decreases m.Keys - seen
  {
    var n := cur.value;
    if n.handle in seen {
      s := seen;
    } else {
      assert n.handle in m.Keys - seen && n.handle !in m.Keys - (seen + {n.handle});
      s := CyclicIsTrapped(m, ParentOf(m, n), seen + {n.handle}, stop);
    }
  }

  lemma {:induction false} TrapIsEndless(m: Tree, cur: Option<FolderNode>, s: set<Handle>, stop: set<Handle>, k: nat)
    requires Trap(m, s, stop) && cur.Some? && cur.value.handle in s && Agrees(m, cur.value)
    ensures Up(m, cur, k).Some? && Up(m, cur, k).value.handle !in stop
    decreases k
  {
    if k > 0 {
      TrapIsEndless(m, ParentOf(m, cur.value), s, stop, k - 1);
    }
  }

  /** From a node the index agrees with, the walk is refused exactly when the real chain never ends. */
  lemma RefusedExactlyWhenEndless(m: Tree, cur: Option<FolderNode>, stop: set<Handle>)
    requires cur.Some? ==> Agrees(m, cur.value)
    ensures Climb(m, cur, {}, stop).Cyclic? <==> Endless(m, cur, stop)
  {
    var w := Climb(m, cur, {}, stop);
    if w.Cyclic? {
      var s := CyclicIsTrapped(m, cur, {}, stop);
      forall k: nat ensures Up(m, cur, k).Some? && Up(m, cur, k).value.handle !in stop {
        TrapIsEndless(m, cur, s, stop, k);
      }
    } else {
      ClimbArrives(m, cur, {}, stop);
      assert !(Up(m, cur, |w.chain|).Some? && Up(m, cur, |w.chain|).value.handle !in stop);
    }
  }

  // ---- Starting from any copy of a node

  /** Above the node the chain meets its handle again, before any handle in `stop`. */
  ghost predicate ComesBack(m: Tree, n: FolderNode, stop: set<Handle>) {
    n.handle !in stop && exists k: nat :: MeetsAt(m, ParentOf(m, n), n.handle, k) && MissesUpTo(m, ParentOf(m, n), stop, k)
  }

  ghost predicate MeetsAt(m: Tree, cur: Option<FolderNode>, h: Handle, k: nat) { Up(m, cur, k).Some? && Up(m, cur, k).value.handle == h }

  ghost predicate MissesUpTo(m: Tree, cur: Option<FolderNode>, stop: set<Handle>, k: nat) {
    forall j: nat :: j < k ==> Up(m, cur, j).Some? && Up(m, cur, j).value.handle !in stop
  }

  /** Meeting a handle already seen is what meeting one of the consumer's would be, but for the verdict. */
  lemma {:induction false} SeenActsAsStop(m: Tree, cur: Option<FolderNode>, seen: set<Handle>, h: Handle, stop: set<Handle>)
    requires (cur.Some? ==> cur.value.handle in m) && h !in stop && h !in seen
    ensures var w := Climb(m, cur, seen, stop + {h});
      Climb(m, cur, seen + {h}, stop).Cyclic? <==> w.Cyclic? || (w.Stopped? && w.anchor.handle == h)
    decreases m.Keys - seen
  {
    if cur.Some? && cur.value.handle !in seen && cur.value.handle !in stop && cur.value.handle != h {
      var n := cur.value;
      assert n.handle in m.Keys - seen && n.handle !in m.Keys - (seen + {n.handle});
      assert seen + {h} + {n.handle} == seen + {n.handle} + {h};
      SeenActsAsStop(m, ParentOf(m, n), seen + {n.handle}, h, stop);
    }
  }

  /** The nodes a walk collects are the ones the chain passes. */
  lemma {:induction false} ClimbPasses(m: Tree, cur: Option<FolderNode>, seen: set<Handle>, stop: set<Handle>)
    requires cur.Some? ==> cur.value.handle in m
    ensures var w := Climb(m, cur, seen, stop); !w.Cyclic? ==> MissesUpTo(m, cur, stop, |w.chain|)
    decreases m.Keys - seen
  {
    if cur.Some? && cur.value.handle !in seen && cur.value.handle !in stop {
      var n := cur.value;
      assert n.handle in m.Keys - seen && n.handle !in m.Keys - (seen + {n.handle});
      var up := Climb(m, ParentOf(m, n), seen + {n.handle}, stop);
      ClimbPasses(m, ParentOf(m, n), seen + {n.handle}, stop);
      if !up.Cyclic? {
        forall j: nat | j < |up.chain| + 1 ensures Up(m, cur, j).Some? && Up(m, cur, j).value.handle !in stop {
          if j > 0 { assert Up(m, cur, j) == Up(m, ParentOf(m, n), j - 1); }
        }
      }
    }
  }

  /** A chain that stops at h first has been nowhere near `stop` before. */
  lemma StopsAtExactly(m: Tree, cur: Option<FolderNode>, h: Handle, stop: set<Handle>)
    requires (cur.Some? ==> Agrees(m, cur.value)) && h !in stop
    ensures var w := Climb(m, cur, {}, stop + {h});
      w.Stopped? && w.anchor.handle == h <==> exists k: nat :: MeetsAt(m, cur, h, k) && MissesUpTo(m, cur, stop, k)
  {
    var w := Climb(m, cur, {}, stop + {h});
    ClimbArrives(m, cur, {}, stop + {h});
    ClimbPasses(m, cur, {}, stop + {h});
    if w.Stopped? && w.anchor.handle == h {
      assert MeetsAt(m, cur, h, |w.chain|) && MissesUpTo(m, cur, stop, |w.chain|);
    }
    forall k: nat | MeetsAt(m, cur, h, k) && MissesUpTo(m, cur, stop, k) ensures w.Stopped? && w.anchor.handle == h {
      RefusedExactlyWhenEndless(m, cur, stop + {h});
      assert !(Up(m, cur, k).Some? && Up(m, cur, k).value.handle !in stop + {h});
      assert |w.chain| <= k;
    }
  }

  lemma EndlessFromParent(m: Tree, n: FolderNode, stop: set<Handle>)
    ensures Endless(m, Some(n), stop) <==> n.handle !in stop && Endless(m, ParentOf(m, n), stop)
  {
    if Endless(m, Some(n), stop) {
      assert Up(m, Some(n), 0).value == n;
      forall k: nat ensures Up(m, ParentOf(m, n), k).Some? && Up(m, ParentOf(m, n), k).value.handle !in stop {
        assert Up(m, Some(n), k + 1) == Up(m, ParentOf(m, n), k);
      }
    }
    if n.handle !in stop && Endless(m, ParentOf(m, n), stop) {
      forall k: nat ensures Up(m, Some(n), k).Some? && Up(m, Some(n), k).value.handle !in stop {
        if k > 0 { assert Up(m, Some(n), k) == Up(m, ParentOf(m, n), k - 1); }
      }
    }
  }

  /** The real chain never ends, or comes back to where it started. */
  ghost predicate Loops(m: Tree, n: FolderNode, stop: set<Handle>) { Endless(m, Some(n), stop) || ComesBack(m, n, stop) }

  /** A chain endless up to `stop` either misses h too, or meets it at some point. */
  lemma EndlessPast(m: Tree, cur: Option<FolderNode>, h: Handle, stop: set<Handle>)
    ensures Endless(m, cur, stop) ==>
      Endless(m, cur, stop + {h}) || exists k: nat :: MeetsAt(m, cur, h, k) && MissesUpTo(m, cur, stop, k)
    ensures Endless(m, cur, stop + {h}) ==> Endless(m, cur, stop)
  {
    if Endless(m, cur, stop) && !Endless(m, cur, stop + {h}) {
      var k: nat :| !(Up(m, cur, k).Some? && Up(m, cur, k).value.handle !in stop + {h});
      assert MeetsAt(m, cur, h, k) && MissesUpTo(m, cur, stop, k);
    }
    if Endless(m, cur, stop + {h}) {
      forall k: nat ensures Up(m, cur, k).Some? && Up(m, cur, k).value.handle !in stop {
        assert Up(m, cur, k).value.handle !in stop + {h};
      }
    }
  }

  /**
   * On any parent graph, repeated handles and all, and from any listed copy of a node: the walk ends, and
   * it is refused exactly when the real chain never ends or comes back to the handle it started from.
   */
  lemma RefusedExactlyWhenLooping(m: Tree, n: FolderNode, stop: set<Handle>)
    requires n.handle in m
    ensures Climb(m, Some(n), {}, stop).Cyclic? <==> Loops(m, n, stop)
  {
    var p, h := ParentOf(m, n), n.handle;
    EndlessFromParent(m, n, stop);
    if h !in stop {
      assert {} + {h} == {h};
      SeenActsAsStop(m, p, {}, h, stop);
      RefusedExactlyWhenEndless(m, p, stop + {h});
      StopsAtExactly(m, p, h, stop);
      EndlessPast(m, p, h, stop);
    }
  }

  /**
   * So with a repeated handle the guard can refuse a chain that does end: the walk starts at the first copy
   * of "a" and comes back to the second.
   */
  lemma RepeatedHandleLooksCyclic()
    ensures exists nodes: seq<FolderNode>, n :: n in nodes && !UniqueHandles(nodes)
              && Climb(ByHandle(nodes), Some(n), {}, {}).Cyclic? && !Endless(ByHandle(nodes), Some(n), {})
  {
    var a, b, a' := FolderNode("a", "b", false, ""), FolderNode("b", "a", false, ""), FolderNode("a", "", false, "");
    var nodes := [a, b, a'];
    assert nodes[..2] == [a, b] && nodes[..2][..1] == [a] && nodes[..2][..1][..0] == [];
    var m := ByHandle(nodes);
    assert ByHandle([a, b]) == map["a" := a, "b" := b];
    assert m == map["a" := a', "b" := b];
    assert ParentOf(m, a) == Some(b) && ParentOf(m, b) == Some(a') && ParentOf(m, a') == None;
    assert Climb(m, Some(a'), {"a"} + {"b"}, {}).Cyclic?;
    assert Climb(m, Some(b), {"a"}, {}).Cyclic?;
    assert {} + {"a"} == {"a"};
    assert Climb(m, Some(a), {}, {}).Cyclic?;
    assert Up(m, Some(a), 3) == Up(m, Some(b), 2) == Up(m, Some(a'), 1) == None;
    assert nodes[0].handle == nodes[2].handle;
    assert a in nodes && !UniqueHandles(nodes) && !Endless(m, Some(a), {});
  }

  // ---- Depths

  /** Every handle with a depth is listed (or is the root) and lies one below its listed parent. */
  ghost predicate Ranked(m: Tree, d: map<Handle, nat>, root: Handle) {
    && root in d && d[root] == 0
    && forall h :: h in d && h != root ==> RankedAt(m, d, h)
  }

  ghost predicate RankedAt(m: Tree, d: map<Handle, nat>, h: Handle)
    requires h in d
  {
    && h in m
    && if m[h].parent in m then m[h].parent in d && d[h] == d[m[h].parent] + 1 else d[h] == 1
  }

  /** The inner loop of `_sort_by_depth`: the topmost node of the chain gets base + 1, and so on down. */
  function SetDepths(d: map<Handle, nat>, chain: seq<FolderNode>, base: nat): map<Handle, nat> {
    if chain == [] then d else SetDepths(d, chain[1..], base)[chain[0].handle := base + |chain|]
  }

  function DepthStep(m: Tree, d: map<Handle, nat>, n: FolderNode): Result<map<Handle, nat>, TreeError>
    requires n.handle in m
  {
    if n.handle in d then Ok(d)
    else match Climb(m, Some(n), {}, d.Keys)
      case Cyclic => Err(CyclicParentChain)
      case Ended(chain) => Ok(SetDepths(d, chain, 0))
      case Stopped(chain, anchor) => Ok(SetDepths(d, chain, if anchor.handle in d then d[anchor.handle] else 0))
  }

  function Depths(nodes: seq<FolderNode>, m: Tree, root: Handle): Result<map<Handle, nat>, TreeError>
    requires forall n :: n in nodes ==> n.handle in m
  {
    if nodes == [] then Ok(map[root := 0])
    else
      match Depths(nodes[..|nodes| - 1], m, root)
      case Err(error) => Err(error)
      case Ok(d) => DepthStep(m, d, nodes[|nodes| - 1])
  }

  method AssignDepths(d: map<Handle, nat>, chain: seq<FolderNode>, base: nat) returns (depth: map<Handle, nat>)
    ensures depth == SetDepths(d, chain, base)
  {
    depth := d;
    var i := 0;
    while i < |chain|
      invariant 0 <= i <= |chain|
      invariant depth == SetDepths(d, chain[|chain| - i..], base)
    {
      var c := chain[|chain| - 1 - i];
      assert chain[|chain| - i - 1..][1..] == chain[|chain| - i..];
      depth := depth[c.handle := base + i + 1];
      i := i + 1;
    }
    assert chain[0..] == chain;
  }

  /** The depth computation of `_sort_by_depth`. */
  method ComputeDepths(nodes: seq<FolderNode>, m: Tree, root: Handle) returns (r: Result<map<Handle, nat>, TreeError>)
    requires forall n :: n in nodes ==> n.handle in m
    ensures r == Depths(nodes, m, root)
  {
    var depth: map<Handle, nat> := map[root := 0];
    for k := 0 to |nodes|
      invariant Depths(nodes[..k], m, root) == Ok(depth)
    {
      var n := nodes[k];
      assert nodes[..k + 1][..k] == nodes[..k];
      if n.handle in depth { continue; }
      ClimbArrives(m, Some(n), {}, depth.Keys);
      var w := WalkUp(m, Some(n), depth.Keys);
      if w.Cyclic? {
        DepthsErrorSticks(nodes, m, root, k + 1);
        return Err(CyclicParentChain);
      }
      depth := AssignDepths(depth, w.chain, if w.Stopped? then depth[w.anchor.handle] else 0);
    }
    assert nodes[..|nodes|] == nodes;
    r := Ok(depth);
  }

  lemma {:induction false} DepthsErrorSticks(nodes: seq<FolderNode>, m: Tree, root: Handle, k: nat)
    requires k <= |nodes| && (forall n :: n in nodes ==> n.handle in m) && Depths(nodes[..k], m, root).Err?
    ensures Depths(nodes, m, root) == Err(CyclicParentChain)
    decreases |nodes|
  {
    if k == |nodes| {
      assert nodes[..k] == nodes;
      assert Depths(nodes, m, root).error.CyclicParentChain?;
    } else {
      assert nodes[..|nodes| - 1][..k] == nodes[..k];
      DepthsErrorSticks(nodes[..|nodes| - 1], m, root, k);
    }
  }

  // ---- Depths rank the tree

  /** A chain of listed nodes, each the parent of the one before, with no handle twice. */
  ghost predicate Linked(m: Tree, chain: seq<FolderNode>) {
    && (forall i :: 0 <= i < |chain| ==> Agrees(m, chain[i]))
    && (forall i :: 0 <= i < |chain| - 1 ==> chain[i].parent == chain[i + 1].handle)
    && (forall i, j :: 0 <= i < j < |chain| ==> chain[i].handle != chain[j].handle)
  }

  lemma {:induction false} ClimbIsLinked(m: Tree, cur: Option<FolderNode>, seen: set<Handle>, stop: set<Handle>)
    requires cur.Some? ==> Agrees(m, cur.value)
    requires !Climb(m, cur, seen, stop).Cyclic?
    ensures var w := Climb(m, cur, seen, stop);
      && Linked(m, w.chain)
      && (forall n :: n in w.chain ==> n.handle !in seen && n.handle !in stop)
      && (w.chain != [] ==> cur == Some(w.chain[0]))
      && (w.Stopped? ==> w.anchor.handle in stop && w.anchor.handle in m && (cur == Some(w.anchor) || m[w.anchor.handle] == w.anchor))
      && (w.Stopped? && w.chain == [] ==> cur == Some(w.anchor))
      && (w.Stopped? && w.chain != [] ==> w.chain[|w.chain| - 1].parent == w.anchor.handle)
      && (w.Ended? && w.chain == [] ==> cur == None)
      && (w.Ended? && w.chain != [] ==> w.chain[|w.chain| - 1].parent !in m)
    decreases m.Keys - seen
  {
    if cur.Some? && cur.value.handle !in seen && cur.value.handle !in stop {
      var n := cur.value;
      assert n.handle in m.Keys - seen && n.handle !in m.Keys - (seen + {n.handle});
      ClimbIsLinked(m, ParentOf(m, n), seen + {n.handle}, stop);
      var rest := Climb(m, ParentOf(m, n), seen + {n.handle}, stop).chain;
      var chain := Climb(m, cur, seen, stop).chain;
      assert chain == [n] + rest;
    }
  }

  /** A chain of listed nodes without depths, hanging from a node of depth `base`, or from nothing. */
  ghost predicate Hangs(m: Tree, d: map<Handle, nat>, chain: seq<FolderNode>, base: nat) {
    && Linked(m, chain) && (forall n :: n in chain ==> n.handle !in d)
    && (chain != [] ==> var top := chain[|chain| - 1].parent; if top in m then top in d && base == d[top] else base == 0)
  }

  ghost predicate Deepened(d: map<Handle, nat>, chain: seq<FolderNode>, base: nat, d': map<Handle, nat>) {
    && d'.Keys == d.Keys + (set n | n in chain :: n.handle)
    && (forall h :: h in d ==> d'[h] == d[h])
    && (chain != [] ==> d'[chain[0].handle] == base + |chain|)
  }

  lemma HangsBelow(m: Tree, d: map<Handle, nat>, chain: seq<FolderNode>, base: nat)
    requires Hangs(m, d, chain, base) && chain != []
    ensures Hangs(m, d, chain[1..], base)
    ensures chain[0].handle !in d && Agrees(m, chain[0]) && forall n :: n in chain[1..] ==> n.handle != chain[0].handle
    ensures if |chain| > 1 then chain[0].parent == chain[1..][0].handle else
      (if chain[0].parent in m then chain[0].parent in d && base == d[chain[0].parent] else base == 0)
  {
  }

  /** Ranking survives the chain being given its depths. */
  lemma {:induction false} SetDepthsRanked(m: Tree, d: map<Handle, nat>, root: Handle, chain: seq<FolderNode>, base: nat)
    requires Ranked(m, d, root) && Hangs(m, d, chain, base)
    ensures var d' := SetDepths(d, chain, base); Ranked(m, d', root) && Deepened(d, chain, base, d')
    decreases |chain|
  {
    if chain != [] {
      var d1 := SetDepths(d, chain[1..], base);
      HangsBelow(m, d, chain, base);
      SetDepthsRanked(m, d, root, chain[1..], base);
      if |chain| > 1 { assert Agrees(m, chain[1]); }
      OneMoreRanked(m, d1, root, chain[0], base + |chain|);
      OneMoreDeepened(d, chain, base, d1);
    }
  }

  lemma OneMoreDeepened(d: map<Handle, nat>, chain: seq<FolderNode>, base: nat, d1: map<Handle, nat>)
    requires chain != [] && chain[0].handle !in d && Deepened(d, chain[1..], base, d1)
    ensures Deepened(d, chain, base, d1[chain[0].handle := base + |chain|])
  {
    assert chain == [chain[0]] + chain[1..];
  }

  lemma OneMoreRanked(m: Tree, d: map<Handle, nat>, root: Handle, n: FolderNode, depth: nat)
    requires Ranked(m, d, root) && n.handle !in d && Agrees(m, n)
    requires if n.parent in m then n.parent in d && depth == d[n.parent] + 1 else depth == 1
    ensures Ranked(m, d[n.handle := depth], root)
  {
    var d' := d[n.handle := depth];
    forall h | h in d' && h != root ensures RankedAt(m, d', h) {
      if h != n.handle { assert RankedAt(m, d, h); }
    }
  }

  lemma StepRanked(m: Tree, d: map<Handle, nat>, root: Handle, n: FolderNode)
    requires Ranked(m, d, root) && Agrees(m, n) && DepthStep(m, d, n).Ok?
    ensures var d' := DepthStep(m, d, n).value; Ranked(m, d', root) && n.handle in d' && d.Keys <= d'.Keys
  {
    if n.handle !in d {
      ClimbIsLinked(m, Some(n), {}, d.Keys);
      var w := Climb(m, Some(n), {}, d.Keys);
      SetDepthsRanked(m, d, root, w.chain, if w.Stopped? then d[w.anchor.handle] else 0);
      assert n == w.chain[0];
    }
  }

  lemma {:induction false} DepthsRanked(nodes: seq<FolderNode>, m: Tree, root: Handle)
    requires forall n :: n in nodes ==> n.handle in m && Agrees(m, n)
    requires Depths(nodes, m, root).Ok?
    ensures var d := Depths(nodes, m, root).value; Ranked(m, d, root) && forall n :: n in nodes ==> n.handle in d
  {
    if nodes != [] {
      var k := |nodes| - 1;
      DepthsRanked(nodes[..k], m, root);
      StepRanked(m, Depths(nodes[..k], m, root).value, root, nodes[k]);
      assert forall n :: n in nodes ==> n in nodes[..k] || n == nodes[k];
    }
  }

  /** A ranked handle's chain comes to the root or to the end of the listing. */
  lemma {:induction false} RankedIsNotEndless(m: Tree, d: map<Handle, nat>, root: Handle, n: FolderNode)
    requires Ranked(m, d, root) && n.handle in d && Agrees(m, n)
    ensures !Endless(m, Some(n), {root})
    decreases d[n.handle]
  {
    if n.handle == root {
      assert Up(m, Some(n), 0) == Some(n);
    } else {
      assert RankedAt(m, d, n.handle);
      if n.parent in m {
        var p := m[n.parent];
        RankedIsNotEndless(m, d, root, p);
        var k: nat :| !(Up(m, Some(p), k).Some? && Up(m, Some(p), k).value.handle !in {root});
        assert Up(m, Some(n), k + 1) == Up(m, Some(p), k);
      } else {
        assert Up(m, Some(n), 1) == None;
      }
    }
  }

  lemma {:induction false} DepthsRefuse(nodes: seq<FolderNode>, m: Tree, root: Handle) returns (n: FolderNode)
    requires forall n :: n in nodes ==> n.handle in m && Agrees(m, n)
    requires Depths(nodes, m, root).Err?
    ensures n in nodes && Endless(m, Some(n), {root})
  {
    var k := |nodes| - 1;
    if Depths(nodes[..k], m, root).Err? {
      n := DepthsRefuse(nodes[..k], m, root);
    } else {
      n := nodes[k];
      var d := Depths(nodes[..k], m, root).value;
      DepthsRanked(nodes[..k], m, root);
      RefusedExactlyWhenEndless(m, Some(n), d.Keys);
    }
  }

  /** The k-th listed node has no depth from the nodes before it, and its chain loops without meeting one that has. */
  ghost predicate LoopsAt(nodes: seq<FolderNode>, m: Tree, root: Handle, k: nat)
    requires k < |nodes| && forall n :: n in nodes ==> n.handle in m
  {
    var d := Depths(nodes[..k], m, root);
    d.Ok? && nodes[k].handle !in d.value && Loops(m, nodes[k], d.value.Keys)
  }

  ghost predicate LoopsSomewhere(nodes: seq<FolderNode>, m: Tree, root: Handle)
    requires forall n :: n in nodes ==> n.handle in m
  {
    exists k: nat :: k < |nodes| && LoopsAt(nodes, m, root, k)
  }

  lemma LoopsInFront(nodes: seq<FolderNode>, m: Tree, root: Handle, i: nat)
    requires nodes != [] && i < |nodes| - 1 && forall n :: n in nodes ==> n.handle in m
    ensures LoopsAt(nodes[..|nodes| - 1], m, root, i) <==> LoopsAt(nodes, m, root, i)
  {
    assert nodes[..|nodes| - 1][..i] == nodes[..i];
  }

  lemma LoopsFirstOrLast(nodes: seq<FolderNode>, m: Tree, root: Handle)
    requires nodes != [] && forall n :: n in nodes ==> n.handle in m
    ensures LoopsSomewhere(nodes, m, root) <==> LoopsSomewhere(nodes[..|nodes| - 1], m, root) || LoopsAt(nodes, m, root, |nodes| - 1)
  {
    var front := nodes[..|nodes| - 1];
    if LoopsSomewhere(front, m, root) {
      var i: nat :| i < |front| && LoopsAt(front, m, root, i);
      LoopsInFront(nodes, m, root, i);
    }
    if LoopsSomewhere(nodes, m, root) {
      var i: nat :| i < |nodes| && LoopsAt(nodes, m, root, i);
      if i < |front| { LoopsInFront(nodes, m, root, i); }
    }
  }

  lemma {:induction false} DepthsRefuseExactly(nodes: seq<FolderNode>, m: Tree, root: Handle)
    requires forall n :: n in nodes ==> n.handle in m
    ensures Depths(nodes, m, root).Err? <==> LoopsSomewhere(nodes, m, root)
  {
    if nodes != [] {
      DepthsRefuseExactly(nodes[..|nodes| - 1], m, root);
      LoopsFirstOrLast(nodes, m, root);
      RefusedHere(nodes, m, root);
    }
  }

  lemma RefusedHere(nodes: seq<FolderNode>, m: Tree, root: Handle)
    requires nodes != [] && forall n :: n in nodes ==> n.handle in m
    ensures var d := Depths(nodes[..|nodes| - 1], m, root);
      d.Ok? ==> (Depths(nodes, m, root).Err? <==> LoopsAt(nodes, m, root, |nodes| - 1))
  {
    var d := Depths(nodes[..|nodes| - 1], m, root);
    if d.Ok? { RefusedExactlyWhenLooping(m, nodes[|nodes| - 1], d.value.Keys); }
  }

  /** `_sort_by_depth` on any listing: it raises exactly when it comes to a node without a depth whose chain loops. */
  lemma SortRefusesExactly(nodes: seq<FolderNode>, root: Handle)
    ensures Depths(nodes, ByHandle(nodes), root).Err? <==> LoopsSomewhere(nodes, ByHandle(nodes), root)
  {
    DepthsRefuseExactly(nodes, ByHandle(nodes), root);
  }

  /** When copies of a handle agree on the parent, that is: some node's chain never ends and never meets the root. */
  lemma AgreeingSortRefusesExactly(nodes: seq<FolderNode>, root: Handle)
    requires SameParents(nodes)
    ensures var m := ByHandle(nodes);
      Depths(nodes, m, root).Err? <==> exists n :: n in nodes && Endless(m, Some(n), {root})
  {
    var m := ByHandle(nodes);
    CopiesAgree(nodes);
    if Depths(nodes, m, root).Err? {
      var n := DepthsRefuse(nodes, m, root);
    } else {
      DepthsRanked(nodes, m, root);
      forall n | n in nodes ensures !Endless(m, Some(n), {root}) {
        RankedIsNotEndless(m, Depths(nodes, m, root).value, root, n);
      }
    }
  }

  // ---- The stable sort by depth

  function Key(d: map<Handle, nat>, n: FolderNode): nat { if n.handle in d then d[n.handle] else 0 }

  /** Behind every node of the same or smaller depth. */
  function Insert(s: seq<FolderNode>, n: FolderNode, d: map<Handle, nat>): seq<FolderNode> {
    if s == [] || Key(d, s[|s| - 1]) <= Key(d, n) then s + [n]
    else Insert(s[..|s| - 1], n, d) + [s[|s| - 1]]
  }

  /** `sorted(nodes, key=depth)`. */
  function SortByKey(nodes: seq<FolderNode>, d: map<Handle, nat>): seq<FolderNode> {
    if nodes == [] then [] else Insert(SortByKey(nodes[..|nodes| - 1], d), nodes[|nodes| - 1], d)
  }

  ghost predicate Ascending(s: seq<FolderNode>, d: map<Handle, nat>) {
    forall i, j :: 0 <= i <= j < |s| ==> Key(d, s[i]) <= Key(d, s[j])
  }

  lemma {:induction false} InsertMembers(s: seq<FolderNode>, n: FolderNode, d: map<Handle, nat>)
    ensures multiset(Insert(s, n, d)) == multiset(s) + multiset{n}
    ensures forall x :: x in Insert(s, n, d) <==> x in s || x == n
  {
    if s != [] && Key(d, s[|s| - 1]) > Key(d, n) {
      InsertMembers(s[..|s| - 1], n, d);
      assert s == s[..|s| - 1] + [s[|s| - 1]];
    }
  }

  lemma AppendAscending(s: seq<FolderNode>, n: FolderNode, d: map<Handle, nat>)
    requires Ascending(s, d) && forall x :: x in s ==> Key(d, x) <= Key(d, n)
    ensures Ascending(s + [n], d)
  {
  }

  lemma LastIsLargest(s: seq<FolderNode>, d: map<Handle, nat>, x: FolderNode)
    requires Ascending(s, d) && x in s
    ensures Key(d, x) <= Key(d, s[|s| - 1])
  {
    var i :| 0 <= i < |s| && s[i] == x;
    assert Key(d, s[i]) <= Key(d, s[|s| - 1]);
  }

  lemma {:induction false} InsertAscending(s: seq<FolderNode>, n: FolderNode, d: map<Handle, nat>)
    requires Ascending(s, d)
    ensures Ascending(Insert(s, n, d), d)
  {
    forall x | x in s ensures Key(d, x) <= Key(d, s[|s| - 1]) { LastIsLargest(s, d, x); }
    if s == [] || Key(d, s[|s| - 1]) <= Key(d, n) {
      AppendAscending(s, n, d);
    } else {
      var front, last := s[..|s| - 1], s[|s| - 1];
      InsertAscending(front, n, d);
      InsertMembers(front, n, d);
      AppendAscending(Insert(front, n, d), last, d);
    }
  }

  /** The sort permutes the listing and ranks it. */
  lemma {:induction false} SortIsOrdered(nodes: seq<FolderNode>, d: map<Handle, nat>)
    ensures Ascending(SortByKey(nodes, d), d) && multiset(SortByKey(nodes, d)) == multiset(nodes)
    ensures forall x :: x in SortByKey(nodes, d) <==> x in nodes
  {
    if nodes != [] {
      var front, n := nodes[..|nodes| - 1], nodes[|nodes| - 1];
      SortIsOrdered(front, d);
      InsertMembers(SortByKey(front, d), n, d);
      InsertAscending(SortByKey(front, d), n, d);
      OneMoreNode(front, n);
      assert nodes == front + [n];
    }
  }

  lemma OneMoreNode(front: seq<FolderNode>, n: FolderNode)
    ensures multiset(front + [n]) == multiset(front) + multiset{n}
    ensures forall x :: x in front + [n] <==> x in front || x == n
  {
  }

  lemma {:induction false} InsertIsUnique(s: seq<FolderNode>, n: FolderNode, d: map<Handle, nat>)
    requires UniqueHandles(s) && forall x :: x in s ==> x.handle != n.handle
    ensures UniqueHandles(Insert(s, n, d))
  {
    if s != [] && Key(d, s[|s| - 1]) > Key(d, n) {
      var front, last := s[..|s| - 1], s[|s| - 1];
      InsertIsUnique(front, n, d);
      InsertMembers(front, n, d);
      forall x | x in Insert(front, n, d) ensures x.handle != last.handle {}
    }
  }

  lemma {:induction false} SortIsUnique(nodes: seq<FolderNode>, d: map<Handle, nat>)
    requires UniqueHandles(nodes)
    ensures UniqueHandles(SortByKey(nodes, d))
  {
    if nodes != [] {
      var k := |nodes| - 1;
      SortIsUnique(nodes[..k], d);
      SortIsOrdered(nodes[..k], d);
      InsertIsUnique(SortByKey(nodes[..k], d), nodes[k], d);
    }
  }

  /** `_sort_by_depth`. */
  method SortByDepth(nodes: seq<FolderNode>, root: Handle) returns (r: Result<seq<FolderNode>, TreeError>)
    ensures var d := Depths(nodes, ByHandle(nodes), root);
      r == if d.Err? then Err(d.error) else Ok(SortByKey(nodes, d.value))
  {
    var depth := ComputeDepths(nodes, ByHandle(nodes), root);
    if depth.Err? { return Err(depth.error); }
    r := Ok(SortByKey(nodes, depth.value));
  }

  ghost predicate FollowsParents(s: seq<FolderNode>, root: Handle) {
    forall i, j :: 0 <= i < |s| && 0 <= j < |s| && s[j].handle != root && s[i].handle == s[j].parent ==> i < j
  }

  /** x, which is not the root, names n as its parent. */
  predicate Under(x: FolderNode, n: FolderNode, root: Handle) { x.handle != root && n.handle == x.parent }

  /** What putting n behind its equals adds to the order being right. */
  ghost predicate FitsIn(s: seq<FolderNode>, n: FolderNode, d: map<Handle, nat>, root: Handle) {
    && !Under(n, n, root)
    && forall x :: x in s ==> (Under(x, n, root) ==> Key(d, n) < Key(d, x)) && (Under(n, x, root) ==> Key(d, x) <= Key(d, n))
  }

  lemma AppendFollows(s: seq<FolderNode>, n: FolderNode, root: Handle)
    ensures FollowsParents(s + [n], root) <==> FollowsParents(s, root) && forall x :: x in s + [n] ==> !Under(x, n, root)
  {
    var r := s + [n];
    if FollowsParents(r, root) {
      forall i, j | 0 <= i < |s| && 0 <= j < |s| && s[j].handle != root && s[i].handle == s[j].parent ensures i < j {
        assert r[i] == s[i] && r[j] == s[j];
      }
      forall x | x in r ensures !Under(x, n, root) {
        var j :| 0 <= j < |r| && r[j] == x;
        assert r[|s|] == n;
      }
    }
    if FollowsParents(s, root) && forall x :: x in r ==> !Under(x, n, root) {
      forall i, j | 0 <= i < |r| && 0 <= j < |r| && r[j].handle != root && r[i].handle == r[j].parent ensures i < j {
        assert r[j] in r;
        if i == |s| { assert Under(r[j], n, root); }
      }
    }
  }

  lemma FitsInMore(s: seq<FolderNode>, last: FolderNode, n: FolderNode, d: map<Handle, nat>, root: Handle)
    ensures FitsIn(s + [last], n, d, root) <==>
      FitsIn(s, n, d, root) && (Under(last, n, root) ==> Key(d, n) < Key(d, last)) && (Under(n, last, root) ==> Key(d, last) <= Key(d, n))
  {
    assert forall x :: x in s + [last] <==> x in s || x == last;
  }

  /** Putting n somewhere in front of a deeper node. */
  lemma InFrontFollows(s: seq<FolderNode>, mid: seq<FolderNode>, last: FolderNode, n: FolderNode, d: map<Handle, nat>, root: Handle)
    requires Key(d, n) < Key(d, last) && forall x :: x in mid <==> x in s || x == n
    requires FollowsParents(mid, root) <==> FollowsParents(s, root) && FitsIn(s, n, d, root)
    ensures FollowsParents(mid + [last], root) <==> FollowsParents(s + [last], root) && FitsIn(s + [last], n, d, root)
  {
    AppendFollows(mid, last, root);
    AppendFollows(s, last, root);
    FitsInMore(s, last, n, d, root);
    assert forall x :: x in mid + [last] <==> x in s + [last] || x == n;
  }

  lemma BehindFollows(s: seq<FolderNode>, n: FolderNode, d: map<Handle, nat>, root: Handle)
    requires forall x :: x in s ==> Key(d, x) <= Key(d, n)
    ensures FollowsParents(s + [n], root) <==> FollowsParents(s, root) && FitsIn(s, n, d, root)
  {
    AppendFollows(s, n, root);
    assert forall x :: x in s + [n] <==> x in s || x == n;
  }

  lemma {:induction false} InsertFollows(s: seq<FolderNode>, n: FolderNode, d: map<Handle, nat>, root: Handle)
    requires Ascending(s, d)
    ensures FollowsParents(Insert(s, n, d), root) <==> FollowsParents(s, root) && FitsIn(s, n, d, root)
  {
    if s == [] || Key(d, s[|s| - 1]) <= Key(d, n) {
      forall x | x in s ensures Key(d, x) <= Key(d, n) { LastIsLargest(s, d, x); }
      BehindFollows(s, n, d, root);
    } else {
      var front, last := s[..|s| - 1], s[|s| - 1];
      InsertFollows(front, n, d, root);
      InsertMembers(front, n, d);
      InFrontFollows(front, Insert(front, n, d), last, n, d, root);
      assert s == front + [last];
    }
  }

  /** Each listed parent has a smaller depth than its child, or the same depth and an earlier place in the listing. */
  ghost predicate ParentsRankFirst(nodes: seq<FolderNode>, d: map<Handle, nat>, root: Handle) {
    forall i, j :: 0 <= i < |nodes| && 0 <= j < |nodes| && Under(nodes[j], nodes[i], root) ==>
      Key(d, nodes[i]) < Key(d, nodes[j]) || (Key(d, nodes[i]) == Key(d, nodes[j]) && i < j)
  }

  lemma RankFirstStep(front: seq<FolderNode>, n: FolderNode, d: map<Handle, nat>, root: Handle)
    ensures ParentsRankFirst(front + [n], d, root) <==> ParentsRankFirst(front, d, root) && FitsIn(front, n, d, root)
  {
    var nodes, k := front + [n], |front|;
    assert nodes[k] == n && forall i :: 0 <= i < k ==> nodes[i] == front[i];
    if ParentsRankFirst(nodes, d, root) {
      forall x | x in front
        ensures (Under(x, n, root) ==> Key(d, n) < Key(d, x)) && (Under(n, x, root) ==> Key(d, x) <= Key(d, n))
      {
        var i :| 0 <= i < k && front[i] == x;
        assert nodes[i] == x;
      }
    }
    if FitsIn(front, n, d, root) {
      forall i | 0 <= i < k ensures front[i] in front {}
    }
  }

  lemma FollowsStep(front: seq<FolderNode>, s: seq<FolderNode>, n: FolderNode, d: map<Handle, nat>, root: Handle)
    requires Ascending(s, d) && forall x :: x in s <==> x in front
    requires FollowsParents(s, root) <==> ParentsRankFirst(front, d, root)
    ensures FollowsParents(Insert(s, n, d), root) <==> ParentsRankFirst(front + [n], d, root)
  {
    InsertFollows(s, n, d, root);
    RankFirstStep(front, n, d, root);
  }

  /** On any listing, with any depths, the sort puts parents first exactly when the depths do. */
  lemma {:induction false} FollowsParentsExactly(nodes: seq<FolderNode>, d: map<Handle, nat>, root: Handle)
    ensures FollowsParents(SortByKey(nodes, d), root) <==> ParentsRankFirst(nodes, d, root)
  {
    if nodes != [] {
      var front, n := nodes[..|nodes| - 1], nodes[|nodes| - 1];
      FollowsParentsExactly(front, d, root);
      SortIsOrdered(front, d);
      FollowsStep(front, SortByKey(front, d), n, d, root);
      assert nodes == front + [n];
    }
  }

  const FIRST_COPY: FolderNode := FolderNode("a", "", false, "")
  const BETWEEN: FolderNode := FolderNode("c", "a", false, "")
  const SECOND_COPY: FolderNode := FolderNode("a", "c", false, "")
  const TANGLED: seq<FolderNode> := [FIRST_COPY, BETWEEN, SECOND_COPY]
  const TANGLED_INDEX: Tree := map["a" := SECOND_COPY, "c" := BETWEEN]

  lemma TangledIndex()
    ensures ByHandle(TANGLED) == TANGLED_INDEX
  {
    assert TANGLED[..2] == [FIRST_COPY, BETWEEN] && TANGLED[..2][..1] == [FIRST_COPY] && TANGLED[..2][..1][..0] == [];
    assert ByHandle(TANGLED[..2]) == map["a" := FIRST_COPY, "c" := BETWEEN];
  }

  lemma TangledStep(d: map<Handle, nat>)
    requires d == map["r" := 0, "a" := 1]
    ensures DepthStep(TANGLED_INDEX, d, BETWEEN) == Ok(d["c" := 2])
  {
    assert Climb(TANGLED_INDEX, Some(SECOND_COPY), {} + {"c"}, d.Keys) == Stopped([], SECOND_COPY);
    assert Climb(TANGLED_INDEX, Some(BETWEEN), {}, d.Keys) == Stopped([BETWEEN], SECOND_COPY);
    assert SetDepths(d, [BETWEEN], 1) == d["c" := 2];
  }

  lemma TangledDepths() returns (d: map<Handle, nat>)
    ensures d == map["r" := 0, "a" := 1, "c" := 2] && Depths(TANGLED, TANGLED_INDEX, "r") == Ok(d)
  {
    var d0: map<Handle, nat> := map["r" := 0];
    assert TANGLED[..2] == [FIRST_COPY, BETWEEN] && TANGLED[..2][..1] == [FIRST_COPY] && TANGLED[..2][..1][..0] == [];
    assert Depths(TANGLED[..2][..1][..0], TANGLED_INDEX, "r") == Ok(d0);
    OneNodeDepth(TANGLED_INDEX, d0, FIRST_COPY);
    TangledStep(d0["a" := 1]);
    d := d0["a" := 1]["c" := 2];
    assert Depths(TANGLED[..2], TANGLED_INDEX, "r") == Ok(d);
  }

  lemma TangledIsEndless()
    ensures Endless(TANGLED_INDEX, Some(SECOND_COPY), {"r"})
  {
    assert Trap(TANGLED_INDEX, {"a", "c"}, {"r"});
    forall k: nat ensures Up(TANGLED_INDEX, Some(SECOND_COPY), k).Some? && Up(TANGLED_INDEX, Some(SECOND_COPY), k).value.handle !in {"r"} {
      TrapIsEndless(TANGLED_INDEX, Some(SECOND_COPY), {"a", "c"}, {"r"}, k);
    }
  }

  lemma TangledOrder(d: map<Handle, nat>)
    requires d == map["r" := 0, "a" := 1, "c" := 2]
    ensures !FollowsParents(SortByKey(TANGLED, d), "r")
  {
    assert !ParentsRankFirst(TANGLED, d, "r") by {
      assert Under(TANGLED[2], TANGLED[1], "r") && Key(d, TANGLED[1]) == 2 && Key(d, TANGLED[2]) == 1;
    }
    FollowsParentsExactly(TANGLED, d, "r");
  }

  /**
   * Copies that disagree about the parent can break the order and hide a cycle: the second copy of "a" is
   * below "c" and "c" is below it, yet nothing is refused, and that copy comes before "c".
   */
  lemma DisagreeingCopiesMisorder()
    ensures exists d :: Depths(TANGLED, ByHandle(TANGLED), "r") == Ok(d) && !FollowsParents(SortByKey(TANGLED, d), "r")
    ensures !SameParents(TANGLED) && Endless(ByHandle(TANGLED), Some(SECOND_COPY), {"r"})
  {
    TangledIndex();
    TangledIsEndless();
    var d := TangledDepths();
    TangledOrder(d);
    assert TANGLED[0].handle == TANGLED[2].handle;
  }

  lemma OneNodeDepth(m: Tree, d: map<Handle, nat>, n: FolderNode)
    requires n.handle in m && n.handle !in d && n.parent !in m
    ensures DepthStep(m, d, n) == Ok(d[n.handle := 1])
  {
    assert Climb(m, None, {} + {n.handle}, d.Keys) == Ended([]);
    assert Climb(m, Some(n), {}, d.Keys) == Ended([n]);
    assert SetDepths(d, [n], 0) == d[n.handle := 1];
  }

  /** Every node but the root comes after its listed parent, as long as copies of a handle agree on theirs. */
  lemma ParentsComeFirst(nodes: seq<FolderNode>, root: Handle)
    requires SameParents(nodes)
    ensures var d := Depths(nodes, ByHandle(nodes), root);
      d.Ok? ==> FollowsParents(SortByKey(nodes, d.value), root)
  {
    var m := ByHandle(nodes);
    if Depths(nodes, m, root).Ok? {
      var d := Depths(nodes, m, root).value;
      var s := SortByKey(nodes, d);
      CopiesAgree(nodes);
      DepthsRanked(nodes, m, root);
      SortIsOrdered(nodes, d);
      forall i, j | 0 <= i < |s| && 0 <= j < |s| && s[j].handle != root && s[i].handle == s[j].parent ensures i < j {
        assert s[i] in nodes && s[j] in nodes;
        assert RankedAt(m, d, s[j].handle);
        assert Key(d, s[i]) < Key(d, s[j]);
      }
    }
  }
}

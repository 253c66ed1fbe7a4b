/** The include filter and the copying loop of a share import (core/shares.py). */
module ShareCopy {
  import opened Basics
  import opened ShareImport

  // ---- The include filter

  type Tree = m: map<Handle, SharedNode> | forall h :: h in m ==> m[h].handle == h witness map[]

  /** `{n["h"]: n for n in raw_nodes}`: a repeated handle keeps the last node. */
  function ByHandle(nodes: seq<SharedNode>): (m: Tree)
    ensures forall h :: h in m ==> m[h] in nodes
    ensures forall n :: n in nodes ==> n.handle in m
  {
    if nodes == [] then map[]
    else
      var last := nodes[|nodes| - 1];
      ByHandle(nodes[..|nodes| - 1])[last.handle := last]
  }

  /** Listed handles only, and with every handle its listed parent. */
  ghost predicate ClosedUp(m: Tree, s: set<Handle>) {
    forall h :: h in s ==> h in m && (m[h].parent in m ==> m[h].parent in s)
  }

  /** The least closed set holding the wanted handles that are listed. */
  ghost predicate IsAncestry(m: Tree, wanted: set<Handle>, s: set<Handle>) {
    && wanted * m.Keys <= s && ClosedUp(m, s)
    && forall t: set<Handle> :: wanted * m.Keys <= t && ClosedUp(m, t) ==> s <= t
  }

  /** The filter's loops: cyclic listings included, since a walk stops at the first node already kept. */
  method KeepAncestry(m: Tree, wanted: set<Handle>) returns (keep: set<Handle>)
    ensures IsAncestry(m, wanted, keep)
  {
    keep := {};
    var left := wanted;
    while left != {}
      invariant left <= wanted && (wanted - left) * m.Keys <= keep && ClosedUp(m, keep)
      invariant forall t: set<Handle> :: wanted * m.Keys <= t && ClosedUp(m, t) ==> keep <= t
      decreases left
    {
      var h :| h in left;
      keep := KeepChain(m, wanted, h, keep);
      left := left - {h};
    }
  }

  method KeepChain(m: Tree, ghost wanted: set<Handle>, h: Handle, before: set<Handle>) returns (keep: set<Handle>)
    requires h in wanted && ClosedUp(m, before)
    requires forall t: set<Handle> :: wanted * m.Keys <= t && ClosedUp(m, t) ==> before <= t
    ensures before <= keep && (h in m ==> h in keep) && ClosedUp(m, keep)
    ensures forall t: set<Handle> :: wanted * m.Keys <= t && ClosedUp(m, t) ==> keep <= t
  {
    keep := before;
    var node := if h in m then Some(m[h]) else None;
    while node.Some? && node.value.handle !in keep
      invariant node.Some? ==> node.value.handle in m && node.value == m[node.value.handle]
      invariant before <= keep && (h in m ==> h in keep || node == Some(m[h]))
      invariant forall k :: k in keep ==> k in m && (m[k].parent in m ==> m[k].parent in keep || node == Some(m[m[k].parent]))
      invariant forall t: set<Handle> :: wanted * m.Keys <= t && ClosedUp(m, t) ==> keep <= t && (node.Some? ==> node.value.handle in t)
      decreases m.Keys - keep
    {
      assert node.value.handle in m.Keys - keep;
      keep := keep + {node.value.handle};
      node := if node.value.parent in m then Some(m[node.value.parent]) else None;
    }
  }

  // ---- The copying loop

  /** What the API says to one import call: an error, a reply naming the new node or none, or a malformed reply. */
  datatype Answer = Refused | Created(handle: Handle) | Malformed

  datatype Call = Call(node: SharedNode, target: Handle)

  /** Calls made, handles created, the parent map, and whether a malformed reply aborted the import. */
  datatype Import = Import(calls: seq<Call>, created: seq<Handle>, parentMap: map<Handle, Handle>, aborted: bool)

  /** What one import depends on besides its order: which keys decrypt, the k-th node's answer, where it starts. */
  datatype Setup = Setup(unwraps: string -> bool, answers: nat -> Answer, rootParent: Handle, target: Handle)

  /** A file or folder whose wrapped key is present and decrypts. */
  predicate Usable(w: Setup, n: SharedNode) { (n.nodeType == 0 || n.nodeType == 1) && w.unwraps(n.key) }

  function TargetIn(w: Setup, parentMap: map<Handle, Handle>, n: SharedNode): Handle {
    if n.parent in parentMap then parentMap[n.parent] else w.target
  }

  function ImportStep(w: Setup, run: Import, n: SharedNode, answer: Answer): Import {
    var called := run.(calls := run.calls + [Call(n, TargetIn(w, run.parentMap, n))]);
    match answer
    case Refused => called
    case Malformed => called.(aborted := true)
    case Created(h) =>
      if h == NO_HANDLE then called
      else called.(created := run.created + [h], parentMap := run.parentMap[n.handle := h])
  }

  /** The import of an ordered list. */
  function ImportRun(w: Setup, order: seq<SharedNode>): Import {
    if order == [] then Import([], [], map[w.rootParent := w.target], false)
    else
      var k := |order| - 1;
      var run := ImportRun(w, order[..k]);
      if run.aborted || !Usable(w, order[k]) then run else ImportStep(w, run, order[k], w.answers(k))
  }

  method ImportNodes(w: Setup, order: seq<SharedNode>) returns (calls: seq<Call>, created: Result<seq<Handle>, ()>)
    ensures var run := ImportRun(w, order);
      calls == run.calls && created == if run.aborted then Err(()) else Ok(run.created)
  {
    var parentMap := map[w.rootParent := w.target];
    var handles: seq<Handle> := [];
    calls := [];
    for k := 0 to |order|
      invariant ImportRun(w, order[..k]) == Import(calls, handles, parentMap, false)
    {
      var raw := order[k];
      assert order[..k + 1][..k] == order[..k];
      if raw.nodeType != 0 && raw.nodeType != 1 { continue; }
      if !w.unwraps(raw.key) { continue; }
      var localParent := if raw.parent in parentMap then parentMap[raw.parent] else w.target;
      calls := calls + [Call(raw, localParent)];
      var answer := w.answers(k);
      if answer.Refused? { continue; }
      if answer.Malformed? {
        AbortSticks(w, order, k + 1);
        return calls, Err(());
      }
      if answer.handle != NO_HANDLE {
        handles := handles + [answer.handle];
        parentMap := parentMap[raw.handle := answer.handle];
      }
    }
    assert order[..|order|] == order;
    created := Ok(handles);
  }

  lemma {:induction false} AbortSticks(w: Setup, order: seq<SharedNode>, k: nat)
    requires k <= |order| && ImportRun(w, order[..k]).aborted
    ensures ImportRun(w, order) == ImportRun(w, order[..k])
    decreases |order|
  {
    if k == |order| {
      assert order[..k] == order;
    } else {
      assert order[..|order| - 1][..k] == order[..k];
      AbortSticks(w, order[..|order| - 1], k);
    }
  }

  // ---- Where each node lands

  /** The handle the i-th node of the order got, if its import succeeded. */
  function NewHandle(w: Setup, n: SharedNode, i: nat): Option<Handle> {
    if Usable(w, n) && w.answers(i).Created? && w.answers(i).handle != NO_HANDLE then Some(w.answers(i).handle) else None
  }

  /** Imported nodes map to their new handles, and every other lookup gives the target. */
  ghost predicate EntryRight(w: Setup, parentMap: map<Handle, Handle>, n: SharedNode, i: nat) {
    match NewHandle(w, n, i)
    case Some(h) => n.handle in parentMap && parentMap[n.handle] == h
    case None => n.handle in parentMap ==> parentMap[n.handle] == w.target
  }

  ghost predicate MapRight(w: Setup, parentMap: map<Handle, Handle>, order: seq<SharedNode>) {
    && (forall i :: 0 <= i < |order| ==> EntryRight(w, parentMap, order[i], i))
    && (forall p :: p in parentMap && p !in HandleSet(order) ==> parentMap[p] == w.target)
  }

  lemma OneMoreEntry(w: Setup, parentMap: map<Handle, Handle>, order: seq<SharedNode>)
    requires order != [] && MapRight(w, parentMap, order[..|order| - 1]) && order[|order| - 1].handle !in HandleSet(order[..|order| - 1])
    ensures var k := |order| - 1; var h := NewHandle(w, order[k], k);
      MapRight(w, if h.Some? then parentMap[order[k].handle := h.value] else parentMap, order)
  {
    var k := |order| - 1;
    var front := order[..k];
    assert order == front + [order[k]];
    AppendHandle(front, order[k]);
    forall i | 0 <= i < k ensures front[i].handle != order[k].handle && EntryRight(w, parentMap, front[i], i) { assert front[i] in front; }
  }

  lemma UniqueLast(order: seq<SharedNode>)
    requires UniqueHandles(order) && order != []
    ensures var k := |order| - 1; UniqueHandles(order[..k]) && order[k].handle !in HandleSet(order[..k])
  {
    var k := |order| - 1;
    forall n | n in order[..k] ensures n.handle != order[k].handle {
      var i :| 0 <= i < k && order[i] == n;
    }
  }

  /** What one more node does to the parent map of a run that goes on. */
  lemma StepMap(w: Setup, order: seq<SharedNode>)
    requires order != [] && !ImportRun(w, order).aborted
    ensures var k := |order| - 1; var run := ImportRun(w, order[..k]);
      var h := NewHandle(w, order[k], k);
      && !run.aborted
      && ImportRun(w, order).parentMap == if h.Some? then run.parentMap[order[k].handle := h.value] else run.parentMap
  {
  }

  lemma {:induction false} ParentMapIsRight(w: Setup, order: seq<SharedNode>)
    requires UniqueHandles(order) && !ImportRun(w, order).aborted
    ensures MapRight(w, ImportRun(w, order).parentMap, order)
  {
    if order != [] {
      StepMap(w, order);
      UniqueLast(order);
      ParentMapIsRight(w, order[..|order| - 1]);
      OneMoreEntry(w, ImportRun(w, order[..|order| - 1]).parentMap, order);
    }
  }

  /** Where the k-th node must go: into its parent's new handle if some earlier node is the parent and was imported. */
  ghost predicate LandsRight(w: Setup, order: seq<SharedNode>, k: nat, target: Handle)
    requires k < |order|
  {
    && (forall i :: 0 <= i < k && order[i].handle == order[k].parent ==>
          target == match NewHandle(w, order[i], i) case Some(h) => h case None => w.target)
    && ((forall i :: 0 <= i < k ==> order[i].handle != order[k].parent) ==> target == w.target)
  }

  /** The k-th node's call, made after those of the nodes before it, names this target. */
  ghost predicate CallsNext(w: Setup, order: seq<SharedNode>, k: nat, target: Handle)
    requires k < |order|
  {
    ImportRun(w, order[..k + 1]).calls == ImportRun(w, order[..k]).calls + [Call(order[k], target)]
  }

  /** The k-th node is sent to the new handle of its parent if that was imported before it, else to the target folder. */
  lemma ChildLandsInItsParent(w: Setup, order: seq<SharedNode>, k: nat)
    requires UniqueHandles(order) && k < |order|
    requires !ImportRun(w, order[..k]).aborted && Usable(w, order[k])
    ensures exists target :: LandsRight(w, order, k, target) && CallsNext(w, order, k, target)
  {
    var before := ImportRun(w, order[..k]);
    assert order[..k + 1][..k] == order[..k];
    ParentMapIsRight(w, order[..k]);
    var target := TargetIn(w, before.parentMap, order[k]);
    forall i | 0 <= i < k && order[i].handle == order[k].parent
      ensures target == match NewHandle(w, order[i], i) case Some(h) => h case None => w.target
    {
      assert EntryRight(w, before.parentMap, order[..k][i], i);
    }
    if forall i :: 0 <= i < k ==> order[i].handle != order[k].parent {
      assert order[k].parent !in HandleSet(order[..k]);
    }
    assert LandsRight(w, order, k, target);
  }

  // ---- Order, filter and copy together

  lemma AppendFirst(s: seq<SharedNode>, n: SharedNode, listed: set<Handle>)
    requires ParentsFirst(s, listed) && (n.parent in listed ==> n.parent in HandleSet(s))
    ensures ParentsFirst(s + [n], listed)
  {
    var t := s + [n];
    forall i | 0 <= i < |t| && t[i].parent in listed ensures t[i].parent in HandleSet(t[..i]) {
      assert t[..i] == s[..i];
      if i == |s| { assert s[..i] == s; }
    }
  }

  lemma DropLast(s: seq<SharedNode>, listed: set<Handle>)
    requires ParentsFirst(s, listed) && s != []
    ensures var k := |s| - 1; ParentsFirst(s[..k], listed) && (s[k].parent in listed ==> s[k].parent in HandleSet(s[..k]))
  {
    var front := s[..|s| - 1];
    forall i | 0 <= i < |front| && front[i].parent in listed ensures front[i].parent in HandleSet(front[..i]) {
      assert front[..i] == s[..i];
    }
  }

  lemma KeptHandle(s: seq<SharedNode>, keep: set<Handle>, h: Handle)
    requires h in HandleSet(s) && h in keep
    ensures h in HandleSet(Kept(s, keep))
  {
    var x :| x in s && x.handle == h;
    KeptMembers(s, keep);
    assert x in Kept(s, keep);
  }

  lemma {:induction false} KeptKeepsParentsFirst(s: seq<SharedNode>, keep: set<Handle>, listed: set<Handle>)
    requires ParentsFirst(s, listed)
    requires forall n :: n in s && n.handle in keep && n.parent in listed ==> n.parent in keep
    ensures ParentsFirst(Kept(s, keep), listed)
  {
    if s != [] {
      var front, n := s[..|s| - 1], s[|s| - 1];
      DropLast(s, listed);
      KeptKeepsParentsFirst(front, keep, listed);
      if n.handle in keep {
        if n.parent in listed { KeptHandle(front, keep, n.parent); }
        AppendFirst(Kept(front, keep), n, listed);
        assert Kept(s, keep) == Kept(front, keep) + [n];
      } else {
        assert Kept(s, keep) == Kept(front, keep);
      }
    }
  }

  lemma {:induction false} KeptPrefix(a: seq<SharedNode>, b: seq<SharedNode>, keep: set<Handle>)
    requires a <= b
    ensures Kept(a, keep) <= Kept(b, keep)
  {
    if |a| < |b| {
      KeptPrefix(a, b[..|b| - 1], keep);
    } else {
      assert a == b;
    }
  }

  lemma {:induction false} ByUniqueHandle(nodes: seq<SharedNode>, n: SharedNode)
    requires UniqueHandles(nodes) && n in nodes
    ensures ByHandle(nodes)[n.handle] == n
  {
    var k := |nodes| - 1;
    if n != nodes[k] {
      assert n in nodes[..k];
      ByUniqueHandle(nodes[..k], n);
    }
  }

  /** A listing as the import sees it: `nodes` of the raw listing, with the root's parent outside, and a filter over all of it. */
  ghost predicate Listing(raw: seq<SharedNode>, nodes: seq<SharedNode>, rootParent: Handle, wanted: set<Handle>, keep: set<Handle>) {
    && UniqueHandles(raw) && (forall n :: n in nodes ==> n in raw)
    && rootParent !in HandleSet(nodes) && ChildrenOf(nodes, rootParent) != []
    && IsAncestry(ByHandle(raw), wanted, keep)
  }

  /** What the filter keeps of the reached nodes still has every listed parent first. */
  lemma FilterKeepsParents(raw: seq<SharedNode>, nodes: seq<SharedNode>, rootParent: Handle, wanted: set<Handle>, keep: set<Handle>)
    requires Listing(raw, nodes, rootParent, wanted, keep)
    ensures ParentsFirst(Kept(Reached(nodes, rootParent), keep), HandleSet(nodes))
  {
    var reached := Reached(nodes, rootParent);
    ReachedFollowParentsExactly(nodes, rootParent);
    forall n | n in reached && n.handle in keep && n.parent in HandleSet(nodes) ensures n.parent in keep {
      var p :| p in nodes && p.handle == n.parent;
      assert p in raw && n in raw;
      ByUniqueHandle(raw, n);
    }
    KeptKeepsParentsFirst(reached, keep, HandleSet(nodes));
  }

  lemma ParentEarlier(s: seq<SharedNode>, listed: set<Handle>, k: nat)
    requires ParentsFirst(s, listed) && k < |s| && s[k].parent in listed
    ensures exists i: nat :: i < k && s[i].handle == s[k].parent
  {
    var x :| x in s[..k] && x.handle == s[k].parent;
    var i: nat :| i < k && s[i] == x;
  }

  lemma {:induction false} KeptIsUnique(nodes: seq<SharedNode>, keep: set<Handle>)
    requires UniqueHandles(nodes)
    ensures UniqueHandles(Kept(nodes, keep))
  {
    if nodes != [] {
      var front, n := nodes[..|nodes| - 1], nodes[|nodes| - 1];
      KeptIsUnique(front, keep);
      KeptMembers(front, keep);
      UniqueLast(nodes);
      assert n.handle !in HandleSet(Kept(front, keep));
      AppendHandle(Kept(front, keep), n);
    }
  }

  lemma KeptOrder(raw: seq<SharedNode>, nodes: seq<SharedNode>, rootParent: Handle, wanted: set<Handle>, keep: set<Handle>, k: nat)
    requires Listing(raw, nodes, rootParent, wanted, keep)
    ensures var order := Kept(ImportOrder(nodes, rootParent), keep);
      && UniqueHandles(order)
      && (k < |order| && k < |Kept(Reached(nodes, rootParent), keep)| && order[k].parent in HandleSet(nodes)
          ==> exists i: nat :: i < k && order[i].handle == order[k].parent)
  {
    EachHandleOnce(nodes, rootParent);
    KeptIsUnique(ImportOrder(nodes, rootParent), keep);
    KeptPrefix(Reached(nodes, rootParent), ImportOrder(nodes, rootParent), keep);
    FilterKeepsParents(raw, nodes, rootParent, wanted, keep);
    PrefixOrder(Kept(Reached(nodes, rootParent), keep), Kept(ImportOrder(nodes, rootParent), keep), HandleSet(nodes), k);
  }

  /** A parent found earlier in a prefix is found earlier in the whole. */
  lemma PrefixOrder(kept: seq<SharedNode>, order: seq<SharedNode>, listed: set<Handle>, k: nat)
    requires kept <= order && ParentsFirst(kept, listed)
    ensures k < |kept| && order[k].parent in listed ==> exists i: nat :: i < k && order[i].handle == order[k].parent
  {
    if k < |kept| && order[k].parent in listed {
      ParentEarlier(kept, listed, k);
      var i: nat :| i < k && kept[i].handle == kept[k].parent;
      assert order[i] == kept[i];
    }
  }

  lemma {:induction false} KeptAll(order: seq<SharedNode>, keep: set<Handle>)
    requires forall i :: 0 <= i < |order| ==> order[i].handle in keep
    ensures Kept(order, keep) == order
  {
    if order != [] {
      KeptAll(order[..|order| - 1], keep);
    }
  }

  /** An import without a filter is one whose filter wants every listed handle. */
  lemma NoFilter(raw: seq<SharedNode>, order: seq<SharedNode>)
    requires forall n :: n in order ==> n in raw
    ensures var all := ByHandle(raw).Keys; IsAncestry(ByHandle(raw), all, all) && Kept(order, all) == order
  {
    var all := ByHandle(raw).Keys;
    assert all * all == all;
    forall i | 0 <= i < |order| ensures order[i].handle in all { assert order[i] in order; }
    KeptAll(order, all);
  }

  lemma LandsInParent(w: Setup, order: seq<SharedNode>, k: nat)
    requires UniqueHandles(order) && k < |order| && !ImportRun(w, order[..k]).aborted && Usable(w, order[k])
    requires exists i: nat :: i < k && order[i].handle == order[k].parent
    ensures exists i: nat :: i < k && order[i].handle == order[k].parent
              && CallsNext(w, order, k, match NewHandle(w, order[i], i) case Some(h) => h case None => w.target)
  {
    var i: nat :| i < k && order[i].handle == order[k].parent;
    ChildLandsInItsParent(w, order, k);
    var target :| LandsRight(w, order, k, target) && CallsNext(w, order, k, target);
  }

  /**
   * The hierarchy survives the import. With the root's parent outside the listing, every node reached and
   * kept by the filter is sent, after its listed parent, to that parent's new handle, or to the target
   * folder when the parent's own import failed.
   */
  lemma ImportKeepsHierarchy(w: Setup, raw: seq<SharedNode>, nodes: seq<SharedNode>, wanted: set<Handle>, keep: set<Handle>, k: nat)
    requires Listing(raw, nodes, w.rootParent, wanted, keep)
    ensures var order := Kept(ImportOrder(nodes, w.rootParent), keep);
      && k < |order| && k < |Kept(Reached(nodes, w.rootParent), keep)|
      && !ImportRun(w, order[..k]).aborted && Usable(w, order[k]) && order[k].parent in HandleSet(nodes)
      ==> exists i: nat :: i < k && order[i].handle == order[k].parent
            && CallsNext(w, order, k, match NewHandle(w, order[i], i) case Some(h) => h case None => w.target)
  {
    var order := Kept(ImportOrder(nodes, w.rootParent), keep);
    KeptOrder(raw, nodes, w.rootParent, wanted, keep, k);
    if k < |order| && k < |Kept(Reached(nodes, w.rootParent), keep)| && order[k].parent in HandleSet(nodes)
       && !ImportRun(w, order[..k]).aborted && Usable(w, order[k]) {
      LandsInParent(w, order, k);
    }
  }

  /** The same without a filter, for every node reached. */
  lemma UnfilteredImportKeepsHierarchy(w: Setup, nodes: seq<SharedNode>, k: nat)
    requires UniqueHandles(nodes) && w.rootParent !in HandleSet(nodes) && ChildrenOf(nodes, w.rootParent) != []
    ensures var order := ImportOrder(nodes, w.rootParent);
      && k < |order| && k < |Reached(nodes, w.rootParent)|
      && !ImportRun(w, order[..k]).aborted && Usable(w, order[k]) && order[k].parent in HandleSet(nodes)
      ==> exists i: nat :: i < k && order[i].handle == order[k].parent
            && CallsNext(w, order, k, match NewHandle(w, order[i], i) case Some(h) => h case None => w.target)
  {
    var all := ByHandle(nodes).Keys;
    EachHandleOnce(nodes, w.rootParent);
    NoFilter(nodes, ImportOrder(nodes, w.rootParent));
    NoFilter(nodes, Reached(nodes, w.rootParent));
    ImportKeepsHierarchy(w, nodes, nodes, all, all, k);
  }
}

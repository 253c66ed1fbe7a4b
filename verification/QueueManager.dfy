/** The file-backed queue (queue/manager.py): every mutation reloads, edits in place and saves. */
module QueueManager {
  import opened Basics
  import opened QueueModel

  /** `queue.json`, shared by every manager instance. */
  class QueueFile {
    var doc: Document
    constructor ()
      ensures doc == Missing
    {
      doc := Missing;
    }
  }

  datatype QueueError = CorruptionError | OwnershipError

  /**
   * One manager instance. Each method body runs under the instance mutex and the file lock, so it
   * is one atomic step on the shared file.
   */
  class QueueManager {
    const file: QueueFile
    var items: seq<QueueItem>
    var corrupt: bool

    constructor (file: QueueFile)
      ensures this.file == file
    {
      this.file := file;
      items := [];
      corrupt := false;
      new;
      Load();
    }

    /** `validate_unique_ids`: the loop over a growing set of seen ids. */
    static method IdsAreUnique(entries: seq<QueueItem>) returns (ok: bool)
      ensures ok <==> UniqueIds(entries)
    {
      var seen: set<string> := {};
      for k := 0 to |entries|
        invariant seen == set i | 0 <= i < k :: entries[i].id
        invariant UniqueIds(entries[..k])
      {
        if entries[k].id in seen {
          return false;
        }
        seen := seen + {entries[k].id};
      }
      assert entries[..|entries|] == entries;
      return true;
    }

    /** `_load`: nothing is kept unless every entry validates. */
    method Load()
      modifies this`items, this`corrupt
      ensures corrupt <==> Corrupt(file.doc)
      ensures items == if corrupt then [] else ItemsOf(file.doc)
    {
      corrupt := false;
      items := [];
      match file.doc {
        case Missing =>
        case Garbage => corrupt := true;
        case Entries(entries) =>
          var valid := forall i :: 0 <= i < |entries| ==> ValidItem(entries[i]);
          var unique := IdsAreUnique(entries);
          if valid && unique {
            items := entries;
          } else {
            corrupt := true;
          }
      }
    }

    /** `save`: refused while the file is corrupt. */
    method Save() returns (r: Result<(), QueueError>)
      modifies file
      ensures corrupt ==> r == Err(CorruptionError) && file.doc == old(file.doc)
      ensures !corrupt ==> r == Ok(()) && file.doc == Entries(items)
    {
      if corrupt {
        return Err(CorruptionError);
      }
      file.doc := Entries(items);
      return Ok(());
    }

    method Add(item: QueueItem, newId: string, now: real) returns (r: Result<string, QueueError>)
      modifies this`items, this`corrupt, file
      ensures old(Corrupt(file.doc)) ==> r == Err(CorruptionError) && file.doc == old(file.doc)
      ensures !old(Corrupt(file.doc)) ==>
                && r == Ok(Filled(item, newId, now).id)
                && file.doc == Entries(old(ItemsOf(file.doc)) + [Filled(item, newId, now)])
    {
      Load();
      var stored := Filled(item, newId, now);
      items := items + [stored];
      var s := Save();
      return if s.Ok? then Ok(stored.id) else Err(s.error);
    }

    /** The list comprehension of `remove`. */
    static method Without(items: seq<QueueItem>, id: string) returns (kept: seq<QueueItem>)
      ensures kept == QueueModel.Remove(items, id)
    {
      kept := [];
      for k := 0 to |items|
        invariant kept + QueueModel.Remove(items[k..], id) == QueueModel.Remove(items, id)
      {
        var rest := items[k..];
        assert rest[0] == items[k] && rest[1..] == items[k + 1..];
        if items[k].id != id {
          assert kept + ([items[k]] + QueueModel.Remove(rest[1..], id)) == kept + [items[k]] + QueueModel.Remove(rest[1..], id);
          kept := kept + [items[k]];
        } else {
          assert QueueModel.Remove(rest, id) == QueueModel.Remove(rest[1..], id);
        }
      }
      assert items[|items|..] == [];
    }

    method Remove(id: string) returns (removed: bool)
      modifies this`items, this`corrupt, file
      ensures old(Corrupt(file.doc)) ==> !removed && file.doc == old(file.doc)
      ensures !old(Corrupt(file.doc)) ==>
                && ItemsOf(file.doc) == QueueModel.Remove(old(ItemsOf(file.doc)), id)
                && (removed <==> |ItemsOf(file.doc)| != |old(ItemsOf(file.doc))|)
    {
      Load();
      var before := |items|;
      RemoveShape(items, id);
      items := Without(items, id);
      if |items| != before {
        var _ := Save();
        return true;
      }
      return false;
    }

    /** The search loop shared by the single-job operations. */
    static method Find(items: seq<QueueItem>, id: string) returns (i: nat)
      ensures i == Position(items, id)
    {
      i := 0;
      while i < |items| && items[i].id != id
        invariant i <= |items| && forall k :: 0 <= k < i ==> items[k].id != id
      {
        i := i + 1;
      }
    }

    /** `update_status`: a caller presenting a lease must still hold it. */
    method UpdateStatus(id: string, status: JobStatus, error: Option<string>,
                        runId: Option<string>, epoch: Option<int>, now: real)
      returns (r: Result<(), QueueError>)
      modifies this`items, this`corrupt, file
      ensures r.Err? ==> file.doc == old(file.doc)
      ensures old(Corrupt(file.doc)) ==> r == Err(CorruptionError) && file.doc == old(file.doc)
      ensures !old(Corrupt(file.doc)) ==>
                var (q, w) := QueueModel.UpdateStatus(old(ItemsOf(file.doc)), id, status, error, runId, epoch, now);
                && r == (if w == Refused then Err(OwnershipError) else Ok(()))
                && ItemsOf(file.doc) == q
    {
      Load();
      var i := Find(items, id);
      if i < |items| {
        if runId.Some? && !Owns(items[i], runId.value, epoch) {
          return Err(OwnershipError);
        }
        var e := items[i];
        e := e.(status := status);
        if error.Some? && error.value != "" {
          e := e.(error := error);
        }
        if status.Terminal() {
          e := e.(finished := At(now));
        }
        if !status.Active? {
          e := e.(runId := None, heartbeat := Null);
        }
        assert e == WithStatus(items[i], status, error, now);
        items := items[i := e];
      }
      r := Save();
    }

    method MarkActive(id: string, runId: string, now: real, lease: real)
      returns (r: Result<Option<int>, QueueError>)
      modifies this`items, this`corrupt, file
      ensures old(Corrupt(file.doc)) ==> r == Err(CorruptionError) && file.doc == old(file.doc)
      ensures !old(Corrupt(file.doc)) ==>
                var (q, w) := QueueModel.MarkActive(old(ItemsOf(file.doc)), id, runId, now, lease);
                && ItemsOf(file.doc) == q
                && r == match w { case NoJob => Ok(None) case LeasedElsewhere => Err(OwnershipError)
                                  case NewEpoch(e) => Ok(Some(e)) }
    {
      Load();
      ghost var q := items;
      var i := Find(items, id);
      if i < |items| {
        if items[i].runId != Some(runId) && LeaseLive(items[i], now, lease) {
          assert QueueModel.MarkActive(q, id, runId, now, lease) == (q, LeasedElsewhere);
          return Err(OwnershipError);
        }
        var e := items[i];
        e := e.(status := Active, runId := Some(runId), heartbeat := At(now), leaseEpoch := e.leaseEpoch + 1);
        items := items[i := e];
        assert QueueModel.MarkActive(q, id, runId, now, lease) == (items, NewEpoch(e.leaseEpoch));
        var _ := Save();
        return Ok(Some(e.leaseEpoch));
      }
      assert QueueModel.MarkActive(q, id, runId, now, lease) == (q, NoJob);
      var s := Save();
      return if s.Ok? then Ok(None) else Err(s.error);
    }

    /** `touch`: False also covers a corrupt file, which loads as an empty queue. */
    method Touch(id: string, runId: string, epoch: Option<int>, now: real) returns (owned: bool)
      modifies this`items, this`corrupt, file
      ensures old(Corrupt(file.doc)) ==> !owned && file.doc == old(file.doc)
      ensures !old(Corrupt(file.doc)) ==>
                (ItemsOf(file.doc), owned) == QueueModel.Touch(old(ItemsOf(file.doc)), id, runId, epoch, now)
    {
      Load();
      var i := Find(items, id);
      if i == |items| {
        return false;
      }
      if !Owns(items[i], runId, epoch) {
        return false;
      }
      if !items[i].status.Active? {
        return false;
      }
      items := items[i := items[i].(heartbeat := At(now))];
      var _ := Save();
      return true;
    }

    /** `_recover_interrupted_locked`: the pass over the loaded items. */
    method RecoverLoaded(now: real, lease: real) returns (recovered: seq<QueueItem>)
      modifies this`items
      ensures items == Recovered(old(items), now, lease)
      ensures recovered == Expired(old(items), now, lease)
      ensures recovered == [] ==> items == old(items)
    {
      recovered := [];
      ghost var start := items;
      for i := 0 to |items|
        invariant |items| == |start|
        invariant forall k :: 0 <= k < i ==> items[k] == RecoverItem(start[k], now, lease)
        invariant forall k :: i <= k < |items| ==> items[k] == start[k]
        invariant recovered == Expired(start[..i], now, lease)
        invariant recovered == [] ==> items == start
      {
        assert start[..i + 1][..i] == start[..i];
        if items[i].status.Active? {
          var stale := true;
          if items[i].heartbeat.At? {
            stale := now - items[i].heartbeat.time > lease;
          }
          if stale {
            items := items[i := items[i].(status := Interrupted, runId := None, heartbeat := Null)];
            recovered := recovered + [items[i]];
          }
        }
      }
      assert start[..|start|] == start;
    }

    method RecoverInterrupted(now: real, lease: real) returns (recovered: seq<QueueItem>)
      modifies this`items, this`corrupt, file
      ensures old(Corrupt(file.doc)) ==> recovered == [] && file.doc == old(file.doc)
      ensures !old(Corrupt(file.doc)) ==>
                ItemsOf(file.doc) == Recovered(old(ItemsOf(file.doc)), now, lease) && recovered == Expired(old(ItemsOf(file.doc)), now, lease)
    {
      Load();
      recovered := RecoverLoaded(now, lease);
      if recovered != [] {
        var _ := Save();
      }
    }

    /** The search loop of `claim_next`. */
    static method FindRunnable(items: seq<QueueItem>) returns (i: nat)
      ensures i == FirstRunnable(items)
    {
      i := 0;
      while i < |items| && !items[i].status.Runnable()
        invariant i <= |items| && forall k :: 0 <= k < i ==> !items[k].status.Runnable()
      {
        i := i + 1;
      }
    }

    /** `claim_next`: reload, recover, pick and lease under one lock. */
    method ClaimNext(runId: string, now: real, lease: real, stamp: real) returns (chosen: Option<QueueItem>)
      modifies this`items, this`corrupt, file
      ensures old(Corrupt(file.doc)) ==> chosen == None && file.doc == old(file.doc)
      ensures !old(Corrupt(file.doc)) ==>
                (ItemsOf(file.doc), chosen) == Claim(old(ItemsOf(file.doc)), runId, now, lease, stamp)
    {
      Load();
      ghost var q := items;
      var recovered := RecoverLoaded(now, lease);
      ghost var r := items;
      var i := FindRunnable(items);
      chosen := None;
      if i < |items| {
        var e := items[i];
        e := e.(status := Active, runId := Some(runId), heartbeat := At(stamp), leaseEpoch := e.leaseEpoch + 1);
        items := items[i := e];
        chosen := Some(e);
        assert e == Leased(r[i], runId, stamp);
      }
      assert (items, chosen) == Claim(q, runId, now, lease, stamp);
      if chosen != None || recovered != [] {
        var _ := Save();
      }
    }

    method Retry(id: string) returns (ok: bool)
      modifies this`items, this`corrupt, file
      ensures old(Corrupt(file.doc)) ==> !ok && file.doc == old(file.doc)
      ensures !old(Corrupt(file.doc)) ==>
                (ItemsOf(file.doc), ok) == QueueModel.Retry(old(ItemsOf(file.doc)), id)
    {
      Load();
      for i := 0 to |items|
        invariant items == (if corrupt then [] else ItemsOf(file.doc))
        invariant forall k :: 0 <= k < i && items[k].id == id ==>
                    items[k].status !in {Failed, Interrupted, Canceled}
      {
        if items[i].id == id && items[i].status in {Failed, Interrupted, Canceled} {
          assert i == Position(items, id);
          items := items[i := items[i].(status := Pending, error := None, finished := Null,
                                        runId := None, heartbeat := Null)];
          var _ := Save();
          return true;
        }
      }
      return false;
    }

    /** The list comprehension of `clear_done`. */
    static method Unfinished(items: seq<QueueItem>) returns (kept: seq<QueueItem>)
      ensures kept == QueueModel.ClearDone(items)
    {
      kept := [];
      for k := 0 to |items|
        invariant kept + QueueModel.ClearDone(items[k..]) == QueueModel.ClearDone(items)
      {
        var rest := items[k..];
        assert rest[0] == items[k] && rest[1..] == items[k + 1..];
        if items[k].status !in {Done, Canceled} {
          assert kept + ([items[k]] + QueueModel.ClearDone(rest[1..])) == kept + [items[k]] + QueueModel.ClearDone(rest[1..]);
          kept := kept + [items[k]];
        } else {
          assert QueueModel.ClearDone(rest) == QueueModel.ClearDone(rest[1..]);
        }
      }
      assert items[|items|..] == [];
    }

    method ClearDone() returns (n: nat)
      modifies this`items, this`corrupt, file
      ensures old(Corrupt(file.doc)) ==> n == 0 && file.doc == old(file.doc)
      ensures !old(Corrupt(file.doc)) ==>
                && ItemsOf(file.doc) == QueueModel.ClearDone(old(ItemsOf(file.doc)))
                && n == |old(ItemsOf(file.doc))| - |ItemsOf(file.doc)|
    {
      Load();
      var before := |items|;
      ClearShape(items);
      items := Unfinished(items);
      if |items| != before {
        var _ := Save();
      }
      return before - |items|;
    }
  }

  lemma {:induction false} RemoveShape(q: seq<QueueItem>, id: string)
    ensures |QueueModel.Remove(q, id)| <= |q|
    ensures |QueueModel.Remove(q, id)| == |q| ==> QueueModel.Remove(q, id) == q
  {
    if q != [] { RemoveShape(q[1..], id); }
  }

  lemma {:induction false} ClearShape(q: seq<QueueItem>)
    ensures |QueueModel.ClearDone(q)| <= |q|
    ensures |QueueModel.ClearDone(q)| == |q| ==> QueueModel.ClearDone(q) == q
  {
    if q != [] { ClearShape(q[1..]); }
  }
}

/**
 * The generation-counted CDN URL refresh (`_current_url`, `_refresh_url` in core/downloader.py):
 * any number of threads, the short `_cdn_url_lock` and the long `_url_refresh_lock`.
 */
module UrlRefresh {
  import opened Basics

  /** Where one `_refresh_url(seen)` call stands, and which locks it holds there. */
  datatype Call =
    | Entering(seen: nat)                    // no lock
    | Checking(seen: nat)                    // cdn
    | Queued(seen: nat)                      // no lock, wants refresh
    | Admitted(seen: nat)                    // refresh, wants cdn
    | Rechecking(seen: nat)                  // refresh and cdn
    | Resolving(seen: nat)                   // refresh, inside resolver()
    | Resolved(seen: nat, answer: string)     // refresh, wants cdn
    | Storing(seen: nat, answer: string)      // refresh and cdn
    | Returned(seen: nat, result: string)
    | Raised(seen: nat)
  {
    predicate HoldsCdn() { Checking? || Rechecking? || Storing? }

    predicate HoldsRefresh() { Admitted? || Rechecking? || Resolving? || Resolved? || Storing? }

    predicate Finished() { Returned? || Raised? }

    /** The resolver has answered and its URL is not stored yet. */
    predicate Carries() { Resolved? || Storing? }
  }

  /**
   * `url` and `generation` are the shared fields. `urls` is every URL the field has held, by
   * generation, and `resolved` lists the generation each successful resolver call was made for.
   */
  datatype State = State(
    url: string, generation: nat, hasResolver: bool,
    cdnLock: Option<nat>, refreshLock: Option<nat>, calls: map<nat, Call>,
    urls: seq<string>, resolved: seq<nat>)

  datatype Action =
    | Invoke(t: nat, seen: nat)   // a worker whose request on generation `seen` was refused
    | Advance(t: nat)
    | ResolverReturns(t: nat, answer: string)
    | ResolverFails(t: nat)

  function At(s: State, t: nat, c: Call): State { s.(calls := s.calls[t := c]) }

  ghost predicate Next(s: State, a: Action, s': State) {
    match a
    case Invoke(t, seen) =>
      // `seen` was read by `_current_url`, so it is a generation that has existed.
      t !in s.calls && seen <= s.generation && s' == At(s, t, Entering(seen))
    case Advance(t) => t in s.calls && Advances(s, t, s.calls[t], s')
    case ResolverReturns(t, answer) =>
      && t in s.calls && s.calls[t].Resolving?
      && s' == At(s, t, Resolved(s.calls[t].seen, answer)).(resolved := s.resolved + [s.calls[t].seen])
    case ResolverFails(t) =>
      && t in s.calls && s.calls[t].Resolving?
      && s' == At(s, t, Raised(s.calls[t].seen)).(refreshLock := None)
  }

  ghost predicate Advances(s: State, t: nat, c: Call, s': State) {
    match c
    case Entering(seen) => s.cdnLock == None && s' == At(s, t, Checking(seen)).(cdnLock := Some(t))
    case Checking(seen) =>
      s' == At(s, t, if s.generation != seen then Returned(seen, s.url)
                     else if !s.hasResolver then Raised(seen) else Queued(seen)).(cdnLock := None)
    case Queued(seen) => s.refreshLock == None && s' == At(s, t, Admitted(seen)).(refreshLock := Some(t))
    case Admitted(seen) => s.cdnLock == None && s' == At(s, t, Rechecking(seen)).(cdnLock := Some(t))
    case Rechecking(seen) =>
      s' == if s.generation != seen then At(s, t, Returned(seen, s.url)).(cdnLock := None, refreshLock := None)
            else At(s, t, Resolving(seen)).(cdnLock := None)
    case Resolved(seen, answer) => s.cdnLock == None && s' == At(s, t, Storing(seen, answer)).(cdnLock := Some(t))
    case Storing(seen, answer) =>
      s' == if s.generation == seen
            then At(s, t, Returned(seen, answer)).(url := answer, generation := s.generation + 1, urls := s.urls + [answer],
                                                  cdnLock := None, refreshLock := None)
            else At(s, t, Returned(seen, s.url)).(cdnLock := None, refreshLock := None)
    case _ => false
  }

  ghost predicate Init(s: State) {
    && s.generation == 0 && s.urls == [s.url] && s.resolved == []
    && s.cdnLock == None && s.refreshLock == None && s.calls == map[]
  }

  // ---- Invariant

  ghost predicate CallOk(s: State, t: nat)
    requires t in s.calls
  {
    var c := s.calls[t];
    && c.seen <= s.generation
    && (c.HoldsCdn() <==> s.cdnLock == Some(t))
    && (c.HoldsRefresh() <==> s.refreshLock == Some(t))
    && (c.Resolving? || c.Carries() ==> c.seen == s.generation)
    && (c.Returned? ==> exists g :: c.seen < g < |s.urls| && s.urls[g] == c.result)
  }

  /** A fresh URL is on its way into the field. */
  ghost predicate InFlight(s: State) { exists t :: t in s.calls && s.calls[t].Carries() }

  ghost predicate Inv(s: State) {
    && |s.urls| == s.generation + 1 && s.urls[s.generation] == s.url
    && (s.cdnLock.Some? ==> s.cdnLock.value in s.calls)
    && (s.refreshLock.Some? ==> s.refreshLock.value in s.calls)
    && (forall t :: t in s.calls ==> CallOk(s, t))
    && |s.resolved| == s.generation + (if InFlight(s) then 1 else 0)
    && (forall k :: 0 <= k < |s.resolved| ==> s.resolved[k] == k)
  }

  lemma OneHolder(s: State, t: nat, u: nat)
    requires Inv(s) && t in s.calls && u in s.calls
    requires s.calls[t].HoldsRefresh() && s.calls[u].HoldsRefresh()
    ensures t == u
  {
    assert CallOk(s, t) && CallOk(s, u);
  }

  lemma NotInFlight(s: State, t: nat)
    requires Inv(s) && t in s.calls && s.calls[t].HoldsRefresh() && !s.calls[t].Carries()
    ensures !InFlight(s)
  {
    forall u | u in s.calls ensures !s.calls[u].Carries() {
      if s.calls[u].Carries() { OneHolder(s, t, u); }
    }
  }

  lemma ResolverStep(s: State, t: nat, s': State)
    requires Inv(s) && (Next(s, ResolverFails(t), s') || exists f :: Next(s, ResolverReturns(t, f), s'))
    ensures Inv(s')
  {
    assert CallOk(s, t);
    NotInFlight(s, t);
    forall u | u in s'.calls ensures CallOk(s', u) {
      if u != t { assert CallOk(s, u); }
    }
    if s'.calls[t].Raised? {
      forall u | u in s'.calls ensures !s'.calls[u].Carries() {
        assert u != t ==> s'.calls[u] == s.calls[u];
      }
    } else {
      assert s'.calls[t].Carries();
    }
  }

  lemma StoreStep(s: State, t: nat, s': State)
    requires Inv(s) && t in s.calls && s.calls[t].Storing? && Advances(s, t, s.calls[t], s')
    ensures Inv(s') && s'.generation == s.generation + 1
  {
    assert CallOk(s, t);
    assert s.calls[t].Carries() && InFlight(s);
    forall u | u in s'.calls ensures CallOk(s', u) && !s'.calls[u].Carries() {
      if u != t {
        assert CallOk(s, u);
        if s.calls[u].HoldsRefresh() { OneHolder(s, t, u); }
        if s.calls[u].Returned? {
          var g :| s.calls[u].seen < g < |s.urls| && s.urls[g] == s.calls[u].result;
          assert s'.urls[g] == s.calls[u].result;
        }
      } else {
        assert s'.urls[s.generation + 1] == s'.calls[t].result;
      }
    }
  }

  lemma SameFlight(s: State, t: nat, s': State)
    requires t in s'.calls && s'.calls == s.calls[t := s'.calls[t]]
    requires s'.calls[t].Carries() <==> t in s.calls && s.calls[t].Carries()
    ensures InFlight(s') <==> InFlight(s)
  {
    if InFlight(s) {
      var u :| u in s.calls && s.calls[u].Carries();
      assert u in s'.calls && s'.calls[u].Carries();
    }
    if InFlight(s') {
      var u :| u in s'.calls && s'.calls[u].Carries();
      assert u in s.calls && s.calls[u].Carries();
    }
  }

  /** Steps that leave the URL and the resolver log alone. */
  lemma QuietStep(s: State, t: nat, s': State)
    requires Inv(s) && t in s.calls && !s.calls[t].Storing? && Advances(s, t, s.calls[t], s')
    ensures Inv(s')
  {
    assert CallOk(s, t);
    forall u | u in s'.calls ensures CallOk(s', u) {
      if u != t {
        assert CallOk(s, u);
      } else if s'.calls[t].Returned? {
        assert s'.urls[s'.generation] == s'.calls[t].result;
      }
    }
    SameFlight(s, t, s');
  }

  lemma InvokeStep(s: State, t: nat, seen: nat, s': State)
    requires Inv(s) && Next(s, Invoke(t, seen), s')
    ensures Inv(s')
  {
    forall u | u in s'.calls ensures CallOk(s', u) {
      if u != t { assert CallOk(s, u); }
    }
    SameFlight(s, t, s');
  }

  lemma StepKeepsInv(s: State, a: Action, s': State)
    requires Inv(s) && Next(s, a, s')
    ensures Inv(s')
  {
    match a
    case Invoke(t, seen) => InvokeStep(s, t, seen, s');
    case Advance(t) => if s.calls[t].Storing? { StoreStep(s, t, s'); } else { QuietStep(s, t, s'); }
    case ResolverReturns(t, f) => ResolverStep(s, t, s');
    case ResolverFails(t) => ResolverStep(s, t, s');
  }

  // ---- Whole runs

  datatype Run = Run(states: seq<State>, actions: seq<Action>)

  ghost predicate Link(r: Run, k: nat)
    requires k < |r.actions| && |r.states| == |r.actions| + 1
  {
    Next(r.states[k], r.actions[k], r.states[k + 1])
  }

  ghost predicate IsRun(r: Run) {
    && |r.states| == |r.actions| + 1 && Init(r.states[0])
    && forall k :: 0 <= k < |r.actions| ==> Link(r, k)
  }

  lemma {:induction false} RunKeepsInv(r: Run, k: nat)
    requires IsRun(r) && k <= |r.actions|
    ensures Inv(r.states[k])
  {
    if k > 0 {
      RunKeepsInv(r, k - 1);
      assert Link(r, k - 1);
      StepKeepsInv(r.states[k - 1], r.actions[k - 1], r.states[k]);
    }
  }

  /** In every run at most one call is between the checks and the store: resolving, or carrying a fresh URL. */
  lemma SingleFlight(r: Run, k: nat, t: nat, u: nat)
    requires IsRun(r) && k <= |r.actions| && t in r.states[k].calls && u in r.states[k].calls
    requires r.states[k].calls[t].HoldsRefresh() && r.states[k].calls[u].HoldsRefresh()
    ensures t == u
  {
    RunKeepsInv(r, k);
    OneHolder(r.states[k], t, u);
  }

  /**
   * Successful resolver calls and generations go hand in hand: the n-th success was made for
   * generation n, so none is refreshed twice, and all but one still on its way have been counted.
   */
  lemma OneSuccessPerGeneration(r: Run, k: nat)
    requires IsRun(r) && k <= |r.actions|
    ensures var s := r.states[k];
            && (forall n :: 0 <= n < |s.resolved| ==> s.resolved[n] == n)
            && s.generation <= |s.resolved| <= s.generation + 1
            && (|s.resolved| == s.generation + 1 <==> InFlight(s))
  {
    RunKeepsInv(r, k);
  }

  /** The generation moves only when a fresh URL is stored, by one, and a failing resolver changes nothing shared. */
  lemma GenerationMovesByOne(r: Run, k: nat)
    requires IsRun(r) && k < |r.actions|
    ensures var s, s' := r.states[k], r.states[k + 1];
            && (s'.generation == s.generation || s'.generation == s.generation + 1)
            && (s'.generation != s.generation ==>
                  exists t :: r.actions[k] == Advance(t) && t in s.calls && s.calls[t].Storing? && s'.url == s.calls[t].answer)
            && (r.actions[k].ResolverFails? ==> s'.url == s.url && s'.generation == s.generation && s'.resolved == s.resolved)
            && s.urls <= s'.urls
  {
    assert Link(r, k);
  }

  /** A call that returns hands back the URL of a generation newer than the one its caller saw. */
  lemma ReturnIsNewer(r: Run, k: nat, t: nat)
    requires IsRun(r) && k <= |r.actions|
    requires t in r.states[k].calls && r.states[k].calls[t].Returned?
    ensures var s := r.states[k];
            exists g :: s.calls[t].seen < g <= s.generation && g < |s.urls| && s.urls[g] == s.calls[t].result
  {
    RunKeepsInv(r, k);
    var s := r.states[k];
    assert CallOk(s, t);
    var g :| s.calls[t].seen < g < |s.urls| && s.urls[g] == s.calls[t].result;
  }

  ghost predicate CanMove(s: State, t: nat) {
    && t in s.calls
    && ((exists s' :: Next(s, Advance(t), s')) || (exists s' :: Next(s, ResolverFails(t), s')))
  }

  lemma UnblockedCallMoves(s: State, t: nat)
    requires t in s.calls && !s.calls[t].Finished()
    requires (s.calls[t].Entering? || s.calls[t].Admitted? || s.calls[t].Resolved?) ==> s.cdnLock == None
    requires s.calls[t].Queued? ==> s.refreshLock == None
    ensures CanMove(s, t)
  {
    match s.calls[t]
    case Entering(seen) => assert Next(s, Advance(t), At(s, t, Checking(seen)).(cdnLock := Some(t)));
    case Checking(seen) =>
      assert Next(s, Advance(t), At(s, t, if s.generation != seen then Returned(seen, s.url)
                                          else if !s.hasResolver then Raised(seen) else Queued(seen)).(cdnLock := None));
    case Queued(seen) => assert Next(s, Advance(t), At(s, t, Admitted(seen)).(refreshLock := Some(t)));
    case Admitted(seen) => assert Next(s, Advance(t), At(s, t, Rechecking(seen)).(cdnLock := Some(t)));
    case Rechecking(seen) =>
      assert Next(s, Advance(t),
                  if s.generation != seen then At(s, t, Returned(seen, s.url)).(cdnLock := None, refreshLock := None)
                  else At(s, t, Resolving(seen)).(cdnLock := None));
    case Resolving(seen) => assert Next(s, ResolverFails(t), At(s, t, Raised(seen)).(refreshLock := None));
    case Resolved(seen, answer) => assert Next(s, Advance(t), At(s, t, Storing(seen, answer)).(cdnLock := Some(t)));
    case Storing(seen, answer) =>
      assert Next(s, Advance(t),
                  if s.generation == seen
                  then At(s, t, Returned(seen, answer)).(url := answer, generation := s.generation + 1, urls := s.urls + [answer],
                                                        cdnLock := None, refreshLock := None)
                  else At(s, t, Returned(seen, s.url)).(cdnLock := None, refreshLock := None));
  }

  /** The two locks never deadlock: while a call is unfinished, some call can move. */
  lemma NoDeadlock(r: Run, k: nat, t: nat)
    requires IsRun(r) && k <= |r.actions|
    requires t in r.states[k].calls && !r.states[k].calls[t].Finished()
    ensures exists u :: CanMove(r.states[k], u)
  {
    RunKeepsInv(r, k);
    var s := r.states[k];
    if s.cdnLock.Some? {
      assert CallOk(s, s.cdnLock.value);
      UnblockedCallMoves(s, s.cdnLock.value);
    } else if s.refreshLock.Some? {
      assert CallOk(s, s.refreshLock.value);
      UnblockedCallMoves(s, s.refreshLock.value);
    } else {
      assert CallOk(s, t);
      UnblockedCallMoves(s, t);
    }
  }
}

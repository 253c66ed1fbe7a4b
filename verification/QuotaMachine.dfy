/** Any number of uploads sharing one quota ledger (upload_support.py, commands/upload_cmd.py). */
module QuotaMachine {
  import opened Basics
  import opened QuotaLedger

  type FileId = nat

  datatype Status = Open | Kept | GivenBack

  /** One reservation ever made; `landed` once the server may hold bytes of it. */
  datatype Reservation = Reservation(file: FileId, email: Email, size: nat, status: Status, landed: bool)

  /** One file's loop: the accounts it tried, and the index of the reservation it holds now or held when it escaped. */
  datatype Upload = Upload(size: nat, tree: bool, attempted: set<Email>, current: Option<nat>, done: bool)

  /** `refreshed` collects the accounts whose balance was ever read live. */
  datatype State = State(free: map<Email, int>, uploads: map<FileId, Upload>, log: seq<Reservation>, refreshed: set<Email>)

  datatype Action =
    | Begin(file: FileId, size: nat, tree: bool)
    | Reserve(file: FileId, email: Email)
    | GiveUp(file: FileId)
    | Settle(file: FileId, outcome: Outcome, live: int)

  ghost predicate Init(s: State, initial: map<Email, int>) {
    && s.free.Keys == initial.Keys && (forall e :: e in initial ==> s.free[e] == Max(0, initial[e]))
    && s.uploads == map[] && s.log == [] && s.refreshed == {}
  }

  /** The log after the attempt on the reservation at i ended; one that escaped leaves it open. */
  function Closed(log: seq<Reservation>, i: nat, o: Outcome, tree: bool): seq<Reservation>
    requires i < |log|
  {
    log[i := log[i].(status := if o.Escaped? then log[i].status else if GivesBack(o, tree) then GivenBack else Kept, landed := Lands(o))]
  }

  ghost predicate Next(s: State, a: Action, t: State) {
    match a
    case Begin(f, size, tree) =>
      f !in s.uploads && t == s.(uploads := s.uploads[f := Upload(size, tree, {}, None, false)])
    case Reserve(f, e) =>
      && f in s.uploads && !s.uploads[f].done && s.uploads[f].current.None?
      && var u := s.uploads[f];
      && Best(s.free, u.size, u.attempted, e)
      && t == s.(free := s.free[e := s.free[e] - u.size], log := s.log + [Reservation(f, e, u.size, Open, false)],
                 uploads := s.uploads[f := u.(current := Some(|s.log|))])
    case GiveUp(f) =>
      && f in s.uploads && !s.uploads[f].done && s.uploads[f].current.None?
      && NoneFits(s.free, s.uploads[f].size, s.uploads[f].attempted)
      && t == s.(uploads := s.uploads[f := s.uploads[f].(done := true)])
    case Settle(f, o, live) =>
      && f in s.uploads && !s.uploads[f].done && s.uploads[f].current.Some? && s.uploads[f].current.value < |s.log|
      && Possible(o, s.uploads[f].tree)
      && var u, i := s.uploads[f], s.uploads[f].current.value;
      && var e := s.log[i].email;
      && t == State(Settled(s.free, e, u.size, u.tree, o, live),
                    s.uploads[f := if Retries(o, u.tree) then u.(attempted := u.attempted + {e}, current := None)
                                   else u.(current := if o.Escaped? then u.current else None, done := true)],
                    Closed(s.log, i, o, u.tree),
                    s.refreshed + if Refreshes(o, u.tree) then {e} else {})
  }

  // ---- What is charged to an account

  /** Bytes of an account's reservations that were not given back: those in flight and those kept. */
  function Charged(log: seq<Reservation>, e: Email): nat {
    if log == [] then 0
    else
      var r := log[|log| - 1];
      Charged(log[..|log| - 1], e) + if r.email == e && r.status != GivenBack then r.size else 0
  }

  /** Bytes of an account that landed although their reservation was given back. */
  function Leaked(log: seq<Reservation>, e: Email): nat {
    if log == [] then 0
    else
      var r := log[|log| - 1];
      Leaked(log[..|log| - 1], e) + if r.email == e && r.status == GivenBack && r.landed then r.size else 0
  }

  lemma {:induction false} ClosingChanges(log: seq<Reservation>, i: nat, r: Reservation, e: Email)
    requires i < |log| && r.email == log[i].email && r.size == log[i].size && log[i].status == Open
    ensures Charged(log[i := r], e) == Charged(log, e) - if r.email == e && r.status == GivenBack then r.size else 0
    ensures Leaked(log[i := r], e) == Leaked(log, e) + if r.email == e && r.status == GivenBack && r.landed then r.size else 0
  {
    var k := |log| - 1;
    if i == k {
      assert log[i := r][..k] == log[..k];
    } else {
      assert log[i := r][..k] == log[..k][i := r];
      ClosingChanges(log[..k], i, r, e);
    }
  }

  lemma OpeningCharges(log: seq<Reservation>, r: Reservation, e: Email)
    ensures r.status == Open ==> Charged(log + [r], e) == Charged(log, e) + (if r.email == e then r.size else 0)
    ensures r.status == Open ==> Leaked(log + [r], e) == Leaked(log, e)
  {
    assert (log + [r])[..|log|] == log;
  }

  // ---- The invariant

  /** Balances are never negative, and together with what is charged never exceed what there was. */
  ghost predicate Solvent(s: State, initial: map<Email, int>) {
    && s.free.Keys == initial.Keys
    && forall e :: e in s.free ==>
         && s.free[e] >= 0 && s.free[e] + Charged(s.log, e) <= Max(0, initial[e])
         && (e !in s.refreshed ==> s.free[e] + Charged(s.log, e) == Max(0, initial[e]))
  }

  /** Reservation i belongs to its file's loop: held now, or closed on an account the loop will not try again. */
  ghost predicate Placed(s: State, i: nat)
    requires i < |s.log|
  {
    var r := s.log[i];
    && r.file in s.uploads && r.size == s.uploads[r.file].size && r.email in s.free
    && (r.status == Open <==> s.uploads[r.file].current == Some(i))
    && (r.status == Open ==> r.email !in s.uploads[r.file].attempted)
    && (r.status != Open && !s.uploads[r.file].done ==> r.email in s.uploads[r.file].attempted)
    && (r.status == Kept && r.email !in s.refreshed ==> r.landed)
  }

  ghost predicate Held(s: State, f: FileId)
    requires f in s.uploads
  {
    s.uploads[f].current.Some? ==> s.uploads[f].current.value < |s.log| && s.log[s.uploads[f].current.value].file == f
  }

  ghost predicate OncePerAccount(log: seq<Reservation>) {
    forall i, j :: 0 <= i < j < |log| && log[i].file == log[j].file ==> log[i].email != log[j].email
  }

  ghost predicate Inv(s: State, initial: map<Email, int>) {
    && Solvent(s, initial) && OncePerAccount(s.log)
    && (forall i :: 0 <= i < |s.log| ==> Placed(s, i))
    && (forall f :: f in s.uploads ==> Held(s, f))
  }

  lemma ReserveKeepsInv(s: State, f: FileId, e: Email, t: State, initial: map<Email, int>)
    requires Inv(s, initial) && Next(s, Action.Reserve(f, e), t)
    ensures Inv(t, initial)
  {
    var u, n := s.uploads[f], |s.log|;
    forall e' | e' in t.free
      ensures t.free[e'] >= 0 && t.free[e'] + Charged(t.log, e') == s.free[e'] + Charged(s.log, e')
    {
      OpeningCharges(s.log, Reservation(f, e, u.size, Open, false), e');
    }
    forall i | 0 <= i < |t.log| ensures Placed(t, i) {
      if i < n { assert Placed(s, i) && t.log[i] == s.log[i]; }
    }
    forall i | 0 <= i < n && s.log[i].file == f ensures s.log[i].email != e {
      assert Placed(s, i);
    }
    forall g | g in t.uploads ensures Held(t, g) {
      if g != f { assert Held(s, g); }
    }
  }

  lemma SettleKeepsSolvent(s: State, f: FileId, o: Outcome, live: int, t: State, initial: map<Email, int>)
    requires Inv(s, initial) && Next(s, Action.Settle(f, o, live), t)
    ensures Solvent(t, initial)
  {
    var i := s.uploads[f].current.value;
    assert Held(s, f) && Placed(s, i);
    forall e | e in t.free
      ensures t.free[e] >= 0 && t.free[e] + Charged(t.log, e) <= Max(0, initial[e])
      ensures e !in t.refreshed ==> t.free[e] + Charged(t.log, e) == Max(0, initial[e])
    {
      ClosingChanges(s.log, i, t.log[i], e);
    }
  }

  lemma SettleKeepsPlaces(s: State, f: FileId, o: Outcome, live: int, t: State, initial: map<Email, int>)
    requires Inv(s, initial) && Next(s, Action.Settle(f, o, live), t)
    ensures (forall k :: 0 <= k < |t.log| ==> Placed(t, k)) && (forall g :: g in t.uploads ==> Held(t, g))
  {
    assert Held(s, f) && Placed(s, s.uploads[f].current.value);
    forall k | 0 <= k < |t.log| ensures Placed(t, k) {
      assert Placed(s, k);
    }
    forall g | g in t.uploads ensures Held(t, g) {
      assert Held(s, g);
    }
  }

  lemma StepKeepsInv(s: State, a: Action, t: State, initial: map<Email, int>)
    requires Inv(s, initial) && Next(s, a, t)
    ensures Inv(t, initial)
  {
    match a
    case Reserve(f, e) => ReserveKeepsInv(s, f, e, t, initial);
    case Settle(f, o, live) =>
      SettleKeepsSolvent(s, f, o, live, t, initial);
      SettleKeepsPlaces(s, f, o, live, t, initial);
    case Begin(_, _, _) =>
      forall i | 0 <= i < |t.log| ensures Placed(t, i) { assert Placed(s, i); }
      forall g | g in t.uploads ensures Held(t, g) { if g in s.uploads { assert Held(s, g); } }
    case GiveUp(_) =>
      forall i | 0 <= i < |t.log| ensures Placed(t, i) { assert Placed(s, i); }
      forall g | g in t.uploads ensures Held(t, g) { assert Held(s, g); }
  }

  // ---- Runs

  datatype Run = Run(states: seq<State>, actions: seq<Action>)

  ghost predicate Link(r: Run, k: nat)
    requires k + 1 < |r.states| && k < |r.actions|
  {
    Next(r.states[k], r.actions[k], r.states[k + 1])
  }

  ghost predicate IsRun(r: Run, initial: map<Email, int>) {
    && |r.states| == |r.actions| + 1 && Init(r.states[0], initial)
    && forall k :: 0 <= k < |r.actions| ==> Link(r, k)
  }

  lemma {:induction false} RunKeepsInv(r: Run, initial: map<Email, int>, k: nat)
    requires IsRun(r, initial) && k < |r.states|
    ensures Inv(r.states[k], initial)
  {
    if k > 0 {
      RunKeepsInv(r, initial, k - 1);
      assert Link(r, k - 1);
      StepKeepsInv(r.states[k - 1], r.actions[k - 1], r.states[k], initial);
    }
  }

  /**
   * Whatever any number of uploads reserve, settle and refresh, in any order: no balance goes negative,
   * and free space plus everything in flight or kept never exceeds what the account started with. As long
   * as the account was not refreshed it is exactly that.
   */
  lemma Conservation(r: Run, initial: map<Email, int>, k: nat, e: Email)
    requires IsRun(r, initial) && k < |r.states| && e in initial
    ensures var s := r.states[k];
      && e in s.free && s.free[e] >= 0 && s.free[e] + Charged(s.log, e) <= Max(0, initial[e])
      && (e !in s.refreshed ==> s.free[e] + Charged(s.log, e) == Max(0, initial[e]))
  {
    RunKeepsInv(r, initial, k);
  }

  /** A reservation is settled at most once: after it is closed its entry never changes, and entries never vanish. */
  lemma {:induction false} SettledOnce(r: Run, initial: map<Email, int>, j: nat, k: nat, i: nat)
    requires IsRun(r, initial) && j <= k < |r.states| && i < |r.states[j].log|
    ensures i < |r.states[k].log|
    ensures var was, now := r.states[j].log[i], r.states[k].log[i];
      && now.file == was.file && now.email == was.email && now.size == was.size && (was.status != Open ==> now == was)
    decreases k - j
  {
    if j < k {
      SettledOnce(r, initial, j, k - 1, i);
      RunKeepsInv(r, initial, k - 1);
      assert Link(r, k - 1);
      match r.actions[k - 1]
      case Settle(f, _, _) =>
        assert Held(r.states[k - 1], f) && Placed(r.states[k - 1], r.states[k - 1].uploads[f].current.value);
      case _ =>
    }
  }

  /** One of the file's first k actions was an attempt that escaped; the loop does nothing after it. */
  ghost predicate HasEscaped(r: Run, k: nat, f: FileId) {
    exists j :: 0 <= j < k && j < |r.actions| && EscapesAt(r, j, f)
  }

  ghost predicate EscapesAt(r: Run, j: nat, f: FileId)
    requires j < |r.actions|
  {
    r.actions[j].Settle? && r.actions[j].file == f && r.actions[j].outcome.Escaped?
  }

  ghost predicate Stranded(s: State, f: FileId) { f in s.uploads && s.uploads[f].done && s.uploads[f].current.Some? }

  lemma EscapeStrands(s: State, a: Action, t: State, f: FileId)
    requires Next(s, a, t)
    ensures Stranded(t, f) <==> Stranded(s, f) || (a.Settle? && a.file == f && a.outcome.Escaped?)
  {
  }

  lemma {:induction false} StrandedExactly(r: Run, initial: map<Email, int>, k: nat, f: FileId)
    requires IsRun(r, initial) && k < |r.states|
    ensures Stranded(r.states[k], f) <==> HasEscaped(r, k, f)
  {
    if k > 0 {
      StrandedExactly(r, initial, k - 1, f);
      assert Link(r, k - 1);
      EscapeStrands(r.states[k - 1], r.actions[k - 1], r.states[k], f);
      assert EscapesAt(r, k - 1, f) ==> HasEscaped(r, k, f);
    }
  }

  ghost predicate Owes(s: State, f: FileId) { exists i: nat :: i < |s.log| && s.log[i].file == f && s.log[i].status == Open }

  /**
   * A file whose loop ended settled every reservation it made, except that it still owes one exactly when
   * its last attempt escaped.
   */
  lemma FinishedOwesExactly(r: Run, initial: map<Email, int>, k: nat, f: FileId)
    requires IsRun(r, initial) && k < |r.states| && f in r.states[k].uploads && r.states[k].uploads[f].done
    ensures Owes(r.states[k], f) <==> HasEscaped(r, k, f)
  {
    RunKeepsInv(r, initial, k);
    StrandedExactly(r, initial, k, f);
    var s := r.states[k];
    if Stranded(s, f) {
      assert Held(s, f);
      assert Placed(s, s.uploads[f].current.value);
    }
    if Owes(s, f) {
      var i: nat :| i < |s.log| && s.log[i].file == f && s.log[i].status == Open;
      assert Placed(s, i);
    }
  }

  function ReservedBy(log: seq<Reservation>, f: FileId): set<nat> { set i: nat | i < |log| && log[i].file == f }

  lemma {:induction false} InjectionBound(log: seq<Reservation>, indices: set<nat>, emails: set<Email>)
    requires forall i :: i in indices ==> i < |log| && log[i].email in emails
    requires forall i, j :: i in indices && j in indices && i != j ==> log[i].email != log[j].email
    ensures |indices| <= |emails|
    decreases |indices|
  {
    if indices != {} {
      var i :| i in indices;
      InjectionBound(log, indices - {i}, emails - {log[i].email});
    }
  }

  /** However often others disturb it, a file's loop reserves each account at most once, so it goes round at most that often. */
  lemma BoundedReplanning(r: Run, initial: map<Email, int>, k: nat, f: FileId)
    requires IsRun(r, initial) && k < |r.states|
    ensures OncePerAccount(r.states[k].log)
    ensures |ReservedBy(r.states[k].log, f)| <= |initial|
  {
    RunKeepsInv(r, initial, k);
    var s := r.states[k];
    forall i | i in ReservedBy(s.log, f) ensures s.log[i].email in initial.Keys {
      assert Placed(s, i);
    }
    InjectionBound(s.log, ReservedBy(s.log, f), initial.Keys);
  }

  // ---- Bytes that really went somewhere

  /** Bytes in flight to the account or already on it. */
  function InUse(log: seq<Reservation>, e: Email): nat {
    if log == [] then 0
    else
      var r := log[|log| - 1];
      InUse(log[..|log| - 1], e) + if r.email == e && (r.status == Open || r.landed) then r.size else 0
  }

  lemma {:induction false} UseSplits(log: seq<Reservation>, e: Email)
    ensures InUse(log, e) <= Charged(log, e) + Leaked(log, e)
    ensures (forall i :: 0 <= i < |log| && log[i].email == e && log[i].status == Kept ==> log[i].landed)
      ==> InUse(log, e) == Charged(log, e) + Leaked(log, e)
  {
    if log != [] {
      UseSplits(log[..|log| - 1], e);
    }
  }

  /** The j-th action ends a nonempty upload to e so that it both may have landed and gives its reservation back. */
  ghost predicate LeaksAt(r: Run, j: nat, e: Email)
    requires j < |r.actions| && j < |r.states|
  {
    var s := r.states[j];
    && r.actions[j].Settle? && r.actions[j].file in s.uploads
    && var u, o := s.uploads[r.actions[j].file], r.actions[j].outcome;
    && u.size > 0 && Lands(o) && GivesBack(o, u.tree)
    && u.current.Some? && u.current.value < |s.log| && s.log[u.current.value].email == e
  }

  ghost predicate HasLeaked(r: Run, k: nat, e: Email) {
    exists j :: 0 <= j < k && j < |r.actions| && j < |r.states| && LeaksAt(r, j, e)
  }

  lemma StepLeaks(r: Run, initial: map<Email, int>, k: nat, e: Email)
    requires IsRun(r, initial) && k < |r.actions|
    ensures Leaked(r.states[k + 1].log, e) >= Leaked(r.states[k].log, e)
    ensures Leaked(r.states[k + 1].log, e) > Leaked(r.states[k].log, e) <==> LeaksAt(r, k, e)
  {
    var s, t := r.states[k], r.states[k + 1];
    RunKeepsInv(r, initial, k);
    assert Link(r, k);
    match r.actions[k]
    case Reserve(f, e') => OpeningCharges(s.log, Reservation(f, e', s.uploads[f].size, Open, false), e);
    case Settle(f, o, live) =>
      var i := s.uploads[f].current.value;
      assert Held(s, f) && Placed(s, i);
      ClosingChanges(s.log, i, t.log[i], e);
    case _ =>
  }

  lemma {:induction false} LeakedExactly(r: Run, initial: map<Email, int>, k: nat, e: Email)
    requires IsRun(r, initial) && k < |r.states|
    ensures Leaked(r.states[k].log, e) > 0 <==> HasLeaked(r, k, e)
  {
    if k > 0 {
      LeakedExactly(r, initial, k - 1, e);
      StepLeaks(r, initial, k - 1, e);
      assert LeaksAt(r, k - 1, e) ==> HasLeaked(r, k, e);
    }
  }

  /**
   * The point of reserving is that an account is never promised more than it had. It holds as long as no
   * nonempty single file that may have landed on the account gave its reservation back: one whose
   * registration was cut off in flight, or whose bookkeeping failed after it. For an account that was not
   * refreshed it holds exactly then.
   */
  lemma OvercommittedExactly(r: Run, initial: map<Email, int>, k: nat, e: Email)
    requires IsRun(r, initial) && k < |r.states| && e in initial
    ensures var s := r.states[k];
      && e in s.free
      && (!HasLeaked(r, k, e) ==> s.free[e] + InUse(s.log, e) <= Max(0, initial[e]))
      && (e !in s.refreshed ==> (s.free[e] + InUse(s.log, e) <= Max(0, initial[e]) <==> !HasLeaked(r, k, e)))
  {
    RunKeepsInv(r, initial, k);
    LeakedExactly(r, initial, k, e);
    var s := r.states[k];
    UseSplits(s.log, e);
    if e !in s.refreshed {
      forall i | 0 <= i < |s.log| && s.log[i].email == e && s.log[i].status == Kept ensures s.log[i].landed {
        assert Placed(s, i);
      }
    }
  }

  // ---- Runs of one file

  ghost predicate EndsOvercommitted(r: Run, initial: map<Email, int>, e: Email) {
    && r.states != [] && e in initial
    && var s := r.states[|r.states| - 1]; e in s.free && s.free[e] + InUse(s.log, e) > Max(0, initial[e])
  }

  const ONLY: Email := Email("a")

  /** A 10-byte file on an account with 10 bytes free. */
  function OneFile(free: int, current: Option<nat>, done: bool, log: seq<Reservation>): State {
    State(map[ONLY := free], map[0 := Upload(10, false, {}, current, done)], log, {})
  }

  /** Begin, reserve, and an attempt that gives the space back or escapes. */
  function OneFileRun(o: Outcome): Run {
    Run([State(map[ONLY := 10], map[], [], {}), OneFile(10, None, false, []),
         OneFile(0, Some(0), false, [Reservation(0, ONLY, 10, Open, false)]),
         OneFile(if o.Escaped? then 0 else 10, if o.Escaped? then Some(0) else None, true,
                 [Reservation(0, ONLY, 10, if o.Escaped? then Open else GivenBack, Lands(o))])],
        [Begin(0, 10, false), Action.Reserve(0, ONLY), Action.Settle(0, o, 0)])
  }

  lemma OneFileRunIsRun(o: Outcome)
    requires o.Failed? || o.FinishFailed? || o == Escaped(false, false)
    ensures IsRun(OneFileRun(o), map[ONLY := 10])
  {
    var r := OneFileRun(o);
    assert Best(map[ONLY := 10], 10, {}, ONLY);
    assert Link(r, 0) && Link(r, 1);
    assert Link(r, 2) by {
      assert r.states[2].log[0 := r.states[3].log[0]] == r.states[3].log;
    }
  }

  lemma OneFileOvercommits(o: Outcome)
    requires Lands(o) && !o.Escaped?
    ensures EndsOvercommitted(OneFileRun(o), map[ONLY := 10], ONLY)
  {
    var s := OneFileRun(o).states[3];
    assert InUse(s.log, ONLY) == 10 by { assert s.log[..0] == []; }
  }

  /** An upload that fills the account and then fails in its bookkeeping frees all of it again. */
  lemma FinishFailureLeaks()
    ensures IsRun(OneFileRun(FinishFailed), map[ONLY := 10]) && EndsOvercommitted(OneFileRun(FinishFailed), map[ONLY := 10], ONLY)
  {
    OneFileRunIsRun(FinishFailed);
    OneFileOvercommits(FinishFailed);
  }

  /** So does one whose registration was cut off in flight after the server had acted on it. */
  lemma AmbiguousRegistrationLeaks()
    ensures IsRun(OneFileRun(Failed(true)), map[ONLY := 10]) && EndsOvercommitted(OneFileRun(Failed(true)), map[ONLY := 10], ONLY)
  {
    OneFileRunIsRun(Failed(true));
    OneFileOvercommits(Failed(true));
  }

  /** A connection error while the target folder is looked up ends the file and keeps its space reserved for good. */
  lemma EscapeKeepsReservation()
    ensures var r := OneFileRun(Escaped(false, false)); var s := r.states[3];
      && IsRun(r, map[ONLY := 10]) && s.uploads[0].done && Owes(s, 0) && s.free[ONLY] == 0 && !s.log[0].landed
  {
    OneFileRunIsRun(Escaped(false, false));
    var s := OneFileRun(Escaped(false, false)).states[3];
    assert s.log[0].file == 0 && s.log[0].status == Open;
  }
}

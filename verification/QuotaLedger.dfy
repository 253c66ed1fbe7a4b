/** Free-space reservations for automatic account selection (upload_support.py), and the loop that uses them. */
module QuotaLedger {
  import opened Basics

  datatype Email = Email(address: string)

  // ---- Which account `max(candidates)` picks

  /** String order, by code points. */
  predicate Less(a: string, b: string) {
    if a == "" || b == "" then b != "" else a[0] < b[0] || (a[0] == b[0] && Less(a[1..], b[1..]))
  }

  lemma {:induction false} LessIsTotal(a: string, b: string)
    ensures a == b || Less(a, b) || Less(b, a)
    ensures !(Less(a, b) && Less(b, a)) && !Less(a, a)
  {
    if a != "" && b != "" {
      assert a == [a[0]] + a[1..] && b == [b[0]] + b[1..];
      LessIsTotal(a[1..], b[1..]);
    }
    if a != "" { LessIsTotal(a[1..], a[1..]); }
  }

  lemma {:induction false} LessIsTransitive(a: string, b: string, c: string)
    requires Less(a, b) && Less(b, c)
    ensures Less(a, c)
  {
    if a != "" && a[0] == b[0] && b[0] == c[0] {
      LessIsTransitive(a[1..], b[1..], c[1..]);
    }
  }

  /** The pair (free, email) is the smaller one. */
  predicate Behind(f: int, e: Email, f': int, e': Email) { f < f' || (f == f' && Less(e.address, e'.address)) }

  predicate Candidate(free: map<Email, int>, size: nat, exclude: set<Email>, e: Email) {
    e in free && free[e] >= size && e !in exclude
  }

  /** The candidate with the most free space, the last in string order among equals. */
  ghost predicate Best(free: map<Email, int>, size: nat, exclude: set<Email>, e: Email) {
    && Candidate(free, size, exclude, e)
    && forall e' :: Candidate(free, size, exclude, e') && e' != e ==> Behind(free[e'], e', free[e], e)
  }

  ghost predicate NoneFits(free: map<Email, int>, size: nat, exclude: set<Email>) {
    forall e :: !Candidate(free, size, exclude, e)
  }

  lemma BestIsUnique(free: map<Email, int>, size: nat, exclude: set<Email>, e: Email, e': Email)
    requires Best(free, size, exclude, e) && Best(free, size, exclude, e')
    ensures e == e'
  {
    LessIsTotal(e.address, e'.address);
  }

  /** `reconcile_free` applied to a balance. */
  function Reconciled(free: map<Email, int>, e: Email, live: int): map<Email, int> {
    free[e := Min(if e in free then free[e] else 0, Max(0, live))]
  }

  function Released(free: map<Email, int>, e: Email, size: nat): map<Email, int> {
    if e in free then free[e := free[e] + size] else free
  }

  class Ledger {
    var free: map<Email, int>

    ghost predicate Valid()
      reads this
    {
      forall e :: e in free ==> free[e] >= 0
    }

    constructor (balances: map<Email, int>)
      ensures Valid() && free.Keys == balances.Keys && forall e :: e in balances ==> free[e] == Max(0, balances[e])
    {
      free := map e | e in balances :: Max(0, balances[e]);
    }

    /** `reserve`: under one lock, the pick and the deduction. */
    method Reserve(size: nat, exclude: set<Email>) returns (r: Option<Email>)
      requires Valid()
      modifies this
      ensures Valid()
      ensures r.None? <==> NoneFits(old(free), size, exclude)
      ensures r.None? ==> free == old(free)
      ensures r.Some? ==> Best(old(free), size, exclude, r.value) && free == old(free)[r.value := old(free)[r.value] - size]
    {
      r := None;
      var left := free.Keys;
      while left != {}
        invariant left <= free.Keys && free == old(free)
        invariant r.None? ==> forall e :: e in free && e !in left ==> !Candidate(free, size, exclude, e)
        invariant r.Some? ==> Candidate(free, size, exclude, r.value) && r.value !in left
        invariant r.Some? ==> forall e :: e !in left && e != r.value && Candidate(free, size, exclude, e) ==> Behind(free[e], e, free[r.value], r.value)
        decreases left
      {
        var e :| e in left;
        left := left - {e};
        if free[e] >= size && e !in exclude {
          if r.None? {
            r := Some(e);
          } else {
            LessIsTotal(e.address, r.value.address);
            if free[r.value] < free[e] || (free[r.value] == free[e] && Less(r.value.address, e.address)) {
              BehindIsTransitive(free, size, exclude, left, r.value, e);
              r := Some(e);
            }
          }
        }
      }
      if r.Some? {
        free := free[r.value := free[r.value] - size];
      }
    }

    /** `release`. */
    method Release(e: Email, size: nat)
      requires Valid()
      modifies this
      ensures Valid() && free == Released(old(free), e, size)
    {
      if e in free {
        free := free[e := free[e] + size];
      }
    }

    /** `reconcile_free`: downward only. */
    method ReconcileFree(e: Email, live: int)
      requires Valid()
      modifies this
      ensures Valid() && free == Reconciled(old(free), e, live)
      ensures e in old(free) ==> free[e] <= old(free)[e]
    {
      var current := if e in free then free[e] else 0;
      free := free[e := Min(current, Max(0, live))];
    }
  }

  lemma BehindIsTransitive(free: map<Email, int>, size: nat, exclude: set<Email>, left: set<Email>, was: Email, now: Email)
    requires was in free && now in free && Behind(free[was], was, free[now], now)
    requires forall e :: e !in left + {now} && e != was && Candidate(free, size, exclude, e) ==> Behind(free[e], e, free[was], was)
    ensures forall e :: e !in left && e != now && Candidate(free, size, exclude, e) ==> Behind(free[e], e, free[now], now)
  {
    forall e | e !in left && e != now && e != was && Candidate(free, size, exclude, e) ensures Behind(free[e], e, free[now], now) {
      if free[e] == free[was] == free[now] { LessIsTransitive(e.address, was.address, now.address); }
    }
  }

  // ---- One file's attempts

  /** How one attempt on a reserved account ends. */
  datatype Outcome =
    | NoClient                 // no session for the account
    | TargetFailed             // the remote folder could not be resolved
    | Landed                   // uploaded; for a tree, every file of it
    | TreeIncomplete           // some file of a tree failed
    | QuotaHit                 // the account turned out to be full
    | Failed(landed: bool)     // any other error of the upload; a registration cut off in flight may have landed
    | FinishFailed             // uploaded, then the bookkeeping after it raised
    | Escaped(landed: bool, refreshed: bool)  // an exception that no arm handles, or one out of an arm's last refresh

  /** Whether the loop goes round again. */
  predicate Retries(o: Outcome, tree: bool) { o.NoClient? || (o.QuotaHit? && !tree) }

  /** Whether the attempt gives its reservation back. */
  predicate GivesBack(o: Outcome, tree: bool) { o.NoClient? || o.TargetFailed? || ((o.Failed? || o.FinishFailed?) && !tree) }

  /** Whether it reads the account's live balance instead (0 when that cannot be read). */
  predicate Refreshes(o: Outcome, tree: bool) {
    o.TreeIncomplete? || o.QuotaHit? || ((o.Failed? || o.FinishFailed?) && tree) || (o.Escaped? && o.refreshed)
  }

  /** Whether the account may hold bytes of the upload afterwards. */
  predicate Lands(o: Outcome) {
    o.Landed? || o.TreeIncomplete? || o.FinishFailed? || (o.Failed? && o.landed) || (o.Escaped? && o.landed)
  }

  /** A single file is never an incomplete tree, and its balance is read only after a quota error. */
  predicate Possible(o: Outcome, tree: bool) {
    (o.TreeIncomplete? ==> tree) && (o.Escaped? && o.refreshed && !tree ==> !o.landed)
  }

  /** The ledger after an attempt on e ended; one that escaped before any refresh leaves it as it is. */
  function Settled(free: map<Email, int>, e: Email, size: nat, tree: bool, o: Outcome, live: int): map<Email, int> {
    if GivesBack(o, tree) then Released(free, e, size)
    else if Refreshes(o, tree) then Reconciled(free, e, live)
    else free
  }

  datatype Attempt = Attempt(email: Email, outcome: Outcome, live: int)

  /** The ledger after a file's attempts, in order. */
  function After(free: map<Email, int>, size: nat, tree: bool, attempts: seq<Attempt>): map<Email, int> {
    if attempts == [] then free
    else
      var a := attempts[|attempts| - 1];
      var f := After(free, size, tree, attempts[..|attempts| - 1]);
      if a.email in f then Settled(f[a.email := f[a.email] - size], a.email, size, tree, a.outcome, a.live) else f
  }

  function Emails(attempts: seq<Attempt>): set<Email> { set a | a in attempts :: a.email }

  /** Each attempt reserved the best account not tried before, and all but the last one asked for another round. */
  ghost predicate Proper(free: map<Email, int>, size: nat, tree: bool, attempts: seq<Attempt>) {
    forall k :: 0 <= k < |attempts| ==> ProperAt(free, size, tree, attempts, k)
  }

  ghost predicate ProperAt(free: map<Email, int>, size: nat, tree: bool, attempts: seq<Attempt>, k: nat)
    requires k < |attempts|
  {
    && Best(After(free, size, tree, attempts[..k]), size, Emails(attempts[..k]), attempts[k].email)
    && (k < |attempts| - 1 ==> Retries(attempts[k].outcome, tree))
  }

  /** How the call comes back to its caller. */
  datatype Ending = Returned(ok: bool) | Raised

  function EndingOf(attempts: seq<Attempt>): Ending {
    if attempts == [] then Returned(false)
    else
      match attempts[|attempts| - 1].outcome
      case Landed => Returned(true)
      case Escaped(_, _) => Raised
      case _ => Returned(false)
  }

  /**
   * `_upload_one_sequential` with a ledger, undisturbed by other uploads: the k-th attempt ends as
   * outcomes(k), a refresh reading lives(k). The loop ends because no account is tried twice.
   */
  method UploadOne(ledger: Ledger, size: nat, tree: bool, outcomes: nat -> Outcome, lives: nat -> int)
    returns (r: Ending, ghost attempts: seq<Attempt>)
    requires ledger.Valid() && forall k :: Possible(outcomes(k), tree)
    modifies ledger
    ensures ledger.Valid() && ledger.free == After(old(ledger.free), size, tree, attempts)
    ensures Proper(old(ledger.free), size, tree, attempts) && Played(attempts, outcomes, lives)
    ensures r == EndingOf(attempts)
    ensures attempts == [] || Retries(attempts[|attempts| - 1].outcome, tree) ==> NoneFits(ledger.free, size, Emails(attempts))
  {
    var attempted: set<Email> := {};
    attempts := [];
    ghost var initial := ledger.free;
    var k := 0;
    GoingStarts(initial, size, tree);
    while true
      invariant ledger.Valid() && |attempts| == k
      invariant Going(initial, ledger.free, size, tree, attempts, attempted) && Played(attempts, outcomes, lives)
      decreases initial.Keys - attempted
    {
      var picked;
      ghost var next;
      picked, next := Round(ledger, size, tree, attempted, outcomes(k), lives(k), initial, attempts);
      if picked.None? {
        return Returned(false), attempts;
      }
      PlayedStep(attempts, outcomes, lives, Attempt(picked.value, outcomes(k), lives(k)));
      attempts := next;
      if !Retries(outcomes(k), tree) {
        return (if outcomes(k).Escaped? then Raised else Returned(outcomes(k).Landed?)), attempts;
      }
      FewerLeft(initial.Keys, attempted, picked.value);
      attempted := attempted + {picked.value};
      k := k + 1;
    }
  }

  /** One round, with what it means for the attempts so far. */
  method Round(ledger: Ledger, size: nat, tree: bool, attempted: set<Email>, o: Outcome, live: int,
               ghost initial: map<Email, int>, ghost attempts: seq<Attempt>)
    returns (picked: Option<Email>, ghost next: seq<Attempt>)
    requires ledger.Valid() && Possible(o, tree) && Going(initial, ledger.free, size, tree, attempts, attempted)
    modifies ledger
    ensures ledger.Valid()
    ensures picked.None? ==> next == attempts && ledger.free == old(ledger.free) && NoneFits(ledger.free, size, attempted)
    ensures picked.Some? ==>
      && picked.value in initial && picked.value !in attempted && next == attempts + [Attempt(picked.value, o, live)]
      && ledger.free == After(initial, size, tree, next) && Proper(initial, size, tree, next)
      && (Retries(o, tree) ==> Going(initial, ledger.free, size, tree, next, attempted + {picked.value}))
  {
    ghost var free := ledger.free;
    next := attempts;
    picked := TryOnce(ledger, size, tree, attempted, o, live);
    if picked.Some? {
      GoingStep(initial, free, size, tree, attempts, attempted, Attempt(picked.value, o, live));
      next := attempts + [Attempt(picked.value, o, live)];
    }
  }

  lemma GoingStarts(free: map<Email, int>, size: nat, tree: bool)
    ensures Going(free, free, size, tree, [], {})
  {
  }

  lemma PlayedStep(attempts: seq<Attempt>, outcomes: nat -> Outcome, lives: nat -> int, a: Attempt)
    requires Played(attempts, outcomes, lives) && a.outcome == outcomes(|attempts|) && a.live == lives(|attempts|)
    ensures Played(attempts + [a], outcomes, lives)
  {
  }

  /** One round: reserve, upload, settle. */
  method TryOnce(ledger: Ledger, size: nat, tree: bool, attempted: set<Email>, o: Outcome, live: int) returns (picked: Option<Email>)
    requires ledger.Valid() && Possible(o, tree)
    modifies ledger
    ensures ledger.Valid()
    ensures picked.None? ==> NoneFits(ledger.free, size, attempted) && ledger.free == old(ledger.free)
    ensures picked.Some? ==> var e := picked.value;
      && Best(old(ledger.free), size, attempted, e)
      && ledger.free == Settled(old(ledger.free)[e := old(ledger.free)[e] - size], e, size, tree, o, live)
  {
    picked := ledger.Reserve(size, attempted);
    if picked.Some? {
      SettleAttempt(ledger, picked.value, size, tree, o, live);
    }
  }

  ghost predicate Played(attempts: seq<Attempt>, outcomes: nat -> Outcome, lives: nat -> int) {
    forall j :: 0 <= j < |attempts| ==> attempts[j].outcome == outcomes(j) && attempts[j].live == lives(j)
  }

  /** What each ending does to the ledger; an escaping exception runs past every arm. */
  method SettleAttempt(ledger: Ledger, e: Email, size: nat, tree: bool, o: Outcome, live: int)
    requires ledger.Valid() && e in ledger.free && Possible(o, tree)
    modifies ledger
    ensures ledger.Valid() && ledger.free == Settled(old(ledger.free), e, size, tree, o, live) && ledger.free.Keys == old(ledger.free.Keys)
  {
    match o
    case NoClient => ledger.Release(e, size);
    case TargetFailed => ledger.Release(e, size);
    case Landed =>
    case TreeIncomplete => ledger.ReconcileFree(e, live);
    case QuotaHit => ledger.ReconcileFree(e, live);
    case Failed(_) => if tree { ledger.ReconcileFree(e, live); } else { ledger.Release(e, size); }
    case Escaped(_, refreshed) => if refreshed { ledger.ReconcileFree(e, live); }
    case FinishFailed => if tree { ledger.ReconcileFree(e, live); } else { ledger.Release(e, size); }
  }

  /** The loop's state between attempts. */
  ghost predicate Going(initial: map<Email, int>, free: map<Email, int>, size: nat, tree: bool, attempts: seq<Attempt>, attempted: set<Email>) {
    && free.Keys == initial.Keys && free == After(initial, size, tree, attempts)
    && attempted == Emails(attempts) && attempted <= initial.Keys && Proper(initial, size, tree, attempts)
    && forall j :: 0 <= j < |attempts| ==> Retries(attempts[j].outcome, tree)
  }

  lemma EmailsStep(attempts: seq<Attempt>, a: Attempt)
    ensures Emails(attempts + [a]) == Emails(attempts) + {a.email}
  {
    var next := attempts + [a];
    assert a in next && forall x :: x in next <==> x in attempts || x == a;
  }

  lemma AfterStep(free: map<Email, int>, size: nat, tree: bool, attempts: seq<Attempt>, a: Attempt)
    requires a.email in After(free, size, tree, attempts)
    ensures var f := After(free, size, tree, attempts);
      After(free, size, tree, attempts + [a]) == Settled(f[a.email := f[a.email] - size], a.email, size, tree, a.outcome, a.live)
  {
    assert (attempts + [a])[..|attempts|] == attempts;
  }

  lemma ProperStep(free: map<Email, int>, size: nat, tree: bool, attempts: seq<Attempt>, a: Attempt)
    requires Proper(free, size, tree, attempts) && forall j :: 0 <= j < |attempts| ==> Retries(attempts[j].outcome, tree)
    requires Best(After(free, size, tree, attempts), size, Emails(attempts), a.email)
    ensures Proper(free, size, tree, attempts + [a])
  {
    var next := attempts + [a];
    forall k | 0 <= k < |next| ensures ProperAt(free, size, tree, next, k) {
      if k < |attempts| {
        assert ProperAt(free, size, tree, attempts, k) && next[..k] == attempts[..k];
      } else {
        assert next[..k] == attempts;
      }
    }
  }

  lemma GoingStep(initial: map<Email, int>, free: map<Email, int>, size: nat, tree: bool, attempts: seq<Attempt>, attempted: set<Email>, a: Attempt)
    requires Going(initial, free, size, tree, attempts, attempted) && Best(free, size, attempted, a.email)
    ensures var f := Settled(free[a.email := free[a.email] - size], a.email, size, tree, a.outcome, a.live);
      && f == After(initial, size, tree, attempts + [a]) && Proper(initial, size, tree, attempts + [a])
      && Emails(attempts + [a]) == attempted + {a.email}
      && (Retries(a.outcome, tree) ==> Going(initial, f, size, tree, attempts + [a], attempted + {a.email}))
  {
    EmailsStep(attempts, a);
    AfterStep(initial, size, tree, attempts, a);
    ProperStep(initial, size, tree, attempts, a);
    var f := Settled(free[a.email := free[a.email] - size], a.email, size, tree, a.outcome, a.live);
    assert f.Keys == free.Keys;
    var next := attempts + [a];
    assert Retries(a.outcome, tree) ==> forall j :: 0 <= j < |next| ==> Retries(next[j].outcome, tree);
  }

  lemma FewerLeft(keys: set<Email>, attempted: set<Email>, e: Email)
    requires e in keys && e !in attempted
    ensures keys - (attempted + {e}) < keys - attempted
  {
    assert e in keys - attempted && e !in keys - (attempted + {e});
  }

  /** No account is reserved twice for one file, so a file is tried at most once per account. */
  lemma TriedOnce(free: map<Email, int>, size: nat, tree: bool, attempts: seq<Attempt>)
    requires Proper(free, size, tree, attempts)
    ensures forall i, j :: 0 <= i < j < |attempts| ==> attempts[i].email != attempts[j].email
  {
    forall i, j | 0 <= i < j < |attempts| ensures attempts[i].email != attempts[j].email {
      assert ProperAt(free, size, tree, attempts, j);
      assert attempts[..j][i] in attempts[..j];
      assert attempts[i].email in Emails(attempts[..j]);
    }
  }
}

/** The unsafe baseline's two retry loops, against a ledger that may commit a send, lose its answer, or
    both. The fault schedule decides both for every send. */
module NaiveDispatch {
  import opened Wrappers

  type Key = nat

  datatype Answer = Confirmed(postingRef: string) | NotConfirmed | Raised

  /** What happens to one send: whether the ledger acts on it, and what the caller is told. */
  datatype Fault = Fault(commits: bool, answer: Answer)

  /** The ledger as seen by a client: the effects applied so far, each with the key that carried it. */
  class Ledger {
    const enforcesKey: bool
    var effects: seq<Key>

    constructor (enforcesKey: bool)
      ensures this.enforcesKey == enforcesKey && effects == []
    {
      this.enforcesKey := enforcesKey;
      effects := [];
    }

    /** A send that reaches the ledger is applied unless the ledger enforces keys and knows this one. */
    method Post(key: Key, fault: Fault) returns (answer: Answer)
      modifies this`effects
      ensures answer == fault.answer
      ensures effects == old(effects) + Applied(enforcesKey, old(effects), key, fault)
    {
      if fault.commits && !(enforcesKey && key in effects) {
        effects := effects + [key];
      }
      answer := fault.answer;
    }
  }

  /** The rows the loop updates on a confirmation. */
  class Work {
    var postingRef: Option<string>
    var posted: bool

    constructor ()
      ensures postingRef == None && !posted
    {
      postingRef, posted := None, false;
    }
  }

  function Applied(enforcesKey: bool, effects: seq<Key>, key: Key, fault: Fault): seq<Key> {
    if fault.commits && !(enforcesKey && key in effects) then [key] else []
  }

  /** How many sends a loop of `retries` makes: up to and including the first confirmed one. */
  function Sends(schedule: nat -> Fault, retries: nat): (n: nat)
    ensures n <= retries
    ensures forall i :: 0 <= i < n - 1 ==> !schedule(i).answer.Confirmed?
    ensures n < retries ==> n > 0 && schedule(n - 1).answer.Confirmed?
  {
    if retries == 0 then 0
    else
      var n := Sends(schedule, retries - 1);
      if n < retries - 1 || (n > 0 && schedule(n - 1).answer.Confirmed?) then n else retries
  }

  function Commits(schedule: nat -> Fault, sends: nat): nat {
    if sends == 0 then 0
    else Commits(schedule, sends - 1) + if schedule(sends - 1).commits then 1 else 0
  }

  predicate AnyCommits(schedule: nat -> Fault, sends: nat) {
    exists i :: 0 <= i < sends && schedule(i).commits
  }

  function Reference(schedule: nat -> Fault, retries: nat): Option<string> {
    var n := Sends(schedule, retries);
    if n > 0 && schedule(n - 1).answer.Confirmed? then Some(schedule(n - 1).answer.postingRef) else None
  }

  /** The loop is still running when send `i` is made: no earlier send was confirmed. */
  lemma {:induction false} StillSending(schedule: nat -> Fault, retries: nat, i: nat)
    requires i <= retries && forall k :: 0 <= k < i ==> !schedule(k).answer.Confirmed?
    ensures Sends(schedule, retries) >= i
    ensures i < retries && schedule(i).answer.Confirmed? ==> Sends(schedule, retries) == i + 1
  {
    var n := Sends(schedule, retries);
    if n < retries {
      assert schedule(n - 1).answer.Confirmed?;
    }
  }

  /** The ledger's effects after the first `n` sends, the `i`th of them carrying `key(i)`. */
  function EffectsAfter(enforcesKey: bool, effects: seq<Key>, key: nat -> Key, schedule: nat -> Fault,
                        n: nat): seq<Key>
  {
    if n == 0 then effects
    else
      var before := EffectsAfter(enforcesKey, effects, key, schedule, n - 1);
      before + Applied(enforcesKey, before, key(n - 1), schedule(n - 1))
  }

  lemma NextEffects(enforcesKey: bool, effects: seq<Key>, key: nat -> Key, schedule: nat -> Fault, n: nat)
    ensures EffectsAfter(enforcesKey, effects, key, schedule, n + 1)
            == EffectsAfter(enforcesKey, effects, key, schedule, n)
               + Applied(enforcesKey, EffectsAfter(enforcesKey, effects, key, schedule, n), key(n), schedule(n))
  {}

  /** A confirmation ends the loop and is what it returns. */
  lemma OneMoreSend(schedule: nat -> Fault, retries: nat, n: nat)
    requires n < retries && forall k :: 0 <= k < n ==> !schedule(k).answer.Confirmed?
    ensures schedule(n).answer.Confirmed? ==>
              Sends(schedule, retries) == n + 1
              && Reference(schedule, retries) == Some(schedule(n).answer.postingRef)
  {
    StillSending(schedule, retries, n);
  }

  lemma NoneConfirmed(schedule: nat -> Fault, retries: nat)
    requires forall k :: 0 <= k < retries ==> !schedule(k).answer.Confirmed?
    ensures Sends(schedule, retries) == retries && Reference(schedule, retries) == None
  {
    StillSending(schedule, retries, retries);
  }

  /** `dispatch`: a fresh request identifier for every attempt. */
  method Dispatch(ledger: Ledger, work: Work, freshKey: nat -> Key, schedule: nat -> Fault, retries: nat)
    returns (r: Option<string>)
    modifies ledger`effects, work
    ensures ledger.effects == EffectsAfter(ledger.enforcesKey, old(ledger.effects), freshKey, schedule,
                                           Sends(schedule, retries))
    ensures r == Reference(schedule, retries)
    ensures r.Some? ==> work.postingRef == r && work.posted
    ensures r.None? ==> work.postingRef == old(work.postingRef) && work.posted == old(work.posted)
  {
    ghost var before := ledger.effects;
    for n := 0 to retries
      invariant forall k :: 0 <= k < n ==> !schedule(k).answer.Confirmed?
      invariant ledger.effects == EffectsAfter(ledger.enforcesKey, before, freshKey, schedule, n)
      invariant work.postingRef == old(work.postingRef) && work.posted == old(work.posted)
    {
      OneMoreSend(schedule, retries, n);
      NextEffects(ledger.enforcesKey, before, freshKey, schedule, n);
      var answer := ledger.Post(freshKey(n), schedule(n));
      if answer.Raised? {
        continue;
      }
      if answer.Confirmed? {
        work.postingRef := Some(answer.postingRef);
        work.posted := true;
        return Some(answer.postingRef);
      }
    }
    NoneConfirmed(schedule, retries);
    r := None;
  }

  /** `dispatch_with_a_stable_key`: the same loop sending one key on every attempt. */
  method DispatchWithAStableKey(ledger: Ledger, work: Work, key: Key, schedule: nat -> Fault, retries: nat)
    returns (r: Option<string>)
    modifies ledger`effects, work
    ensures ledger.effects == EffectsAfter(ledger.enforcesKey, old(ledger.effects), _ => key, schedule,
                                           Sends(schedule, retries))
    ensures r == Reference(schedule, retries)
    ensures r.Some? ==> work.postingRef == r && work.posted
    ensures r.None? ==> work.postingRef == old(work.postingRef) && work.posted == old(work.posted)
  {
    ghost var before, keys: nat -> Key := ledger.effects, _ => key;
    for n := 0 to retries
      invariant forall k :: 0 <= k < n ==> !schedule(k).answer.Confirmed?
      invariant ledger.effects == EffectsAfter(ledger.enforcesKey, before, keys, schedule, n)
      invariant work.postingRef == old(work.postingRef) && work.posted == old(work.posted)
    {
      OneMoreSend(schedule, retries, n);
      NextEffects(ledger.enforcesKey, before, keys, schedule, n);
      var answer := ledger.Post(key, schedule(n));
      if answer.Raised? {
        continue;
      }
      if answer.Confirmed? {
        work.postingRef := Some(answer.postingRef);
        work.posted := true;
        return Some(answer.postingRef);
      }
    }
    NoneConfirmed(schedule, retries);
    r := None;
  }

  // ----- what the effect count means ---------------------------------------------------------

  lemma {:induction false} CommitsMonotone(schedule: nat -> Fault, m: nat, n: nat)
    requires m <= n
    ensures Commits(schedule, m) <= Commits(schedule, n)
    ensures (exists i :: m <= i < n && schedule(i).commits) <==> Commits(schedule, m) < Commits(schedule, n)
  {
    if m < n {
      CommitsMonotone(schedule, m, n - 1);
      if i :| m <= i < n && schedule(i).commits {
        assert i < n - 1 ==> Commits(schedule, m) < Commits(schedule, n - 1);
      }
      if Commits(schedule, m) < Commits(schedule, n) && !schedule(n - 1).commits {
        var i :| m <= i < n - 1 && schedule(i).commits;
      }
    }
  }

  /** With identifiers that never repeat, nothing is suppressed whatever the ledger enforces: after any
      number of sends it has applied exactly those that committed. */
  lemma {:induction false} FreshKeysSuppressNothing(
    enforcesKey: bool, effects: seq<Key>, freshKey: nat -> Key, schedule: nat -> Fault, n: nat)
    requires forall i, j :: 0 <= i < j ==> freshKey(i) != freshKey(j)
    requires forall i :: 0 <= i ==> freshKey(i) !in effects
    ensures var after := EffectsAfter(enforcesKey, effects, freshKey, schedule, n);
            && |after| == |effects| + Commits(schedule, n)
            && effects <= after
            && forall i :: n <= i ==> freshKey(i) !in after
  {
    if n > 0 {
      FreshKeysSuppressNothing(enforcesKey, effects, freshKey, schedule, n - 1);
    }
  }

  /** With one key against a ledger that enforces it, at most one effect is applied, and exactly one if
      and only if some send commits. */
  lemma {:induction false} StableKeyAppliesOnce(
    effects: seq<Key>, key: Key, schedule: nat -> Fault, n: nat)
    requires key !in effects
    ensures EffectsAfter(true, effects, _ => key, schedule, n)
            == effects + if AnyCommits(schedule, n) then [key] else []
  {
    if n > 0 {
      StableKeyAppliesOnce(effects, key, schedule, n - 1);
      assert AnyCommits(schedule, n) <==> AnyCommits(schedule, n - 1) || schedule(n - 1).commits;
    }
  }

  /** Where the ledger does not enforce keys, a stable key protects nothing: the loop applies exactly
      as many effects as the fresh-key loop. */
  lemma {:induction false} StableKeyUnenforced(
    effects: seq<Key>, key: nat -> Key, schedule: nat -> Fault, n: nat)
    ensures |EffectsAfter(false, effects, key, schedule, n)| == |effects| + Commits(schedule, n)
  {
    if n > 0 {
      StableKeyUnenforced(effects, key, schedule, n - 1);
    }
  }

  /** Two commits with no confirmation before the second are both sent. */
  lemma TwoCommitsBothSent(schedule: nat -> Fault, retries: nat, i: nat, j: nat)
    requires i < j < retries && schedule(i).commits && schedule(j).commits
    requires forall k :: 0 <= k < j ==> !schedule(k).answer.Confirmed?
    ensures Commits(schedule, Sends(schedule, retries)) >= 2
  {
    var n := Sends(schedule, retries);
    StillSending(schedule, retries, j);
    assert n != j;
    CommitsMonotone(schedule, 0, i);
    CommitsMonotone(schedule, i + 1, j);
    CommitsMonotone(schedule, j + 1, n);
  }

  /** The fresh-key loop double-posts exactly when two sends commit and nothing before the second one
      was confirmed: a commit whose answer was lost, followed by a retry that commits too. */
  lemma FreshKeyDoublePostsIff(schedule: nat -> Fault, retries: nat)
    ensures Commits(schedule, Sends(schedule, retries)) >= 2 <==>
            exists i, j :: 0 <= i < j < retries && schedule(i).commits && schedule(j).commits
                           && forall k :: 0 <= k < j ==> !schedule(k).answer.Confirmed?
  {
    var n := Sends(schedule, retries);
    if i, j :| 0 <= i < j < retries && schedule(i).commits && schedule(j).commits
               && forall k :: 0 <= k < j ==> !schedule(k).answer.Confirmed?
    {
      TwoCommitsBothSent(schedule, retries, i, j);
    }
    if Commits(schedule, n) >= 2 {
      var j := LastCommit(schedule, n);
      var i := LastCommit(schedule, j);
      assert 0 <= i < j < retries;
    }
  }

  lemma {:induction false} LastCommit(schedule: nat -> Fault, n: nat) returns (j: nat)
    requires Commits(schedule, n) >= 1
    ensures j < n && schedule(j).commits && Commits(schedule, j) == Commits(schedule, n) - 1
  {
    if schedule(n - 1).commits {
      j := n - 1;
    } else {
      j := LastCommit(schedule, n - 1);
    }
  }

  /** Every fault of the schedule is one the ledger may show. */
  ghost predicate DrawnFrom(schedule: nat -> Fault, shows: Fault -> bool) {
    forall i: nat :: shows(schedule(i))
  }

  /** Whenever the loop returns `None`, nothing landed: "`None` if it never landed". */
  ghost predicate NoneIsTrue(enforcesKey: bool, effects: seq<Key>, key: nat -> Key, schedule: nat -> Fault,
                             retries: nat)
  {
    Reference(schedule, retries).None? ==>
      EffectsAfter(enforcesKey, effects, key, schedule, Sends(schedule, retries)) == effects
  }

  /** The ledger never acts on a send without confirming it. */
  ghost predicate CommitsAreConfirmed(shows: Fault -> bool) {
    forall f: Fault :: shows(f) && f.commits ==> f.answer.Confirmed?
  }

  lemma {:induction false} NothingCommittedNothingApplied(
    enforcesKey: bool, effects: seq<Key>, key: nat -> Key, schedule: nat -> Fault, n: nat)
    requires forall i: nat :: i < n ==> !schedule(i).commits
    ensures EffectsAfter(enforcesKey, effects, key, schedule, n) == effects
  {
    if n > 0 {
      NothingCommittedNothingApplied(enforcesKey, effects, key, schedule, n - 1);
    }
  }

  lemma SafeLedgerMakesNoneTrue(enforcesKey: bool, effects: seq<Key>, key: nat -> Key, shows: Fault -> bool,
                                schedule: nat -> Fault, retries: nat)
    requires CommitsAreConfirmed(shows) && DrawnFrom(schedule, shows)
    ensures NoneIsTrue(enforcesKey, effects, key, schedule, retries)
  {
    var n := Sends(schedule, retries);
    if Reference(schedule, retries).None? {
      forall i: nat | i < n ensures !schedule(i).commits {
        assert shows(schedule(i));
      }
      NothingCommittedNothingApplied(enforcesKey, effects, key, schedule, n);
    }
  }

  lemma LostAnswerMakesNoneFalse(enforcesKey: bool, effects: seq<Key>, key: nat -> Key, fault: Fault)
    requires key(0) !in effects && fault.commits && !fault.answer.Confirmed?
    ensures !NoneIsTrue(enforcesKey, effects, key, _ => fault, 1)
  {
    var schedule: nat -> Fault := _ => fault;
    StillSending(schedule, 1, 1);
    assert EffectsAfter(enforcesKey, effects, key, schedule, 0) == effects;
    assert EffectsAfter(enforcesKey, effects, key, schedule, 1) == effects + [key(0)];
  }

  /** Whatever the ledger shows, whatever the retry bound, `None` means nothing landed. */
  ghost predicate NoneIsReliable(enforcesKey: bool, effects: seq<Key>, key: nat -> Key, shows: Fault -> bool) {
    forall schedule: nat -> Fault, retries: nat :: DrawnFrom(schedule, shows) ==>
      NoneIsTrue(enforcesKey, effects, key, schedule, retries)
  }

  lemma NoneIsReliableIff(enforcesKey: bool, effects: seq<Key>, key: nat -> Key, shows: Fault -> bool)
    requires key(0) !in effects
    ensures NoneIsReliable(enforcesKey, effects, key, shows) <==> CommitsAreConfirmed(shows)
  {
    if CommitsAreConfirmed(shows) {
      forall schedule: nat -> Fault, retries: nat | DrawnFrom(schedule, shows)
        ensures NoneIsTrue(enforcesKey, effects, key, schedule, retries)
      {
        SafeLedgerMakesNoneTrue(enforcesKey, effects, key, shows, schedule, retries);
      }
    } else {
      var fault: Fault :| shows(fault) && fault.commits && !fault.answer.Confirmed?;
      var schedule: nat -> Fault := _ => fault;
      LostAnswerMakesNoneFalse(enforcesKey, effects, key, fault);
      assert DrawnFrom(schedule, shows);
      assert !NoneIsTrue(enforcesKey, effects, key, schedule, 1);
    }
  }

  /** `None` is documented as "it never landed". For a ledger known by the faults it may show, that is so for
      every schedule and every retry bound if and only if the ledger confirms every send it acts on. It makes
      no difference whether the loop draws fresh keys or sends one key the ledger has not seen. */
  lemma NoneMeansNothingLandedIff(enforcesKey: bool, effects: seq<Key>, freshKey: nat -> Key, stableKey: Key,
                                  shows: Fault -> bool)
    requires freshKey(0) !in effects && stableKey !in effects
    ensures NoneIsReliable(enforcesKey, effects, freshKey, shows) <==> CommitsAreConfirmed(shows)
    ensures NoneIsReliable(enforcesKey, effects, _ => stableKey, shows) <==> CommitsAreConfirmed(shows)
  {
    NoneIsReliableIff(enforcesKey, effects, freshKey, shows);
    NoneIsReliableIff(enforcesKey, effects, _ => stableKey, shows);
  }

  /** And the worst case is reachable: every answer lost, `None` returned, one effect for every retry. */
  lemma NoneCanHideEveryRetry(retries: nat)
    ensures exists schedule: nat -> Fault ::
              Reference(schedule, retries).None? && Commits(schedule, Sends(schedule, retries)) == retries
  {
    var lost: nat -> Fault := _ => Fault(true, Raised);
    StillSending(lost, retries, retries);
    AllCommit(lost, retries);
  }

  lemma {:induction false} AllCommit(schedule: nat -> Fault, n: nat)
    requires forall i :: 0 <= i < n ==> schedule(i).commits
    ensures Commits(schedule, n) == n
  {
    if n > 0 {
      AllCommit(schedule, n - 1);
    }
  }
}

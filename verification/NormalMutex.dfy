/**
 The normal (non-recursive) mutex: a futex word with the states 0 unlocked,
 1 locked, 2 locked with possible waiters.  Any number of threads run lock,
 trylock and unlock; every atomic operation, futex call and plain store is one
 step, steps interleave freely, and sleepers may wake spuriously.
 */
module NormalMutex {

  type Tid = nat

  /** Where a thread stands in _normal_lock or _normal_unlock. */
  datatype Pc =
    | Idle
    | AtCmpxchg          // lock called: about to try 0 -> 1
    | AtSwap             // about to swap in 2
    | AtWait             // swap returned nonzero: about to call futex_wait(2)
    | Asleep
    | Holding
    | AtStore            // unlock found the word at 2: about to store 0
    | AtWake             // about to call futex_wake(1)

  datatype State = State(value: int, pc: map<Tid, Pc>)

  datatype Action =
    | Spawn(t: Tid)
    | CallLock(t: Tid)
    | Cmpxchg(t: Tid)
    | TryLock(t: Tid)
    | Swap(t: Tid)
    | FutexWait(t: Tid)
    | SpuriousWake(t: Tid)
    | Decrement(t: Tid)
    | Store(t: Tid)
    | FutexWake(t: Tid, sleeper: Tid)

  predicate At(s: State, t: Tid, p: Pc) {
    t in s.pc && s.pc[t] == p
  }

  function Goto(s: State, t: Tid, p: Pc): State {
    s.(pc := s.pc[t := p])
  }

  /** One step; an action that is not enabled changes nothing. */
  function Step(s: State, a: Action): State {
    match a
    case Spawn(t) => if t in s.pc then s else Goto(s, t, Idle)
    case CallLock(t) => if At(s, t, Idle) then Goto(s, t, AtCmpxchg) else s
    case Cmpxchg(t) =>
      if !At(s, t, AtCmpxchg) then s
      else if s.value == 0 then Goto(s.(value := 1), t, Holding)
      else Goto(s, t, AtSwap)
    case TryLock(t) =>
      if At(s, t, Idle) && s.value == 0 then Goto(s.(value := 1), t, Holding) else s
    case Swap(t) =>
      if !At(s, t, AtSwap) then s
      else Goto(s.(value := 2), t, if s.value == 0 then Holding else AtWait)
    case FutexWait(t) =>
      if !At(s, t, AtWait) then s
      else Goto(s, t, if s.value == 2 then Asleep else AtSwap)
    case SpuriousWake(t) => if At(s, t, Asleep) then Goto(s, t, AtSwap) else s
    case Decrement(t) =>
      if !At(s, t, Holding) then s
      else Goto(s.(value := s.value - 1), t, if s.value == 1 then Idle else AtStore)
    case Store(t) => if At(s, t, AtStore) then Goto(s.(value := 0), t, AtWake) else s
    case FutexWake(t, u) =>
      if !At(s, t, AtWake) then s
      else if At(s, u, Asleep) then Goto(Goto(s, u, AtSwap), t, Idle)
      else if forall w | w in s.pc :: s.pc[w] != Asleep then Goto(s, t, Idle)
      else s
  }

  function RunFrom(s: State, acts: seq<Action>): State
    decreases acts
  {
    if acts == [] then s else RunFrom(Step(s, acts[0]), acts[1..])
  }

  /** A run from the initializer, with no threads yet. */
  function Run(acts: seq<Action>): State {
    RunFrom(State(0, map[]), acts)
  }

  /** t owns the mutex: it holds it, or has begun to release it and not yet stored 0. */
  predicate Owns(s: State, t: Tid) {
    At(s, t, Holding) || At(s, t, AtStore)
  }

  ghost predicate Exclusive(s: State) {
    forall t, u | Owns(s, t) && Owns(s, u) :: t == u
  }

  ghost predicate Locked(s: State) {
    exists t :: Owns(s, t)
  }

  /** Someone will still see to the sleepers. */
  ghost predicate Attended(s: State) {
    || s.value == 2
    || (exists t :: At(s, t, AtStore))
    || (exists t :: At(s, t, AtWake))
    || (exists t :: At(s, t, AtSwap))
  }

  ghost predicate Inv(s: State) {
    && 0 <= s.value <= 2
    && Exclusive(s)
    && (s.value != 0 <==> Locked(s))
    && ((exists t :: At(s, t, Asleep)) ==> Attended(s))
  }

  /** A step changes who owns the mutex only by a free acquire or by the owner's release. */
  lemma StepOwners(s: State, a: Action)
    requires Inv(s)
    ensures 0 <= Step(s, a).value <= 2
    ensures Exclusive(Step(s, a)) && (Step(s, a).value != 0 <==> Locked(Step(s, a)))
  {
    var s' := Step(s, a);
    if s' != s {
      var t := a.t;
      assert forall u | u != t :: Owns(s', u) <==> Owns(s, u);
      if Owns(s', t) {
        assert Owns(s, t) || s.value == 0;
      } else if Owns(s, t) {
        assert s'.value == 0;
      }
      if u :| u != t && Owns(s, u) {
        assert Owns(s', u);
      }
    }
  }

  /** Every step leaves a thread in charge of any sleeper. */
  lemma StepAttends(s: State, a: Action)
    requires Inv(s) && exists t :: At(Step(s, a), t, Asleep)
    ensures Attended(Step(s, a))
  {
    var s' := Step(s, a);
    if s' != s {
      var t := a.t;
      if a.FutexWake? && At(s, a.sleeper, Asleep) {
        assert At(s', a.sleeper, AtSwap);
      } else if At(s', t, AtStore) || At(s', t, AtWake) || At(s', t, AtSwap) || s'.value == 2 {
      } else {
        var z :| At(s', z, Asleep);
        assert z != t && At(s, z, Asleep);
        Attendant(s, t);
        var w :| w != t && (At(s, w, AtStore) || At(s, w, AtWake) || At(s, w, AtSwap));
        assert At(s', w, s.pc[w]);
      }
    }
  }

  /** If the word is not 2, the thread attending to sleepers is not one that is idle, locking or holding at 1. */
  lemma Attendant(s: State, t: Tid)
    requires Inv(s) && (exists z :: At(s, z, Asleep)) && s.value != 2
    requires t !in s.pc || s.pc[t].Idle? || s.pc[t].AtCmpxchg? || s.pc[t].Holding? || s.pc[t].AtWait?
    ensures exists w :: w != t && (At(s, w, AtStore) || At(s, w, AtWake) || At(s, w, AtSwap))
  {
    if w :| At(s, w, AtStore) {
    } else if w :| At(s, w, AtWake) {
    } else if w :| At(s, w, AtSwap) {
    }
  }

  lemma StepInv(s: State, a: Action)
    requires Inv(s)
    ensures Inv(Step(s, a))
  {
    StepOwners(s, a);
    if exists t :: At(Step(s, a), t, Asleep) { StepAttends(s, a); }
  }

  lemma {:induction false} RunFromInv(s: State, acts: seq<Action>)
    requires Inv(s)
    ensures Inv(RunFrom(s, acts))
    decreases acts
  {
    if acts != [] {
      StepInv(s, acts[0]);
      RunFromInv(Step(s, acts[0]), acts[1..]);
    }
  }

  /** Mutual exclusion, an honest word and attended sleepers in every run. */
  lemma RunInv(acts: seq<Action>)
    ensures Inv(Run(acts))
  {
    RunFromInv(State(0, map[]), acts);
  }

  /** At most one thread owns the mutex. */
  lemma MutualExclusion(acts: seq<Action>, t: Tid, u: Tid)
    requires Owns(Run(acts), t) && Owns(Run(acts), u)
    ensures t == u && Run(acts).value != 0
  {
    RunInv(acts);
  }

  /**
   Nobody is orphaned on the wait queue: in every run, while a thread sleeps some
   other thread is neither idle nor asleep.
   */
  lemma NobodyOrphaned(acts: seq<Action>, z: Tid)
    requires At(Run(acts), z, Asleep)
    ensures exists t :: t in Run(acts).pc && Run(acts).pc[t] != Idle && Run(acts).pc[t] != Asleep
  {
    RunInv(acts);
    var s := Run(acts);
    if s.value == 2 {
      var t :| Owns(s, t);
    }
  }

  /** A released mutex with sleepers has a thread on its way to wake one or to take the mutex. */
  lemma ReleasedIsAttended(acts: seq<Action>, z: Tid)
    requires At(Run(acts), z, Asleep) && Run(acts).value == 0
    ensures exists t :: At(Run(acts), t, AtWake) || At(Run(acts), t, AtSwap)
  {
    RunInv(acts);
    var s := Run(acts);
    assert Attended(s);
    if t :| At(s, t, AtStore) { assert Owns(s, t); }
  }

  // ---- refinement of an abstract lock ----

  /** The abstract lock: free, or owned by one thread. */
  ghost function Owner(s: State): set<Tid> {
    set t | t in s.pc && Owns(s, t)
  }

  /** Every step is an acquire of a free lock, a release by the owner, or invisible. */
  lemma StepRefines(acts: seq<Action>, a: Action)
    ensures var s, s' := Run(acts), Step(Run(acts), a);
      || Owner(s') == Owner(s)
      || (Owner(s) == {} && Owner(s') == {a.t})
      || (Owner(s) == {a.t} && Owner(s') == {})
  {
    RunInv(acts);
    var s, s' := Run(acts), Step(Run(acts), a);
    var t := a.t;
    StepInv(s, a);
    assert forall u | u != t :: Owns(s', u) <==> Owns(s, u);
    if Owns(s, t) {
      assert Owner(s) == {t};
      assert Owns(s', t) ==> Owner(s') == {t};
      assert !Owns(s', t) ==> Owner(s') == {};
    } else if Owns(s', t) {
      assert Owner(s') == {t};
      assert s.value == 0;
      assert Owner(s) == {};
    } else {
      assert Owner(s') == Owner(s);
    }
  }

  // ---- what each call does ----

  /** A lock call that finds the mutex free takes it, without touching any other thread. */
  lemma LockAcquires(acts: seq<Action>, t: Tid)
    requires At(Run(acts), t, AtCmpxchg)
    ensures var s, s' := Run(acts), Step(Run(acts), Cmpxchg(t));
      && (Owner(s) == {} ==> Owner(s') == {t} && s' == State(1, s.pc[t := Holding]))
      && (Owner(s) != {} ==> s' == State(s.value, s.pc[t := AtSwap]))
  {
    RunInv(acts);
    OwnerEmpty(Run(acts));
    var s, s' := Run(acts), Step(Run(acts), Cmpxchg(t));
    if s.value == 0 { assert forall u | u in s'.pc && u != t :: !Owns(s, u); }
  }

  /** trylock by an idle thread takes the mutex if and only if it is free, and otherwise changes nothing. */
  lemma TryLockIff(acts: seq<Action>, t: Tid)
    requires At(Run(acts), t, Idle)
    ensures var s, s' := Run(acts), Step(Run(acts), TryLock(t));
      && (t in Owner(s') <==> Owner(s) == {})
      && (Owner(s) != {} ==> s' == s)
  {
    RunInv(acts);
    OwnerEmpty(Run(acts));
  }

  /** A contended locker takes the mutex if it finds it free, and marks it contended either way. */
  lemma SwapAcquires(acts: seq<Action>, t: Tid)
    requires At(Run(acts), t, AtSwap)
    ensures var s, s' := Run(acts), Step(Run(acts), Swap(t));
      && (t in Owner(s') <==> Owner(s) == {})
      && s' == State(2, s.pc[t := if Owner(s) == {} then Holding else AtWait])
  {
    RunInv(acts);
    OwnerEmpty(Run(acts));
  }

  lemma OwnerEmpty(s: State)
    requires Inv(s)
    ensures Owner(s) == {} <==> s.value == 0
  {
    if s.value != 0 {
      var t :| Owns(s, t);
      assert t in Owner(s);
    } else {
      assert forall t :: !Owns(s, t);
    }
  }

  /** A waiter sleeps exactly if the mutex is held and still marked contended; a sleeper may wake at any time. */
  lemma SleepsIff(acts: seq<Action>, t: Tid)
    ensures At(Run(acts), t, AtWait) ==>
      var s' := Step(Run(acts), FutexWait(t)); if Run(acts).value == 2 then At(s', t, Asleep) && Owner(Run(acts)) != {} else At(s', t, AtSwap)
    ensures At(Run(acts), t, Asleep) ==> At(Step(Run(acts), SpuriousWake(t)), t, AtSwap)
  {
    RunInv(acts);
    OwnerEmpty(Run(acts));
  }

  /** A new thread's first lock of a free mutex: from every state of every run it ends with that thread the owner. */
  lemma NewThreadLocks(acts: seq<Action>, t: Tid)
    requires t !in Run(acts).pc && Owner(Run(acts)) == {}
    ensures var s' := Run(acts + [Spawn(t), CallLock(t), Cmpxchg(t)]);
      Owner(s') == {t} && s' == State(1, Run(acts).pc[t := Holding])
  {
    var s := Run(acts);
    RunInv(acts);
    OwnerEmpty(s);
    RunFromAppend(State(0, map[]), acts, [Spawn(t), CallLock(t), Cmpxchg(t)]);
    ThreeSteps(s, Spawn(t), CallLock(t), Cmpxchg(t));
    var s' := State(1, s.pc[t := Holding]);
    assert Step(Step(Step(s, Spawn(t)), CallLock(t)), Cmpxchg(t)) == s' by {
      assert s.pc[t := Idle][t := AtCmpxchg] == s.pc[t := AtCmpxchg];
      assert s.pc[t := AtCmpxchg][t := Holding] == s.pc[t := Holding];
    }
    assert forall u | u in s'.pc && u != t :: !Owns(s, u);
  }

  lemma ThreeSteps(s: State, a: Action, b: Action, c: Action)
    ensures RunFrom(s, [a, b, c]) == Step(Step(Step(s, a), b), c)
  {
    hide Step;
    var s1 := Step(s, a);
    var s2 := Step(s1, b);
    assert [a, b, c][1..] == [b, c] && [b, c][1..] == [c] && [c][1..] == [];
    assert RunFrom(s, [a, b, c]) == RunFrom(s1, [b, c]);
    assert RunFrom(s1, [b, c]) == RunFrom(s2, [c]);
    assert RunFrom(s2, [c]) == RunFrom(Step(s2, c), []);
  }

  lemma OnlyOwner(s: State, t: Tid)
    requires forall u | u != t :: !Owns(s, u)
    ensures Owner(s) == if Owns(s, t) then {t} else {}
  {
  }

  /**
   An unlock: an uncontended one is over at once; a contended one stores 0 and then wakes one sleeper, any one, or
   nobody if nobody sleeps.
   */
  lemma UnlockReleases(acts: seq<Action>, t: Tid, z: Tid)
    requires At(Run(acts), t, Holding)
    ensures var s := Run(acts); var s1 := Step(s, Decrement(t)); var s2 := Step(s1, Store(t)); var s3 := Step(s2, FutexWake(t, z));
      if s.value == 1 then
        s1 == State(0, s.pc[t := Idle]) && Owner(s1) == {}
      else
        && Owner(s1) == {t}
        && s2 == State(0, s.pc[t := AtWake]) && Owner(s2) == {}
        && (At(s, z, Asleep) ==> s3 == State(0, s.pc[z := AtSwap][t := Idle]))
        && ((forall w :: !At(s, w, Asleep)) ==> s3 == State(0, s.pc[t := Idle]))
  {
    RunInv(acts);
    var s := Run(acts);
    assert Owns(s, t);
    var s1 := Step(s, Decrement(t));
    var s2 := Step(s1, Store(t));
    assert forall u | u != t :: !Owns(s, u);
    forall u | u != t
      ensures !Owns(s1, u) && !Owns(s2, u)
    {
      assert !Owns(s, u);
    }
    OnlyOwner(s1, t);
    OnlyOwner(s2, t);
    if s.value != 1 {
      assert s.pc[t := AtStore][t := AtWake] == s.pc[t := AtWake];
      WakeEnds(s, t, z);
    }
  }

  lemma WakeEnds(s: State, t: Tid, z: Tid)
    requires At(s, t, Holding)
    ensures var s2 := State(0, s.pc[t := AtWake]); var s3 := Step(s2, FutexWake(t, z));
      && (At(s, z, Asleep) ==> s3 == State(0, s.pc[z := AtSwap][t := Idle]))
      && ((forall w :: !At(s, w, Asleep)) ==> s3 == State(0, s.pc[t := Idle]))
  {
    var s2 := State(0, s.pc[t := AtWake]);
    if At(s, z, Asleep) {
      assert s.pc[t := AtWake][z := AtSwap][t := Idle] == s.pc[z := AtSwap][t := Idle];
    }
    if forall w :: !At(s, w, Asleep) {
      assert forall w | w in s2.pc && w != t :: !At(s, w, Asleep);
      assert s.pc[t := AtWake][t := Idle] == s.pc[t := Idle];
    }
  }

  // ---- progress ----

  lemma {:induction false} RunFromAppend(s: State, acts: seq<Action>, more: seq<Action>)
    ensures RunFrom(s, acts + more) == RunFrom(RunFrom(s, acts), more)
    decreases acts
  {
    if acts == [] {
      assert acts + more == more;
    } else {
      assert (acts + more)[1..] == acts[1..] + more;
      RunFromAppend(Step(s, acts[0]), acts[1..], more);
    }
  }

  ghost predicate NoSpuriousWakes(acts: seq<Action>) {
    forall i | 0 <= i < |acts| :: !acts[i].SpuriousWake?
  }

  /** From an unlock under way, one wake call and one swap give the mutex to z. */
  lemma WakeThenSwap(s: State, w: Tid, z: Tid) returns (more: seq<Action>)
    requires Inv(s) && At(s, z, Asleep)
    requires At(s, w, AtStore) || (At(s, w, AtWake) && s.value == 0)
    ensures NoSpuriousWakes(more) && At(RunFrom(s, more), z, Holding)
    decreases At(s, w, AtStore)
  {
    if At(s, w, AtStore) {
      var s1 := Step(s, Store(w));
      var rest := WakeThenSwap(s1, w, z) by { StepInv(s, Store(w)); }
      more := [Store(w)] + rest;
    } else {
      var s1 := Step(s, FutexWake(w, z));
      var s2 := Step(s1, Swap(z));
      assert RunFrom(s1, [Swap(z)]) == s2;
      more := [FutexWake(w, z), Swap(z)];
      assert more[1..] == [Swap(z)];
    }
  }

  /**
   A sleeper is never stuck: from every state of every run the threads already
   under way can hand it the mutex, without any spurious wake.
   */
  lemma SleeperCanAcquire(acts: seq<Action>, z: Tid) returns (more: seq<Action>)
    requires At(Run(acts), z, Asleep)
    ensures NoSpuriousWakes(more) && At(Run(acts + more), z, Holding)
  {
    RunInv(acts);
    more := HandOver(Run(acts), z);
    RunFromAppend(State(0, map[]), acts, more);
  }

  lemma HandOver(s: State, z: Tid) returns (more: seq<Action>)
    requires Inv(s) && At(s, z, Asleep)
    ensures NoSpuriousWakes(more) && At(RunFrom(s, more), z, Holding)
    decreases if s.value == 2 then 0 else if s.value == 0 then 1 else 2
  {
    if w :| At(s, w, AtStore) {
      more := WakeThenSwap(s, w, z);
    } else if s.value == 0 {
      assert !Locked(s);
      if w :| At(s, w, AtWake) {
        more := WakeThenSwap(s, w, z);
      } else {
        var w :| At(s, w, AtSwap);
        more := OneMore(s, Swap(w), z);
      }
    } else {
      var t :| Owns(s, t);
      more := OneMore(s, Decrement(t), z);
    }
  }

  lemma OneMore(s: State, a: Action, z: Tid) returns (more: seq<Action>)
    requires Inv(s) && At(s, z, Asleep) && !a.SpuriousWake? && At(Step(s, a), z, Asleep)
    requires (s.value == 0 && Step(s, a).value == 2)
      || (s.value == 1 && Step(s, a).value == 0)
      || (s.value == 2 && At(Step(s, a), a.t, AtStore))
    ensures NoSpuriousWakes(more) && At(RunFrom(s, more), z, Holding)
    decreases if s.value == 2 then 0 else if s.value == 0 then 1 else 2, 0
  {
    StepInv(s, a);
    var rest;
    if s.value == 2 {
      rest := WakeThenSwap(Step(s, a), a.t, z);
    } else {
      rest := HandOver(Step(s, a), z);
    }
    more := [a] + rest;
    assert more[1..] == rest;
  }

  /** The owner can release, whatever it is doing, leaving the word 0 and every locker where it was. */
  lemma OwnerReleases(s: State, z: Tid) returns (more: seq<Action>)
    requires Inv(s) && Inside(s, z)
    ensures NoSpuriousWakes(more) && Inv(RunFrom(s, more)) && RunFrom(s, more).value == 0
    ensures z in RunFrom(s, more).pc && RunFrom(s, more).pc[z] == s.pc[z]
    decreases if s.value == 0 then 0 else if exists t :: At(s, t, AtStore) then 1 else 2
  {
    if s.value == 0 {
      more := [];
    } else {
      var t :| Owns(s, t);
      var a := if At(s, t, AtStore) then Store(t) else Decrement(t);
      StepInv(s, a);
      var s1 := Step(s, a);
      assert At(s, t, Holding) ==> forall u :: !At(s, u, AtStore) by {
        if u :| At(s, u, AtStore) { assert Owns(s, u); }
      }
      assert s1.value != 0 ==> At(s1, t, AtStore);
      var rest := OwnerReleases(s1, z);
      more := [a] + rest;
      assert more[1..] == rest;
    }
  }

  /** z is somewhere inside a lock call. */
  predicate Inside(s: State, z: Tid) {
    z in s.pc && (s.pc[z].AtCmpxchg? || s.pc[z].AtSwap? || s.pc[z].AtWait? || s.pc[z].Asleep?)
  }

  /**
   No lock call is ever stuck: from every state of every run a thread anywhere inside lock can be brought to own the
   mutex, by its own steps and those of threads already under way.
   */
  lemma LockerCanAcquire(acts: seq<Action>, z: Tid) returns (more: seq<Action>)
    requires Inside(Run(acts), z)
    ensures NoSpuriousWakes(more) && At(Run(acts + more), z, Holding)
  {
    RunInv(acts);
    var s := Run(acts);
    if At(s, z, Asleep) {
      more := HandOver(s, z);
    } else {
      var first := OwnerReleases(s, z);
      var s1 := RunFrom(s, first);
      var last := if At(s1, z, AtCmpxchg) then [Cmpxchg(z)] else if At(s1, z, AtSwap) then [Swap(z)] else [FutexWait(z), Swap(z)];
      assert At(RunFrom(s1, last), z, Holding) by { LastSteps(s1, z); }
      RunFromAppend(s, first, last);
      more := first + last;
    }
    RunFromAppend(State(0, map[]), acts, more);
  }

  lemma LastSteps(s: State, z: Tid)
    requires s.value == 0
    ensures At(s, z, AtCmpxchg) ==> At(RunFrom(s, [Cmpxchg(z)]), z, Holding)
    ensures At(s, z, AtSwap) ==> At(RunFrom(s, [Swap(z)]), z, Holding)
    ensures At(s, z, AtWait) ==> At(RunFrom(s, [FutexWait(z), Swap(z)]), z, Holding)
  {
    assert [FutexWait(z), Swap(z)][1..] == [Swap(z)];
    assert RunFrom(s, [Cmpxchg(z)]) == RunFrom(Step(s, Cmpxchg(z)), []);
    assert RunFrom(s, [Swap(z)]) == RunFrom(Step(s, Swap(z)), []);
    var s1 := Step(s, FutexWait(z));
    assert RunFrom(s1, [Swap(z)]) == RunFrom(Step(s1, Swap(z)), []);
  }
}

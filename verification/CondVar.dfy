/**
 Condition variables: a 32-bit word that every signal and broadcast decrements
 before waking.  A waiter samples the word while it holds the mutex, releases
 the mutex, and sleeps only if the word is still what it sampled.
 */
module CondVar {

  type Tid = nat

  const WORD: nat := 0x1_0000_0000

  /** A thread's place; sampled and at are the number of decrements made when it sampled or decremented. */
  datatype Pc =
    | Running
    | Sampled(oldvalue: nat, sampled: nat)      // still holds the mutex
    | AboutToWait(oldvalue: nat, sampled: nat)  // mutex released
    | Asleep(sampled: nat)
    | Relocking                                 // awake, must take the mutex again
    | AboutToWakeOne(at: nat)
    | AboutToWakeAll(at: nat)

  /**
   value is the word; decs counts all decrements since initialization; done is the
   latest decrement whose broadcast has completed; mutex is the holder, if any.
   */
  datatype State = State(value: nat, decs: nat, done: nat, mutex: Holder, pc: map<Tid, Pc>)

  datatype Holder = Nobody | By(t: Tid)

  datatype Action =
    | Spawn(t: Tid)
    | TakeMutex(t: Tid)
    | ReleaseMutex(t: Tid)
    | Sample(t: Tid)
    | UnlockToWait(t: Tid)
    | FutexWait(t: Tid)
    | SpuriousWake(t: Tid)
    | Relock(t: Tid)
    | SignalDecrement(t: Tid)
    | BroadcastDecrement(t: Tid)
    | WakeOne(t: Tid, sleeper: Tid)
    | WakeAll(t: Tid)

  function Goto(s: State, t: Tid, p: Pc): State {
    s.(pc := s.pc[t := p])
  }

  /** The word after __atomic_dec. */
  function Decremented(v: nat): nat {
    if v == 0 then WORD - 1 else v - 1
  }

  function Decrement(s: State): State {
    s.(value := Decremented(s.value), decs := s.decs + 1)
  }

  predicate SomeoneSleeps(s: State) {
    exists t | t in s.pc :: s.pc[t].Asleep?
  }

  /** One step; an action that is not enabled changes nothing. */
  function Step(s: State, a: Action): State {
    if a.Spawn? then (if a.t in s.pc then s else Goto(s, a.t, Running))
    else if a.t !in s.pc then s
    else
      var t, p := a.t, s.pc[a.t];
      match a
      case TakeMutex(_) => if p.Running? && s.mutex == Nobody then s.(mutex := By(t)) else s
      case ReleaseMutex(_) => if p.Running? && s.mutex == By(t) then s.(mutex := Nobody) else s
      case Sample(_) => if p.Running? && s.mutex == By(t) then Goto(s, t, Sampled(s.value, s.decs)) else s
      case UnlockToWait(_) =>
        if p.Sampled? then Goto(s.(mutex := Nobody), t, AboutToWait(p.oldvalue, p.sampled)) else s
      case FutexWait(_) =>
        if !p.AboutToWait? then s
        else Goto(s, t, if s.value == p.oldvalue then Asleep(p.sampled) else Relocking)
      case SpuriousWake(_) => if p.Asleep? then Goto(s, t, Relocking) else s
      case Relock(_) => if p.Relocking? && s.mutex == Nobody then Goto(s.(mutex := By(t)), t, Running) else s
      case SignalDecrement(_) => if p.Running? then Goto(Decrement(s), t, AboutToWakeOne(s.decs + 1)) else s
      case BroadcastDecrement(_) => if p.Running? then Goto(Decrement(s), t, AboutToWakeAll(s.decs + 1)) else s
      case WakeOne(_, u) =>
        if !p.AboutToWakeOne? then s
        else if u in s.pc && s.pc[u].Asleep? then Goto(Goto(s, u, Relocking), t, Running)
        else if SomeoneSleeps(s) then s
        else Goto(s, t, Running)
      case WakeAll(_) =>
        if !p.AboutToWakeAll? then s
        else
          var woken := map u | u in s.pc :: if s.pc[u].Asleep? then Relocking else s.pc[u];
          Goto(s.(pc := woken, done := if p.at > s.done then p.at else s.done), t, Running)
  }

  function Run(acts: seq<Action>): State {
    if acts == [] then State(0, 0, 0, Nobody, map[])
    else Step(Run(acts[..|acts| - 1]), acts[|acts| - 1])
  }

  /** The word after n decrements of a fresh condition variable. */
  function WordAfter(n: nat): nat {
    (WORD - n % WORD) % WORD
  }

  /** The word returns to a sampled value exactly after a multiple of 2^32 decrements. */
  lemma WordRepeats(n: nat, m: nat)
    requires n <= m
    ensures WordAfter(m) == WordAfter(n) <==> (m - n) % WORD == 0
  {
    var a, b := n % WORD, m % WORD;
    var i, j := n / WORD, m / WORD;
    assert m - n == (j - i) * WORD + (b - a);
    if a == b {
      assert (m - n) % WORD == 0;
    } else if b > a {
      assert (m - n) % WORD == b - a;
    } else {
      assert m - n == (j - i - 1) * WORD + (b - a + WORD);
      assert (m - n) % WORD == b - a + WORD;
    }
  }

  ghost predicate ThreadOK(s: State, t: Tid)
    requires t in s.pc
  {
    match s.pc[t]
    case Sampled(v, n) => s.mutex == By(t) && n <= s.decs && v == WordAfter(n)
    case AboutToWait(v, n) => n <= s.decs && v == WordAfter(n)
    case Asleep(n) => n <= s.decs
    case AboutToWakeOne(k) => 0 < k <= s.decs
    case AboutToWakeAll(k) => 0 < k <= s.decs
    case _ => true
  }

  ghost predicate Inv(s: State) {
    && s.value == WordAfter(s.decs)
    && s.done <= s.decs
    && (forall t | t in s.pc :: ThreadOK(s, t))
  }

  lemma StepInv(s: State, a: Action)
    requires Inv(s)
    ensures Inv(Step(s, a))
  {
    var s' := Step(s, a);
    DecrementedWord(s.decs);
    forall u | u in s'.pc
      ensures ThreadOK(s', u)
    {
      if u in s.pc { assert ThreadOK(s, u); }
    }
  }

  lemma DecrementedWord(n: nat)
    ensures Decremented(WordAfter(n)) == WordAfter(n + 1)
  {
  }

  lemma {:induction false} RunInv(acts: seq<Action>)
    ensures Inv(Run(acts))
  {
    if acts != [] {
      RunInv(acts[..|acts| - 1]);
      StepInv(Run(acts[..|acts| - 1]), acts[|acts| - 1]);
    }
  }

  ghost predicate WaitingSince(s: State, t: Tid, n: nat) {
    t in s.pc && s.pc[t].AboutToWait? && s.pc[t].sampled == n
  }

  /**
   A waiter falls asleep exactly when the number of decrements since it sampled
   is a multiple of 2^32; with fewer than 2^32 of them, exactly when there was none.
   */
  lemma SleepsExactly(acts: seq<Action>, t: Tid, n: nat)
    requires WaitingSince(Run(acts), t, n)
    ensures var s := Run(acts);
      && n <= s.decs
      && (Step(s, FutexWait(t)).pc[t].Asleep? <==> (s.decs - n) % 0x1_0000_0000 == 0)
      && (s.decs - n < 0x1_0000_0000 ==> (Step(s, FutexWait(t)).pc[t].Asleep? <==> s.decs == n))
  {
    RunInv(acts);
    var s := Run(acts);
    assert ThreadOK(s, t);
    WordRepeats(n, s.decs);
  }

  // ---- runs in which no waiter is overtaken by 2^32 decrements ----

  ghost predicate TimelyStep(s: State, a: Action) {
    a.FutexWait? && a.t in s.pc && s.pc[a.t].AboutToWait? ==> s.decs - s.pc[a.t].sampled < WORD
  }

  ghost predicate Timely(acts: seq<Action>) {
    acts != [] ==> Timely(acts[..|acts| - 1]) && TimelyStep(Run(acts[..|acts| - 1]), acts[|acts| - 1])
  }

  ghost predicate SleepersAfter(s: State, k: nat) {
    forall t | t in s.pc && s.pc[t].Asleep? :: k <= s.pc[t].sampled
  }

  /** Once a broadcast has completed, whoever sleeps sampled after its decrement. */
  lemma {:induction false} BroadcastReachesAll(acts: seq<Action>)
    requires Timely(acts)
    ensures SleepersAfter(Run(acts), Run(acts).done)
  {
    if acts != [] {
      var pre, a := acts[..|acts| - 1], acts[|acts| - 1];
      BroadcastReachesAll(pre);
      RunInv(pre);
      var s, s' := Run(pre), Run(acts);
      if a.FutexWait? && a.t in s.pc && s.pc[a.t].AboutToWait? {
        SleepsExactly(pre, a.t, s.pc[a.t].sampled);
      }
      forall t | t in s'.pc && s'.pc[t].Asleep?
        ensures s'.done <= s'.pc[t].sampled
      {
        if t in s.pc { assert ThreadOK(s, t); }
      }
    }
  }

  /** No waiter goes to sleep on a value sampled before a later decrement. */
  lemma NoLateSleep(acts: seq<Action>, a: Action, t: Tid)
    requires Timely(acts + [a])
    requires t in Run(acts).pc && !Run(acts).pc[t].Asleep?
    requires t in Run(acts + [a]).pc && Run(acts + [a]).pc[t].Asleep?
    ensures Run(acts + [a]).pc[t].sampled == Run(acts).decs
  {
    assert (acts + [a])[..|acts|] == acts;
    var s := Run(acts);
    assert Run(acts + [a]) == Step(s, a);
    SleepsExactly(acts, t, s.pc[t].sampled);
  }

  // ---- what each call does ----

  ghost predicate Sleeps(s: State, u: Tid) {
    u in s.pc && s.pc[u].Asleep?
  }

  /** u is where it was. */
  ghost predicate Unmoved(s: State, s': State, u: Tid) {
    (u in s.pc <==> u in s'.pc) && (u in s.pc ==> s'.pc[u] == s.pc[u])
  }

  /**
   The step that completes a signal: if anyone sleeps, exactly one sleeper leaves its sleep to retake the mutex and no
   other thread moves; if nobody sleeps, none does.
   */
  lemma SignalWakesOne(acts: seq<Action>, t: Tid, z: Tid)
    requires t in Run(acts).pc && Run(acts).pc[t].AboutToWakeOne?
    requires Step(Run(acts), WakeOne(t, z)).pc[t].Running?
    ensures var s, s' := Run(acts), Step(Run(acts), WakeOne(t, z));
      && s'.value == s.value && s'.mutex == s.mutex
      && (if exists u :: Sleeps(s, u) then Sleeps(s, z) && z in s'.pc && s'.pc[z] == Relocking && forall u | u != t && u != z :: Unmoved(s, s', u)
          else forall u | u != t :: Unmoved(s, s', u))
  {
    var s := Run(acts);
    if u :| Sleeps(s, u) { assert SomeoneSleeps(s); }
    if SomeoneSleeps(s) { var u :| u in s.pc && s.pc[u].Asleep?; assert Sleeps(s, u); }
  }

  /** And there is such a step: for any sleeper it may be the one that is woken, and without sleepers it just returns. */
  lemma SignalCanComplete(acts: seq<Action>, t: Tid, z: Tid)
    requires t in Run(acts).pc && Run(acts).pc[t].AboutToWakeOne?
    requires Sleeps(Run(acts), z) || forall u :: !Sleeps(Run(acts), u)
    ensures Step(Run(acts), WakeOne(t, z)).pc[t].Running?
    ensures Sleeps(Run(acts), z) ==> Step(Run(acts), WakeOne(t, z)).pc[z] == Relocking
  {
    var s := Run(acts);
    if SomeoneSleeps(s) { var u :| u in s.pc && s.pc[u].Asleep?; assert Sleeps(s, u); }
  }

  /** The step that completes a broadcast wakes every sleeper, moves no other thread, and marks its decrement as done. */
  lemma BroadcastWakesAll(acts: seq<Action>, t: Tid, u: Tid)
    requires t in Run(acts).pc && Run(acts).pc[t].AboutToWakeAll?
    ensures var s, s' := Run(acts), Step(Run(acts), WakeAll(t));
      && s'.pc[t].Running? && s'.value == s.value && s'.mutex == s.mutex && s.pc[t].at <= s'.done
      && (Sleeps(s, u) ==> u in s'.pc && s'.pc[u] == Relocking)
      && (u != t && !Sleeps(s, u) ==> Unmoved(s, s', u))
  {
  }

  /** A call to signal or broadcast begins by changing the word, so that no waiter that sampled before can fall asleep. */
  lemma CallDecrements(acts: seq<Action>, t: Tid)
    requires t in Run(acts).pc && Run(acts).pc[t].Running?
    ensures var s := Run(acts); var s', s'' := Step(s, SignalDecrement(t)), Step(s, BroadcastDecrement(t));
      && s'.decs == s''.decs == s.decs + 1 && s'.value == s''.value != s.value
      && s'.pc == s.pc[t := AboutToWakeOne(s.decs + 1)] && s''.pc == s.pc[t := AboutToWakeAll(s.decs + 1)]
  {
    RunInv(acts);
  }

  /** A sleeper may also wake without a signal. */
  lemma SleeperMayWake(acts: seq<Action>, z: Tid)
    requires Sleeps(Run(acts), z)
    ensures Step(Run(acts), SpuriousWake(z)).pc == Run(acts).pc[z := Relocking]
  {
  }

  lemma OneMoreStep(acts: seq<Action>, a: Action)
    ensures Run(acts + [a]) == Step(Run(acts), a)
  {
    assert (acts + [a])[..|acts|] == acts;
  }

  /**
   A whole wait: from every state of every run, a thread that holds the mutex and waits gives the mutex up, sleeps, is
   woken by another thread's signal and returns with the mutex.
   */
  lemma WaitSignalReturn(acts: seq<Action>, t: Tid, z: Tid)
    requires var s := Run(acts); t != z && t in s.pc && s.pc[t].Running? && s.mutex == By(t) && z in s.pc && s.pc[z].Running?
    ensures var slept := acts + [Sample(t)] + [UnlockToWait(t)] + [FutexWait(t)];
      && Sleeps(Run(slept), t) && Run(slept).mutex == Nobody
      && var signalled := slept + [SignalDecrement(z)] + [WakeOne(z, t)];
      && t in Run(signalled).pc && Run(signalled).pc[t] == Relocking && z in Run(signalled).pc && Run(signalled).pc[z] == Running
      && t in Run(signalled + [Relock(t)]).pc && Run(signalled + [Relock(t)]).pc[t] == Running && Run(signalled + [Relock(t)]).mutex == By(t)
  {
    hide Run;
    var a1 := acts + [Sample(t)];
    var a2 := a1 + [UnlockToWait(t)];
    var a3 := a2 + [FutexWait(t)];
    var a4 := a3 + [SignalDecrement(z)];
    var a5 := a4 + [WakeOne(z, t)];
    OneMoreStep(acts, Sample(t));
    OneMoreStep(a1, UnlockToWait(t));
    OneMoreStep(a2, FutexWait(t));
    OneMoreStep(a3, SignalDecrement(z));
    OneMoreStep(a4, WakeOne(z, t));
    OneMoreStep(a5, Relock(t));
  }

  /** A new thread can take a free mutex, and give it back. */
  lemma NewThreadTakes(acts: seq<Action>, t: Tid)
    requires t !in Run(acts).pc && Run(acts).mutex == Nobody
    ensures var a := acts + [Spawn(t)] + [TakeMutex(t)];
      && Run(a).mutex == By(t) && t in Run(a).pc && Run(a).pc[t] == Running
      && Run(a + [ReleaseMutex(t)]).mutex == Nobody
  {
    hide Run;
    OneMoreStep(acts, Spawn(t));
    OneMoreStep(acts + [Spawn(t)], TakeMutex(t));
    OneMoreStep(acts + [Spawn(t)] + [TakeMutex(t)], ReleaseMutex(t));
  }

  // ---- the race the code comments admit ----

  function Signals(n: nat): seq<Action> {
    if n == 0 then [] else Signals(n - 1) + [SignalDecrement(2), WakeOne(2, 2)]
  }

  const PREFIX: seq<Action> := [Spawn(1), Spawn(2), TakeMutex(1), Sample(1), UnlockToWait(1)]

  lemma OneSignal(n: nat)
    ensures var s := State(WordAfter(n), n, 0, Nobody, map[1 := AboutToWait(0, 0), 2 := Running]);
      Step(Step(s, SignalDecrement(2)), WakeOne(2, 2))
        == State(WordAfter(n + 1), n + 1, 0, Nobody, map[1 := AboutToWait(0, 0), 2 := Running])
  {
    DecrementedWord(n);
    hide WordAfter, Decremented;
    var s := State(WordAfter(n), n, 0, Nobody, map[1 := AboutToWait(0, 0), 2 := Running]);
    var s1 := Step(s, SignalDecrement(2));
    assert s1.pc == map[1 := AboutToWait(0, 0), 2 := AboutToWakeOne(n + 1)];
    assert !SomeoneSleeps(s1);
  }

  lemma {:induction false} AfterSignals(n: nat)
    ensures Run(PREFIX + Signals(n)) == State(WordAfter(n), n, 0, Nobody, map[1 := AboutToWait(0, 0), 2 := Running])
  {
    hide Step, WordAfter;
    if n == 0 {
      assert PREFIX + Signals(0) == PREFIX;
      PrefixState();
    } else {
      AfterSignals(n - 1);
      OneSignal(n - 1);
      var acts := PREFIX + Signals(n - 1);
      var one := acts + [SignalDecrement(2)];
      assert PREFIX + Signals(n) == one + [WakeOne(2, 2)];
      assert (one + [WakeOne(2, 2)])[..|one|] == one;
      assert one[..|acts|] == acts;
    }
  }

  lemma PrefixState()
    ensures Run(PREFIX) == State(WordAfter(0), 0, 0, Nobody, map[1 := AboutToWait(0, 0), 2 := Running])
  {
    var p1 := [Spawn(1)];
    var p2 := p1 + [Spawn(2)];
    var p3 := p2 + [TakeMutex(1)];
    var p4 := p3 + [Sample(1)];
    var p5 := p4 + [UnlockToWait(1)];
    assert PREFIX == p5;
    assert p5[..4] == p4 && p4[..3] == p3 && p3[..2] == p2 && p2[..1] == p1 && p1[..0] == [];
    assert Run(p1) == State(0, 0, 0, Nobody, map[1 := Running]);
    assert Run(p2) == State(0, 0, 0, Nobody, map[1 := Running, 2 := Running]);
    assert Run(p3) == State(0, 0, 0, By(1), map[1 := Running, 2 := Running]);
    assert Run(p4) == State(0, 0, 0, By(1), map[1 := Sampled(0, 0), 2 := Running]);
  }

  /** After exactly 2^32 signals a waiter that sampled before all of them still falls asleep. */
  lemma SignalsCanBeLost()
    ensures var s := Run(PREFIX + Signals(WORD));
      && WaitingSince(s, 1, 0) && s.decs == WORD
      && Step(s, FutexWait(1)).pc[1] == Asleep(0)
  {
    AfterSignals(WORD);
  }
}

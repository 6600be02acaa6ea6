/**
 Thread-local storage keys: a global bitmap of allocated keys with their
 destructors, and one array of slots per started thread.  Creating a key and
 setting a value are one step each under the map lock.  Deleting a key clears
 one thread's slot per step and then the key's bit, under the lock; reads do
 not lock and fall anywhere in between.  An exiting thread runs destructors in
 rounds, giving the lock up around each call.
 */
module TlsKeys {
  import opened Words
  import opened Binmap

  type Tid = nat

  const START: nat := 3
  const SIZE: nat := 64
  const ROUNDS: nat := 4
  const DEFAULT_ALLOC: nat := 0x1f

  // ---- the bitmap ----

  type KeyMap = m: seq<nat> | |m| == 2 && m[0] < WORD && m[1] < WORD witness [0, 0]

  predicate Test(m: KeyMap, k: nat)
    requires k < SIZE
  {
    Marked(m[k / 32], k % 32)
  }

  function SetBit(m: KeyMap, k: nat): (r: KeyMap)
    requires k < SIZE
    ensures forall j: nat | j < SIZE :: Test(r, j) <==> j == k || Test(m, j)
  {
    MarkBound(m[k / 32], k % 32);
    MarkAll(m[k / 32], k % 32);
    m[k / 32 := Mark(m[k / 32], k % 32)]
  }

  function ClearBit(m: KeyMap, k: nat): (r: KeyMap)
    requires k < SIZE
    ensures forall j: nat | j < SIZE :: Test(r, j) <==> j != k && Test(m, j)
  {
    MarkBound(m[k / 32], k % 32);
    ClearAll(m[k / 32], k % 32);
    m[k / 32 := Clear(m[k / 32], k % 32)]
  }

  lemma MarkAll(w: nat, i: nat)
    requires i < 32
    ensures forall j: nat | j < 32 :: Marked(Mark(w, i), j) <==> i == j || Marked(w, j)
  {
    forall j: nat | j < 32
      ensures Marked(Mark(w, i), j) <==> i == j || Marked(w, j)
    {
      MarkSpec(w, i, j);
    }
  }

  lemma ClearAll(w: nat, i: nat)
    requires i < 32
    ensures forall j: nat | j < 32 :: Marked(Clear(w, i), j) <==> i != j && Marked(w, j)
  {
    forall j: nat | j < 32
      ensures Marked(Clear(w, i), j) <==> i != j && Marked(w, j)
    {
      ClearSpec(w, i, j);
    }
  }

  /** The first unallocated key from k on, or SIZE. */
  function FirstFree(m: KeyMap, k: nat): (r: nat)
    requires k <= SIZE
    ensures k <= r <= SIZE
    ensures r < SIZE ==> !Test(m, r)
    ensures forall j: nat | k <= j < r :: Test(m, j)
    decreases SIZE - k
  {
    if k == SIZE || !Test(m, k) then k else FirstFree(m, k + 1)
  }

  /** The loop of tlskeysalloc: the least free key, or -1 when all are taken. */
  method FindFree(m: KeyMap) returns (key: int)
    ensures key == -1 <==> forall j: nat | 3 <= j < 64 :: Test(m, j)
    ensures key != -1 ==> 3 <= key < 64 && key == FirstFree(m, 3) && !Test(m, key)
  {
    hide Marked;
    var k := START;
    while k < SIZE
      invariant START <= k <= SIZE
      invariant forall j: nat | START <= j < k :: Test(m, j)
      invariant FirstFree(m, START) == FirstFree(m, k)
    {
      if !Test(m, k) {
        return k;
      }
      k := k + 1;
    }
    return -1;
  }

  // ---- the system ----

  type Slots = s: seq<int> | |s| == SIZE witness seq(SIZE, _ => 0)
  type Dtors = s: seq<nat> | |s| == SIZE witness seq(SIZE, _ => 0)

  datatype Phase =
    | Running
    | Cleaning(rounds: nat, key: nat, count: nat)   // in pthread_key_clean_all, holding the map lock
    | InDtor(rounds: nat, key: nat, count: nat)     // inside a destructor it called

  /** A deletion in progress holds the map lock and the thread list lock; todo are the listed threads not yet visited. */
  datatype Op = NoOp | Deleting(key: nat, todo: set<Tid>)

  datatype Thread = Created | Live(tls: Slots, phase: Phase, op: Op) | Gone

  /** What happened: a key made or dropped, a value stored, a destructor called. */
  datatype Event =
    | Made(key: nat, dtor: nat)
    | Dropped(key: nat)
    | Stored(t: Tid, key: nat, ptr: int)
    | Called(t: Tid, key: nat, dtor: nat, data: int)

  datatype Lock = NoOne | HeldBy(t: Tid)

  /** The key map, the threads, the map lock, and a record of events that no step reads. */
  datatype State = State(
    init: bool,
    keys: KeyMap,
    dtors: Dtors,
    threads: map<Tid, Thread>,
    lock: Lock,
    log: seq<Event>)

  datatype Action =
    | ThreadCreate(t: Tid)
    | ThreadStart(t: Tid)
    | KeyCreate(t: Tid, dtor: nat)
    | KeyDelete(t: Tid, key: int)
    | DeleteSlot(t: Tid, u: Tid)
    | DeleteDone(t: Tid)
    | SetSpecific(t: Tid, key: int, ptr: int)
    | BeginExit(t: Tid)
    | CleanKey(t: Tid)
    | DtorReturns(t: Tid)

  predicate ValidKey(key: int) {
    START <= key < SIZE
  }

  predicate IsLive(s: State, t: Tid) {
    t in s.threads && s.threads[t].Live?
  }

  /** t is running user code and can call into the library. */
  predicate CanCall(s: State, t: Tid) {
    IsLive(s, t) && !s.threads[t].phase.Cleaning? && s.threads[t].op.NoOp?
  }

  /** Thread t is deleting a key. */
  predicate IsDeleting(s: State, t: Tid) {
    IsLive(s, t) && s.threads[t].op.Deleting?
  }

  /** Some deletion holds the thread list lock: no thread can be added to the list. */
  predicate ListLocked(s: State) {
    s.lock.HeldBy? && IsDeleting(s, s.lock.t)
  }

  /** tlsmap_lock: the first caller installs the preallocated keys. */
  function Locked(s: State): State {
    if s.init then s else s.(init := true, keys := s.keys[0 := DEFAULT_ALLOC])
  }

  function SetThread(s: State, t: Tid, th: Thread): State {
    s.(threads := s.threads[t := th])
  }

  function ClearSlot(th: Thread, k: nat): Thread
    requires k < SIZE
  {
    if th.Live? then th.(tls := th.tls[k := 0]) else th
  }

  function Log(s: State, e: Event): State {
    s.(log := s.log + [e])
  }

  /** Key k taken, or released. */
  function Make(s: State, k: nat, dtor: nat): State
    requires k < SIZE
  {
    Log(s.(keys := SetBit(s.keys, k), dtors := s.dtors[k := dtor]), Made(k, dtor))
  }

  function Drop(s: State, t: Tid, k: nat): State
    requires IsLive(s, t) && k < SIZE
  {
    Log(SetThread(s.(lock := NoOne, keys := ClearBit(s.keys, k), dtors := s.dtors[k := 0]), t, s.threads[t].(op := NoOp)),
        Dropped(k))
  }

  /** pthread_key_delete visits thread u. */
  function Visit(s: State, t: Tid, u: Tid): State
    requires IsDeleting(s, t) && u in s.threads && s.threads[t].op.key < SIZE
  {
    var o := s.threads[t].op;
    var s1 := SetThread(s, u, ClearSlot(s.threads[u], o.key));
    SetThread(s1, t, s1.threads[t].(op := o.(todo := o.todo - {u})))
  }

  function Store(s: State, t: Tid, k: nat, ptr: int): State
    requires IsLive(s, t) && k < SIZE
  {
    Log(SetThread(s, t, s.threads[t].(tls := s.threads[t].tls[k := ptr])), Stored(t, k, ptr))
  }

  /** One step; an action that is not enabled changes nothing. */
  function Step(s: State, a: Action): State {
    match a
    case ThreadCreate(t) => if t in s.threads || ListLocked(s) then s else SetThread(s, t, Created)
    case ThreadStart(t) =>
      if t in s.threads && s.threads[t].Created? then SetThread(s, t, Live(seq(SIZE, _ => 0), Running, NoOp)) else s
    case KeyCreate(t, dtor) =>
      if !CanCall(s, t) || s.lock != NoOne then s
      else
        var s1 := Locked(s);
        var k := FirstFree(s1.keys, START);
        if k == SIZE then s1 else Make(s1, k, dtor)
    case KeyDelete(t, key) =>
      if !CanCall(s, t) || !ValidKey(key) || s.lock != NoOne then s
      else
        var s1 := Locked(s);
        if !Test(s1.keys, key) then s1
        else SetThread(s1.(lock := HeldBy(t)), t, s1.threads[t].(op := Deleting(key, s1.threads.Keys)))
    case DeleteSlot(t, u) =>
      if IsDeleting(s, t) && u in s.threads[t].op.todo && u in s.threads && s.threads[t].op.key < SIZE then Visit(s, t, u) else s
    case DeleteDone(t) =>
      if IsDeleting(s, t) && s.threads[t].op.todo == {} && s.threads[t].op.key < SIZE then Drop(s, t, s.threads[t].op.key) else s
    case SetSpecific(t, key, ptr) =>
      if !CanCall(s, t) || !ValidKey(key) || s.lock != NoOne then s
      else
        var s1 := Locked(s);
        if !Test(s1.keys, key) then s1 else Store(s1, t, key, ptr)
    case BeginExit(t) =>
      if CanCall(s, t) && s.threads[t].phase.Running? && s.lock == NoOne then
        var s1 := Locked(s);
        SetThread(s1.(lock := HeldBy(t)), t, s1.threads[t].(phase := Cleaning(ROUNDS, START, 0)))
      else s
    case CleanKey(t) => if IsLive(s, t) && s.threads[t].phase.Cleaning? then Clean(s, t) else s
    case DtorReturns(t) =>
      if CanCall(s, t) && s.threads[t].phase.InDtor? && s.lock == NoOne then
        var p := s.threads[t].phase;
        SetThread(Locked(s).(lock := HeldBy(t)), t, s.threads[t].(phase := Cleaning(p.rounds, p.key + 1, p.count + 1)))
      else s
  }

  /** One turn of the loops of pthread_key_clean_all. */
  function Clean(s: State, t: Tid): State
    requires IsLive(s, t) && s.threads[t].phase.Cleaning?
  {
    var th := s.threads[t];
    var p := th.phase;
    if p.key >= SIZE then
      if p.count == 0 || p.rounds <= 1 then SetThread(s.(lock := NoOne), t, Gone)
      else SetThread(s, t, th.(phase := Cleaning(p.rounds - 1, START, 0)))
    else
      var data, dtor := th.tls[p.key], s.dtors[p.key];
      if Test(s.keys, p.key) && data != 0 && dtor != 0 then
        Log(SetThread(s.(lock := NoOne), t, th.(tls := th.tls[p.key := 0], phase := InDtor(p.rounds, p.key, p.count))),
            Called(t, p.key, dtor, data))
      else
        SetThread(s, t, th.(phase := Cleaning(p.rounds, p.key + 1, p.count)))
  }

  function Run(acts: seq<Action>): State {
    if acts == [] then State(false, [0, 0], seq(SIZE, _ => 0), map[], NoOne, [])
    else Step(Run(acts[..|acts| - 1]), acts[|acts| - 1])
  }

  /** pthread_getspecific: an unlocked read. */
  function GetSpecific(s: State, t: Tid, key: int): int
    requires IsLive(s, t)
  {
    if !ValidKey(key) then 0 else s.threads[t].tls[key]
  }

  // ---- what the record says ----

  /** What t last stored under k since k was made, unless a destructor has taken it; null if nothing. */
  function LastValue(log: seq<Event>, t: Tid, k: nat): int {
    if log == [] then 0
    else
      var rest := LastValue(log[..|log| - 1], t, k);
      match log[|log| - 1]
      case Stored(u, j, ptr) => if u == t && j == k then ptr else rest
      case Called(u, j, _, _) => if u == t && j == k then 0 else rest
      case Made(j, _) => if j == k then 0 else rest
      case Dropped(j) => if j == k then 0 else rest
  }

  /** The destructor k was made with; null if it is not made. */
  function LastDtor(log: seq<Event>, k: nat): nat {
    if log == [] then 0
    else
      var rest := LastDtor(log[..|log| - 1], k);
      match log[|log| - 1]
      case Made(j, d) => if j == k then d else rest
      case Dropped(j) => if j == k then 0 else rest
      case _ => rest
  }

  /** How many destructors t has run. */
  function CallsBy(log: seq<Event>, t: Tid): nat {
    if log == [] then 0
    else CallsBy(log[..|log| - 1], t) + if log[|log| - 1].Called? && log[|log| - 1].t == t then 1 else 0
  }

  lemma LogStep(log: seq<Event>, e: Event, t: Tid, k: nat)
    ensures LastValue(log + [e], t, k) ==
      (if e.Stored? && e.t == t && e.key == k then e.ptr
       else if (e.Called? && e.t == t && e.key == k) || ((e.Made? || e.Dropped?) && e.key == k) then 0
       else LastValue(log, t, k))
    ensures LastDtor(log + [e], k) ==
      if e.Made? && e.key == k then e.dtor else if e.Dropped? && e.key == k then 0 else LastDtor(log, k)
    ensures CallsBy(log + [e], t) == CallsBy(log, t) + if e.Called? && e.t == t then 1 else 0
  {
    assert (log + [e])[..|log|] == log;
  }

  /** How many destructors a thread can have run by this phase. */
  function Budget(p: Phase): int {
    match p
    case Running => 0
    case Cleaning(r, k, _) => (ROUNDS - r) * (SIZE - START) + (k - START)
    case InDtor(r, k, _) => (ROUNDS - r) * (SIZE - START) + (k - START) + 1
  }

  // ---- the invariant ----

  predicate BeingDeleted(s: State, k: nat) {
    ListLocked(s) && s.threads[s.lock.t].op.key == k
  }

  /** The slot of an unallocated key is null; any other holds the last value, or is already cleared by a deletion. */
  ghost predicate SlotOK(s: State, u: Tid, k: nat)
    requires IsLive(s, u) && ValidKey(k)
  {
    var v := s.threads[u].tls[k];
    && (!Test(s.keys, k) ==> v == 0)
    && (v == LastValue(s.log, u, k) || (v == 0 && BeingDeleted(s, k)))
    && (BeingDeleted(s, k) && u !in s.threads[s.lock.t].op.todo ==> v == 0)
  }

  ghost predicate PhaseOK(s: State, u: Tid)
    requires IsLive(s, u)
  {
    var p, o := s.threads[u].phase, s.threads[u].op;
    && (p.Cleaning? ==> s.lock == HeldBy(u) && s.init && START <= p.key <= SIZE && o.NoOp?)
    && (p.InDtor? ==> START <= p.key < SIZE)
    && (!p.Running? ==> 1 <= p.rounds <= ROUNDS)
    && (o.Deleting? ==> s.lock == HeldBy(u) && s.init && ValidKey(o.key) && Test(s.keys, o.key))
    && CallsBy(s.log, u) <= Budget(p)
  }

  /** A round without calls so far has left nothing behind it. */
  ghost predicate QuietOK(s: State, u: Tid)
    requires IsLive(s, u)
  {
    var p := s.threads[u].phase;
    p.Cleaning? && p.count == 0 ==>
      forall k: nat {:trigger Test(s.keys, k)} | START <= k < p.key && k < SIZE && Test(s.keys, k) && s.dtors[k] != 0 :: s.threads[u].tls[k] == 0
  }

  ghost predicate ThreadOK(s: State, u: Tid) {
    && (IsLive(s, u) ==>
          && (forall k: nat {:trigger SlotOK(s, u, k)} | ValidKey(k) :: SlotOK(s, u, k))
          && PhaseOK(s, u) && QuietOK(s, u))
    && (!IsLive(s, u) ==> CallsBy(s.log, u) <= ROUNDS * (SIZE - START))
    && (u !in s.threads || s.threads[u].Created? ==>
          CallsBy(s.log, u) == 0 && forall k: nat {:trigger LastValue(s.log, u, k)} :: LastValue(s.log, u, k) == 0)
  }

  /** A call recorded at i: of the function its key was made with, on the value its thread last stored. */
  ghost predicate CallOK(log: seq<Event>, i: nat)
    requires i < |log|
  {
    log[i].Called? ==>
      var e := log[i];
      && ValidKey(e.key) && e.dtor != 0 && e.data != 0
      && LastDtor(log[..i], e.key) == e.dtor && LastValue(log[..i], e.t, e.key) == e.data
  }

  ghost predicate GlobalOK(s: State) {
    && (!s.init ==> s.keys == [0, 0])
    && (forall k: nat {:trigger LastDtor(s.log, k)} | ValidKey(k) :: s.dtors[k] == LastDtor(s.log, k))
    && (forall i {:trigger CallOK(s.log, i)} | 0 <= i < |s.log| :: CallOK(s.log, i))
    && (s.lock.HeldBy? ==> IsLive(s, s.lock.t))
  }

  ghost predicate Inv(s: State) {
    GlobalOK(s) && forall u {:trigger ThreadOK(s, u)} :: ThreadOK(s, u)
  }

  // ---- every step keeps it ----

  lemma LockedInv(s: State)
    requires Inv(s)
    ensures Inv(Locked(s)) && Locked(s).init
  {
    if !s.init {
      var s1 := Locked(s);
      forall u
        ensures ThreadOK(s1, u)
      {
        assert ThreadOK(s, u);
        if IsLive(s, u) {
          forall k: nat | ValidKey(k)
            ensures SlotOK(s1, u, k)
          {
            assert SlotOK(s, u, k);
            ZeroUnmarked(k % 32);
          }
        }
      }
    }
  }

  /** A record that grows by one event keeps its calls in order, if the event is in order. */
  lemma CallsGrow(log: seq<Event>, e: Event)
    requires forall i {:trigger CallOK(log, i)} | 0 <= i < |log| :: CallOK(log, i)
    requires e.Called? ==> ValidKey(e.key) && e.dtor != 0 && e.data != 0 && LastDtor(log, e.key) == e.dtor && LastValue(log, e.t, e.key) == e.data
    ensures forall i {:trigger CallOK(log + [e], i)} | 0 <= i < |log + [e]| :: CallOK(log + [e], i)
  {
    hide LastDtor, LastValue;
    forall i | 0 <= i < |log + [e]|
      ensures CallOK(log + [e], i)
    {
      assert (log + [e])[..|log|] == log;
      if i < |log| {
        assert CallOK(log, i);
        assert (log + [e])[..i] == log[..i];
      }
    }
  }

  /** The map lock is free: nobody is cleaning or deleting. */
  lemma NobodyInside(s: State, u: Tid)
    requires Inv(s) && s.lock == NoOne && IsLive(s, u)
    ensures !s.threads[u].phase.Cleaning? && s.threads[u].op.NoOp?
  {
    assert ThreadOK(s, u);
  }

  lemma MakeInv(s: State, k: nat, dtor: nat)
    requires Inv(s) && s.lock == NoOne && s.init && ValidKey(k) && !Test(s.keys, k)
    ensures Inv(Make(s, k, dtor))
  {
    hide Test, SetBit, LastValue, LastDtor, CallsBy, CallOK;
    var s', e := Make(s, k, dtor), Made(k, dtor);
    CallsGrow(s.log, e);
    forall j: nat | ValidKey(j)
      ensures s'.dtors[j] == LastDtor(s'.log, j)
    {
      LogStep(s.log, e, 0, j);
      assert s.dtors[j] == LastDtor(s.log, j);
    }
    forall u
      ensures ThreadOK(s', u)
    {
      MakeThread(s, k, dtor, u);
    }
  }

  lemma MakeThread(s: State, k: nat, dtor: nat, u: Tid)
    requires Inv(s) && s.lock == NoOne && s.init && ValidKey(k) && !Test(s.keys, k)
    ensures ThreadOK(Make(s, k, dtor), u)
  {
    hide Test, SetBit, LastValue, LastDtor, CallsBy, CallOK, GlobalOK;
    var s', e := Make(s, k, dtor), Made(k, dtor);
    assert ThreadOK(s, u);
    forall j: nat
      ensures LastValue(s'.log, u, j) == (if j == k then 0 else LastValue(s.log, u, j)) && CallsBy(s'.log, u) == CallsBy(s.log, u)
    {
      LogStep(s.log, e, u, j);
    }
    LogStep(s.log, e, u, 0);
    if IsLive(s, u) {
      NobodyInside(s, u);
      forall j: nat | ValidKey(j)
        ensures SlotOK(s', u, j)
      {
        assert SlotOK(s, u, j);
      }
    }
  }

  lemma StoreInv(s: State, t: Tid, k: nat, ptr: int)
    requires Inv(s) && s.lock == NoOne && s.init && CanCall(s, t) && ValidKey(k) && Test(s.keys, k)
    ensures Inv(Store(s, t, k, ptr))
  {
    hide Test, LastValue, LastDtor, CallsBy, CallOK;
    var s', e := Store(s, t, k, ptr), Stored(t, k, ptr);
    CallsGrow(s.log, e);
    forall j: nat | ValidKey(j)
      ensures s'.dtors[j] == LastDtor(s'.log, j)
    {
      LogStep(s.log, e, 0, j);
      assert s.dtors[j] == LastDtor(s.log, j);
    }
    forall u
      ensures ThreadOK(s', u)
    {
      StoreThread(s, t, k, ptr, u);
    }
  }

  lemma StoreThread(s: State, t: Tid, k: nat, ptr: int, u: Tid)
    requires Inv(s) && s.lock == NoOne && s.init && CanCall(s, t) && ValidKey(k) && Test(s.keys, k)
    ensures ThreadOK(Store(s, t, k, ptr), u)
  {
    hide Test, LastValue, LastDtor, CallsBy, CallOK, GlobalOK;
    var s', e := Store(s, t, k, ptr), Stored(t, k, ptr);
    assert ThreadOK(s, u);
    forall j: nat
      ensures LastValue(s'.log, u, j) == (if j == k && u == t then ptr else LastValue(s.log, u, j)) && CallsBy(s'.log, u) == CallsBy(s.log, u)
    {
      LogStep(s.log, e, u, j);
    }
    LogStep(s.log, e, u, 0);
    if IsLive(s, u) {
      NobodyInside(s, u);
      forall j: nat | ValidKey(j)
        ensures SlotOK(s', u, j)
      {
        assert SlotOK(s, u, j);
      }
    }
  }

  lemma BeginDeleteInv(s: State, t: Tid, k: nat)
    requires Inv(s) && s.lock == NoOne && s.init && CanCall(s, t) && ValidKey(k) && Test(s.keys, k)
    ensures Inv(SetThread(s.(lock := HeldBy(t)), t, s.threads[t].(op := Deleting(k, s.threads.Keys))))
  {
    hide Test, LastValue, LastDtor, CallsBy, CallOK;
    var s' := SetThread(s.(lock := HeldBy(t)), t, s.threads[t].(op := Deleting(k, s.threads.Keys)));
    assert GlobalOK(s');
    hide GlobalOK;
    forall u
      ensures ThreadOK(s', u)
    {
      assert ThreadOK(s, u);
      if IsLive(s, u) {
        NobodyInside(s, u);
        forall j: nat | ValidKey(j)
          ensures SlotOK(s', u, j)
        {
          assert SlotOK(s, u, j);
        }
      }
    }
  }

  lemma VisitInv(s: State, t: Tid, v: Tid)
    requires Inv(s) && IsDeleting(s, t) && v in s.threads && s.threads[t].op.key < SIZE
    ensures Inv(Visit(s, t, v))
  {
    hide Test, LastValue, LastDtor, CallsBy, CallOK;
    var s' := Visit(s, t, v);
    assert ThreadOK(s, t);
    assert GlobalOK(s');
    hide GlobalOK;
    forall u
      ensures ThreadOK(s', u)
    {
      VisitThread(s, t, v, u);
    }
  }

  lemma VisitThread(s: State, t: Tid, v: Tid, u: Tid)
    requires Inv(s) && IsDeleting(s, t) && v in s.threads && s.threads[t].op.key < SIZE
    ensures ThreadOK(Visit(s, t, v), u)
  {
    hide Test, LastValue, LastDtor, CallsBy, CallOK, GlobalOK;
    var s' := Visit(s, t, v);
    assert ThreadOK(s, t) && ThreadOK(s, u);
    if IsLive(s, u) {
      assert PhaseOK(s', u) && QuietOK(s', u);
      forall j: nat | ValidKey(j)
        ensures SlotOK(s', u, j)
      {
        assert SlotOK(s, u, j);
      }
    }
  }

  lemma DropInv(s: State, t: Tid)
    requires Inv(s) && IsDeleting(s, t) && s.threads[t].op.todo == {} && s.threads[t].op.key < SIZE
    ensures Inv(Drop(s, t, s.threads[t].op.key))
  {
    hide Test, ClearBit, LastValue, LastDtor, CallsBy, CallOK;
    var k := s.threads[t].op.key;
    var s', e := Drop(s, t, k), Dropped(k);
    CallsGrow(s.log, e);
    forall j: nat | ValidKey(j)
      ensures s'.dtors[j] == LastDtor(s'.log, j)
    {
      LogStep(s.log, e, 0, j);
      assert s.dtors[j] == LastDtor(s.log, j);
    }
    assert ThreadOK(s, t);
    forall u
      ensures ThreadOK(s', u)
    {
      DropThread(s, t, u);
    }
  }

  lemma DropThread(s: State, t: Tid, u: Tid)
    requires Inv(s) && IsDeleting(s, t) && s.threads[t].op.todo == {} && s.threads[t].op.key < SIZE
    ensures ThreadOK(Drop(s, t, s.threads[t].op.key), u)
  {
    hide Test, ClearBit, LastValue, LastDtor, CallsBy, CallOK, GlobalOK;
    var k := s.threads[t].op.key;
    var s', e := Drop(s, t, k), Dropped(k);
    assert ThreadOK(s, t) && ThreadOK(s, u);
    forall j: nat
      ensures LastValue(s'.log, u, j) == (if j == k then 0 else LastValue(s.log, u, j)) && CallsBy(s'.log, u) == CallsBy(s.log, u)
    {
      LogStep(s.log, e, u, j);
    }
    LogStep(s.log, e, u, 0);
    if IsLive(s, u) {
      assert PhaseOK(s', u) && QuietOK(s', u);
      forall j: nat | ValidKey(j)
        ensures SlotOK(s', u, j)
      {
        assert SlotOK(s, u, j);
      }
    }
  }

  /** Entering pthread_key_clean_all, or coming back to it from a destructor. */
  lemma EnterInv(s: State, t: Tid, p: Phase)
    requires Inv(s) && s.lock == NoOne && s.init && CanCall(s, t)
    requires if s.threads[t].phase.Running? then p == Cleaning(ROUNDS, START, 0)
             else var q := s.threads[t].phase; p == Cleaning(q.rounds, q.key + 1, q.count + 1)
    ensures Inv(SetThread(s.(lock := HeldBy(t)), t, s.threads[t].(phase := p)))
  {
    hide Test, LastValue, LastDtor, CallsBy, CallOK;
    var s' := SetThread(s.(lock := HeldBy(t)), t, s.threads[t].(phase := p));
    assert GlobalOK(s');
    hide GlobalOK;
    assert ThreadOK(s, t);
    forall u
      ensures ThreadOK(s', u)
    {
      assert ThreadOK(s, u);
      if IsLive(s, u) {
        NobodyInside(s, u);
        forall j: nat | ValidKey(j)
          ensures SlotOK(s', u, j)
        {
          assert SlotOK(s, u, j);
        }
      }
    }
  }

  lemma CreateInv(s: State, t: Tid)
    requires Inv(s) && t !in s.threads && !ListLocked(s)
    ensures Inv(SetThread(s, t, Created))
  {
    hide Test, LastValue, LastDtor, CallsBy, CallOK;
    var s' := SetThread(s, t, Created);
    forall u
      ensures ThreadOK(s', u)
    {
      assert ThreadOK(s, u);
      if IsLive(s, u) {
        assert PhaseOK(s', u) && QuietOK(s', u);
        forall j: nat | ValidKey(j)
          ensures SlotOK(s', u, j)
        {
          assert SlotOK(s, u, j);
        }
      }
    }
  }

  lemma StartInv(s: State, t: Tid)
    requires Inv(s) && t in s.threads && s.threads[t].Created?
    ensures Inv(SetThread(s, t, Live(seq(SIZE, _ => 0), Running, NoOp)))
  {
    hide Test, LastValue, LastDtor, CallsBy, CallOK;
    var s' := SetThread(s, t, Live(seq(SIZE, _ => 0), Running, NoOp));
    forall u
      ensures ThreadOK(s', u)
    {
      assert ThreadOK(s, u);
      if IsLive(s', u) {
        assert PhaseOK(s', u) && QuietOK(s', u);
        forall j: nat | ValidKey(j)
          ensures SlotOK(s', u, j)
        {
          if u != t { assert SlotOK(s, u, j); }
        }
      }
    }
  }

  /** A destructor is called. */
  lemma CallInv(s: State, t: Tid)
    requires Inv(s) && IsLive(s, t) && s.threads[t].phase.Cleaning? && s.threads[t].phase.key < SIZE
    requires var k := s.threads[t].phase.key; Test(s.keys, k) && s.threads[t].tls[k] != 0 && s.dtors[k] != 0
    ensures Inv(Clean(s, t))
  {
    hide Test, LastValue, LastDtor, CallsBy, CallOK;
    var k, s' := s.threads[t].phase.key, Clean(s, t);
    assert ThreadOK(s, t);
    assert SlotOK(s, t, k) && s.dtors[k] == LastDtor(s.log, k);
    var e := Called(t, k, s.dtors[k], s.threads[t].tls[k]);
    CallsGrow(s.log, e);
    forall j: nat | ValidKey(j)
      ensures s'.dtors[j] == LastDtor(s'.log, j)
    {
      LogStep(s.log, e, 0, j);
      assert s.dtors[j] == LastDtor(s.log, j);
    }
    forall u
      ensures ThreadOK(s', u)
    {
      CallThread(s, t, u);
    }
  }

  lemma CallThread(s: State, t: Tid, u: Tid)
    requires Inv(s) && IsLive(s, t) && s.threads[t].phase.Cleaning? && s.threads[t].phase.key < SIZE
    requires var k := s.threads[t].phase.key; Test(s.keys, k) && s.threads[t].tls[k] != 0 && s.dtors[k] != 0
    ensures ThreadOK(Clean(s, t), u)
  {
    hide Test, LastValue, LastDtor, CallsBy, CallOK, GlobalOK;
    var k, s' := s.threads[t].phase.key, Clean(s, t);
    var e := Called(t, k, s.dtors[k], s.threads[t].tls[k]);
    assert ThreadOK(s, t) && ThreadOK(s, u);
    forall j: nat
      ensures LastValue(s'.log, u, j) == (if j == k && u == t then 0 else LastValue(s.log, u, j))
    {
      LogStep(s.log, e, u, j);
    }
    LogStep(s.log, e, u, 0);
    if IsLive(s, u) {
      assert PhaseOK(s', u) && QuietOK(s', u);
      forall j: nat | ValidKey(j)
        ensures SlotOK(s', u, j)
      {
        assert SlotOK(s, u, j);
      }
    }
  }

  /** A turn of the cleaning loops without a call. */
  lemma PassInv(s: State, t: Tid)
    requires Inv(s) && IsLive(s, t) && s.threads[t].phase.Cleaning?
    requires var k := s.threads[t].phase.key; k < SIZE ==> !Test(s.keys, k) || s.threads[t].tls[k] == 0 || s.dtors[k] == 0
    ensures Inv(Clean(s, t))
  {
    hide Test, LastValue, LastDtor, CallsBy, CallOK;
    var s' := Clean(s, t);
    assert ThreadOK(s, t);
    assert GlobalOK(s');
    hide GlobalOK;
    forall u
      ensures ThreadOK(s', u)
    {
      assert ThreadOK(s, u);
      if IsLive(s', u) {
        assert PhaseOK(s', u);
        assert QuietOK(s', u);
        forall j: nat | ValidKey(j)
          ensures SlotOK(s', u, j)
        {
          assert SlotOK(s, u, j);
        }
      }
    }
  }

  lemma StepInv(s: State, a: Action)
    requires Inv(s)
    ensures Inv(Step(s, a))
  {
    hide Test, SetBit, ClearBit, FirstFree, Inv, Make, Store, Drop, Visit, Clean, Locked;
    LockedInv(s);
    LockedKeeps(s);
    var s1 := Locked(s);
    match a
    case ThreadCreate(t) => if Step(s, a) != s { CreateInv(s, t); }
    case ThreadStart(t) => if Step(s, a) != s { StartInv(s, t); }
    case KeyCreate(t, dtor) =>
      if CanCall(s, t) && s.lock == NoOne && FirstFree(s1.keys, START) < SIZE { MakeInv(s1, FirstFree(s1.keys, START), dtor); }
    case KeyDelete(t, key) =>
      if CanCall(s, t) && ValidKey(key) && s.lock == NoOne && Test(s1.keys, key) { BeginDeleteInv(s1, t, key); }
    case DeleteSlot(t, u) => if IsDeleting(s, t) && u in s.threads && s.threads[t].op.key < SIZE { VisitInv(s, t, u); }
    case DeleteDone(t) => if IsDeleting(s, t) && s.threads[t].op.todo == {} && s.threads[t].op.key < SIZE { DropInv(s, t); }
    case SetSpecific(t, key, ptr) =>
      if CanCall(s, t) && ValidKey(key) && s.lock == NoOne && Test(s1.keys, key) { StoreInv(s1, t, key, ptr); }
    case BeginExit(t) =>
      if CanCall(s, t) && s.threads[t].phase.Running? && s.lock == NoOne { EnterInv(s1, t, Cleaning(ROUNDS, START, 0)); }
    case DtorReturns(t) =>
      if CanCall(s, t) && s.threads[t].phase.InDtor? && s.lock == NoOne {
        var p := s.threads[t].phase;
        EnterInv(s1, t, Cleaning(p.rounds, p.key + 1, p.count + 1));
      }
    case CleanKey(t) =>
      if IsLive(s, t) && s.threads[t].phase.Cleaning? {
        var k := s.threads[t].phase.key;
        if k < SIZE && Test(s.keys, k) && s.threads[t].tls[k] != 0 && s.dtors[k] != 0 { CallInv(s, t); } else { PassInv(s, t); }
      }
  }

  lemma LockedKeeps(s: State)
    ensures Locked(s).threads == s.threads && Locked(s).lock == s.lock
  {
  }

  lemma {:induction false} RunInv(acts: seq<Action>)
    ensures Inv(Run(acts))
  {
    if acts == [] {
      StartsOK();
    } else {
      hide Step, Inv;
      RunInv(acts[..|acts| - 1]);
      StepInv(Run(acts[..|acts| - 1]), acts[|acts| - 1]);
    }
  }

  lemma StartsOK()
    ensures Inv(Run([]))
  {
    var s := Run([]);
    assert s.log == [];
  }

  // ---- what callers see, over whole runs ----

  /**
   The unlocked read is sound: at every point of every run, in the middle of a deletion too, an unallocated key reads
   null in every started thread.
   */
  lemma UnallocatedReadsNull(acts: seq<Action>, t: Tid, key: int)
    requires IsLive(Run(acts), t)
    requires ValidKey(key) ==> !Test(Run(acts).keys, key)
    ensures GetSpecific(Run(acts), t, key) == 0
  {
    hide Run, Test;
    RunInv(acts);
    assert ThreadOK(Run(acts), t);
    if ValidKey(key) { assert SlotOK(Run(acts), t, key); }
  }

  /** And it reads what the thread last stored since the key was made, unless the key is being deleted under it. */
  lemma ReadsLastValue(acts: seq<Action>, t: Tid, key: nat)
    requires IsLive(Run(acts), t) && ValidKey(key)
    ensures var s := Run(acts);
      GetSpecific(s, t, key) == LastValue(s.log, t, key) || (GetSpecific(s, t, key) == 0 && BeingDeleted(s, key))
  {
    hide Run, Test;
    RunInv(acts);
    assert ThreadOK(Run(acts), t);
    assert SlotOK(Run(acts), t, key);
  }

  /** What creating a key does: the least free key is taken and no slot changes. */
  lemma CreateTakes(s: State, t: Tid, dtor: nat, k: nat)
    requires START <= k < SIZE && CanCall(s, t) && s.lock == NoOne
    requires Test(Step(s, KeyCreate(t, dtor)).keys, k) && !Test(Locked(s).keys, k)
    ensures var s1, s' := Locked(s), Step(s, KeyCreate(t, dtor));
      && s'.threads == s1.threads && s'.dtors == s1.dtors[k := dtor]
      && (forall j: nat | START <= j < k :: Test(s1.keys, j))
      && (forall j: nat | j < SIZE :: Test(s'.keys, j) <==> j == k || Test(s1.keys, j))
  {
    hide Test, Locked, FirstFree, SetBit;
  }

  /** A key just created, recycled or not, reads null in every started thread. */
  lemma NewKeyReadsNull(acts: seq<Action>, t: Tid, dtor: nat, k: nat, u: Tid)
    requires CanCall(Run(acts), t) && Run(acts).lock == NoOne
    requires var s, s' := Run(acts), Step(Run(acts), KeyCreate(t, dtor));
      && START <= k < SIZE && Test(s'.keys, k) && !Test(Locked(s).keys, k)
      && IsLive(s', u)
    ensures GetSpecific(Step(Run(acts), KeyCreate(t, dtor)), u, k) == 0
    ensures Step(Run(acts), KeyCreate(t, dtor)).dtors[k] == dtor
    ensures forall j: nat | START <= j < k :: Test(Locked(Run(acts)).keys, j)
  {
    hide Test, Step, Run, Locked;
    RunInv(acts);
    LockedInv(Run(acts));
    CreateTakes(Run(acts), t, dtor, k);
    assert ThreadOK(Locked(Run(acts)), u);
    assert SlotOK(Locked(Run(acts)), u, k);
  }

  /** k is neither made nor dropped between events c and i. */
  ghost predicate KeptBetween(log: seq<Event>, k: nat, c: nat, i: nat) {
    forall m | c < m < i && m < |log| :: !((log[m].Made? || log[m].Dropped?) && log[m].key == k)
  }

  /** Between events j and i, t neither stores under k nor has a destructor called for it. */
  ghost predicate UntouchedBetween(log: seq<Event>, t: Tid, k: nat, j: nat, i: nat) {
    forall m | j < m < i && m < |log| :: !((log[m].Stored? || log[m].Called?) && log[m].t == t && log[m].key == k)
  }

  /** Where a destructor was registered. */
  lemma {:induction false} MadeAt(log: seq<Event>, k: nat) returns (c: nat)
    requires LastDtor(log, k) != 0
    ensures c < |log| && log[c] == Made(k, LastDtor(log, k)) && KeptBetween(log, k, c, |log|)
  {
    var n := |log| - 1;
    var e := log[n];
    if (e.Made? || e.Dropped?) && e.key == k {
      c := n;
    } else {
      c := MadeAt(log[..n], k);
    }
  }

  /** Where a value was stored. */
  lemma {:induction false} StoredAt(log: seq<Event>, t: Tid, k: nat) returns (j: nat)
    requires LastValue(log, t, k) != 0
    ensures j < |log| && log[j] == Stored(t, k, LastValue(log, t, k))
    ensures UntouchedBetween(log, t, k, j, |log|) && KeptBetween(log, k, j, |log|)
  {
    var n := |log| - 1;
    var e := log[n];
    if e.Stored? && e.t == t && e.key == k {
      j := n;
    } else {
      j := StoredAt(log[..n], t, k);
    }
  }

  /**
   Every destructor call of every run: its key was made with that function, then its thread stored that value under it,
   and until the call the key was not dropped or made again, and the thread neither stored over the value nor had it
   destroyed.
   */
  lemma DestructorCalls(acts: seq<Action>, i: nat) returns (c: nat, j: nat)
    requires i < |Run(acts).log| && Run(acts).log[i].Called?
    ensures var log := Run(acts).log; var e := log[i];
      && c < j < i
      && log[c] == Made(e.key, e.dtor) && e.dtor != 0 && KeptBetween(log, e.key, c, i)
      && log[j] == Stored(e.t, e.key, e.data) && e.data != 0 && UntouchedBetween(log, e.t, e.key, j, i)
  {
    hide Run, LastDtor, LastValue;
    RunInv(acts);
    var log := Run(acts).log;
    var e := log[i];
    assert CallOK(log, i);
    c := MadeAt(log[..i], e.key);
    j := StoredAt(log[..i], e.t, e.key);
    assert log[..i][c] == log[c] && log[..i][j] == log[j];
    forall m | c < m < i
      ensures !((log[m].Made? || log[m].Dropped?) && log[m].key == e.key)
    {
      assert log[..i][m] == log[m];
    }
    forall m | j < m < i
      ensures !((log[m].Stored? || log[m].Called?) && log[m].t == e.t && log[m].key == e.key)
    {
      assert log[..i][m] == log[m];
    }
  }

  /** No stored value is destroyed twice: between two calls for one thread and key, the thread stored anew. */
  lemma NoValueDestroyedTwice(acts: seq<Action>, i: nat, i': nat) returns (j: nat)
    requires i < i' < |Run(acts).log| && Run(acts).log[i].Called? && Run(acts).log[i'].Called?
    requires Run(acts).log[i].t == Run(acts).log[i'].t && Run(acts).log[i].key == Run(acts).log[i'].key
    ensures var log := Run(acts).log; i < j < i' && log[j] == Stored(log[i'].t, log[i'].key, log[i'].data) && log[i'].data != 0
  {
    hide Run;
    var c;
    c, j := DestructorCalls(acts, i');
  }

  /** However destructors reset values, a thread runs at most 4 * 61 of them. */
  lemma DestructorsBounded(acts: seq<Action>, t: Tid)
    ensures CallsBy(Run(acts).log, t) <= 4 * 61
  {
    hide Run;
    RunInv(acts);
    assert ThreadOK(Run(acts), t);
  }

  /** A thread that leaves after a round without destructor calls leaves no value a destructor should have seen. */
  lemma QuietExitLeavesNothing(acts: seq<Action>, t: Tid, k: nat)
    requires IsLive(Run(acts), t) && Run(acts).threads[t].phase.Cleaning? && Run(acts).threads[t].phase.count == 0
    requires Run(acts).threads[t].phase.key == SIZE
    requires START <= k < SIZE && Test(Run(acts).keys, k) && Run(acts).dtors[k] != 0
    ensures Step(Run(acts), CleanKey(t)).threads[t] == Gone && Run(acts).threads[t].tls[k] == 0
  {
    hide Run, Test;
    RunInv(acts);
    assert ThreadOK(Run(acts), t);
  }

  // ---- what each call does ----

  /** The lock taken for the first time allocates keys 3 and 4, and only those. */
  lemma Preallocated(acts: seq<Action>, k: nat)
    requires !Run(acts).init && ValidKey(k)
    ensures Test(Locked(Run(acts)).keys, k) <==> k == 3 || k == 4
  {
    hide Run;
    RunInv(acts);
    PreallocatedBits(k % 32);
    ZeroUnmarked(k % 32);
  }

  lemma PreallocatedBits(i: nat)
    ensures Marked(0x1f, i) <==> i < 5
  {
    Pow2Values();
    if i >= 5 {
      ShrIsQuotient(0x1f, 5);
      ShrAdd(0x1f, 5, i - 5);
      ShrZero(i - 5);
    } else {
      assert Shr(0x1f, 0) == 31 && Shr(0x1f, 1) == 15 && Shr(0x1f, 2) == 7 && Shr(0x1f, 3) == 3 && Shr(0x1f, 4) == 1;
    }
  }

  /** A thread newly created and started runs with every slot null. */
  lemma NewThreadStarts(s: State, t: Tid)
    requires t !in s.threads && !ListLocked(s)
    ensures var s' := Step(Step(s, ThreadCreate(t)), ThreadStart(t));
      CanCall(s', t) && s'.threads[t].phase.Running? && forall k: nat | k < SIZE :: s'.threads[t].tls[k] == 0
  {
  }

  /** pthread_key_create takes the least free key, and fails exactly if there is none. */
  lemma KeyCreated(s: State, t: Tid, dtor: nat)
    requires CanCall(s, t) && s.lock == NoOne
    ensures var s1, s' := Locked(s), Step(s, KeyCreate(t, dtor));
      if forall j: nat | ValidKey(j) :: Test(s1.keys, j) then s' == s1
      else
        var k := FirstFree(s1.keys, 3);
        && 3 <= k < 64 && !Test(s1.keys, k)
        && (forall j: nat | j < SIZE :: Test(s'.keys, j) <==> j == k || Test(s1.keys, j))
        && s'.dtors == s1.dtors[k := dtor] && s'.threads == s1.threads && s'.lock == NoOne && s'.log == s1.log + [Made(k, dtor)]
  {
    hide Test, Locked, FirstFree, SetBit;
    LockedKeeps(s);
  }

  /**
   pthread_setspecific on an allocated key stores the value where pthread_getspecific reads it, and changes no other
   slot of any thread; on any other key it changes none.
   */
  lemma SetThenGet(s: State, t: Tid, key: int, ptr: int, u: Tid, k: int)
    requires CanCall(s, t) && s.lock == NoOne && IsLive(s, u)
    ensures var s' := Step(s, SetSpecific(t, key, ptr));
      && IsLive(s', u)
      && GetSpecific(s', u, k) ==
           if u == t && k == key && ValidKey(key) && Test(Locked(s).keys, key) then ptr else GetSpecific(s, u, k)
  {
    hide Test, Locked;
    LockedKeeps(s);
  }

  function RunFrom(s: State, acts: seq<Action>): State
    decreases acts
  {
    if acts == [] then s else RunFrom(Step(s, acts[0]), acts[1..])
  }

  /** Only thread t acts. */
  ghost predicate By(acts: seq<Action>, t: Tid) {
    forall i | 0 <= i < |acts| :: acts[i].t == t
  }

  lemma First(s: State, a: Action, rest: seq<Action>)
    ensures RunFrom(s, [a] + rest) == RunFrom(Step(s, a), rest)
  {
    hide Step;
    assert ([a] + rest)[1..] == rest;
  }

  /** s' has the threads of s, with the slot of key k of the threads in todo cleared. */
  ghost predicate Cleared(s: State, s': State, k: nat, todo: set<Tid>) {
    && s'.threads.Keys == s.threads.Keys
    && forall u | u in s.threads && s.threads[u].Live? ::
         && s'.threads[u].Live? && s'.threads[u].phase == s.threads[u].phase
         && forall j: nat | j < SIZE :: s'.threads[u].tls[j] == if j == k && u in todo then 0 else s.threads[u].tls[j]
  }

  /** The rest of a deletion: every thread still to visit is cleared, then the key is dropped and the lock released. */
  lemma DeletionGoesOn(s: State, t: Tid) returns (more: seq<Action>)
    requires IsDeleting(s, t) && s.threads[t].op.key < SIZE && s.threads[t].op.todo <= s.threads.Keys
    ensures By(more, t)
    ensures var k, s' := s.threads[t].op.key, RunFrom(s, more);
      && Cleared(s, s', k, s.threads[t].op.todo) && CanCallAgain(s, s', t)
      && s'.keys == ClearBit(s.keys, k) && s'.dtors == s.dtors[k := 0] && s'.lock == NoOne && s'.log == s.log + [Dropped(k)]
    decreases s.threads[t].op.todo
  {
    hide ClearBit, Test;
    var o := s.threads[t].op;
    if o.todo == {} {
      more := [DeleteDone(t)];
      assert [DeleteDone(t)] == [DeleteDone(t)] + [];
      First(s, DeleteDone(t), []);
    } else {
      var u := Pick(o.todo);
      var s1 := Step(s, DeleteSlot(t, u));
      assert s1 == Visit(s, t, u);
      VisitClears(s, t, u);
      hide Step, Visit;
      var rest := DeletionGoesOn(s1, t);
      First(s, DeleteSlot(t, u), rest);
      more := [DeleteSlot(t, u)] + rest;
    }
  }

  lemma Pick<T>(s: set<T>) returns (a: T)
    requires s != {}
    ensures a in s
  {
    a :| a in s;
  }

  /** t has left the deletion and is where it was. */
  ghost predicate CanCallAgain(s: State, s': State, t: Tid)
    requires IsLive(s, t)
  {
    IsLive(s', t) && s'.threads[t].op.NoOp? && s'.threads[t].phase == s.threads[t].phase
  }

  lemma VisitClears(s: State, t: Tid, u: Tid)
    requires IsDeleting(s, t) && u in s.threads[t].op.todo && u in s.threads && s.threads[t].op.key < SIZE
    ensures var s', o := Visit(s, t, u), s.threads[t].op;
      && Cleared(s, s', o.key, {u})
      && IsDeleting(s', t) && s'.threads[t].op == Deleting(o.key, o.todo - {u}) && s'.threads[t].phase == s.threads[t].phase
      && s'.keys == s.keys && s'.dtors == s.dtors && s'.lock == s.lock && s'.log == s.log
  {
  }

  /**
   pthread_key_delete of an allocated key, from every state of every run in which the lock is free: by its own steps it
   ends with the key unallocated, its destructor gone, its slot null in every live thread, and nothing else changed.
   */
  lemma DeleteCompletes(acts: seq<Action>, t: Tid, key: nat) returns (more: seq<Action>)
    requires CanCall(Run(acts), t) && Run(acts).lock == NoOne && ValidKey(key) && Test(Locked(Run(acts)).keys, key)
    ensures By(more, t)
    ensures var s, s' := Locked(Run(acts)), RunFrom(Run(acts), more);
      && Cleared(s, s', key, s.threads.Keys) && CanCall(s', t) && s'.lock == NoOne
      && (forall j: nat | j < SIZE :: Test(s'.keys, j) <==> j != key && Test(s.keys, j))
      && s'.dtors == s.dtors[key := 0] && s'.log == s.log + [Dropped(key)]
  {
    var s := Run(acts);
    LockedKeeps(s);
    var s1 := Step(s, KeyDelete(t, key));
    assert s1.threads == Locked(s).threads[t := Locked(s).threads[t].(op := Deleting(key, s.threads.Keys))];
    assert s1.keys == Locked(s).keys && s1.dtors == Locked(s).dtors && s1.log == Locked(s).log;
    assert s1.threads.Keys == s.threads.Keys;
    hide Step, Run, Test, Locked;
    var rest := DeletionGoesOn(s1, t);
    First(s, KeyDelete(t, key), rest);
    more := [KeyDelete(t, key)] + rest;
  }

  // ---- a thread's exit ----

  /** Key k is allocated, has a destructor, and t has a value for it. */
  predicate Eligible(s: State, t: Tid, k: nat)
    requires IsLive(s, t) && k < SIZE
  {
    Test(s.keys, k) && s.threads[t].tls[k] != 0 && s.dtors[k] != 0
  }

  /** The destructor calls owed to t for the keys from k on, in the order of the keys. */
  function Owed(s: State, t: Tid, k: nat): seq<Event>
    requires IsLive(s, t) && k <= SIZE
    decreases SIZE - k
  {
    if k == SIZE then []
    else (if Eligible(s, t, k) then [Called(t, k, s.dtors[k], s.threads[t].tls[k])] else []) + Owed(s, t, k + 1)
  }

  /** t is cleaning, with the lock. */
  predicate IsCleaning(s: State, t: Tid) {
    IsLive(s, t) && s.threads[t].phase.Cleaning? && s.threads[t].op.NoOp? && s.init && s.lock == HeldBy(t) && s.threads[t].phase.key <= SIZE
  }

  /** s' differs from s in thread t and the record alone, and there by the calls for the keys from k on. */
  ghost predicate Swept(s: State, s': State, t: Tid, k: nat)
    requires IsLive(s, t) && k <= SIZE
  {
    && IsCleaning(s', t) && s'.keys == s.keys && s'.dtors == s.dtors
    && s'.threads == s.threads[t := s'.threads[t]]
    && s'.log == s.log + Owed(s, t, k)
    && forall j: nat | j < SIZE :: s'.threads[t].tls[j] == if k <= j && Eligible(s, t, j) then 0 else s.threads[t].tls[j]
  }

  /** What is owed depends on the slots from k on. */
  lemma {:induction false} OwedSame(s: State, s': State, t: Tid, k: nat)
    requires IsLive(s, t) && IsLive(s', t) && k <= SIZE && s'.keys == s.keys && s'.dtors == s.dtors
    requires forall j: nat | k <= j < SIZE :: s'.threads[t].tls[j] == s.threads[t].tls[j]
    ensures Owed(s', t, k) == Owed(s, t, k)
    decreases SIZE - k
  {
    hide Test;
    if k < SIZE { OwedSame(s, s', t, k + 1); }
  }

  /** One key of a round, by t's own steps, its destructor just returning. */
  lemma SweepOne(s: State, t: Tid) returns (more: seq<Action>)
    requires IsCleaning(s, t) && s.threads[t].phase.key < SIZE
    ensures By(more, t)
    ensures var p, s' := s.threads[t].phase, RunFrom(s, more); var k := p.key;
      && IsCleaning(s', t) && s'.keys == s.keys && s'.dtors == s.dtors && s'.threads == s.threads[t := s'.threads[t]]
      && s'.log == s.log + (if Eligible(s, t, k) then [Called(t, k, s.dtors[k], s.threads[t].tls[k])] else [])
      && s'.threads[t].tls == (if Eligible(s, t, k) then s.threads[t].tls[k := 0] else s.threads[t].tls)
      && s'.threads[t].phase == Cleaning(p.rounds, k + 1, if Eligible(s, t, k) then p.count + 1 else p.count)
  {
    hide Test;
    var k := s.threads[t].phase.key;
    var s1 := Step(s, CleanKey(t));
    if Eligible(s, t, k) {
      var s2 := Step(s1, DtorReturns(t));
      more := [CleanKey(t)] + ([DtorReturns(t)] + []);
      First(s, CleanKey(t), [DtorReturns(t)] + []);
      First(s1, DtorReturns(t), []);
      assert RunFrom(s, more) == s2;
    } else {
      more := [CleanKey(t)] + [];
      First(s, CleanKey(t), []);
      assert s.log + [] == s.log;
      assert RunFrom(s, more) == s1;
    }
  }

  lemma {:induction false} RunsOn(s: State, acts: seq<Action>, more: seq<Action>)
    ensures RunFrom(s, acts + more) == RunFrom(RunFrom(s, acts), more)
    decreases acts
  {
    hide Step;
    if acts == [] {
      assert acts + more == more;
    } else {
      assert (acts + more)[1..] == acts[1..] + more;
      RunsOn(Step(s, acts[0]), acts[1..], more);
    }
  }

  /** The rest of a round calls exactly the destructors owed and empties exactly their slots. */
  lemma SweepRound(s: State, t: Tid) returns (more: seq<Action>)
    requires IsCleaning(s, t)
    ensures By(more, t)
    ensures var p, s' := s.threads[t].phase, RunFrom(s, more);
      && Swept(s, s', t, p.key)
      && s'.threads[t].phase == Cleaning(p.rounds, SIZE, p.count + |Owed(s, t, p.key)|)
    decreases SIZE - s.threads[t].phase.key
  {
    var k := s.threads[t].phase.key;
    if k == SIZE {
      more := [];
      assert s.log + [] == s.log;
      assert s.threads == s.threads[t := s.threads[t]];
    } else {
      var one := SweepOne(s, t);
      var s1 := RunFrom(s, one);
      var rest := SweepRound(s1, t);
      RunsOn(s, one, rest);
      more := one + rest;
      SweptOn(s, s1, RunFrom(s1, rest), t);
    }
  }

  lemma SweptOn(s: State, s1: State, s': State, t: Tid)
    requires IsCleaning(s, t) && s.threads[t].phase.key < SIZE
    requires var p := s.threads[t].phase; var k := p.key;
      && IsCleaning(s1, t) && s1.keys == s.keys && s1.dtors == s.dtors && s1.threads == s.threads[t := s1.threads[t]]
      && s1.log == s.log + (if Eligible(s, t, k) then [Called(t, k, s.dtors[k], s.threads[t].tls[k])] else [])
      && s1.threads[t].tls == (if Eligible(s, t, k) then s.threads[t].tls[k := 0] else s.threads[t].tls)
    requires Swept(s1, s', t, s.threads[t].phase.key + 1)
    ensures Swept(s, s', t, s.threads[t].phase.key)
    ensures var k := s.threads[t].phase.key; |Owed(s, t, k)| == |Owed(s1, t, k + 1)| + if Eligible(s, t, k) then 1 else 0
  {
    hide Test;
    var k := s.threads[t].phase.key;
    OwedSame(s, s1, t, k + 1);
    SweptLog(s, s1, s', t, k);
    hide Owed;
    assert s'.threads == s.threads[t := s'.threads[t]];
    forall j: nat | j < SIZE
      ensures s'.threads[t].tls[j] == if k <= j && Eligible(s, t, j) then 0 else s.threads[t].tls[j]
    {
      assert s'.threads[t].tls[j] == if k + 1 <= j && Eligible(s1, t, j) then 0 else s1.threads[t].tls[j];
    }
  }

  lemma SweptLog(s: State, s1: State, s': State, t: Tid, k: nat)
    requires IsLive(s, t) && IsLive(s1, t) && k < SIZE && Owed(s1, t, k + 1) == Owed(s, t, k + 1)
    requires s1.log == s.log + (if Eligible(s, t, k) then [Called(t, k, s.dtors[k], s.threads[t].tls[k])] else [])
    requires s'.log == s1.log + Owed(s1, t, k + 1)
    ensures s'.log == s.log + Owed(s, t, k)
    ensures |Owed(s, t, k)| == |Owed(s1, t, k + 1)| + if Eligible(s, t, k) then 1 else 0
  {
    hide Eligible;
  }

  /** A round over slots that are owed nothing makes no call. */
  lemma {:induction false} NothingOwed(s: State, t: Tid, k: nat)
    requires IsLive(s, t) && k <= SIZE && forall j: nat | k <= j < SIZE :: !Eligible(s, t, j)
    ensures Owed(s, t, k) == []
    decreases SIZE - k
  {
    if k < SIZE { NothingOwed(s, t, k + 1); }
  }

  /** From the end of a round, the exit ends if the round made no call or the next would make none. */
  lemma ExitEnds(s: State, t: Tid) returns (more: seq<Action>)
    requires IsCleaning(s, t) && s.threads[t].phase.key == SIZE
    requires forall j: nat | START <= j < SIZE :: !Eligible(s, t, j)
    ensures By(more, t)
    ensures RunFrom(s, more) == s.(lock := NoOne, threads := s.threads[t := Gone])
  {
    var p := s.threads[t].phase;
    var s1 := Step(s, CleanKey(t));
    if p.count == 0 || p.rounds <= 1 {
      more := [CleanKey(t)] + [];
      First(s, CleanKey(t), []);
    } else {
      assert s1 == SetThread(s, t, s.threads[t].(phase := Cleaning(p.rounds - 1, START, 0)));
      forall j: nat | START <= j < SIZE
        ensures !Eligible(s1, t, j)
      {
        assert !Eligible(s, t, j);
      }
      NothingOwed(s1, t, START);
      hide Test;
      var round := SweepRound(s1, t);
      var s2 := RunFrom(s1, round);
      assert s2.log == s.log && s2.threads[t].phase == Cleaning(p.rounds - 1, SIZE, 0);
      var s3 := Step(s2, CleanKey(t));
      assert s3 == s.(lock := NoOne, threads := s.threads[t := Gone]);
      First(s2, CleanKey(t), []);
      RunsOn(s1, round, [CleanKey(t)] + []);
      First(s, CleanKey(t), round + ([CleanKey(t)] + []));
      more := [CleanKey(t)] + (round + ([CleanKey(t)] + []));
    }
  }

  /**
   pthread_key_clean_all, from every state of every run in which the lock is free: if its destructors just return, the
   thread calls the destructor of every allocated key that has one and for which it has a value, once each, with that
   value and in the order of the keys, and is gone.
   */
  lemma ExitRunsDestructors(acts: seq<Action>, t: Tid) returns (more: seq<Action>)
    requires CanCall(Run(acts), t) && Run(acts).threads[t].phase.Running? && Run(acts).lock == NoOne
    ensures By(more, t)
    ensures var s, s' := Locked(Run(acts)), RunFrom(Run(acts), more);
      && IsLive(s, t) && s'.log == s.log + Owed(s, t, 3)
      && s'.threads == s.threads[t := Gone] && s'.keys == s.keys && s'.dtors == s.dtors && s'.lock == NoOne
  {
    var s := Run(acts);
    LockedKeeps(s);
    var s1 := Step(s, BeginExit(t));
    BeginsCleaning(s, t);
    hide *;
    var rest := CleanRuns(s1, t);
    First(s, BeginExit(t), rest);
    more := [BeginExit(t)] + rest;
    FirstBy(BeginExit(t), rest, t);
  }

  lemma FirstBy(a: Action, rest: seq<Action>, t: Tid)
    requires a.t == t && By(rest, t)
    ensures By([a] + rest, t)
  {
  }

  lemma BeginsCleaning(s: State, t: Tid)
    requires CanCall(s, t) && s.threads[t].phase.Running? && s.lock == NoOne
    ensures var s0, s1 := Locked(s), Step(s, BeginExit(t));
      && IsLive(s0, t) && IsCleaning(s1, t) && s1.threads[t].phase == Cleaning(4, 3, 0)
      && Owed(s1, t, 3) == Owed(s0, t, 3) && s1.log == s0.log && s1.keys == s0.keys && s1.dtors == s0.dtors
      && s1.threads[t := Gone] == s0.threads[t := Gone]
  {
    hide Test;
    LockedKeeps(s);
    OwedSame(Locked(s), Step(s, BeginExit(t)), t, START);
    hide Owed;
  }

  /** At the end of a round another follows exactly if a destructor was called in it and it was not the fourth. */
  lemma RoundEnds(s: State, t: Tid)
    requires IsCleaning(s, t) && s.threads[t].phase.key == SIZE
    ensures var p, s' := s.threads[t].phase, Step(s, CleanKey(t));
      && t in s'.threads
      && (if p.count > 0 && p.rounds > 1 then s'.threads[t].Live? && s'.threads[t].phase == Cleaning(p.rounds - 1, 3, 0) && s'.lock == s.lock
          else s'.threads[t].Gone? && s'.lock == NoOne)
  {
  }

  /** All of pthread_key_clean_all, from the first key on. */
  lemma CleanRuns(s: State, t: Tid) returns (more: seq<Action>)
    requires IsCleaning(s, t) && s.threads[t].phase.key == 3
    ensures By(more, t)
    ensures var s' := RunFrom(s, more);
      && s'.log == s.log + Owed(s, t, 3)
      && s'.threads == s.threads[t := Gone] && s'.keys == s.keys && s'.dtors == s.dtors && s'.lock == NoOne
  {
    hide Step, Test, Owed;
    var round := SweepRound(s, t);
    var s1 := RunFrom(s, round);
    forall j: nat | START <= j < SIZE
      ensures !Eligible(s1, t, j)
    {
      assert s1.threads[t].tls[j] == if START <= j && Eligible(s, t, j) then 0 else s.threads[t].tls[j];
    }
    var last := ExitEnds(s1, t);
    hide Eligible, RunFrom;
    RunsOn(s, round, last);
    more := round + last;
  }
}

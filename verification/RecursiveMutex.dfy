/**
 Recursive and errorcheck mutexes.  The word packs the owner's kernel id (bits
 31-16), the type (15-14), the recursion counter (13-2) and the lock state (1-0).
 The word is only written inside sections guarded by one global normal mutex, so
 each section is one step; the reads outside it and the futex calls are steps of
 their own.
 */
module RecursiveMutex {
  import opened Words

  // ---- the packed word ----

  type Tid = nat

  const RECURSIVE: nat := 0x4000
  const ERRORCHECK: nat := 0x8000
  const COUNTER_MASK: nat := 0x3ffc

  predicate IsTid(t: Tid) {
    1 <= t <= 0xffff
  }

  function MutexOwner(v: nat): Tid {
    BitwiseAnd(Shr(v, 16), 0xffff)
  }

  function TypeOf(v: nat): nat {
    BitwiseAnd(v, 0xc000)
  }

  function Counter(v: nat): nat {
    BitwiseAnd(Shr(v, 2), 0xfff)
  }

  function LockState(v: nat): nat {
    BitwiseAnd(v, 3)
  }

  /** (tid << 16) | mtype | state */
  function Acquired(t: Tid, mtype: nat, state: nat): nat
    requires t < WORD
  {
    BitwiseOr(BitwiseOr(Shl(t, 16), mtype), state)
  }

  /** (v & ~COUNTER_MASK) | ((v + 4) & COUNTER_MASK) */
  function Relocked(v: nat): nat {
    BitwiseOr(BitwiseAnd(v, Not(COUNTER_MASK)), BitwiseAnd((v + 4) % WORD, COUNTER_MASK))
  }

  function Promoted(v: nat): nat {
    BitwiseXor(v, 3)
  }

  predicate Nested(v: nat) {
    BitwiseAnd(v, COUNTER_MASK) != 0
  }

  predicate IsLockType(mtype: nat) {
    mtype == RECURSIVE || mtype == ERRORCHECK
  }

  /** The fields as digits of the word. */
  lemma Fields(v: nat)
    requires v < WORD
    ensures MutexOwner(v) == v / 0x1_0000 <= 0xffff
    ensures TypeOf(v) == v / 0x4000 % 4 * 0x4000
    ensures Counter(v) == v / 4 % 0x1000
    ensures LockState(v) == v % 4
    ensures BitwiseAnd(v, COUNTER_MASK) == v / 4 % 0x1000 * 4
  {
    hide BitwiseAnd, Shr, Pow2;
    Pow2Values();
    ShrIsQuotient(v, 16);
    ShrIsQuotient(v, 14);
    ShrIsQuotient(v, 2);
    AndLow(Shr(v, 16), 16);
    AndLow(Shr(v, 14), 2);
    AndLow(Shr(v, 2), 12);
    AndLow(v, 2);
    AndShifted(v, 3, 14);
    AndShifted(v, 0xfff, 2);
  }

  lemma AcquiredWord(t: Tid, mtype: nat, state: nat)
    requires IsTid(t) && IsLockType(mtype) && (state == 1 || state == 2)
    ensures Acquired(t, mtype, state) == t * 0x1_0000 + mtype + state < WORD
  {
    hide BitwiseOr, Pow2, Shl;
    Pow2Values();
    ShlExact(t, 16);
    OrLow(t, mtype, 16);
    var h := t * 4 + mtype / 0x4000;
    OrLow(h, state, 14);
    assert h * 0x4000 == t * 0x1_0000 + mtype;
  }

  lemma NextField(v: nat)
    requires v < WORD
    ensures (v + 4) % WORD / 4 % 0x1000 == (if v / 4 % 0x1000 == 0xfff then 0 else v / 4 % 0x1000 + 1)
    ensures v / 4 % 0x1000 != 0xfff ==> v + 4 < WORD
  {
    var w := v / 4;
    assert (v + 4) / 4 == w + 1;
    if v + 4 >= WORD {
      assert w == 0x3fff_ffff;
    } else {
      NextRemainder(w, 0x1000);
    }
  }

  lemma NextRemainder(w: nat, m: nat)
    requires m > 0
    ensures (w + 1) % m == if w % m == m - 1 then 0 else w % m + 1
  {
    var q := w / m;
    if w % m == m - 1 {
      assert w + 1 == (q + 1) * m + 0;
      Remainder(w + 1, m, q + 1, 0);
    } else {
      Remainder(w + 1, m, q, w % m + 1);
    }
  }

  lemma PromotedWord(v: nat)
    requires v % 4 == 1
    ensures Promoted(v) == v + 1
  {
    hide BitwiseXor;
    var w := v / 4;
    XorBits(2 * w, 1, 1, 1);
    XorBits(w, 0, 0, 1);
    assert v == 2 * (2 * w) + 1;
  }

  /** The word with the given owner, type, counter and state. */
  function Pack(o: nat, y: nat, c: nat, l: nat): nat {
    o * 0x1_0000 + y * 0x4000 + c * 4 + l
  }

  predicate InFields(o: nat, y: nat, c: nat, l: nat) {
    o <= 0xffff && y < 4 && c < 0x1000 && l < 4
  }

  lemma PackFields(o: nat, y: nat, c: nat, l: nat)
    requires InFields(o, y, c, l)
    ensures var v := Pack(o, y, c, l);
      && v < WORD && MutexOwner(v) == o && TypeOf(v) == y * 0x4000 && Counter(v) == c && LockState(v) == l
      && (Nested(v) <==> c != 0)
  {
    hide MutexOwner, TypeOf, Counter, LockState, BitwiseAnd;
    var v := Pack(o, y, c, l);
    Fields(v);
    Digits(o, y, c, l);
  }

  lemma Digits(o: nat, y: nat, c: nat, l: nat)
    requires InFields(o, y, c, l)
    ensures var v := Pack(o, y, c, l);
      v < WORD && v % 4 == l && v / 4 % 0x1000 == c && v / 0x4000 % 4 == y && v / 0x1_0000 == o
  {
    var v := Pack(o, y, c, l);
    var h := o * 4 + y;
    Remainder(v, 4, h * 0x1000 + c, l);
    Remainder(h * 0x1000 + c, 0x1000, h, c);
    Remainder(v, 0x4000, h, c * 4 + l);
    Remainder(h, 4, o, y);
    Remainder(v, 0x1_0000, o, y * 0x4000 + c * 4 + l);
  }

  lemma Unpack(v: nat)
    requires v < WORD
    ensures InFields(MutexOwner(v), TypeOf(v) / 0x4000, Counter(v), LockState(v))
    ensures v == Pack(MutexOwner(v), TypeOf(v) / 0x4000, Counter(v), LockState(v))
  {
    hide MutexOwner, TypeOf, Counter, LockState, BitwiseAnd;
    Fields(v);
    var h, r := v / 0x4000, v % 0x4000;
    assert v / 4 == h * 0x1000 + r / 4 by { Remainder(v, 4, h * 0x1000 + r / 4, r % 4); }
    Remainder(v / 4, 0x1000, h, r / 4);
    assert v / 0x1_0000 == h / 4 by { Remainder(v, 0x1_0000, h / 4, h % 4 * 0x4000 + r); }
  }

  /** Relocking counts one level up exactly while the 12-bit counter has room; beyond that it wraps to depth 1. */
  lemma RelockedWord(v: nat)
    requires v < WORD
    ensures Relocked(v) == (if Counter(v) == 0xfff then v - 0x3ffc else v + 4) < WORD
    ensures Counter(Relocked(v)) == Counter(v) + 1 <==> Counter(v) != 0xfff
  {
    hide MutexOwner, TypeOf, Counter, LockState, BitwiseAnd, BitwiseOr, Pow2;
    Pow2Of32();
    AndNot(v, COUNTER_MASK, 32);
    var w := (v + 4) % WORD;
    MasksDisjoint(v, w, COUNTER_MASK, 32);
    OrDisjoint(BitwiseAnd(v, Not(COUNTER_MASK)), BitwiseAnd(w, COUNTER_MASK));
    Fields(v);
    Fields(w);
    NextField(v);
    Unpack(v);
    PackFields(MutexOwner(v), TypeOf(v) / 0x4000, if Counter(v) == 0xfff then 0 else Counter(v) + 1, LockState(v));
  }

  // ---- the abstract lock ----

  datatype Lock = Free | Held(owner: Tid, depth: nat)

  function Decode(v: nat, mtype: nat): Lock {
    if v == mtype then Free else Held(MutexOwner(v), Counter(v) + 1)
  }

  // ---- the threads ----

  datatype Pc =
    | Out                       // not inside a mutex call
    | Relocking                 // owner, about to enter the section that counts up
    | Locking(kind: nat)       // about to enter the section, acquiring in state kind
    | Trying
    | Waiting(oldv: nat)       // about to call futex_wait(oldv)
    | Asleep
    | Unlocking                 // owner, about to enter the releasing section
    | Waking                    // about to call futex_wake(1)

  datatype State = State(mtype: nat, value: nat, pc: map<Tid, Pc>)

  datatype Action =
    | Spawn(t: Tid)
    | CallLock(t: Tid)
    | CallTrylock(t: Tid)
    | CallUnlock(t: Tid)
    | RelockSection(t: Tid)
    | LockSection(t: Tid)
    | TrySection(t: Tid)
    | FutexWait(t: Tid)
    | SpuriousWake(t: Tid)
    | UnlockSection(t: Tid)
    | FutexWake(t: Tid, sleeper: Tid)

  datatype Errno = OK | EPERM | EDEADLK | EBUSY | Pending

  predicate At(s: State, t: Tid, p: Pc) {
    t in s.pc && s.pc[t] == p
  }

  function Goto(s: State, t: Tid, p: Pc): State {
    s.(pc := s.pc[t := p])
  }

  /** One step and what it returns to its caller, Pending if the call goes on. */
  function StepResult(s: State, a: Action): (State, Errno) {
    match a
    case Spawn(t) => if IsTid(t) && t !in s.pc then (Goto(s, t, Out), OK) else (s, Pending)
    case CallLock(t) =>
      if !At(s, t, Out) then (s, Pending)
      else if MutexOwner(s.value) == t then
        if s.mtype == ERRORCHECK then (s, EDEADLK) else (Goto(s, t, Relocking), Pending)
      else (Goto(s, t, Locking(1)), Pending)
    case CallTrylock(t) =>
      if !At(s, t, Out) then (s, Pending)
      else if MutexOwner(s.value) == t then
        if s.mtype == ERRORCHECK then (s, EDEADLK) else (Goto(s, t, Relocking), Pending)
      else (Goto(s, t, Trying), Pending)
    case CallUnlock(t) =>
      if !At(s, t, Out) then (s, Pending)
      else if MutexOwner(s.value) == t then (Goto(s, t, Unlocking), Pending)
      else (s, EPERM)
    case RelockSection(t) =>
      if At(s, t, Relocking) then (Goto(s.(value := Relocked(s.value)), t, Out), OK) else (s, Pending)
    case LockSection(t) =>
      if !IsTid(t) || t !in s.pc || !s.pc[t].Locking? then (s, Pending)
      else if s.value == s.mtype then (Goto(s.(value := Acquired(t, s.mtype, s.pc[t].kind)), t, Out), OK)
      else if LockState(s.value) == 1 then
        (Goto(s.(value := Promoted(s.value)), t, Waiting(Promoted(s.value))), Pending)
      else (Goto(s, t, Waiting(s.value)), Pending)
    case TrySection(t) =>
      if !IsTid(t) || !At(s, t, Trying) then (s, Pending)
      else if s.value == s.mtype then (Goto(s.(value := Acquired(t, s.mtype, 1)), t, Out), OK)
      else (Goto(s, t, Out), EBUSY)
    case FutexWait(t) =>
      if t !in s.pc || !s.pc[t].Waiting? then (s, Pending)
      else (Goto(s, t, if s.value == s.pc[t].oldv then Asleep else Locking(2)), Pending)
    case SpuriousWake(t) => if At(s, t, Asleep) then (Goto(s, t, Locking(2)), Pending) else (s, Pending)
    case UnlockSection(t) =>
      if !At(s, t, Unlocking) then (s, Pending)
      else if Nested(s.value) then (Goto(s.(value := if s.value >= 4 then s.value - 4 else s.value - 4 + WORD), t, Out), OK)
      else if LockState(s.value) == 2 then (Goto(s.(value := s.mtype), t, Waking), Pending)
      else (Goto(s.(value := s.mtype), t, Out), OK)
    case FutexWake(t, u) =>
      if !At(s, t, Waking) then (s, Pending)
      else if At(s, u, Asleep) then (Goto(Goto(s, u, Locking(2)), t, Out), OK)
      else if forall w | w in s.pc :: s.pc[w] != Asleep then (Goto(s, t, Out), OK)
      else (s, Pending)
  }

  function Step(s: State, a: Action): State {
    StepResult(s, a).0
  }

  function Run(mtype: nat, acts: seq<Action>): State {
    if acts == [] then State(mtype, mtype, map[])
    else Step(Run(mtype, acts[..|acts| - 1]), acts[|acts| - 1])
  }

  // ---- the invariant ----

  /** The word is the free word, or packs a real owner in state 1 or 2. */
  ghost predicate WordOK(v: nat, mtype: nat) {
    && v < WORD
    && IsLockType(mtype)
    && TypeOf(v) == mtype
    && (v != mtype ==> IsTid(MutexOwner(v)) && (LockState(v) == 1 || LockState(v) == 2))
  }

  ghost predicate ThreadOK(s: State, t: Tid)
    requires t in s.pc
  {
    && IsTid(t)
    && (s.pc[t].Relocking? || s.pc[t].Unlocking? ==> s.value != s.mtype && MutexOwner(s.value) == t)
    && (s.pc[t].Relocking? ==> s.mtype == RECURSIVE)
    && (s.pc[t].Locking? ==> s.pc[t].kind == 1 || s.pc[t].kind == 2)
    && (s.pc[t].Waiting? ==> s.pc[t].oldv != s.mtype && LockState(s.pc[t].oldv) == 2)
  }

  ghost predicate Attended(s: State) {
    || (s.value != s.mtype && LockState(s.value) == 2)
    || (exists t :: At(s, t, Waking))
    || (exists t :: At(s, t, Locking(2)))
  }

  /** The owner of a held mutex is a thread that is outside, counting up or releasing. */
  ghost predicate OwnerOK(s: State) {
    s.value != s.mtype ==>
      var o := MutexOwner(s.value);
      o in s.pc && (s.pc[o].Out? || s.pc[o].Relocking? || s.pc[o].Unlocking?)
  }

  ghost predicate Inv(s: State) {
    && WordOK(s.value, s.mtype)
    && OwnerOK(s)
    && (forall t | t in s.pc :: ThreadOK(s, t))
    && ((exists t :: At(s, t, Asleep)) ==> Attended(s))
  }

  /** How deep a 12-bit counter counts; one more level makes it wrap. */
  const MAX_DEPTH: nat := 0x1000

  /** The effect of a step on the abstract lock. */
  function LockStep(k: Lock, s: State, a: Action): Lock {
    if Step(s, a) == s then k
    else match a
      case RelockSection(t) => if k.Held? then Held(t, if k.depth == MAX_DEPTH then 1 else k.depth + 1) else k
      case LockSection(t) => if k.Free? then Held(t, 1) else k
      case TrySection(t) => if k.Free? then Held(t, 1) else k
      case UnlockSection(t) => if k.Held? && k.depth > 1 then Held(t, k.depth - 1) else Free
      case _ => k
  }

  lemma RelockDecodes(v: nat, mtype: nat)
    requires WordOK(v, mtype) && v != mtype
    ensures Counter(v) <= 0xfff
    ensures WordOK(Relocked(v), mtype) && LockState(Relocked(v)) == LockState(v) && Relocked(v) != mtype
    ensures Decode(Relocked(v), mtype) == Held(MutexOwner(v), if Counter(v) == 0xfff then 1 else Counter(v) + 2)
  {
    hide MutexOwner, TypeOf, Counter, LockState, Relocked;
    Unpack(v);
    RelockedWord(v);
    PackFields(MutexOwner(v), mtype / 0x4000, if Counter(v) == 0xfff then 0 else Counter(v) + 1, LockState(v));
  }

  lemma UnlockDecodes(v: nat, mtype: nat)
    requires WordOK(v, mtype) && v != mtype
    ensures Nested(v) <==> Counter(v) != 0
    ensures Nested(v) ==>
      && v >= 4 && v - 4 != mtype
      && WordOK(v - 4, mtype) && Decode(v - 4, mtype) == Held(MutexOwner(v), Counter(v))
      && LockState(v - 4) == LockState(v)
    ensures WordOK(mtype, mtype)
  {
    hide MutexOwner, TypeOf, Counter, LockState, Nested;
    Unpack(v);
    PackFields(MutexOwner(v), mtype / 0x4000, Counter(v), LockState(v));
    PackFields(0, mtype / 0x4000, 0, 0);
    if Counter(v) != 0 { PackFields(MutexOwner(v), mtype / 0x4000, Counter(v) - 1, LockState(v)); }
  }

  lemma PromoteDecodes(v: nat, mtype: nat)
    requires WordOK(v, mtype) && v != mtype && LockState(v) == 1
    ensures WordOK(Promoted(v), mtype) && Decode(Promoted(v), mtype) == Decode(v, mtype)
    ensures Promoted(v) != mtype && LockState(Promoted(v)) == 2 && MutexOwner(Promoted(v)) == MutexOwner(v)
  {
    hide MutexOwner, TypeOf, Counter, LockState, Promoted;
    Unpack(v);
    PromotedWord(v);
    PackFields(MutexOwner(v), mtype / 0x4000, Counter(v), 2);
  }

  lemma AcquireDecodes(t: Tid, mtype: nat, state: nat)
    requires IsTid(t) && IsLockType(mtype) && (state == 1 || state == 2)
    ensures WordOK(Acquired(t, mtype, state), mtype) && Decode(Acquired(t, mtype, state), mtype) == Held(t, 1)
    ensures LockState(Acquired(t, mtype, state)) == state && MutexOwner(Acquired(t, mtype, state)) == t
    ensures Acquired(t, mtype, state) != mtype
  {
    hide MutexOwner, TypeOf, Counter, LockState, Acquired;
    AcquiredWord(t, mtype, state);
    PackFields(t, mtype / 0x4000, 0, state);
  }

  /** Each step keeps the word well formed and moves the decoded lock as the abstract lock moves. */
  lemma StepDecodes(s: State, a: Action)
    requires Inv(s)
    ensures var s' := Step(s, a);
      && s'.mtype == s.mtype
      && WordOK(s'.value, s.mtype)
      && Decode(s'.value, s.mtype) == LockStep(Decode(s.value, s.mtype), s, a)
  {
    hide MutexOwner, TypeOf, Counter, LockState, Acquired, Relocked, Promoted, Nested, Attended;
    var v := s.value;
    if Step(s, a) != s && a.t in s.pc {
      assert ThreadOK(s, a.t);
      match a
      case RelockSection(t) => RelockDecodes(v, s.mtype);
      case UnlockSection(t) => UnlockDecodes(v, s.mtype);
      case LockSection(t) =>
        if v == s.mtype { AcquireDecodes(t, s.mtype, s.pc[t].kind); }
        else if LockState(v) == 1 { PromoteDecodes(v, s.mtype); }
      case TrySection(t) => if v == s.mtype { AcquireDecodes(t, s.mtype, 1); }
      case _ =>
    }
  }

  /** Only the owner is inside an owner's section, so no other thread's step can change the owner under it. */
  lemma StepThreads(s: State, a: Action, u: Tid)
    requires Inv(s) && u in Step(s, a).pc
    ensures ThreadOK(Step(s, a), u)
  {
    hide MutexOwner, TypeOf, Counter, LockState, Acquired, Relocked, Promoted, Nested, Attended;
    var s' := Step(s, a);
    StepDecodes(s, a);
    if s' != s {
      if u in s.pc { assert ThreadOK(s, u); }
      if a.t in s.pc {
        assert ThreadOK(s, a.t);
        OwnerKept(s, a, u);
      }
      FreeOwner(s.mtype);
      if a.LockSection? && LockState(s.value) == 1 && s.value != s.mtype { PromoteDecodes(s.value, s.mtype); }
    }
  }

  lemma FreeOwner(mtype: nat)
    requires IsLockType(mtype)
    ensures MutexOwner(mtype) == 0 && LockState(mtype) == 0
  {
    PackFields(0, mtype / 0x4000, 0, 0);
  }

  /** A thread in an owner's section keeps its ownership through every other thread's step. */
  lemma OwnerKept(s: State, a: Action, u: Tid)
    requires Inv(s) && Step(s, a) != s && a.t in s.pc
    ensures u != a.t && s.value != s.mtype && MutexOwner(s.value) == u ==>
      Step(s, a).value != s.mtype && MutexOwner(Step(s, a).value) == u
  {
    hide MutexOwner, TypeOf, Counter, LockState, Acquired, Relocked, Promoted, Nested, Attended;
    StepDecodes(s, a);
    assert ThreadOK(s, a.t);
  }

  /** Every step leaves a thread in charge of any sleeper. */
  lemma StepAttends(s: State, a: Action)
    requires Inv(s) && exists t :: At(Step(s, a), t, Asleep)
    ensures Attended(Step(s, a))
  {
    hide MutexOwner, TypeOf, Counter, Acquired, Relocked, Promoted, Nested, LockState;
    var s' := Step(s, a);
    if s' != s {
      var t := a.t;
      if t in s.pc { assert ThreadOK(s, t); }
      if a.FutexWake? && At(s, a.sleeper, Asleep) {
        assert At(s', a.sleeper, Locking(2));
      } else if At(s', t, Waking) || At(s', t, Locking(2)) {
      } else if s'.value != s.mtype && LockState(s'.value) == 2 {
      } else {
        var z :| At(s', z, Asleep);
        StillAttended(s, a, z);
      }
    }
  }

  lemma StillAttended(s: State, a: Action, z: Tid)
    requires Inv(s) && Step(s, a) != s && At(Step(s, a), z, Asleep)
    requires !(a.FutexWake? && At(s, a.sleeper, Asleep))
    requires var s' := Step(s, a);
      !At(s', a.t, Waking) && !At(s', a.t, Locking(2)) && !(s'.value != s.mtype && LockState(s'.value) == 2)
    ensures Attended(Step(s, a))
  {
    hide MutexOwner, TypeOf, Counter, Acquired, Relocked, Promoted, Nested, LockState;
    var s', t, v := Step(s, a), a.t, s.value;
    if t in s.pc { assert ThreadOK(s, t); }
    match a {
      case RelockSection(_) => RelockDecodes(v, s.mtype);
      case UnlockSection(_) => UnlockDecodes(v, s.mtype);
      case LockSection(_) =>
        if v == s.mtype { AcquireDecodes(t, s.mtype, s.pc[t].kind); FreeOwner(s.mtype); }
        else if LockState(v) == 1 { PromoteDecodes(v, s.mtype); }
      case _ =>
    }
    assert At(s, z, Asleep);
    if w :| At(s, w, Waking) {
      assert w != t ==> At(s', w, Waking);
    } else if w :| At(s, w, Locking(2)) {
      assert w != t ==> At(s', w, Locking(2));
    }
  }

  lemma StepOwner(s: State, a: Action)
    requires Inv(s)
    ensures OwnerOK(Step(s, a))
  {
    hide MutexOwner, TypeOf, Counter, LockState, Acquired, Relocked, Promoted, Nested, Attended;
    StepDecodes(s, a);
    if Step(s, a) != s && a.t in s.pc {
      assert ThreadOK(s, a.t);
    }
  }

  lemma StepInv(s: State, a: Action)
    requires Inv(s)
    ensures Inv(Step(s, a))
  {
    hide MutexOwner, TypeOf, Counter, LockState, Attended, ThreadOK, OwnerOK;
    StepDecodes(s, a);
    StepOwner(s, a);
    forall u | u in Step(s, a).pc
      ensures ThreadOK(Step(s, a), u)
    {
      StepThreads(s, a, u);
    }
    if exists t :: At(Step(s, a), t, Asleep) { StepAttends(s, a); }
  }

  lemma {:induction false} RunInv(mtype: nat, acts: seq<Action>)
    requires IsLockType(mtype)
    ensures Inv(Run(mtype, acts)) && Run(mtype, acts).mtype == mtype
  {
    hide MutexOwner, TypeOf, Counter, LockState, StepResult, Inv;
    if acts == [] {
      InitInv(mtype);
    } else {
      var pre := acts[..|acts| - 1];
      RunInv(mtype, pre);
      StepInv(Run(mtype, pre), acts[|acts| - 1]);
      StepDecodes(Run(mtype, pre), acts[|acts| - 1]);
    }
  }

  lemma InitInv(mtype: nat)
    requires IsLockType(mtype)
    ensures Inv(State(mtype, mtype, map[]))
  {
    hide MutexOwner, TypeOf, Counter, LockState;
    PackFields(0, mtype / 0x4000, 0, 0);
  }

  // ---- what callers see, over whole runs ----

  /** Locks minus unlocks completed by t in this step. */
  function Delta(s: State, a: Action, t: Tid): int {
    if a.t != t || Step(s, a) == s then 0
    else match a
      case RelockSection(_) => 1
      case LockSection(_) => if StepResult(s, a).1 == OK then 1 else 0
      case TrySection(_) => if StepResult(s, a).1 == OK then 1 else 0
      case UnlockSection(_) => -1
      case _ => 0
  }

  function Balance(mtype: nat, acts: seq<Action>, t: Tid): int {
    if acts == [] then 0
    else
      Balance(mtype, acts[..|acts| - 1], t) + Delta(Run(mtype, acts[..|acts| - 1]), acts[|acts| - 1], t)
  }

  function DepthOf(k: Lock, t: Tid): nat {
    if k.Held? && k.owner == t then k.depth else 0
  }

  /** A step moves the depth by what it completes, except for the relock of a full counter. */
  lemma StepDepth(s: State, a: Action, t: Tid)
    requires Inv(s)
    ensures var d, d' := DepthOf(Decode(s.value, s.mtype), t), DepthOf(Decode(Step(s, a).value, s.mtype), t);
      && d <= MAX_DEPTH && d' <= MAX_DEPTH
      && (d' == d + Delta(s, a, t) || (d == MAX_DEPTH && Delta(s, a, t) == 1 && d' == 1))
  {
    hide MutexOwner, TypeOf, Counter, LockState, Acquired, Relocked, Promoted, Nested, Attended, WordOK;
    StepDecodes(s, a);
    DepthBound(s.value, s.mtype);
    if a.t in s.pc && Step(s, a) != s {
      assert ThreadOK(s, a.t);
      if a.UnlockSection? { UnlockDecodes(s.value, s.mtype); }
    }
  }

  lemma DepthBound(v: nat, mtype: nat)
    requires WordOK(v, mtype)
    ensures Counter(v) + 1 <= MAX_DEPTH
  {
    hide MutexOwner, TypeOf, Counter, LockState;
    Unpack(v);
  }

  /** At every point of the run, t has completed at most 2^12 more locks than unlocks. */
  ghost predicate WithinLimit(mtype: nat, acts: seq<Action>, t: Tid) {
    Balance(mtype, acts, t) <= MAX_DEPTH && (acts != [] ==> WithinLimit(mtype, acts[..|acts| - 1], t))
  }

  /** At every point of the run, the word's depth for t is what t has completed. */
  ghost predicate Tracked(mtype: nat, acts: seq<Action>, t: Tid) {
    && DepthOf(Decode(Run(mtype, acts).value, mtype), t) == Balance(mtype, acts, t)
    && (acts != [] ==> Tracked(mtype, acts[..|acts| - 1], t))
  }

  /**
   Throughout a run the word's depth for t is its locks minus its unlocks, if and only if t never nests more than
   2^12 deep.
   */
  lemma {:induction false} DepthIsBalance(mtype: nat, acts: seq<Action>, t: Tid)
    requires IsLockType(mtype)
    ensures Tracked(mtype, acts, t) <==> WithinLimit(mtype, acts, t)
  {
    hide Decode, Step, Inv, Delta;
    if acts == [] {
      InitialDepth(mtype, t);
    } else {
      var pre := acts[..|acts| - 1];
      DepthIsBalance(mtype, pre, t);
      RunInv(mtype, pre);
      StepDepth(Run(mtype, pre), acts[|acts| - 1], t);
    }
  }

  lemma InitialDepth(mtype: nat, t: Tid)
    ensures DepthOf(Decode(Run(mtype, []).value, mtype), t) == 0 == Balance(mtype, [], t)
  {
  }

  /** Unlocking a mutex one does not own fails with EPERM and changes nothing; the owner is never refused. */
  lemma UnlockByOther(mtype: nat, acts: seq<Action>, t: Tid)
    requires IsLockType(mtype) && At(Run(mtype, acts), t, Out)
    ensures var s := Run(mtype, acts);
      StepResult(s, CallUnlock(t)) == (s, EPERM) <==> DepthOf(Decode(s.value, mtype), t) == 0
  {
    hide MutexOwner, TypeOf, Counter, LockState, Attended;
    RunInv(mtype, acts);
    var s := Run(mtype, acts);
    assert ThreadOK(s, t);
    FreeOwner(mtype);
  }

  /** An errorcheck mutex refuses its owner with EDEADLK, and is never held twice. */
  lemma ErrorcheckNeverNests(acts: seq<Action>, t: Tid)
    ensures DepthOf(Decode(Run(ERRORCHECK, acts).value, ERRORCHECK), t) <= 1
    ensures var s := Run(ERRORCHECK, acts);
      At(s, t, Out) && DepthOf(Decode(s.value, ERRORCHECK), t) == 1 ==> StepResult(s, CallLock(t)) == (s, EDEADLK)
  {
    RunInv(ERRORCHECK, acts);
    NoNesting(acts, t);
  }

  lemma {:induction false} NoNesting(acts: seq<Action>, t: Tid)
    ensures DepthOf(Decode(Run(ERRORCHECK, acts).value, ERRORCHECK), t) <= 1
  {
    hide MutexOwner, TypeOf, Counter, LockState, Acquired, Relocked, Promoted, Nested, Attended, WordOK;
    if acts == [] {
    } else {
      var pre := acts[..|acts| - 1];
      var s, a := Run(ERRORCHECK, pre), acts[|acts| - 1];
      NoNesting(pre, t);
      RunInv(ERRORCHECK, pre);
      StepDepth(s, a, t);
      StepDecodes(s, a);
      if a.t in s.pc { assert ThreadOK(s, a.t); }
    }
  }

  /** Nobody is orphaned: in every run, while a thread sleeps the mutex is held in state 2 or some other thread sees to it. */
  lemma NobodyOrphaned(mtype: nat, acts: seq<Action>, z: Tid)
    requires IsLockType(mtype) && At(Run(mtype, acts), z, Asleep)
    ensures var s := Run(mtype, acts);
      || (Decode(s.value, mtype).Held? && LockState(s.value) == 2)
      || (exists t :: At(s, t, Waking))
      || (exists t :: At(s, t, Locking(2)))
  {
    RunInv(mtype, acts);
  }

  /** While the mutex is held by a thread that took it without seeing waiters, no release will forget a sleeper. */
  lemma ReleaseWakes(mtype: nat, acts: seq<Action>, t: Tid, z: Tid)
    requires IsLockType(mtype) && At(Run(mtype, acts), z, Asleep) && At(Run(mtype, acts), t, Unlocking)
    requires DepthOf(Decode(Run(mtype, acts).value, mtype), t) == 1
    ensures var s' := Step(Run(mtype, acts), UnlockSection(t));
      && Decode(s'.value, mtype) == Free
      && ((exists w :: At(s', w, Waking)) || (exists w :: At(s', w, Locking(2))))
  {
    hide MutexOwner, TypeOf, Counter, LockState, Acquired, Relocked, Promoted, Nested, WordOK;
    var s := Run(mtype, acts);
    RunInv(mtype, acts);
    StepInv(s, UnlockSection(t));
    StepDecodes(s, UnlockSection(t));
    assert ThreadOK(s, t);
    UnlockDecodes(s.value, mtype);
    assert At(Step(s, UnlockSection(t)), z, Asleep);
  }

  // ---- what each call returns ----

  /** Whether t holds the mutex. */
  predicate Holds(s: State, t: Tid) {
    DepthOf(Decode(s.value, s.mtype), t) > 0
  }

  /** The owner field names exactly the thread that holds the mutex. */
  lemma OwnerHolds(s: State, t: Tid)
    requires Inv(s) && t in s.pc
    ensures MutexOwner(s.value) == t <==> Holds(s, t)
    ensures Decode(s.value, s.mtype).Free? <==> s.value == s.mtype
  {
    hide MutexOwner, TypeOf, Counter, LockState, Attended;
    assert ThreadOK(s, t);
    FreeOwner(s.mtype);
  }

  /** A relock by the owner of a recursive mutex returns 0, one level deeper unless the counter is full. */
  lemma RelockReturns(s: State, t: Tid)
    requires Inv(s) && At(s, t, Relocking)
    ensures var (s', e) := StepResult(s, RelockSection(t));
      && e == OK && At(s', t, Out)
      && Decode(s.value, s.mtype).Held? && Decode(s.value, s.mtype).owner == t
      && Decode(s'.value, s.mtype) == Held(t, if Decode(s.value, s.mtype).depth == 0x1000 then 1 else Decode(s.value, s.mtype).depth + 1)
  {
    hide MutexOwner, TypeOf, Counter, LockState, Relocked, Attended;
    assert ThreadOK(s, t);
    RelockDecodes(s.value, s.mtype);
  }

  /**
   trylock, in every run: EDEADLK for the owner of an errorcheck mutex; the owner of a recursive one goes on to relock;
   any other caller's section returns 0 and makes it the owner if and only if the mutex is free, and otherwise returns
   EBUSY and leaves the word alone.
   */
  lemma TrylockReturns(mtype: nat, acts: seq<Action>, t: Tid)
    requires IsLockType(mtype)
    ensures var s := Run(mtype, acts);
      At(s, t, Out) ==>
        var (s', e) := StepResult(s, CallTrylock(t));
        if Holds(s, t) && mtype == 0x8000 then (s', e) == (s, EDEADLK)
        else e == Pending && s'.value == s.value && At(s', t, if Holds(s, t) then Relocking else Trying)
    ensures var s := Run(mtype, acts);
      At(s, t, Trying) ==>
        var (s', e) := StepResult(s, TrySection(t));
        && At(s', t, Out)
        && (if Decode(s.value, mtype).Free? then e == OK && Decode(s'.value, mtype) == Held(t, 1) && LockState(s'.value) == 1
            else e == EBUSY && s'.value == s.value)
  {
    hide MutexOwner, TypeOf, Counter, LockState, Acquired, Attended, StepResult, WordOK;
    RunInv(mtype, acts);
    var s := Run(mtype, acts);
    if t in s.pc {
      assert ThreadOK(s, t);
      OwnerHolds(s, t);
      if At(s, t, Out) { TrylockCall(s, t); }
      if At(s, t, Trying) { TrylockSection(s, t); }
    }
  }

  lemma TrylockCall(s: State, t: Tid)
    requires At(s, t, Out) && (MutexOwner(s.value) == t <==> Holds(s, t)) && IsLockType(s.mtype)
    ensures var (s', e) := StepResult(s, CallTrylock(t));
      if Holds(s, t) && s.mtype == 0x8000 then (s', e) == (s, EDEADLK)
      else e == Pending && s'.value == s.value && At(s', t, if Holds(s, t) then Relocking else Trying)
  {
    hide MutexOwner, Decode;
  }

  lemma TrylockSection(s: State, t: Tid)
    requires At(s, t, Trying) && IsTid(t) && IsLockType(s.mtype)
    ensures var (s', e) := StepResult(s, TrySection(t));
      && At(s', t, Out)
      && (if s.value == s.mtype then e == OK && Decode(s'.value, s.mtype) == Held(t, 1) && LockState(s'.value) == 1
          else e == EBUSY && s'.value == s.value)
  {
    hide MutexOwner, TypeOf, Counter, LockState, Acquired;
    AcquireDecodes(t, s.mtype, 1);
  }

  /**
   lock, in every run: EDEADLK for the owner of an errorcheck mutex, a relock for the owner of a recursive one; any
   other caller's section returns 0 and makes it the owner if and only if the mutex is free, and otherwise goes to wait.
   */
  lemma LockReturns(mtype: nat, acts: seq<Action>, t: Tid)
    requires IsLockType(mtype)
    ensures var s := Run(mtype, acts);
      At(s, t, Out) ==>
        var (s', e) := StepResult(s, CallLock(t));
        if Holds(s, t) && mtype == 0x8000 then (s', e) == (s, EDEADLK)
        else e == Pending && s'.value == s.value && At(s', t, if Holds(s, t) then Relocking else Locking(1))
    ensures var s := Run(mtype, acts);
      t in s.pc && s.pc[t].Locking? ==>
        var (s', e) := StepResult(s, LockSection(t));
        && t in s'.pc
        && (if Decode(s.value, mtype).Free? then e == OK && s'.pc[t].Out? && Decode(s'.value, mtype) == Held(t, 1) && LockState(s'.value) == s.pc[t].kind
            else e == Pending && s'.pc[t] == Waiting(s'.value) && Decode(s'.value, mtype) == Decode(s.value, mtype) && LockState(s'.value) == 2)
  {
    hide MutexOwner, TypeOf, Counter, LockState, Acquired, Attended, StepResult;
    RunInv(mtype, acts);
    var s := Run(mtype, acts);
    if t in s.pc {
      assert ThreadOK(s, t);
      OwnerHolds(s, t);
      if At(s, t, Out) { LockCall(s, t); }
      if s.pc[t].Locking? { LockingSection(s, t); }
    }
  }

  lemma LockCall(s: State, t: Tid)
    requires At(s, t, Out) && (MutexOwner(s.value) == t <==> Holds(s, t)) && IsLockType(s.mtype)
    ensures var (s', e) := StepResult(s, CallLock(t));
      if Holds(s, t) && s.mtype == 0x8000 then (s', e) == (s, EDEADLK)
      else e == Pending && s'.value == s.value && At(s', t, if Holds(s, t) then Relocking else Locking(1))
  {
    hide MutexOwner, Decode;
  }

  lemma LockingSection(s: State, t: Tid)
    requires t in s.pc && s.pc[t].Locking? && (s.pc[t].kind == 1 || s.pc[t].kind == 2) && IsTid(t) && WordOK(s.value, s.mtype)
    ensures var (s', e) := StepResult(s, LockSection(t));
      && t in s'.pc
      && (if s.value == s.mtype then e == OK && s'.pc[t].Out? && Decode(s'.value, s.mtype) == Held(t, 1) && LockState(s'.value) == s.pc[t].kind
          else e == Pending && s'.pc[t] == Waiting(s'.value) && Decode(s'.value, s.mtype) == Decode(s.value, s.mtype) && LockState(s'.value) == 2)
  {
    hide MutexOwner, TypeOf, Counter, LockState, Acquired, Promoted;
    if s.value == s.mtype { AcquireDecodes(t, s.mtype, s.pc[t].kind); }
    else if LockState(s.value) == 1 { PromoteDecodes(s.value, s.mtype); }
  }

  /** A waiter sleeps exactly if the word has not changed since its section; a sleeper may wake at any time. */
  lemma WaitSleepsIff(s: State, t: Tid)
    requires t in s.pc
    ensures s.pc[t].Waiting? ==> Step(s, FutexWait(t)).pc == s.pc[t := if s.value == s.pc[t].oldv then Asleep else Locking(2)]
    ensures s.pc[t].Asleep? ==> Step(s, SpuriousWake(t)).pc == s.pc[t := Locking(2)]
  {
  }

  /**
   unlock by the owner, in every run: one level less and 0 while it is nested; otherwise the mutex is free, and the call
   returns 0 at once if it was uncontended and after waking one sleeper, if there is any, if it was contended.
   */
  lemma UnlockReturns(mtype: nat, acts: seq<Action>, t: Tid, z: Tid)
    requires IsLockType(mtype)
    ensures var s := Run(mtype, acts);
      At(s, t, Out) && Holds(s, t) ==> StepResult(s, CallUnlock(t)) == (Goto(s, t, Unlocking), Pending)
    ensures var s := Run(mtype, acts);
      At(s, t, Unlocking) ==>
        var (s', e) := StepResult(s, UnlockSection(t)); var d := DepthOf(Decode(s.value, mtype), t);
        && d > 0
        && (if d > 1 then e == OK && At(s', t, Out) && Decode(s'.value, mtype) == Held(t, d - 1) && LockState(s'.value) == LockState(s.value)
            else Decode(s'.value, mtype).Free? && (if LockState(s.value) == 2 then e == Pending && At(s', t, Waking) else e == OK && At(s', t, Out)))
    ensures var s := Run(mtype, acts);
      At(s, t, Waking) && (At(s, z, Asleep) || forall w :: !At(s, w, Asleep)) ==>
        StepResult(s, FutexWake(t, z)) == ((if At(s, z, Asleep) then Goto(Goto(s, z, Locking(2)), t, Out) else Goto(s, t, Out)), OK)
  {
    hide MutexOwner, TypeOf, Counter, LockState, Nested, Attended, StepResult;
    RunInv(mtype, acts);
    var s := Run(mtype, acts);
    if t in s.pc {
      assert ThreadOK(s, t);
      OwnerHolds(s, t);
      if At(s, t, Out) && Holds(s, t) { UnlockCall(s, t); }
      if At(s, t, Unlocking) { UnlockingSection(s, t); }
      if At(s, t, Waking) { WakingCall(s, t, z); }
    }
  }

  lemma UnlockCall(s: State, t: Tid)
    requires At(s, t, Out) && MutexOwner(s.value) == t
    ensures StepResult(s, CallUnlock(t)) == (Goto(s, t, Unlocking), Pending)
  {
    hide MutexOwner;
  }

  lemma UnlockingSection(s: State, t: Tid)
    requires At(s, t, Unlocking) && WordOK(s.value, s.mtype) && s.value != s.mtype && MutexOwner(s.value) == t
    ensures var (s', e) := StepResult(s, UnlockSection(t)); var d := DepthOf(Decode(s.value, s.mtype), t);
      && d > 0
      && (if d > 1 then e == OK && At(s', t, Out) && Decode(s'.value, s.mtype) == Held(t, d - 1) && LockState(s'.value) == LockState(s.value)
          else Decode(s'.value, s.mtype).Free? && (if LockState(s.value) == 2 then e == Pending && At(s', t, Waking) else e == OK && At(s', t, Out)))
  {
    hide MutexOwner, TypeOf, Counter, LockState, Nested;
    UnlockDecodes(s.value, s.mtype);
  }

  lemma WakingCall(s: State, t: Tid, z: Tid)
    requires At(s, t, Waking)
    ensures At(s, z, Asleep) || (forall w :: !At(s, w, Asleep)) ==>
      StepResult(s, FutexWake(t, z)) == ((if At(s, z, Asleep) then Goto(Goto(s, z, Locking(2)), t, Out) else Goto(s, t, Out)), OK)
  {
    if forall w :: !At(s, w, Asleep) {
      assert forall w | w in s.pc :: !At(s, w, Asleep);
    }
  }

  /** A new thread can lock a free mutex, in every run. */
  lemma NewThreadLocks(mtype: nat, acts: seq<Action>, t: Tid)
    requires IsLockType(mtype) && IsTid(t) && t !in Run(mtype, acts).pc && Decode(Run(mtype, acts).value, mtype).Free?
    ensures var s' := Step(Step(Step(Run(mtype, acts), Spawn(t)), CallLock(t)), LockSection(t));
      Decode(s'.value, mtype) == Held(t, 1) && At(s', t, Out)
  {
    hide MutexOwner, TypeOf, Counter, LockState, Acquired, Attended;
    RunInv(mtype, acts);
    var s := Run(mtype, acts);
    FreeOwner(mtype);
    AcquireDecodes(t, mtype, 1);
    hide Run;
    var s1 := Step(s, Spawn(t));
    var s2 := Step(s1, CallLock(t));
    assert s2 == s.(pc := s2.pc) && At(s2, t, Locking(1));
  }

  // ---- what nesting too deep does ----

  function Relocks(n: nat): seq<Action> {
    if n == 0 then [Spawn(1), CallLock(1), LockSection(1)] else Relocks(n - 1) + [CallLock(1), RelockSection(1)]
  }

  lemma OneRelock(c: nat)
    requires c <= 0xfff
    ensures var s := State(RECURSIVE, Pack(1, 1, c, 1), map[1 := Out]);
      Step(Step(s, CallLock(1)), RelockSection(1)) == State(RECURSIVE, Pack(1, 1, if c == 0xfff then 0 else c + 1, 1), map[1 := Out])
  {
    hide MutexOwner, TypeOf, Counter, LockState, Relocked, Nested;
    PackFields(1, 1, c, 1);
    RelockedWord(Pack(1, 1, c, 1));
  }

  lemma FirstLock()
    ensures Run(RECURSIVE, Relocks(0)) == State(RECURSIVE, Pack(1, 1, 0, 1), map[1 := Out])
    ensures Balance(RECURSIVE, Relocks(0), 1) == 1
  {
    hide MutexOwner, TypeOf, Counter, LockState, Acquired, Relocked, Nested;
    FreeOwner(RECURSIVE);
    AcquiredWord(1, RECURSIVE, 1);
    var p1, p2, p3 := [Spawn(1)], [Spawn(1), CallLock(1)], Relocks(0);
    assert p3[..2] == p2 && p2[..1] == p1 && p1[..0] == [];
    assert Run(RECURSIVE, []) == State(RECURSIVE, RECURSIVE, map[]);
    assert Run(RECURSIVE, p1) == State(RECURSIVE, RECURSIVE, map[1 := Out]);
    assert Run(RECURSIVE, p2) == State(RECURSIVE, RECURSIVE, map[1 := Locking(1)]);
    assert Balance(RECURSIVE, p2, 1) == Balance(RECURSIVE, p1, 1) == Balance(RECURSIVE, [], 1) == 0;
  }

  lemma {:induction false} AfterRelocks(n: nat)
    requires n <= 0x1000
    ensures Run(RECURSIVE, Relocks(n)) == State(RECURSIVE, Pack(1, 1, if n == 0x1000 then 0 else n, 1), map[1 := Out])
    ensures Balance(RECURSIVE, Relocks(n), 1) == n + 1
  {
    hide StepResult, Pack, Step, Delta;
    if n == 0 {
      FirstLock();
    } else {
      AfterRelocks(n - 1);
      OneRelock(n - 1);
      var acts := Relocks(n - 1);
      var one := acts + [CallLock(1)];
      assert Relocks(n) == one + [RelockSection(1)];
      assert Relocks(n)[..|one|] == one && one[..|acts|] == acts;
      RelockDelta(Run(RECURSIVE, acts), n - 1);
    }
  }

  lemma RelockDelta(s: State, c: nat)
    requires c <= 0xfff && s == State(RECURSIVE, Pack(1, 1, c, 1), map[1 := Out])
    ensures Delta(s, CallLock(1), 1) == 0 && Delta(Step(s, CallLock(1)), RelockSection(1), 1) == 1
  {
    hide MutexOwner, TypeOf, Counter, LockState, Relocked, Nested;
    PackFields(1, 1, c, 1);
    RelockedWord(Pack(1, 1, c, 1));
  }

  /** After 4097 locks and no unlock the word says depth 1, and one unlock releases the mutex. */
  lemma NestingTooDeep()
    ensures var s := Run(RECURSIVE, Relocks(0x1000));
      && Balance(RECURSIVE, Relocks(0x1000), 1) == 4097
      && Decode(s.value, RECURSIVE) == Held(1, 1)
      && Decode(Step(Step(s, CallUnlock(1)), UnlockSection(1)).value, RECURSIVE) == Free
  {
    hide Relocks, Run, Balance, Step, Decode, Pack, MutexOwner, Nested;
    AfterRelocks(0x1000);
    DepthOneWord();
    UnlockAtOne(Run(RECURSIVE, Relocks(0x1000)), 1);
  }

  lemma DepthOneWord()
    ensures var v := Pack(1, 1, 0, 1); Decode(v, RECURSIVE) == Held(1, 1) && MutexOwner(v) == 1 && !Nested(v)
  {
    hide MutexOwner, TypeOf, Counter, LockState, Nested;
    PackFields(1, 1, 0, 1);
    FreeOwner(RECURSIVE);
  }

  lemma UnlockAtOne(s: State, t: Tid)
    requires At(s, t, Out) && MutexOwner(s.value) == t && !Nested(s.value)
    ensures Decode(Step(Step(s, CallUnlock(t)), UnlockSection(t)).value, s.mtype) == Free
  {
    hide MutexOwner, TypeOf, Counter, LockState, Relocked, Nested, Acquired, Promoted;
  }

  // ---- progress ----

  function RunFrom(s: State, acts: seq<Action>): State
    decreases acts
  {
    if acts == [] then s else RunFrom(Step(s, acts[0]), acts[1..])
  }

  lemma {:induction false} RunOn(mtype: nat, acts: seq<Action>, more: seq<Action>)
    ensures Run(mtype, acts + more) == RunFrom(Run(mtype, acts), more)
    decreases more
  {
    hide Step;
    if more == [] {
      assert acts + more == acts;
    } else {
      var one := acts + [more[0]];
      assert acts + more == one + more[1..];
      assert one[..|acts|] == acts;
      RunOn(mtype, one, more[1..]);
    }
  }

  ghost predicate NoSpuriousWakes(acts: seq<Action>) {
    forall i | 0 <= i < |acts| :: !acts[i].SpuriousWake?
  }

  ghost predicate HandsTo(s: State, more: seq<Action>, z: Tid) {
    NoSpuriousWakes(more) && Decode(RunFrom(s, more).value, s.mtype) == Held(z, 1)
  }

  lemma Then(s: State, a: Action, rest: seq<Action>, z: Tid)
    requires !a.SpuriousWake? && Step(s, a).mtype == s.mtype && HandsTo(Step(s, a), rest, z)
    ensures HandsTo(s, [a] + rest, z)
  {
    hide Step, Decode;
    assert ([a] + rest)[1..] == rest;
  }

  /** From a free mutex, waking z lets it acquire. */
  lemma WakeAndAcquire(s: State, w: Tid, z: Tid) returns (more: seq<Action>)
    requires Inv(s) && At(s, w, Waking) && At(s, z, Asleep) && s.value == s.mtype
    ensures HandsTo(s, more, z)
  {
    hide MutexOwner, TypeOf, Counter, LockState, Acquired, Attended, WordOK;
    var s1 := Step(s, FutexWake(w, z));
    StepInv(s, FutexWake(w, z));
    var s2 := Step(s1, LockSection(z));
    assert ThreadOK(s, z);
    StepDecodes(s1, LockSection(z));
    assert RunFrom(s2, []) == s2;
    Then(s1, LockSection(z), [], z);
    Then(s, FutexWake(w, z), [LockSection(z)] + [], z);
    more := [FutexWake(w, z)] + ([LockSection(z)] + []);
  }

  /** From a mutex held in the contended state, its owner can unlock as often as it must and hand it to z. */
  lemma OwnerHandsOver(s: State, z: Tid) returns (more: seq<Action>)
    requires Inv(s) && At(s, z, Asleep) && s.value != s.mtype && LockState(s.value) == 2
    ensures HandsTo(s, more, z)
    decreases s.pc[MutexOwner(s.value)].Relocking?, Counter(s.value), s.pc[MutexOwner(s.value)].Out?
  {
    hide TypeOf, Counter, LockState, Acquired, Relocked, Promoted, Nested, Attended, MutexOwner;
    var o := MutexOwner(s.value);
    assert ThreadOK(s, o) && ThreadOK(s, z);
    var a := if s.pc[o].Relocking? then RelockSection(o) else if s.pc[o].Out? then CallUnlock(o) else UnlockSection(o);
    var s1 := Step(s, a);
    StepInv(s, a);
    StepDecodes(s, a);
    if a.RelockSection? { RelockDecodes(s.value, s.mtype); }
    if a.UnlockSection? { UnlockDecodes(s.value, s.mtype); }
    var rest;
    if a.UnlockSection? && !Nested(s.value) {
      rest := WakeAndAcquire(s1, o, z);
    } else {
      rest := OwnerHandsOver(s1, z);
    }
    Then(s, a, rest, z);
    more := [a] + rest;
  }

  /** Some thread makes the state contended, or there is a waker of a free mutex. */
  lemma Contend(s: State, z: Tid) returns (more: seq<Action>)
    requires Inv(s) && At(s, z, Asleep)
    ensures HandsTo(s, more, z)
  {
    hide TypeOf, Counter, LockState, Acquired, Relocked, Promoted, Nested, MutexOwner;
    if s.value != s.mtype && LockState(s.value) == 2 {
      more := OwnerHandsOver(s, z);
    } else if w :| At(s, w, Locking(2)) {
      assert ThreadOK(s, w);
      var s1 := Step(s, LockSection(w));
      StepInv(s, LockSection(w));
      ContendedBy(s, w);
      var rest := OwnerHandsOver(s1, z);
      Then(s, LockSection(w), rest, z);
      more := [LockSection(w)] + rest;
    } else {
      var w :| At(s, w, Waking);
      if s.value == s.mtype {
        more := WakeAndAcquire(s, w, z);
      } else {
        more := WakePromoteSleep(s, w, z);
      }
    }
  }

  /** A thread locking in state 2 leaves the mutex held in state 2: by itself, or by the owner it finds. */
  lemma ContendedBy(s: State, w: Tid)
    requires Inv(s) && At(s, w, Locking(2)) && (s.value == s.mtype || LockState(s.value) == 1)
    ensures var s1 := Step(s, LockSection(w)); s1.mtype == s.mtype && s1.value != s.mtype && LockState(s1.value) == 2
  {
    hide TypeOf, Counter, LockState, Acquired, Relocked, Promoted, Nested, MutexOwner, Attended;
    assert ThreadOK(s, w);
    if s.value == s.mtype { AcquireDecodes(w, s.mtype, 2); } else { PromoteDecodes(s.value, s.mtype); }
  }

  /** A waker of a mutex held meanwhile by a newcomer: z wakes, makes the state contended and sleeps again. */
  lemma WakePromoteSleep(s: State, w: Tid, z: Tid) returns (more: seq<Action>)
    requires Inv(s) && At(s, w, Waking) && At(s, z, Asleep) && s.value != s.mtype && LockState(s.value) == 1
    ensures HandsTo(s, more, z)
  {
    hide TypeOf, Counter, LockState, Acquired, Relocked, Promoted, Nested, MutexOwner;
    var s1 := Step(s, FutexWake(w, z));
    StepInv(s, FutexWake(w, z));
    var s2 := Step(s1, LockSection(z));
    ContendedBy(s1, z);
    StepInv(s1, LockSection(z));
    assert ThreadOK(s1, z);
    var s3 := Step(s2, FutexWait(z));
    StepInv(s2, FutexWait(z));
    assert At(s3, z, Asleep);
    var rest := OwnerHandsOver(s3, z);
    Then(s2, FutexWait(z), rest, z);
    Then(s1, LockSection(z), [FutexWait(z)] + rest, z);
    Then(s, FutexWake(w, z), [LockSection(z)] + ([FutexWait(z)] + rest), z);
    more := [FutexWake(w, z)] + ([LockSection(z)] + ([FutexWait(z)] + rest));
  }

  /**
   A sleeper is never stuck: from every state of every run the threads already under way and the owner's unlocks can
   hand it the mutex, without any spurious wake.
   */
  lemma SleeperCanAcquire(mtype: nat, acts: seq<Action>, z: Tid) returns (more: seq<Action>)
    requires IsLockType(mtype) && At(Run(mtype, acts), z, Asleep)
    ensures NoSpuriousWakes(more) && Decode(Run(mtype, acts + more).value, mtype) == Held(z, 1)
  {
    hide Decode, Step, RunFrom;
    RunInv(mtype, acts);
    more := Contend(Run(mtype, acts), z);
    RunOn(mtype, acts, more);
  }
}

/** Process-wide serialisation of SQLite open and close (app/db_cipher.py).

    A step system over any number of threads. Opening takes the VFS mutex and then the
    inode mutex with the GIL released; closing takes the inode mutex and then the VFS
    mutex with the GIL held. A re-entrant lock surrounds both, and a garbage-collected
    connection may be closed by any thread that runs Python code and holds no C mutex,
    even in the middle of another open or close. */
module SqliteLock {

  // A leaked connection is dropped without `close`: it becomes garbage for a finalizer.
  datatype Kind = Open(leak: bool) | Close

  datatype Pc =
    | Try      // about to acquire the lock
    | Blocked  // waiting for the lock, GIL released
    | Body     // Python code inside the lock, before the C call
    | First    // in C, wants its first mutex
    | Second   // holds the first mutex, wants the second
    | Both     // holds both mutexes
    | One      // has released the second mutex
    | After    // Python code inside the lock, after the C call
    | Leave    // the lock is released

  datatype Frame = Frame(kind: Kind, pc: Pc)

  // Calls in progress of one thread, innermost on top.
  datatype Stack = Empty | Push(top: Frame, rest: Stack)

  // `slices` bounds how often the interpreter still preempts the thread.
  datatype Thread = Thread(work: seq<Kind>, stack: Stack, slices: nat)

  datatype Owner = Nobody | By(thread: nat)

  datatype State = State(
    threads: seq<Thread>, gil: Owner, vfs: Owner, inode: Owner,
    lock: Owner, depth: nat, garbage: nat)

  datatype Action =
    | TakeGil | Yield | Start | Finalize | Acquire | Wake | EnterC
    | TakeFirst | TakeSecond | DropSecond | DropFirst | Release | Return

  // ----- Steps

  predicate IsPython(pc: Pc) { pc.Try? || pc.Body? || pc.After? || pc.Leave? }

  predicate InC(pc: Pc) { pc.First? || pc.Second? || pc.Both? || pc.One? }

  // Inside the serialised region.
  predicate Inside(pc: Pc) { pc.Body? || InC(pc) || pc.After? }

  predicate WantsPython(th: Thread) {
    if th.stack.Empty? then th.work != [] else IsPython(th.stack.top.pc)
  }

  predicate Finished(th: Thread) { th.stack.Empty? && th.work == [] }

  predicate At(th: Thread, pc: Pc) { th.stack.Push? && th.stack.top.pc == pc }

  predicate Available(s: State, t: nat) { s.lock.Nobody? || s.lock == By(t) }

  function FirstMutex(s: State, k: Kind): Owner { if k.Open? then s.vfs else s.inode }

  function SecondMutex(s: State, k: Kind): Owner { if k.Open? then s.inode else s.vfs }

  function SetFirst(s: State, k: Kind, o: Owner): State {
    if k.Open? then s.(vfs := o) else s.(inode := o)
  }

  function SetSecond(s: State, k: Kind, o: Owner): State {
    if k.Open? then s.(inode := o) else s.(vfs := o)
  }

  predicate Can(s: State, t: nat, a: Action) {
    t < |s.threads| &&
    var th := s.threads[t];
    match a
    case TakeGil => WantsPython(th) && s.gil.Nobody?
    case Yield => WantsPython(th) && s.gil == By(t) && th.slices > 0
    case Start => th.stack.Empty? && th.work != [] && s.gil == By(t)
    case Finalize => WantsPython(th) && s.gil == By(t) && s.garbage > 0
    case Acquire => At(th, Try) && s.gil == By(t)
    case Wake => At(th, Blocked) && Available(s, t)
    case EnterC => At(th, Body) && s.gil == By(t)
    case TakeFirst => At(th, First) && FirstMutex(s, th.stack.top.kind).Nobody?
    case TakeSecond => At(th, Second) && SecondMutex(s, th.stack.top.kind).Nobody?
    case DropSecond => At(th, Both)
    case DropFirst => At(th, One)
    case Release => At(th, After) && s.gil == By(t)
    case Return => At(th, Leave) && s.gil == By(t)
  }

  function Put(s: State, t: nat, th: Thread): State
    requires t < |s.threads|
  {
    s.(threads := s.threads[t := th])
  }

  // Replace the program counter of the innermost call of thread t.
  function Goto(s: State, t: nat, pc: Pc): State
    requires t < |s.threads| && s.threads[t].stack.Push?
  {
    var th := s.threads[t];
    Put(s, t, th.(stack := Push(th.stack.top.(pc := pc), th.stack.rest)))
  }

  function Enter(s: State, t: nat): State {
    s.(lock := By(t), depth := s.depth + 1)
  }

  // The effect of a step; `serialized` says whether the lock is taken at all.
  function Do(s: State, t: nat, a: Action, serialized: bool): State
    requires Can(s, t, a)
  {
    var th := s.threads[t];
    match a
    case TakeGil => s.(gil := By(t))
    case Yield => Put(s, t, th.(slices := th.slices - 1)).(gil := Nobody)
    case Start => Put(s, t, th.(work := th.work[1..], stack := Push(Frame(th.work[0], Try), Empty)))
    case Finalize => Put(s, t, th.(stack := Push(Frame(Close, Try), th.stack))).(garbage := s.garbage - 1)
    case Acquire =>
      if !serialized then Goto(s, t, Body)
      else if Available(s, t) then Enter(Goto(s, t, Body), t)
      else Goto(s, t, Blocked).(gil := Nobody)
    case Wake => Enter(Goto(s, t, Body), t)
    case EnterC =>
      var s' := Goto(s, t, First);
      if th.stack.top.kind.Open? then s'.(gil := Nobody) else s'
    case TakeFirst => SetFirst(Goto(s, t, Second), th.stack.top.kind, By(t))
    case TakeSecond => SetSecond(Goto(s, t, Both), th.stack.top.kind, By(t))
    case DropSecond => SetSecond(Goto(s, t, One), th.stack.top.kind, Nobody)
    case DropFirst => SetFirst(Goto(s, t, After), th.stack.top.kind, Nobody)
    case Release =>
      var s' := Goto(s, t, Leave);
      if !serialized || s.depth == 0 then s'
      else if s.depth == 1 then s'.(lock := Nobody, depth := 0)
      else s'.(depth := s.depth - 1)
    case Return =>
      var s' := Put(s, t, th.(stack := th.stack.rest));
      var s'' := if th.stack.top.kind == Open(true) then s'.(garbage := s.garbage + 1) else s';
      if th.stack.rest.Empty? then s''.(gil := Nobody) else s''
  }

  // A run is a schedule: which thread takes which step. None when a step is not possible.
  datatype Option<+T> = None | Some(value: T)

  type Schedule = seq<(nat, Action)>

  function Exec(s: State, run: Schedule, serialized: bool): Option<State>
    decreases run
  {
    if run == [] then Some(s)
    else if !Can(s, run[0].0, run[0].1) then None
    else Exec(Do(s, run[0].0, run[0].1, serialized), run[1..], serialized)
  }

  predicate Initial(s: State) {
    && (forall t :: 0 <= t < |s.threads| ==> s.threads[t].stack.Empty?)
    && s.gil.Nobody? && s.vfs.Nobody? && s.inode.Nobody? && s.lock.Nobody? && s.depth == 0
  }

  // Some thread has work left and no step is possible at all.
  ghost predicate Stuck(s: State) {
    && (exists t :: 0 <= t < |s.threads| && !Finished(s.threads[t]))
    && forall t, a :: !Can(s, t, a)
  }

  // ----- Invariant

  function Nesting(st: Stack): nat {
    if st.Empty? then 0 else (if Inside(st.top.pc) then 1 else 0) + Nesting(st.rest)
  }

  predicate AllPython(st: Stack) {
    st.Empty? || (IsPython(st.top.pc) && AllPython(st.rest))
  }

  predicate HoldsVfs(th: Thread) {
    th.stack.Push? &&
    var f := th.stack.top;
    if f.kind.Open? then f.pc.Second? || f.pc.Both? || f.pc.One? else f.pc.Both?
  }

  predicate HoldsInode(th: Thread) {
    th.stack.Push? &&
    var f := th.stack.top;
    if f.kind.Open? then f.pc.Both? else f.pc.Second? || f.pc.Both? || f.pc.One?
  }

  predicate ThreadOk(s: State, t: nat)
    requires t < |s.threads|
  {
    var th := s.threads[t];
    && (th.stack.Push? ==> AllPython(th.stack.rest))
    && (s.gil == By(t) ==> WantsPython(th) || (th.stack.Push? && th.stack.top.kind.Close? && InC(th.stack.top.pc)))
    && (th.stack.Push? && th.stack.top.kind.Close? && InC(th.stack.top.pc) ==> s.gil == By(t))
    && (s.vfs == By(t) <==> HoldsVfs(th))
    && (s.inode == By(t) <==> HoldsInode(th))
    && (if s.lock == By(t) then s.depth == Nesting(th.stack) > 0 else Nesting(th.stack) == 0)
  }

  predicate ValidOwner(o: Owner, n: nat) { o.By? ==> o.thread < n }

  ghost predicate Inv(s: State) {
    && ValidOwner(s.gil, |s.threads|) && ValidOwner(s.vfs, |s.threads|)
    && ValidOwner(s.inode, |s.threads|) && ValidOwner(s.lock, |s.threads|)
    && (s.lock.Nobody? ==> s.depth == 0)
    && forall t :: 0 <= t < |s.threads| ==> ThreadOk(s, t)
  }

  // A step of thread t only moves ownership between t and nobody.
  lemma StepIsLocal(s: State, t: nat, a: Action)
    requires Inv(s) && Can(s, t, a)
    ensures var s' := Do(s, t, a, true);
      && |s'.threads| == |s.threads|
      && (forall u :: 0 <= u < |s.threads| && u != t ==> s'.threads[u] == s.threads[u])
      && (forall u: nat :: u != t ==>
           && (s'.gil == By(u) <==> s.gil == By(u))
           && (s'.vfs == By(u) <==> s.vfs == By(u))
           && (s'.inode == By(u) <==> s.inode == By(u))
           && (s'.lock == By(u) <==> s.lock == By(u))
           && (s.lock == By(u) ==> s'.depth == s.depth))
  {
    assert ThreadOk(s, t);
  }

  predicate IsLockStep(a: Action) { a.Acquire? || a.Wake? || a.Release? || a.Return? }

  predicate IsMutexStep(a: Action) { a.EnterC? || a.TakeFirst? || a.TakeSecond? || a.DropSecond? || a.DropFirst? }

  lemma LockStepKeepsOwnThread(s: State, t: nat, a: Action)
    requires Inv(s) && Can(s, t, a) && IsLockStep(a)
    ensures t < |Do(s, t, a, true).threads| && ThreadOk(Do(s, t, a, true), t)
  {
    assert ThreadOk(s, t);
  }

  lemma MutexStepKeepsOwnThread(s: State, t: nat, a: Action)
    requires Inv(s) && Can(s, t, a) && IsMutexStep(a)
    ensures t < |Do(s, t, a, true).threads| && ThreadOk(Do(s, t, a, true), t)
  {
    assert ThreadOk(s, t);
  }

  lemma StepKeepsOwnThread(s: State, t: nat, a: Action)
    requires Inv(s) && Can(s, t, a)
    ensures t < |Do(s, t, a, true).threads| && ThreadOk(Do(s, t, a, true), t)
  {
    if IsLockStep(a) {
      LockStepKeepsOwnThread(s, t, a);
    } else if IsMutexStep(a) {
      MutexStepKeepsOwnThread(s, t, a);
    } else {
      assert ThreadOk(s, t);
    }
  }

  lemma StepKeepsOwners(s: State, t: nat, a: Action)
    requires Inv(s) && Can(s, t, a)
    ensures var s' := Do(s, t, a, true);
      && ValidOwner(s'.gil, |s.threads|) && ValidOwner(s'.vfs, |s.threads|)
      && ValidOwner(s'.inode, |s.threads|) && ValidOwner(s'.lock, |s.threads|)
      && (s'.lock.Nobody? ==> s'.depth == 0)
  {
    assert ThreadOk(s, t);
  }

  // Every step of the serialised system keeps the invariant.
  lemma StepKeepsInv(s: State, t: nat, a: Action)
    requires Inv(s) && Can(s, t, a)
    ensures Inv(Do(s, t, a, true))
  {
    var s' := Do(s, t, a, true);
    StepIsLocal(s, t, a);
    StepKeepsOwnThread(s, t, a);
    StepKeepsOwners(s, t, a);
    forall u | 0 <= u < |s'.threads|
      ensures ThreadOk(s', u)
    {
      assert ThreadOk(s, u);
    }
  }

  lemma {:induction false} RunKeepsInv(s: State, run: Schedule)
    requires Inv(s) && Exec(s, run, true).Some?
    ensures Inv(Exec(s, run, true).value)
    decreases run
  {
    if run != [] {
      StepKeepsInv(s, run[0].0, run[0].1);
      RunKeepsInv(Do(s, run[0].0, run[0].1, true), run[1..]);
    }
  }

  // ----- Mutual exclusion and re-entrancy

  // Main result: in every state reachable by any schedule, at most one thread is inside an
  // open or close, and the lock depth is the number of calls that thread has nested.
  lemma MutualExclusion(s: State, run: Schedule)
    requires Initial(s) && Exec(s, run, true).Some?
    ensures var r := Exec(s, run, true).value;
      && (forall t, u | 0 <= t < |r.threads| && 0 <= u < |r.threads| ::
           Nesting(r.threads[t].stack) > 0 && Nesting(r.threads[u].stack) > 0 ==> t == u)
      && (forall t: nat :: t < |r.threads| ==>
           Nesting(r.threads[t].stack) == if r.lock == By(t) then r.depth else 0)
      && (r.lock.Nobody? ==> r.depth == 0)
  {
    assert Inv(s) by {
      assert forall t :: 0 <= t < |s.threads| ==> ThreadOk(s, t);
    }
    RunKeepsInv(s, run);
    var r := Exec(s, run, true).value;
    forall t: nat | t < |r.threads|
      ensures Nesting(r.threads[t].stack) == if r.lock == By(t) then r.depth else 0
    {
      assert ThreadOk(r, t);
    }
  }

  // ----- Progress

  // What a thread that is not waiting for anybody else can do next.
  function NextAction(s: State, t: nat): Action
    requires t < |s.threads| && !Finished(s.threads[t])
  {
    var th := s.threads[t];
    if WantsPython(th) && s.gil != By(t) then TakeGil
    else if th.stack.Empty? then Start
    else match th.stack.top.pc
      case Try => Acquire
      case Blocked => Wake
      case Body => EnterC
      case First => TakeFirst
      case Second => TakeSecond
      case Both => DropSecond
      case One => DropFirst
      case After => Release
      case Leave => Return
  }

  // The thread whose turn it is: the one inside the region unless it waits for the GIL,
  // in which case the GIL holder.
  lemma InsideOrGilHolderSteps(s: State, t: nat)
    requires Inv(s) && t < |s.threads| && !Finished(s.threads[t])
    requires s.lock == By(t) || s.lock.Nobody?
    ensures Can(s, t, NextAction(s, t))
         || (s.gil.By? && s.gil != By(t) && !Finished(s.threads[s.gil.thread])
             && Can(s, s.gil.thread, NextAction(s, s.gil.thread)))
  {
    assert ThreadOk(s, t);
    if s.gil.By? {
      assert ThreadOk(s, s.gil.thread);
    }
    if s.vfs.By? {
      assert ThreadOk(s, s.vfs.thread);
      OwnerIsInside(s, s.vfs.thread);
    }
    if s.inode.By? {
      assert ThreadOk(s, s.inode.thread);
      OwnerIsInside(s, s.inode.thread);
    }
  }

  lemma OwnerIsInside(s: State, t: nat)
    requires Inv(s) && t < |s.threads|
    requires s.threads[t].stack.Push? && Inside(s.threads[t].stack.top.pc)
    ensures s.lock == By(t)
  {
    assert ThreadOk(s, t);
  }

  // Main result: no reachable state of the serialised system is stuck.
  lemma NeverStuck(s: State, run: Schedule)
    requires Initial(s) && Exec(s, run, true).Some?
    ensures !Stuck(Exec(s, run, true).value)
  {
    assert Inv(s) by {
      assert forall t :: 0 <= t < |s.threads| ==> ThreadOk(s, t);
    }
    RunKeepsInv(s, run);
    var r := Exec(s, run, true).value;
    if t :| 0 <= t < |r.threads| && !Finished(r.threads[t]) {
      var u := if r.lock.By? then r.lock.thread else t;
      assert ThreadOk(r, u);
      InsideOrGilHolderSteps(r, u);
      var a := if Can(r, u, NextAction(r, u)) then (u, NextAction(r, u))
               else (r.gil.thread, NextAction(r, r.gil.thread));
      assert Can(r, a.0, a.1);
    }
  }

  // ----- Termination

  function PcWeight(pc: Pc): nat {
    match pc
    case Try => 18
    case Blocked => 16
    case Body => 14
    case First => 12
    case Second => 10
    case Both => 8
    case One => 6
    case After => 4
    case Leave => 2
  }

  const GARBAGE_WEIGHT: nat := 20

  function KindWeight(k: Kind): nat { if k == Open(true) then GARBAGE_WEIGHT else 0 }

  function StackWeight(st: Stack): nat {
    if st.Empty? then 0 else PcWeight(st.top.pc) + KindWeight(st.top.kind) + StackWeight(st.rest)
  }

  function WorkWeight(work: seq<Kind>): nat {
    if work == [] then 0 else 20 + KindWeight(work[0]) + WorkWeight(work[1..])
  }

  function ThreadWeight(th: Thread, running: bool): nat {
    WorkWeight(th.work) + StackWeight(th.stack) + 2 * th.slices + (if running then 0 else 1)
  }

  function WeightTo(s: State, n: nat): nat
    requires n <= |s.threads|
  {
    if n == 0 then 0 else WeightTo(s, n - 1) + ThreadWeight(s.threads[n - 1], s.gil == By(n - 1))
  }

  // Remaining work of the whole process.
  function Weight(s: State): nat { GARBAGE_WEIGHT * s.garbage + WeightTo(s, |s.threads|) }

  lemma {:induction false} WeightUpdate(s: State, s': State, t: nat, n: nat)
    requires n <= |s.threads| == |s'.threads|
    requires forall u :: 0 <= u < |s.threads| && u != t ==> s'.threads[u] == s.threads[u]
    requires forall u: nat :: u < |s.threads| && u != t ==> (s'.gil == By(u) <==> s.gil == By(u))
    ensures t < n ==>
      WeightTo(s', n) - WeightTo(s, n)
        == ThreadWeight(s'.threads[t], s'.gil == By(t)) - ThreadWeight(s.threads[t], s.gil == By(t))
    ensures t >= n ==> WeightTo(s', n) == WeightTo(s, n)
  {
    if n > 0 {
      WeightUpdate(s, s', t, n - 1);
    }
  }

  ghost predicate Shrinks(s: State, t: nat, s': State) {
    t < |s.threads| && t < |s'.threads|
    && ThreadWeight(s'.threads[t], s'.gil == By(t)) + GARBAGE_WEIGHT * s'.garbage
        < ThreadWeight(s.threads[t], s.gil == By(t)) + GARBAGE_WEIGHT * s.garbage
  }

  lemma MutexStepShrinksThread(s: State, t: nat, a: Action)
    requires Inv(s) && Can(s, t, a) && IsMutexStep(a)
    ensures Shrinks(s, t, Do(s, t, a, true))
  {
    assert ThreadOk(s, t);
  }

  lemma LockStepShrinksThread(s: State, t: nat, a: Action)
    requires Inv(s) && Can(s, t, a) && IsLockStep(a)
    ensures Shrinks(s, t, Do(s, t, a, true))
  {
    assert ThreadOk(s, t);
  }

  lemma StepShrinksThread(s: State, t: nat, a: Action)
    requires Inv(s) && Can(s, t, a)
    ensures Shrinks(s, t, Do(s, t, a, true))
  {
    if IsMutexStep(a) {
      MutexStepShrinksThread(s, t, a);
    } else if IsLockStep(a) {
      LockStepShrinksThread(s, t, a);
    } else {
      assert ThreadOk(s, t);
    }
  }

  lemma StepConsumes(s: State, t: nat, a: Action)
    requires Inv(s) && Can(s, t, a)
    ensures Weight(Do(s, t, a, true)) < Weight(s)
  {
    StepShrinksThread(s, t, a);
    StepIsLocal(s, t, a);
    WeightUpdate(s, Do(s, t, a, true), t, |s.threads|);
  }

  // Main result: every schedule ends, after at most Weight(s) steps.
  lemma {:induction false} RunsAreBounded(s: State, run: Schedule)
    requires Inv(s) && Exec(s, run, true).Some?
    ensures |run| + Weight(Exec(s, run, true).value) <= Weight(s)
    decreases run
  {
    if run != [] {
      StepKeepsInv(s, run[0].0, run[0].1);
      StepConsumes(s, run[0].0, run[0].1);
      RunsAreBounded(Do(s, run[0].0, run[0].1, true), run[1..]);
    }
  }

  // A schedule that cannot be extended has finished all work and released every resource.
  lemma MaximalRunsFinish(s: State, run: Schedule)
    requires Initial(s) && Exec(s, run, true).Some?
    requires forall t, a :: !Can(Exec(s, run, true).value, t, a)
    ensures var r := Exec(s, run, true).value;
      && (forall t :: 0 <= t < |r.threads| ==> Finished(r.threads[t]))
      && r.gil.Nobody? && r.vfs.Nobody? && r.inode.Nobody? && r.lock.Nobody? && r.depth == 0
  {
    NeverStuck(s, run);
    assert Inv(s) by {
      assert forall t :: 0 <= t < |s.threads| ==> ThreadOk(s, t);
    }
    RunKeepsInv(s, run);
    var r := Exec(s, run, true).value;
    forall t: nat | t < |r.threads|
      ensures Finished(r.threads[t])
      ensures r.gil != By(t) && r.vfs != By(t) && r.inode != By(t) && r.lock != By(t)
    {
      assert ThreadOk(r, t);
    }
  }

  // ----- The incident: the same steps without the lock

  lemma {:induction false} ExecConcat(s: State, a: Schedule, b: Schedule, serialized: bool)
    requires Exec(s, a, serialized).Some?
    ensures Exec(s, a + b, serialized) == Exec(Exec(s, a, serialized).value, b, serialized)
    decreases a
  {
    if a == [] {
      assert a + b == b;
    } else {
      ExecConcat(Do(s, a[0].0, a[0].1, serialized), a[1..], b, serialized);
      assert (a + b)[1..] == a[1..] + b;
    }
  }

  // Bring thread t from idle to "holds its first mutex, wants the second".
  function ToSecond(t: nat): Schedule {
    [(t, TakeGil), (t, Start), (t, Acquire), (t, EnterC), (t, TakeFirst)]
  }

  lemma ExecFirst(s: State, t: nat, a: Action, rest: Schedule)
    requires Can(s, t, a)
    ensures Exec(s, [(t, a)] + rest, false) == Exec(Do(s, t, a, false), rest, false)
  {
    assert ([(t, a)] + rest)[1..] == rest;
  }

  lemma ExecTwo(s: State, t: nat, a: Action, b: Action)
    requires Can(s, t, a) && Can(Do(s, t, a, false), t, b)
    ensures Exec(s, [(t, a), (t, b)], false) == Some(Do(Do(s, t, a, false), t, b, false))
  {
    ExecFirst(Do(s, t, a, false), t, b, []);
    ExecFirst(s, t, a, [(t, b)]);
    assert [(t, b)] + [] == [(t, b)] && [(t, a)] + [(t, b)] == [(t, a), (t, b)];
  }

  // An idle thread with work and a free GIL: it has the GIL and is about to enter its call.
  function AtBody(s: State, t: nat): State
    requires t < |s.threads| && s.threads[t].work != []
  {
    var th := s.threads[t];
    Put(s, t, th.(work := th.work[1..], stack := Push(Frame(th.work[0], Body), Empty))).(gil := By(t))
  }

  lemma CallStarts(s: State, t: nat)
    requires t < |s.threads| && s.gil.Nobody? && s.threads[t].stack.Empty? && s.threads[t].work != []
    ensures Exec(s, [(t, TakeGil), (t, Start), (t, Acquire)], false) == Some(AtBody(s, t))
  {
    var s1 := Do(s, t, TakeGil, false);
    var s2 := Do(s1, t, Start, false);
    assert Do(s2, t, Acquire, false) == AtBody(s, t) by {
      assert Do(s2, t, Acquire, false).threads == AtBody(s, t).threads;
    }
    ExecTwo(s1, t, Start, Acquire);
    ExecFirst(s, t, TakeGil, [(t, Start), (t, Acquire)]);
    assert [(t, TakeGil)] + [(t, Start), (t, Acquire)] == [(t, TakeGil), (t, Start), (t, Acquire)];
  }

  // The call of kind k has taken its first mutex and wants the second.
  function WithFirst(s: State, t: nat): State
    requires t < |s.threads| && s.threads[t].work != []
  {
    var th := s.threads[t];
    var k := th.work[0];
    SetFirst(Put(s, t, th.(work := th.work[1..], stack := Push(Frame(k, Second), Empty)))
               .(gil := if k.Open? then Nobody else By(t)), k, By(t))
  }

  lemma BodyTakesFirst(s: State, t: nat)
    requires t < |s.threads| && s.threads[t].work != [] && FirstMutex(s, s.threads[t].work[0]).Nobody?
    requires s.gil.Nobody?
    ensures Exec(AtBody(s, t), [(t, EnterC), (t, TakeFirst)], false) == Some(WithFirst(s, t))
  {
    var b := AtBody(s, t);
    var s4 := Do(b, t, EnterC, false);
    ExecTwo(b, t, EnterC, TakeFirst);
    assert Do(s4, t, TakeFirst, false).threads == WithFirst(s, t).threads;
  }

  lemma UnlockedCallTakesFirst(s: State, t: nat)
    requires t < |s.threads| && s.gil.Nobody?
    requires s.threads[t].stack.Empty? && s.threads[t].work != []
    requires FirstMutex(s, s.threads[t].work[0]).Nobody?
    ensures Exec(s, ToSecond(t), false) == Some(WithFirst(s, t))
  {
    CallStarts(s, t);
    BodyTakesFirst(s, t);
    ExecConcat(s, [(t, TakeGil), (t, Start), (t, Acquire)], [(t, EnterC), (t, TakeFirst)], false);
    assert [(t, TakeGil), (t, Start), (t, Acquire)] + [(t, EnterC), (t, TakeFirst)] == ToSecond(t);
  }

  // Each thread waits for a resource that another one holds for ever.
  predicate Frozen(s: State) {
    && |s.threads| >= 2 && s.gil == By(1) && s.vfs == By(0) && s.inode == By(1)
    && s.threads[0].stack.Push? && s.threads[0].stack.top.kind.Open? && s.threads[0].stack.top.pc.Second?
    && s.threads[1].stack.Push? && s.threads[1].stack.top.kind.Close? && s.threads[1].stack.top.pc.Second?
    && forall t :: 2 <= t < |s.threads| ==> s.threads[t].stack.Empty?
  }

  lemma FrozenIsStuck(s: State)
    requires Frozen(s)
    ensures Stuck(s)
  {
    assert !Finished(s.threads[0]);
  }

  // Without the lock, one thread opening and another closing reach a state in which no
  // thread of the process can take any step, however many other threads there are.
  lemma StuckWithoutLock(s: State)
    requires Initial(s) && |s.threads| >= 2
    requires s.threads[0].work != [] && s.threads[0].work[0].Open?
    requires s.threads[1].work != [] && s.threads[1].work[0].Close?
    ensures exists run :: Exec(s, run, false).Some? && Stuck(Exec(s, run, false).value)
  {
    UnlockedCallTakesFirst(s, 0);
    var mid := Exec(s, ToSecond(0), false).value;
    assert mid.threads[1] == s.threads[1];
    UnlockedCallTakesFirst(mid, 1);
    ExecConcat(s, ToSecond(0), ToSecond(1), false);
    var r := Exec(mid, ToSecond(1), false).value;
    assert forall t :: 2 <= t < |r.threads| ==> r.threads[t] == s.threads[t];
    assert Frozen(r);
    FrozenIsStuck(r);
    var run := ToSecond(0) + ToSecond(1);
    assert Exec(s, run, false) == Some(r);
  }
}

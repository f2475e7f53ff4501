/** Hard spinlocks on any number of CPUs, step by step: the flag is taken with interrupts off, and the retry
    loop gives interrupts back between attempts (kernel/util/sync_types.c, kernel/HAL/x86-64/cpu_instructions.c). */
module Spinlock {

  /** A lock held, with the interrupt state its acquirer saved. */
  datatype Hold = Hold(lock: nat, saved: bool)

  /** Where a context is inside acquire_spinlock_hard or release_spinlock_hard. */
  datatype Pc =
    | Running
    | Reading(lock: nat)                 // about to read the interrupt flag
    | Saved(lock: nat, saved: bool)      // read, about to disable
    | Masked(lock: nat, saved: bool)     // disabled, about to test and set
    | Failed(lock: nat, saved: bool)     // the flag was set, about to restore and pause
    | Cleared(saved: bool)               // flag cleared, about to restore

  /** A thread of execution on a CPU: the code it was running, or an interrupt handler on top of it.
      `base` is its interrupt state outside any lock. */
  datatype Context = Context(pc: Pc, held: seq<Hold>, base: bool)

  /** `on` is the interrupt flag; the last context is the one that runs. */
  datatype Cpu = Cpu(on: bool, contexts: seq<Context>)

  datatype State = State(cpus: seq<Cpu>, locked: set<nat>)

  datatype Step =
    | Begin(c: nat, lock: nat)
    | Read(c: nat)
    | Mask(c: nat)
    | Try(c: nat)
    | Retry(c: nat)
    | Clear(c: nat, i: nat)              // release the lock at depth i
    | Restore(c: nat)
    | Interrupt(c: nat)
    | Return(c: nat)                     // from the handler

  function Top(cpu: Cpu): Context
    requires cpu.contexts != []
  {
    cpu.contexts[|cpu.contexts| - 1]
  }

  function WithTop(cpu: Cpu, t: Context): Cpu
    requires cpu.contexts != []
  {
    cpu.(contexts := cpu.contexts[|cpu.contexts| - 1 := t])
  }

  predicate CpuEnabled(cpu: Cpu, e: Step) {
    && cpu.contexts != []
    && match e
       case Begin(_, _) => Top(cpu).pc.Running?
       case Read(_) => Top(cpu).pc.Reading?
       case Mask(_) => Top(cpu).pc.Saved?
       case Try(_) => Top(cpu).pc.Masked?
       case Retry(_) => Top(cpu).pc.Failed?
       case Clear(_, i) => Top(cpu).pc.Running? && i < |Top(cpu).held|
       case Restore(_) => Top(cpu).pc.Cleared?
       case Interrupt(_) => cpu.on
       case Return(_) => |cpu.contexts| > 1 && Top(cpu).pc.Running? && Top(cpu).held == []
  }

  predicate Enabled(s: State, e: Step) {
    e.c < |s.cpus| && CpuEnabled(s.cpus[e.c], e)
  }

  /** What the step makes of the CPU that takes it. */
  function CpuNext(cpu: Cpu, locked: set<nat>, e: Step): Cpu
    requires CpuEnabled(cpu, e)
  {
    var t := Top(cpu);
    match e
    case Begin(_, lock) => WithTop(cpu, t.(pc := Reading(lock)))
    case Read(_) => WithTop(cpu, t.(pc := Saved(t.pc.lock, cpu.on)))
    case Mask(_) => WithTop(cpu, t.(pc := Masked(t.pc.lock, t.pc.saved))).(on := false)
    case Try(_) =>
      if t.pc.lock in locked then WithTop(cpu, t.(pc := Failed(t.pc.lock, t.pc.saved)))
      else WithTop(cpu, t.(pc := Running, held := t.held + [Hold(t.pc.lock, t.pc.saved)]))
    case Retry(_) => WithTop(cpu, t.(pc := Reading(t.pc.lock))).(on := cpu.on || t.pc.saved)
    case Clear(_, i) => WithTop(cpu, t.(pc := Cleared(t.held[i].saved), held := t.held[..i] + t.held[i + 1..]))
    case Restore(_) => WithTop(cpu, t.(pc := Running)).(on := cpu.on || t.pc.saved)
    case Interrupt(_) => Cpu(false, cpu.contexts + [Context(Running, [], false)])
    case Return(_) => Cpu(true, cpu.contexts[..|cpu.contexts| - 1])
  }

  function LockedNext(cpu: Cpu, locked: set<nat>, e: Step): set<nat>
    requires CpuEnabled(cpu, e)
  {
    match e
    case Try(_) => locked + {Top(cpu).pc.lock}
    case Clear(_, i) => locked - {Top(cpu).held[i].lock}
    case _ => locked
  }

  function Next(s: State, e: Step): State
    requires Enabled(s, e)
  {
    State(s.cpus[e.c := CpuNext(s.cpus[e.c], s.locked, e)], LockedNext(s.cpus[e.c], s.locked, e))
  }

  /** Locks are released innermost first. */
  predicate Nested(cpu: Cpu, e: Step)
    requires CpuEnabled(cpu, e)
  {
    e.Clear? ==> e.i == |Top(cpu).held| - 1
  }

  // ----------------------------------------------------------- invariant

  /** Interrupts belong on: outside every lock of a context that runs with them on. */
  predicate Open(t: Context) {
    t.held == [] && t.base
  }

  /** The interrupt flag while the context runs, and what it has saved. */
  predicate TopOk(t: Context, on: bool) {
    && (forall i | 0 <= i < |t.held| :: t.held[i].saved == (i == 0 && t.base))
    && match t.pc
       case Running => on == Open(t)
       case Reading(_) => on == Open(t)
       case Saved(_, saved) => on == Open(t) && saved == on
       case Masked(_, saved) => !on && saved == Open(t)
       case Failed(_, saved) => !on && saved == Open(t)
       case Cleared(saved) => !on && saved == Open(t)
  }

  /** A context can only have been interrupted outside every lock. */
  predicate Suspended(t: Context) {
    TopOk(t, true)
  }

  predicate CpuOk(cpu: Cpu) {
    && cpu.contexts != [] && TopOk(Top(cpu), cpu.on)
    && forall k | 0 <= k < |cpu.contexts| - 1 :: Suspended(cpu.contexts[k])
  }

  predicate Has(held: seq<Hold>, lock: nat) {
    exists i :: 0 <= i < |held| && held[i].lock == lock
  }

  predicate Holds(cpu: Cpu, lock: nat) {
    cpu.contexts != [] && Has(Top(cpu).held, lock)
  }

  predicate Distinct(held: seq<Hold>) {
    forall i, j | 0 <= i < j < |held| :: held[i].lock != held[j].lock
  }

  predicate HeldBySome(s: State, lock: nat) {
    exists c :: 0 <= c < |s.cpus| && Holds(s.cpus[c], lock)
  }

  ghost predicate LockOk(s: State) {
    && (forall c | 0 <= c < |s.cpus| :: s.cpus[c].contexts != [] && Distinct(Top(s.cpus[c]).held))
    && (forall c, lock {:trigger Holds(s.cpus[c], lock)} | 0 <= c < |s.cpus| && Holds(s.cpus[c], lock) :: lock in s.locked)
    && (forall lock | lock in s.locked :: HeldBySome(s, lock))
    && (forall c, d, lock {:trigger Holds(s.cpus[c], lock), Holds(s.cpus[d], lock)} |
          0 <= c < |s.cpus| && 0 <= d < |s.cpus| && Holds(s.cpus[c], lock) && Holds(s.cpus[d], lock) :: c == d)
  }

  ghost predicate Inv(s: State) {
    LockOk(s) && forall c | 0 <= c < |s.cpus| :: CpuOk(s.cpus[c])
  }

  predicate Start(s: State) {
    && s.locked == {}
    && forall c | 0 <= c < |s.cpus| :: s.cpus[c] == Cpu(s.cpus[c].on, [Context(Running, [], s.cpus[c].on)])
  }

  lemma StartInv(s: State)
    requires Start(s)
    ensures Inv(s)
  {
  }

  lemma StepCpuOk(cpu: Cpu, locked: set<nat>, e: Step)
    requires CpuOk(cpu) && CpuEnabled(cpu, e) && Nested(cpu, e)
    ensures CpuOk(CpuNext(cpu, locked, e))
  {
  }

  lemma AddHold(held: seq<Hold>, h: Hold, lock: nat)
    requires Distinct(held) && !Has(held, h.lock)
    ensures Distinct(held + [h]) && (Has(held + [h], lock) <==> Has(held, lock) || h.lock == lock)
  {
    var more := held + [h];
    assert more[|held|] == h && forall k | 0 <= k < |held| :: more[k] == held[k];
    if Has(held, lock) {
      var k :| 0 <= k < |held| && held[k].lock == lock;
      assert more[k].lock == lock;
    }
  }

  lemma DropHold(held: seq<Hold>, i: nat, lock: nat)
    requires Distinct(held) && i < |held|
    ensures Distinct(held[..i] + held[i + 1..])
    ensures Has(held[..i] + held[i + 1..], lock) <==> Has(held, lock) && held[i].lock != lock
  {
    var less := held[..i] + held[i + 1..];
    assert forall k | 0 <= k < |less| :: less[k] == held[if k < i then k else k + 1];
    if Has(held, lock) && held[i].lock != lock {
      var k :| 0 <= k < |held| && held[k].lock == lock;
      assert less[if k < i then k else k - 1] == held[k];
    }
  }

  /** The locks a CPU holds after a step. */
  predicate HoldsAfter(cpu: Cpu, locked: set<nat>, e: Step, lock: nat)
    requires CpuEnabled(cpu, e)
  {
    || (Holds(cpu, lock) && !(e.Clear? && Top(cpu).held[e.i].lock == lock))
    || (e.Try? && Top(cpu).pc.lock == lock && lock !in locked)
  }

  lemma StepHolds(cpu: Cpu, locked: set<nat>, e: Step, lock: nat)
    requires CpuOk(cpu) && CpuEnabled(cpu, e) && Distinct(Top(cpu).held)
    requires forall l | Holds(cpu, l) :: l in locked
    ensures CpuNext(cpu, locked, e).contexts != [] && Distinct(Top(CpuNext(cpu, locked, e)).held)
    ensures Holds(CpuNext(cpu, locked, e), lock) <==> HoldsAfter(cpu, locked, e, lock)
  {
    var held := Top(cpu).held;
    if e.Try? {
      var h := Hold(Top(cpu).pc.lock, Top(cpu).pc.saved);
      if h.lock !in locked {
        assert !Holds(cpu, h.lock);
        AddHold(held, h, lock);
      }
    } else if e.Clear? {
      DropHold(held, e.i, lock);
    }
  }

  lemma StepHoldsAt(s: State, e: Step, c: nat, lock: nat)
    requires Inv(s) && Enabled(s, e) && c < |s.cpus|
    ensures Holds(Next(s, e).cpus[c], lock) <==> if c == e.c then HoldsAfter(s.cpus[c], s.locked, e, lock) else Holds(s.cpus[c], lock)
    ensures Next(s, e).cpus[c].contexts != [] && Distinct(Top(Next(s, e).cpus[c]).held)
  {
    if c == e.c {
      StepHolds(s.cpus[c], s.locked, e, lock);
    }
  }

  lemma StepFlag(s: State, e: Step, c: nat, d: nat, lock: nat)
    requires Inv(s) && Enabled(s, e) && c < |s.cpus| && d < |s.cpus|
    ensures Holds(Next(s, e).cpus[c], lock) ==> lock in Next(s, e).locked
    ensures Holds(Next(s, e).cpus[c], lock) && Holds(Next(s, e).cpus[d], lock) ==> c == d
  {
    StepHoldsAt(s, e, c, lock);
    StepHoldsAt(s, e, d, lock);
    assert e.Clear? ==> Has(Top(s.cpus[e.c]).held, Top(s.cpus[e.c]).held[e.i].lock);
    assert e.Clear? ==> Holds(s.cpus[e.c], Top(s.cpus[e.c]).held[e.i].lock);
  }

  lemma StepHolder(s: State, e: Step, lock: nat)
    requires Inv(s) && Enabled(s, e) && lock in Next(s, e).locked
    ensures HeldBySome(Next(s, e), lock)
  {
    if lock in s.locked {
      assert HeldBySome(s, lock);
      var c :| 0 <= c < |s.cpus| && Holds(s.cpus[c], lock);
      StepHoldsAt(s, e, c, lock);
      assert Holds(Next(s, e).cpus[c], lock);
    } else {
      StepHoldsAt(s, e, e.c, lock);
      assert Holds(Next(s, e).cpus[e.c], lock);
    }
  }

  lemma StepLockOk(s: State, e: Step)
    requires Inv(s) && Enabled(s, e)
    ensures LockOk(Next(s, e))
  {
    var s' := Next(s, e);
    forall c | 0 <= c < |s'.cpus| ensures s'.cpus[c].contexts != [] && Distinct(Top(s'.cpus[c]).held) {
      StepHoldsAt(s, e, c, 0);
    }
    forall c, lock {:trigger Holds(s'.cpus[c], lock)} | 0 <= c < |s'.cpus| && Holds(s'.cpus[c], lock) ensures lock in s'.locked {
      StepFlag(s, e, c, c, lock);
    }
    forall c, d, lock {:trigger Holds(s'.cpus[c], lock), Holds(s'.cpus[d], lock)} |
      0 <= c < |s'.cpus| && 0 <= d < |s'.cpus| && Holds(s'.cpus[c], lock) && Holds(s'.cpus[d], lock)
      ensures c == d
    {
      StepFlag(s, e, c, d, lock);
    }
    forall lock | lock in s'.locked ensures HeldBySome(s', lock) {
      StepHolder(s, e, lock);
    }
  }

  lemma StepKeepsInv(s: State, e: Step)
    requires Inv(s) && Enabled(s, e) && Nested(s.cpus[e.c], e)
    ensures Inv(Next(s, e))
  {
    StepLockOk(s, e);
    StepCpuOk(s.cpus[e.c], s.locked, e);
  }

  // ----------------------------------------------------------- runs

  ghost predicate Reaches(s: State, steps: seq<Step>, s': State)
    decreases |steps|
  {
    if steps == [] then s == s'
    else Enabled(s, steps[0]) && Nested(s.cpus[steps[0].c], steps[0]) && Reaches(Next(s, steps[0]), steps[1..], s')
  }

  /** The bottom context of each CPU keeps the interrupt state it started with. */
  predicate SameBase(s: State, s': State) {
    && |s'.cpus| == |s.cpus|
    && forall c | 0 <= c < |s.cpus| ::
         s.cpus[c].contexts != [] && s'.cpus[c].contexts != [] && s'.cpus[c].contexts[0].base == s.cpus[c].contexts[0].base
  }

  lemma StepKeepsBase(s: State, e: Step)
    requires Inv(s) && Enabled(s, e)
    ensures SameBase(s, Next(s, e))
  {
  }

  lemma {:induction false} RunKeepsInv(s: State, steps: seq<Step>, s': State)
    requires Inv(s) && Reaches(s, steps, s')
    ensures Inv(s') && SameBase(s, s')
    decreases |steps|
  {
    if steps != [] {
      StepKeepsInv(s, steps[0]);
      StepKeepsBase(s, steps[0]);
      RunKeepsInv(Next(s, steps[0]), steps[1..], s');
    }
  }

  /** For any number of CPUs and any interleaving with nested releases: two CPUs never hold one lock, a set flag
      has a holder, a CPU that holds a lock has interrupts off, and once the code a CPU started with is outside
      every lock again its interrupt state is what it was. */
  lemma EveryRunIsSafe(s0: State, steps: seq<Step>, s: State, c: nat, d: nat, lock: nat)
    requires Start(s0) && Reaches(s0, steps, s) && c < |s.cpus| && d < |s.cpus|
    ensures Holds(s.cpus[c], lock) && Holds(s.cpus[d], lock) ==> c == d
    ensures lock in s.locked <==> HeldBySome(s, lock)
    ensures Holds(s.cpus[c], lock) ==> !s.cpus[c].on
    ensures |s.cpus| == |s0.cpus|
    ensures |s.cpus[c].contexts| == 1 && s.cpus[c].contexts[0].pc.Running? && s.cpus[c].contexts[0].held == [] ==>
              s.cpus[c].on == s0.cpus[c].on
  {
    StartInv(s0);
    RunKeepsInv(s0, steps, s);
    assert CpuOk(s.cpus[c]);
  }

  // ----------------------------------------------------------- waiting

  /** A failed attempt gives back the interrupt state it had saved and starts over. */
  lemma RetryRestores(cpu: Cpu, locked: set<nat>, c: nat)
    requires CpuOk(cpu) && CpuEnabled(cpu, Retry(c))
    ensures var end := CpuNext(cpu, locked, Retry(c));
      end.on == Top(cpu).pc.saved && end.contexts != [] && Top(end).pc == Reading(Top(cpu).pc.lock) && Top(end).held == Top(cpu).held
  {
  }

  /** After a failed attempt nothing else can happen on the CPU. */
  lemma OnlyRetry(cpu: Cpu, e: Step)
    requires CpuOk(cpu) && CpuEnabled(cpu, e) && Top(cpu).pc.Failed?
    ensures e.Retry?
  {
  }

  /** A run with the states it goes through. */
  ghost predicate Trace(ss: seq<State>, steps: seq<Step>) {
    && |ss| == |steps| + 1 && Start(ss[0])
    && forall i | 0 <= i < |steps| ::
         Enabled(ss[i], steps[i]) && Nested(ss[i].cpus[steps[i].c], steps[i]) && ss[i + 1] == Next(ss[i], steps[i])
  }

  lemma {:induction false} TraceInv(ss: seq<State>, steps: seq<Step>, i: nat)
    requires Trace(ss, steps) && i < |ss|
    ensures Inv(ss[i]) && |ss[i].cpus| == |ss[0].cpus|
    decreases i
  {
    if i == 0 {
      StartInv(ss[0]);
    } else {
      TraceInv(ss, steps, i - 1);
      StepKeepsInv(ss[i - 1], steps[i - 1]);
    }
  }

  /** The first step of CPU `c` from `i` on, if it is somewhere else at `j`. */
  lemma {:induction false} FirstMove(ss: seq<State>, steps: seq<Step>, i: nat, j: nat, c: nat) returns (k: nat)
    requires Trace(ss, steps) && i <= j < |ss| && c < |ss[0].cpus|
    requires |ss[i].cpus| == |ss[j].cpus| == |ss[0].cpus| && ss[i].cpus[c] != ss[j].cpus[c]
    ensures i <= k < j && steps[k].c == c && |ss[k].cpus| == |ss[0].cpus| && ss[k].cpus[c] == ss[i].cpus[c]
    decreases j - i
  {
    TraceInv(ss, steps, i);
    TraceInv(ss, steps, i + 1);
    if steps[i].c == c {
      k := i;
    } else {
      k := FirstMove(ss, steps, i + 1, j, c);
    }
  }

  /** On every run: a CPU that came in with interrupts on, failed an attempt and stands before its next one could be
      interrupted in between. */
  lemma InterruptibleBetween(ss: seq<State>, steps: seq<Step>, i: nat, j: nat, c: nat) returns (k: nat)
    requires Trace(ss, steps) && i < j < |ss| && c < |ss[0].cpus| && |ss[i].cpus| == |ss[j].cpus| == |ss[0].cpus|
    requires ss[i].cpus[c].contexts != [] && Top(ss[i].cpus[c]).pc.Failed? && Top(ss[i].cpus[c]).pc.saved
    requires ss[j].cpus[c].contexts != [] && Top(ss[j].cpus[c]).pc.Masked?
    ensures i < k < j && Enabled(ss[k], Interrupt(c))
  {
    var n := FirstMove(ss, steps, i, j, c);
    TraceInv(ss, steps, n);
    OnlyRetry(ss[n].cpus[c], steps[n]);
    RetryRestores(ss[n].cpus[c], ss[n].locked, c);
    k := n + 1;
  }

  /** On every run: between an attempt that finds the lock taken and the next one, a CPU that came in with interrupts on
      could be interrupted. */
  lemma InterruptibleBetweenAttempts(ss: seq<State>, steps: seq<Step>, i: nat, j: nat, c: nat) returns (k: nat)
    requires Trace(ss, steps) && i < j < |steps| && steps[i] == Try(c) && steps[j] == Try(c)
    requires Top(ss[i].cpus[c]).pc.saved && Top(ss[i].cpus[c]).pc.lock in ss[i].locked
    ensures i < k < j && Enabled(ss[k], Interrupt(c))
  {
    TraceInv(ss, steps, i);
    TraceInv(ss, steps, i + 1);
    TraceInv(ss, steps, j);
    k := InterruptibleBetween(ss, steps, i + 1, j, c);
  }

  /** A handler can return as soon as it holds nothing, and leaves the CPU as it was. */
  lemma InterruptReturns(cpu: Cpu, locked: set<nat>, c: nat)
    requires cpu.contexts != [] && CpuEnabled(cpu, Interrupt(c))
    ensures var mid := CpuNext(cpu, locked, Interrupt(c));
      !mid.on && CpuEnabled(mid, Return(c)) && CpuNext(mid, locked, Return(c)) == cpu
  {
  }

  ghost predicate CpuReaches(cpu: Cpu, locked: set<nat>, steps: seq<Step>, cpu': Cpu, locked': set<nat>)
    decreases |steps|
  {
    if steps == [] then cpu == cpu' && locked == locked'
    else CpuEnabled(cpu, steps[0]) && Nested(cpu, steps[0]) &&
         CpuReaches(CpuNext(cpu, locked, steps[0]), LockedNext(cpu, locked, steps[0]), steps[1..], cpu', locked')
  }

  lemma CpuStep(cpu: Cpu, locked: set<nat>, e: Step, mid: Cpu, locked1: set<nat>, steps: seq<Step>, cpu': Cpu, locked': set<nat>)
    requires CpuEnabled(cpu, e) && Nested(cpu, e) && CpuNext(cpu, locked, e) == mid && LockedNext(cpu, locked, e) == locked1
    requires CpuReaches(mid, locked1, steps, cpu', locked')
    ensures CpuReaches(cpu, locked, [e] + steps, cpu', locked')
  {
    assert ([e] + steps)[1..] == steps;
  }

  /** The CPU in the middle of its top context's code. */
  function Inside(cpu: Cpu, pc: Pc, held: seq<Hold>, on: bool): Cpu
    requires cpu.contexts != []
  {
    WithTop(cpu, Top(cpu).(pc := pc, held := held)).(on := on)
  }

  lemma ReleaseLast(cpu: Cpu, locked: set<nat>, c: nat, lock: nat, taken: Cpu)
    requires CpuOk(cpu) && Top(cpu).pc.Running? && lock !in locked
    requires taken == Inside(cpu, Running, Top(cpu).held + [Hold(lock, cpu.on)], false)
    ensures CpuReaches(taken, locked + {lock}, [Clear(c, |Top(cpu).held|), Restore(c)], cpu, locked)
  {
    var held, on := Top(cpu).held, cpu.on;
    var all := held + [Hold(lock, on)];
    assert all[..|held|] + all[|held| + 1..] == held && locked + {lock} - {lock} == locked;
    var cleared := Inside(cpu, Cleared(on), held, false);
    CpuStep(cleared, locked, Restore(c), cpu, locked, [], cpu, locked);
    CpuStep(taken, locked + {lock}, Clear(c, |held|), cleared, locked, [Restore(c)], cpu, locked);
  }

  /** Acquiring a free lock and releasing it, at any depth of other locks, leaves the CPU, its interrupt state and the
      locks as they were. */
  lemma AcquireRelease(cpu: Cpu, locked: set<nat>, c: nat, lock: nat)
    requires CpuOk(cpu) && Top(cpu).pc.Running? && lock !in locked
    ensures CpuReaches(cpu, locked, [Begin(c, lock), Read(c), Mask(c), Try(c), Clear(c, |Top(cpu).held|), Restore(c)], cpu, locked)
  {
    var held, on := Top(cpu).held, cpu.on;
    var reading, saved := Inside(cpu, Reading(lock), held, on), Inside(cpu, Saved(lock, on), held, on);
    var masked, taken := Inside(cpu, Masked(lock, on), held, false), Inside(cpu, Running, held + [Hold(lock, on)], false);
    ReleaseLast(cpu, locked, c, lock, taken);
    var end := [Clear(c, |held|), Restore(c)];
    CpuStep(masked, locked, Try(c), taken, locked + {lock}, end, cpu, locked);
    CpuStep(saved, locked, Mask(c), masked, locked, [Try(c)] + end, cpu, locked);
    CpuStep(reading, locked, Read(c), saved, locked, [Mask(c)] + ([Try(c)] + end), cpu, locked);
    CpuStep(cpu, locked, Begin(c, lock), reading, locked, [Read(c)] + ([Mask(c)] + ([Try(c)] + end)), cpu, locked);
    assert [Begin(c, lock)] + ([Read(c)] + ([Mask(c)] + ([Try(c)] + end))) ==
      [Begin(c, lock), Read(c), Mask(c), Try(c), Clear(c, |held|), Restore(c)];
  }

  // ----------------------------------------------------------- what an acquire comes to

  /** The context at depth `d` is inside an acquire of `lock`, holding `held`. */
  predicate Asking(cpu: Cpu, d: nat, lock: nat, held: seq<Hold>) {
    && 0 < d <= |cpu.contexts|
    && var t := cpu.contexts[d - 1];
       t.held == held && (t.pc.Reading? || t.pc.Saved? || t.pc.Masked? || t.pc.Failed?) && t.pc.lock == lock
  }

  /** And here it has come out with the lock. */
  predicate Got(cpu: Cpu, d: nat, lock: nat, held: seq<Hold>) {
    && 0 < d <= |cpu.contexts|
    && var t := cpu.contexts[d - 1];
       t.pc.Running? && |t.held| == |held| + 1 && t.held[..|held|] == held && t.held[|held|].lock == lock
  }

  /** A step leaves it there, or is the attempt that finds the flag clear and sets it. */
  lemma AskStep(cpu: Cpu, locked: set<nat>, e: Step, d: nat, lock: nat, held: seq<Hold>)
    requires CpuEnabled(cpu, e) && Asking(cpu, d, lock, held)
    ensures var u, after := CpuNext(cpu, locked, e), LockedNext(cpu, locked, e);
      Asking(u, d, lock, held) || (e.Try? && lock !in locked && after == locked + {lock} && Got(u, d, lock, held))
  {
  }

  lemma BeginAsks(cpu: Cpu, locked: set<nat>, e: Step)
    requires CpuEnabled(cpu, e) && e.Begin?
    ensures Asking(CpuNext(cpu, locked, e), |cpu.contexts|, e.lock, Top(cpu).held)
  {
  }

  lemma {:induction false} AskedUntil(ss: seq<State>, steps: seq<Step>, i: nat, j: nat, c: nat, d: nat, lock: nat, held: seq<Hold>)
    returns (k: nat)
    requires Trace(ss, steps) && i <= j < |ss| && c < |ss[0].cpus| && |ss[i].cpus| == |ss[j].cpus| == |ss[0].cpus|
    requires Asking(ss[i].cpus[c], d, lock, held)
    ensures || Asking(ss[j].cpus[c], d, lock, held)
            || (&& i <= k < j && steps[k] == Try(c) && lock !in ss[k].locked && ss[k + 1].locked == ss[k].locked + {lock}
                && |ss[k + 1].cpus| == |ss[0].cpus| && Got(ss[k + 1].cpus[c], d, lock, held))
    decreases j - i
  {
    k := i;
    if i < j {
      TraceInv(ss, steps, i + 1);
      if steps[i].c == c {
        AskStep(ss[i].cpus[c], ss[i].locked, steps[i], d, lock, held);
      }
      if Asking(ss[i + 1].cpus[c], d, lock, held) {
        k := AskedUntil(ss, steps, i + 1, j, c, d, lock, held);
      }
    }
  }

  /** On every run: a context that asks for a lock, whatever interrupts it, is still asking for that lock or has come
      out holding it, and nothing else it did not hold, by an attempt that found the flag clear. */
  lemma AcquireGets(ss: seq<State>, steps: seq<Step>, i: nat, j: nat, c: nat, lock: nat) returns (k: nat)
    requires Trace(ss, steps) && i < j < |ss| && c < |ss[0].cpus| && |ss[i].cpus| == |ss[j].cpus| == |ss[0].cpus|
    requires steps[i] == Begin(c, lock) && ss[i].cpus[c].contexts != []
    ensures var d, held := |ss[i].cpus[c].contexts|, Top(ss[i].cpus[c]).held;
      || Asking(ss[j].cpus[c], d, lock, held)
      || (&& i < k < j && steps[k] == Try(c) && lock !in ss[k].locked && ss[k + 1].locked == ss[k].locked + {lock}
          && |ss[k + 1].cpus| == |ss[0].cpus| && Got(ss[k + 1].cpus[c], d, lock, held))
  {
    var cpu := ss[i].cpus[c];
    TraceInv(ss, steps, i + 1);
    BeginAsks(cpu, ss[i].locked, steps[i]);
    k := AskedUntil(ss, steps, i + 1, j, c, |cpu.contexts|, lock, Top(cpu).held);
  }

  // ----------------------------------------------------------- releases out of order

  /** Releasing the lock at depth `i` and restoring leaves interrupts off for the locks still held, except
      exactly when it is the outermost of several, taken with interrupts on. */
  lemma ReleaseExact(cpu: Cpu, locked: set<nat>, c: nat, i: nat)
    requires CpuOk(cpu) && CpuEnabled(cpu, Clear(c, i))
    ensures var mid := CpuNext(cpu, locked, Clear(c, i));
      && CpuEnabled(mid, Restore(c))
      && var end := CpuNext(mid, locked, Restore(c));
      end.contexts != [] && ((Top(end).held != [] ==> !end.on) <==> !(i == 0 && |Top(cpu).held| > 1 && Top(cpu).held[0].saved))
  {
  }

  lemma Before(s: State, e: Step, s1: State, steps: seq<Step>, s': State) returns (all: seq<Step>)
    requires Enabled(s, e) && Nested(s.cpus[e.c], e) && Next(s, e) == s1 && Reaches(s1, steps, s')
    ensures Reaches(s, all, s')
  {
    all := [e] + steps;
    assert all[1..] == steps;
  }

  /** One CPU, whose code was started with interrupts on. */
  function One(pc: Pc, held: seq<Hold>, on: bool, locked: set<nat>): State {
    State([Cpu(on, [Context(pc, held, true)])], locked)
  }

  lemma OneStep(pc: Pc, held: seq<Hold>, on: bool, locked: set<nat>, e: Step, pc': Pc, held': seq<Hold>, on': bool, locked': set<nat>)
    requires e.c == 0 && !e.Interrupt? && !e.Return? && CpuEnabled(Cpu(on, [Context(pc, held, true)]), e)
    requires var cpu := CpuNext(Cpu(on, [Context(pc, held, true)]), locked, e);
      cpu.on == on' && |cpu.contexts| == 1 && cpu.contexts[0] == Context(pc', held', true)
    requires LockedNext(Cpu(on, [Context(pc, held, true)]), locked, e) == locked'
    ensures Enabled(One(pc, held, on, locked), e) && Next(One(pc, held, on, locked), e) == One(pc', held', on', locked')
  {
    var cpu := CpuNext(Cpu(on, [Context(pc, held, true)]), locked, e);
    assert cpu.contexts == [Context(pc', held', true)];
    assert One(pc, held, on, locked).cpus[0 := cpu] == [cpu];
  }

  /** Taking a lock nobody holds. */
  lemma Takes(lock: nat, held: seq<Hold>, on: bool, locked: set<nat>, steps: seq<Step>, s': State) returns (all: seq<Step>)
    requires lock !in locked && Reaches(One(Running, held + [Hold(lock, on)], false, locked + {lock}), steps, s')
    ensures Reaches(One(Running, held, on, locked), all, s')
  {
    OneStep(Masked(lock, on), held, false, locked, Try(0), Running, held + [Hold(lock, on)], false, locked + {lock});
    all := Before(One(Masked(lock, on), held, false, locked), Try(0), One(Running, held + [Hold(lock, on)], false, locked + {lock}), steps, s');
    OneStep(Saved(lock, on), held, on, locked, Mask(0), Masked(lock, on), held, false, locked);
    all := Before(One(Saved(lock, on), held, on, locked), Mask(0), One(Masked(lock, on), held, false, locked), all, s');
    OneStep(Reading(lock), held, on, locked, Read(0), Saved(lock, on), held, on, locked);
    all := Before(One(Reading(lock), held, on, locked), Read(0), One(Saved(lock, on), held, on, locked), all, s');
    OneStep(Running, held, on, locked, Begin(0, lock), Reading(lock), held, on, locked);
    all := Before(One(Running, held, on, locked), Begin(0, lock), One(Reading(lock), held, on, locked), all, s');
  }

  lemma TwoTaken() returns (steps: seq<Step>)
    ensures Reaches(One(Running, [], true, {}), steps, One(Running, [Hold(0, true), Hold(1, false)], false, {0, 1}))
  {
    var s := One(Running, [Hold(0, true), Hold(1, false)], false, {0, 1});
    assert [Hold(0, true)] + [Hold(1, false)] == [Hold(0, true), Hold(1, false)] && {0} + {1} == {0, 1};
    steps := Takes(1, [Hold(0, true)], false, {0}, [], s);
    assert [] + [Hold(0, true)] == [Hold(0, true)] && {} + {0} == {0};
    steps := Takes(0, [], true, {}, steps, s);
  }

  lemma OuterFirst(s: State)
    requires s == One(Running, [Hold(0, true), Hold(1, false)], false, {0, 1})
    ensures Enabled(s, Clear(0, 0)) && Enabled(Next(s, Clear(0, 0)), Restore(0))
    ensures var end := Next(Next(s, Clear(0, 0)), Restore(0)).cpus[0]; Holds(end, 1) && end.on
  {
    var end := Next(Next(s, Clear(0, 0)), Restore(0)).cpus[0];
    assert Top(end).held[0].lock == 1;
  }

  /** Two locks taken one inside the other from the start, the outer one released first: the CPU goes on holding the
      inner one with interrupts on. */
  lemma ReleasedOutOfOrder() returns (s0: State, steps: seq<Step>, s: State)
    ensures Start(s0) && Reaches(s0, steps, s) && Enabled(s, Clear(0, 0)) && Enabled(Next(s, Clear(0, 0)), Restore(0))
    ensures var end := Next(Next(s, Clear(0, 0)), Restore(0)).cpus[0]; Holds(end, 1) && end.on
  {
    s0 := One(Running, [], true, {});
    s := One(Running, [Hold(0, true), Hold(1, false)], false, {0, 1});
    steps := TwoTaken();
    OuterFirst(s);
  }
}

/** What the shootdown protocol does to cached translations. */
module ShootdownTlb {
  import opened Basics
  import opened ShootdownModel
  import opened ShootdownProofs
  import opened ShootdownRuns

  /** Nothing cached is older than the wanted versions. */
  predicate Fresh(tlb: map<nat, nat>, wanted: map<nat, nat>) {
    forall p | p in wanted && p in tlb :: tlb[p] >= wanted[p]
  }

  /** The push loop went by this CPU without queueing anything. */
  predicate PassedOver(c: nat, sh: Shoot) {
    && c != sh.cpu && c !in sh.pushed
    && (sh.phase.Waiting? || sh.phase.Returned? || (sh.phase.Pushing? && c < sh.phase.next))
  }

  predicate CohPair(cpu: Cpu, c: nat, id: nat, sh: Shoot) {
    && (c == sh.cpu || c in sh.acked || (InHandler(cpu, id) && cpu.handling.Flushed?) ==> Fresh(cpu.tlb, sh.asof))
    && (PassedOver(c, sh) && cpu.ready ==> Fresh(cpu.tlb, sh.asof))
  }

  predicate CohCpu(s: State, c: nat)
    requires c < |s.cpus|
  {
    var cpu := s.cpus[c];
    UpToDate(s, cpu.tlb) && UpToDate(s, cpu.mine) && Fresh(cpu.tlb, cpu.mine) && (cpu.ready ==> cpu.active)
  }

  ghost predicate CohShoot(s: State, id: nat)
    requires id in s.shoots
  {
    UpToDate(s, s.shoots[id].asof) && s.shoots[id].asof.Keys <= Pages(s.shoots[id].range)
  }

  predicate CohAt(s: State, c: nat, id: nat)
    requires c < |s.cpus| && id in s.shoots
  {
    CohPair(s.cpus[c], c, id, s.shoots[id])
  }

  ghost predicate Coherent(s: State) {
    && (forall c {:trigger CohCpu(s, c)} | 0 <= c < |s.cpus| :: CohCpu(s, c))
    && (forall id {:trigger CohShoot(s, id)} | id in s.shoots :: CohShoot(s, id))
    && (forall c, id {:trigger CohAt(s, c, id)} | 0 <= c < |s.cpus| && id in s.shoots :: CohAt(s, c, id))
  }

  lemma StartCoherent(s: State)
    requires Start(s)
    ensures Coherent(s)
  {
    forall c {:trigger CohCpu(s, c)} | 0 <= c < |s.cpus| ensures CohCpu(s, c) {
      assert UpToDate(s, s.cpus[c].tlb);
    }
  }

  /** The three parts of one step. */
  lemma ChangeCpu(s: State, e: Step, c: nat)
    requires Coherent(s) && Enabled(s, e) && c < |s.cpus| && (e.Change? || e.Fill?)
    ensures CohCpu(Next(NonNull, s, e), c)
  {
    assert CohCpu(s, c);
  }

  lemma StepCpu(s: State, e: Step, c: nat)
    requires Coherent(s) && Enabled(s, e) && c < |s.cpus|
    ensures CohCpu(Next(NonNull, s, e), c)
  {
    if e.Change? || e.Fill? {
      ChangeCpu(s, e, c);
    } else {
      assert CohCpu(s, c);
      assert Next(NonNull, s, e).version == s.version;
      assert Next(NonNull, s, e).cpus[c].mine == s.cpus[c].mine;
    }
  }

  lemma StepShoot(s: State, e: Step, id: nat)
    requires Inv(s) && Coherent(s) && Enabled(s, e) && id in Next(NonNull, s, e).shoots
    ensures CohShoot(Next(NonNull, s, e), id)
  {
    if id in s.shoots {
      assert CohShoot(s, id);
    } else {
      assert e.Begin? && CohCpu(s, e.c);
    }
  }

  lemma FlushMakesFresh(tlb: map<nat, nat>, r: Range, wanted: map<nat, nat>)
    requires wanted.Keys <= Pages(r)
    ensures Fresh(Deleted(NonNull, tlb, r), wanted)
  {
  }

  /** Steps of an initiator. */
  lemma ShootPair(s: State, e: Step, c: nat, id: nat)
    requires Inv(s) && Coherent(s) && Enabled(s, e) && c < |s.cpus| && id in Next(NonNull, s, e).shoots
    requires e.Begin? || e.CountNext? || e.PushNext? || e.Return?
    ensures CohAt(Next(NonNull, s, e), c, id)
  {
    assert CohCpu(s, c) && CpuInv(s, c);
    if id in s.shoots {
      assert CohAt(s, c, id) && ShootInv(s, id);
    }
  }

  /** Steps of a handler. */
  lemma HandlerPair(s: State, e: Step, c: nat, id: nat)
    requires Inv(s) && Coherent(s) && Enabled(s, e) && c < |s.cpus| && id in s.shoots
    requires e.Pop? || e.Flush? || e.Signal?
    ensures CohAt(Next(NonNull, s, e), c, id)
  {
    assert CohAt(s, c, id) && CohShoot(s, id) && PairInv(s, c, id);
    if e.Flush? && e.c == c && InHandler(s.cpus[c], id) {
      FlushMakesFresh(s.cpus[c].tlb, s.shoots[id].range, s.shoots[id].asof);
    }
  }

  lemma StepPair(s: State, e: Step, c: nat, id: nat)
    requires Inv(s) && Coherent(s) && Enabled(s, e) && c < |s.cpus| && id in Next(NonNull, s, e).shoots
    ensures CohAt(Next(NonNull, s, e), c, id)
  {
    if e.Begin? || e.CountNext? || e.PushNext? || e.Return? {
      ShootPair(s, e, c, id);
    } else if e.Pop? || e.Flush? || e.Signal? {
      HandlerPair(s, e, c, id);
    } else {
      assert CohAt(s, c, id) && CohShoot(s, id);
    }
  }

  lemma StepKeepsCoherent(s: State, e: Step)
    requires Inv(s) && Coherent(s) && Enabled(s, e)
    ensures Coherent(Next(NonNull, s, e))
  {
    var s' := Next(NonNull, s, e);
    forall c {:trigger CohCpu(s', c)} | 0 <= c < |s'.cpus| ensures CohCpu(s', c) {
      StepCpu(s, e, c);
    }
    forall id {:trigger CohShoot(s', id)} | id in s'.shoots ensures CohShoot(s', id) {
      StepShoot(s, e, id);
    }
    forall c, id {:trigger CohAt(s', c, id)} | 0 <= c < |s'.cpus| && id in s'.shoots ensures CohAt(s', c, id) {
      StepPair(s, e, c, id);
    }
  }

  lemma {:induction false} RunKeepsCoherent(s: State, steps: seq<Step>, s': State)
    requires Inv(s) && Coherent(s) && Reaches(NonNull, s, steps, s')
    ensures Inv(s') && Coherent(s')
    decreases |steps|
  {
    if steps != [] {
      StepKeepsInv(NonNull, s, steps[0]);
      StepKeepsCoherent(s, steps[0]);
      RunKeepsCoherent(Next(NonNull, s, steps[0]), steps[1..], s');
    }
  }

  /** A CPU active when the shootdown begins is counted; the changes it stands for stay the same. */
  ghost predicate Begun(s: State, id: nat, c: nat, asof: map<nat, nat>) {
    && id in s.shoots && c < |s.cpus| && s.cpus[c].active && c != s.shoots[id].cpu && s.shoots[id].asof == asof
    && match s.shoots[id].phase
       case Counting(n) => c < n ==> c in s.shoots[id].counted
       case _ => c in s.shoots[id].counted
  }

  lemma BegunStep(g: Guard, s: State, e: Step, id: nat, c: nat, asof: map<nat, nat>)
    requires Begun(s, id, c, asof) && NotPast(s, id) && Enabled(s, e)
    ensures Begun(Next(g, s, e), id, c, asof) && NotPast(Next(g, s, e), id)
  {
  }

  lemma {:induction false} ActiveIsCounted(g: Guard, s: State, steps: seq<Step>, s': State, id: nat, c: nat, asof: map<nat, nat>)
    requires Begun(s, id, c, asof) && NotPast(s, id) && Reaches(g, s, steps, s')
    ensures Begun(s', id, c, asof)
    decreases |steps|
  {
    if steps != [] {
      BegunStep(g, s, steps[0], id, c, asof);
      ActiveIsCounted(g, Next(g, s, steps[0]), steps[1..], s', id, c, asof);
    }
  }

  /** The count has not gone past the last CPU. */
  ghost predicate NotPast(s: State, id: nat) {
    id in s.shoots && (s.shoots[id].phase.Counting? ==> s.shoots[id].phase.next <= |s.cpus|)
  }

  lemma {:induction false} SameChanges(g: Guard, s: State, steps: seq<Step>, s': State, id: nat)
    requires id in s.shoots && Reaches(g, s, steps, s')
    ensures id in s'.shoots && s'.shoots[id].asof == s.shoots[id].asof && s'.shoots[id].cpu == s.shoots[id].cpu
    ensures |s'.cpus| == |s.cpus|
    decreases |steps|
  {
    if steps != [] {
      SameChanges(g, Next(g, s, steps[0]), steps[1..], s', id);
    }
  }

  lemma CoherentAtReturn(s: State, id: nat, c: nat, p: nat)
    requires Inv(s) && Coherent(s)
    requires id in s.shoots && s.shoots[id].phase.Returned? && s.shoots[id].counted == s.shoots[id].pushed
    requires c < |s.cpus| && (s.cpus[c].ready || c in s.shoots[id].counted || c == s.shoots[id].cpu)
    requires p in s.shoots[id].asof && p in s.cpus[c].tlb
    ensures s.cpus[c].tlb[p] >= s.shoots[id].asof[p]
  {
    assert ShootInv(s, id) && CohAt(s, c, id);
    SubsetSize(s.shoots[id].acked, s.shoots[id].pushed);
  }

  /** With the guard the other way round, for a shootdown begun in any reachable state with no CPU activated between
      its own count and its own push: after the wait has returned, then and later, the initiator, every CPU active
      when it began or counted since, and every CPU that has finished activating hold no translation of the range
      older than the changes the initiator had made. */
  lemma TlbCoherence(s0: State, before: seq<Step>, s: State, id: nat, k: nat, range: Range, after: seq<Step>, s': State,
                     c: nat, p: nat)
    requires Start(s0) && Reaches(NonNull, s0, before, s) && Enabled(s, Begin(id, k, range))
    requires Reaches(NonNull, Next(NonNull, s, Begin(id, k, range)), after, s')
    requires Late(NonNull, Next(NonNull, s, Begin(id, k, range)), after, id) == {}
    requires id in s'.shoots && s'.shoots[id].phase.Returned? && c < |s.cpus| == |s'.cpus|
    requires c == k || s.cpus[c].active || s'.cpus[c].ready || c in s'.shoots[id].counted
    requires p in Wanted(s.cpus[k], range) && p in s'.cpus[c].tlb
    ensures s'.cpus[c].tlb[p] >= Wanted(s.cpus[k], range)[p]
  {
    var s1 := Next(NonNull, s, Begin(id, k, range));
    StartInv(s0);
    StartCoherent(s0);
    RunKeepsCoherent(s0, before, s);
    StepKeepsInv(NonNull, s, Begin(id, k, range));
    StepKeepsCoherent(s, Begin(id, k, range));
    RunKeepsCoherent(s1, after, s');
    PushedExact(NonNull, s, id, k, range, after, s');
    SameChanges(NonNull, s1, after, s', id);
    if c != k && s.cpus[c].active {
      ActiveIsCounted(NonNull, s1, after, s', id, c, s1.shoots[id].asof);
    }
    CoherentAtReturn(s', id, c, p);
  }
}

/** What every step of the shootdown protocol keeps, and what that means for a returned wait. */
module ShootdownProofs {
  import opened ShootdownModel

  // ----------------------------------------------------------- references to a shootdown

  predicate InQueue(cpu: Cpu, id: nat) {
    exists i :: 0 <= i < |cpu.queue| && cpu.queue[i].id == id
  }

  predicate InHandler(cpu: Cpu, id: nat) {
    !cpu.handling.Idle? && cpu.handling.item.id == id
  }

  /** The CPU's queue or handler still refers to the initiator's state. */
  predicate Refers(cpu: Cpu, id: nat) {
    InQueue(cpu, id) || InHandler(cpu, id)
  }

  /** No request is there twice. */
  predicate Once(cpu: Cpu) {
    && (forall i, j | 0 <= i < j < |cpu.queue| :: cpu.queue[i].id != cpu.queue[j].id)
    && (!cpu.handling.Idle? ==> !InQueue(cpu, cpu.handling.item.id))
  }

  // ----------------------------------------------------------- acknowledgement invariant

  ghost predicate PhaseOk(s: State, sh: Shoot) {
    && sh.awaited == |sh.counted| && sh.acks == |sh.acked| && sh.acked <= sh.pushed
    && (forall c | c in sh.counted :: c < |s.cpus| && c != sh.cpu && s.cpus[c].active)
    && (forall c | c in sh.pushed :: c < |s.cpus| && c != sh.cpu && s.cpus[c].active)
    && (sh.phase.Counting? ==>
          sh.phase.next <= |s.cpus| && sh.pushed == {} && forall c | c in sh.counted :: c < sh.phase.next)
    && (sh.phase.Pushing? ==>
          && sh.phase.next <= |s.cpus| && (forall c | c in sh.pushed :: c < sh.phase.next)
          && forall c | c in sh.counted && c < sh.phase.next :: c in sh.pushed)
    && (sh.phase.Waiting? || sh.phase.Returned? ==> sh.counted <= sh.pushed)
    && (sh.phase.Returned? ==> sh.acks >= sh.awaited)
  }

  /** A CPU refers to a shootdown exactly from the push to the signal. */
  predicate PairOk(cpu: Cpu, c: nat, id: nat, sh: Shoot) {
    && (Refers(cpu, id) <==> c in sh.pushed && c !in sh.acked)
    && (forall i | 0 <= i < |cpu.queue| && cpu.queue[i].id == id :: cpu.queue[i].range == sh.range)
    && (InHandler(cpu, id) ==> cpu.handling.item.range == sh.range)
  }

  predicate Known(s: State, cpu: Cpu) {
    && (forall i | 0 <= i < |cpu.queue| :: cpu.queue[i].id in s.shoots)
    && (!cpu.handling.Idle? ==> cpu.handling.item.id in s.shoots)
  }

  ghost predicate CpuInv(s: State, c: nat)
    requires c < |s.cpus|
  {
    Once(s.cpus[c]) && Known(s, s.cpus[c])
  }

  ghost predicate ShootInv(s: State, id: nat)
    requires id in s.shoots
  {
    s.shoots[id].cpu < |s.cpus| && PhaseOk(s, s.shoots[id])
  }

  predicate PairInv(s: State, c: nat, id: nat)
    requires c < |s.cpus| && id in s.shoots
  {
    PairOk(s.cpus[c], c, id, s.shoots[id])
  }

  ghost predicate Inv(s: State) {
    && (forall c {:trigger CpuInv(s, c)} | 0 <= c < |s.cpus| :: CpuInv(s, c))
    && (forall id {:trigger ShootInv(s, id)} | id in s.shoots :: ShootInv(s, id))
    && (forall c, id {:trigger PairInv(s, c, id)} | 0 <= c < |s.cpus| && id in s.shoots :: PairInv(s, c, id))
  }

  lemma StartInv(s: State)
    requires Start(s)
    ensures Inv(s)
  {
    forall c {:trigger CpuInv(s, c)} | 0 <= c < |s.cpus| ensures CpuInv(s, c) {
      assert s.cpus[c].queue == [];
    }
  }

  /** A step that touches neither queues, handlers nor shootdowns. */
  predicate Quiet(s: State, s': State) {
    && s'.shoots == s.shoots && |s'.cpus| == |s.cpus|
    && forall c | 0 <= c < |s.cpus| ::
         && s'.cpus[c].queue == s.cpus[c].queue && s'.cpus[c].handling == s.cpus[c].handling
         && (s.cpus[c].active ==> s'.cpus[c].active)
  }

  lemma QuietKeepsInv(s: State, s': State)
    requires Inv(s) && Quiet(s, s')
    ensures Inv(s')
  {
    forall c {:trigger CpuInv(s', c)} | 0 <= c < |s'.cpus| ensures CpuInv(s', c) {
      assert CpuInv(s, c);
    }
    forall id {:trigger ShootInv(s', id)} | id in s'.shoots ensures ShootInv(s', id) {
      assert ShootInv(s, id);
    }
    forall c, id {:trigger PairInv(s', c, id)} | 0 <= c < |s'.cpus| && id in s'.shoots ensures PairInv(s', c, id) {
      assert PairInv(s, c, id);
    }
  }

  /** A step that changes one shootdown, but not who has it queued. */
  lemma ShootKeepsInv(s: State, id: nat, sh: Shoot)
    requires Inv(s) && id in s.shoots && sh.pushed == s.shoots[id].pushed && sh.acked == s.shoots[id].acked
    requires sh.range == s.shoots[id].range && sh.cpu == s.shoots[id].cpu && PhaseOk(s, sh)
    ensures Inv(WithShoot(s, id, sh))
  {
    var s' := WithShoot(s, id, sh);
    assert ShootInv(s, id);
    forall c {:trigger CpuInv(s', c)} | 0 <= c < |s'.cpus| ensures CpuInv(s', c) {
      assert CpuInv(s, c);
    }
    forall i {:trigger ShootInv(s', i)} | i in s'.shoots ensures ShootInv(s', i) {
      assert i != id ==> ShootInv(s, i);
    }
    forall c, i {:trigger PairInv(s', c, i)} | 0 <= c < |s'.cpus| && i in s'.shoots ensures PairInv(s', c, i) {
      assert PairInv(s, c, i);
    }
  }

  lemma BeginKeepsInv(g: Guard, s: State, e: Step)
    requires Inv(s) && e.Begin? && Enabled(s, e)
    ensures Inv(Next(g, s, e))
  {
    var s' := Next(g, s, e);
    forall c {:trigger CpuInv(s', c)} | 0 <= c < |s'.cpus| ensures CpuInv(s', c) {
      assert CpuInv(s, c);
    }
    forall i {:trigger ShootInv(s', i)} | i in s'.shoots ensures ShootInv(s', i) {
      assert i != e.id ==> ShootInv(s, i);
    }
    forall c, i {:trigger PairInv(s', c, i)} | 0 <= c < |s'.cpus| && i in s'.shoots ensures PairInv(s', c, i) {
      assert CpuInv(s, c);
      assert i != e.id ==> PairInv(s, c, i);
    }
  }

  lemma CountKeepsInv(g: Guard, s: State, e: Step)
    requires Inv(s) && e.CountNext? && Enabled(s, e)
    ensures Inv(Next(g, s, e))
  {
    assert ShootInv(s, e.id);
    var sh := s.shoots[e.id];
    var sh' := Counted(sh, |s.cpus|, sh.phase.next < |s.cpus| && s.cpus[sh.phase.next].active);
    ShootKeepsInv(s, e.id, sh');
  }

  /** Queueing a request at a CPU that does not have it. */
  lemma PushKeepsInv(s: State, id: nat, s': State)
    requires Inv(s) && id in s.shoots && s.shoots[id].phase.Pushing?
    requires var sh := s.shoots[id];
      var i := sh.phase.next;
      && i < |s.cpus| && s.cpus[i].active && i != sh.cpu
      && s' == WithCpu(WithShoot(s, id, sh.(phase := Pushing(i + 1), pushed := sh.pushed + {i})),
                       i, s.cpus[i].(queue := [Item(id, sh.range)] + s.cpus[i].queue))
    ensures Inv(s')
  {
    var sh := s.shoots[id];
    var n := sh.phase.next;
    assert ShootInv(s, id);
    assert PairInv(s, n, id) && CpuInv(s, n);
    PushRefers(s.cpus[n], s'.cpus[n], Item(id, sh.range));
    PushOnce(s.cpus[n], s'.cpus[n], Item(id, sh.range));
    forall c {:trigger CpuInv(s', c)} | 0 <= c < |s'.cpus| ensures CpuInv(s', c) {
      assert CpuInv(s, c);
    }
    forall i {:trigger ShootInv(s', i)} | i in s'.shoots ensures ShootInv(s', i) {
      assert ShootInv(s, i);
    }
    forall c, i {:trigger PairInv(s', c, i)} | 0 <= c < |s'.cpus| && i in s'.shoots ensures PairInv(s', c, i) {
      assert PairInv(s, c, i);
    }
  }

  lemma PushOnce(cpu: Cpu, cpu': Cpu, item: Item)
    requires cpu' == cpu.(queue := [item] + cpu.queue) && Once(cpu) && !Refers(cpu, item.id)
    ensures Once(cpu')
  {
    PushRefers(cpu, cpu', item);
  }

  lemma PushRefers(cpu: Cpu, cpu': Cpu, item: Item)
    requires cpu' == cpu.(queue := [item] + cpu.queue)
    ensures forall id :: InQueue(cpu', id) <==> id == item.id || InQueue(cpu, id)
  {
    assert cpu'.queue[0] == item;
    forall id | InQueue(cpu, id) ensures InQueue(cpu', id) {
      var k :| 0 <= k < |cpu.queue| && cpu.queue[k].id == id;
      assert cpu'.queue[k + 1] == cpu.queue[k];
    }
  }

  lemma PopRefers(cpu: Cpu, cpu': Cpu)
    requires cpu.queue != [] && cpu'.queue == cpu.queue[1..]
    ensures forall id :: InQueue(cpu, id) <==> id == cpu.queue[0].id || InQueue(cpu', id)
  {
    forall id | InQueue(cpu, id) && id != cpu.queue[0].id ensures InQueue(cpu', id) {
      var k :| 0 <= k < |cpu.queue| && cpu.queue[k].id == id;
      assert cpu'.queue[k - 1] == cpu.queue[k];
    }
    forall id | InQueue(cpu', id) ensures InQueue(cpu, id) {
      var k :| 0 <= k < |cpu'.queue| && cpu'.queue[k].id == id;
      assert cpu.queue[k + 1] == cpu'.queue[k];
    }
  }

  lemma PopKeepsInv(g: Guard, s: State, e: Step)
    requires Inv(s) && e.Pop? && Enabled(s, e)
    ensures Inv(Next(g, s, e))
  {
    var s' := Next(g, s, e);
    var cpu, cpu' := s.cpus[e.c], s'.cpus[e.c];
    assert CpuInv(s, e.c);
    PopRefers(cpu, cpu');
    forall c {:trigger CpuInv(s', c)} | 0 <= c < |s'.cpus| ensures CpuInv(s', c) {
      assert CpuInv(s, c);
    }
    forall i {:trigger ShootInv(s', i)} | i in s'.shoots ensures ShootInv(s', i) {
      assert ShootInv(s, i);
    }
    forall c, i {:trigger PairInv(s', c, i)} | 0 <= c < |s'.cpus| && i in s'.shoots ensures PairInv(s', c, i) {
      assert PairInv(s, c, i);
    }
  }

  lemma FlushKeepsInv(g: Guard, s: State, e: Step)
    requires Inv(s) && e.Flush? && Enabled(s, e)
    ensures Inv(Next(g, s, e))
  {
    var s' := Next(g, s, e);
    forall c {:trigger CpuInv(s', c)} | 0 <= c < |s'.cpus| ensures CpuInv(s', c) {
      assert CpuInv(s, c);
    }
    forall i {:trigger ShootInv(s', i)} | i in s'.shoots ensures ShootInv(s', i) {
      assert ShootInv(s, i);
    }
    forall c, i {:trigger PairInv(s', c, i)} | 0 <= c < |s'.cpus| && i in s'.shoots ensures PairInv(s', c, i) {
      assert PairInv(s, c, i);
    }
  }

  lemma SignalKeepsInv(g: Guard, s: State, e: Step)
    requires Inv(s) && e.Signal? && Enabled(s, e)
    ensures Inv(Next(g, s, e))
  {
    var s' := Next(g, s, e);
    var id := s.cpus[e.c].handling.item.id;
    assert CpuInv(s, e.c) && PairInv(s, e.c, id);
    forall c {:trigger CpuInv(s', c)} | 0 <= c < |s'.cpus| ensures CpuInv(s', c) {
      assert CpuInv(s, c);
    }
    forall i {:trigger ShootInv(s', i)} | i in s'.shoots ensures ShootInv(s', i) {
      assert ShootInv(s, i);
    }
    forall c, i {:trigger PairInv(s', c, i)} | 0 <= c < |s'.cpus| && i in s'.shoots ensures PairInv(s', c, i) {
      assert PairInv(s, c, i);
    }
  }

  /** Every step keeps the invariant, whichever guard the handler has. */
  lemma StepKeepsInv(g: Guard, s: State, e: Step)
    requires Inv(s) && Enabled(s, e)
    ensures Inv(Next(g, s, e))
  {
    match e
    case Begin(_, _, _) => BeginKeepsInv(g, s, e);
    case CountNext(_) => CountKeepsInv(g, s, e);
    case PushNext(id) =>
      assert ShootInv(s, id);
      var sh := s.shoots[id];
      var i := sh.phase.next;
      if i < |s.cpus| && s.cpus[i].active && i != sh.cpu {
        PushKeepsInv(s, id, Next(g, s, e));
      } else if i >= |s.cpus| {
        ShootKeepsInv(s, id, sh.(phase := Waiting));
      } else {
        ShootKeepsInv(s, id, sh.(phase := Pushing(i + 1)));
      }
    case Pop(_) => PopKeepsInv(g, s, e);
    case Flush(_) => FlushKeepsInv(g, s, e);
    case Signal(_) => SignalKeepsInv(g, s, e);
    case Return(id) =>
      assert ShootInv(s, id);
      ShootKeepsInv(s, id, s.shoots[id].(phase := Returned));
    case _ => QuietKeepsInv(s, Next(g, s, e));
  }

  lemma {:induction false} RunKeepsInv(g: Guard, s: State, steps: seq<Step>, s': State)
    requires Inv(s) && Reaches(g, s, steps, s')
    ensures Inv(s')
    decreases |steps|
  {
    if steps != [] {
      StepKeepsInv(g, s, steps[0]);
      RunKeepsInv(g, Next(g, s, steps[0]), steps[1..], s');
    }
  }
}

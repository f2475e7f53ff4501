/** Acknowledgement safety over every run of the shootdown protocol. */
module ShootdownRuns {
  import opened Basics
  import opened ShootdownModel
  import opened ShootdownProofs

  // ----------------------------------------------------------- acknowledgements

  /** The CPUs whose queue or handler refers to the initiator's state. */
  ghost function Outstanding(s: State, id: nat): set<nat> {
    set c | 0 <= c < |s.cpus| && Refers(s.cpus[c], id)
  }

  lemma OutstandingIs(s: State, id: nat)
    requires Inv(s) && id in s.shoots
    ensures Outstanding(s, id) == s.shoots[id].pushed - s.shoots[id].acked
  {
    assert ShootInv(s, id);
    forall c | 0 <= c < |s.cpus| ensures c in Outstanding(s, id) <==> c in s.shoots[id].pushed - s.shoots[id].acked {
      assert PairInv(s, c, id);
    }
  }

  /** On every run, signals sent plus requests queued or in process are the pushes made. */
  lemma AcksConserved(g: Guard, s0: State, steps: seq<Step>, s: State, id: nat)
    requires Start(s0) && Reaches(g, s0, steps, s) && id in s.shoots
    ensures s.shoots[id].acks + |Outstanding(s, id)| == |s.shoots[id].pushed|
    ensures forall c | 0 <= c < |s.cpus| :: Once(s.cpus[c])
  {
    StartInv(s0);
    RunKeepsInv(g, s0, steps, s);
    OutstandingIs(s, id);
    assert ShootInv(s, id);
    SubsetSize(s.shoots[id].acked, s.shoots[id].pushed);
    forall c | 0 <= c < |s.cpus| ensures Once(s.cpus[c]) {
      assert CpuInv(s, c);
    }
  }

  lemma WaitSafe(s: State, id: nat)
    requires Inv(s) && id in s.shoots && (s.shoots[id].phase.Waiting? || s.shoots[id].phase.Returned?)
    ensures s.shoots[id].acks == s.shoots[id].awaited ==>
            (Outstanding(s, id) == {} <==> s.shoots[id].counted == s.shoots[id].pushed)
    ensures s.shoots[id].acks >= s.shoots[id].awaited && s.shoots[id].counted == s.shoots[id].pushed ==>
            Outstanding(s, id) == {}
  {
    OutstandingIs(s, id);
    assert ShootInv(s, id);
    SubsetSize(s.shoots[id].acked, s.shoots[id].pushed);
    SubsetSize(s.shoots[id].counted, s.shoots[id].pushed);
  }

  /** Once the pushes are made, the moment the wait is first allowed to return is safe exactly when
      the CPUs pushed to are the ones that were counted; and from then on it stays safe. */
  lemma WaitExact(g: Guard, s0: State, steps: seq<Step>, s: State, id: nat)
    requires Start(s0) && Reaches(g, s0, steps, s) && id in s.shoots
    requires s.shoots[id].phase.Waiting? || s.shoots[id].phase.Returned?
    ensures s.shoots[id].acks == s.shoots[id].awaited ==>
            (Outstanding(s, id) == {} <==> s.shoots[id].counted == s.shoots[id].pushed)
    ensures s.shoots[id].acks >= s.shoots[id].awaited && s.shoots[id].counted == s.shoots[id].pushed ==>
            Outstanding(s, id) == {}
  {
    StartInv(s0);
    RunKeepsInv(g, s0, steps, s);
    WaitSafe(s, id);
  }

  // ----------------------------------------------------------- CPUs activated too late

  /** The CPU's handler can take its next step. */
  predicate HandlerMoves(s: State, c: nat) {
    Enabled(s, Pop(c)) || Enabled(s, Flush(c)) || Enabled(s, Signal(c))
  }

  lemma AllAcked(s: State, id: nat)
    requires Inv(s) && id in s.shoots && s.shoots[id].phase.Waiting? && Outstanding(s, id) == {}
    ensures s.shoots[id].acks >= s.shoots[id].awaited
  {
    OutstandingIs(s, id);
    assert ShootInv(s, id);
    var sh := s.shoots[id];
    forall c | c in sh.pushed ensures c in sh.acked {
      assert c !in sh.pushed - sh.acked;
    }
    SubsetSize(sh.counted, sh.acked);
  }

  /** No wait gets stuck: on every run an initiator that waits may return, or some CPU still has its request and can go
      on with it; and once none has, it may return. */
  lemma WaitNeverStuck(g: Guard, s0: State, steps: seq<Step>, s: State, id: nat)
    requires Start(s0) && Reaches(g, s0, steps, s) && id in s.shoots && s.shoots[id].phase.Waiting?
    ensures Outstanding(s, id) == {} ==> Enabled(s, Return(id))
    ensures forall c | c in Outstanding(s, id) :: HandlerMoves(s, c)
  {
    StartInv(s0);
    RunKeepsInv(g, s0, steps, s);
    if Outstanding(s, id) == {} {
      AllAcked(s, id);
    }
    forall c | c in Outstanding(s, id) ensures HandlerMoves(s, c) {
      assert CpuInv(s, c);
    }
  }

  /** Three steps take the request at the head of a queue to its acknowledgement: one more signal, from this CPU. */
  lemma HandlerFinishes(g: Guard, s: State, c: nat)
    requires Inv(s) && Enabled(s, Pop(c))
    ensures var item := s.cpus[c].queue[0];
      var s1 := Next(g, s, Pop(c));
      && Enabled(s1, Flush(c))
      && var s2 := Next(g, s1, Flush(c));
      && Enabled(s2, Signal(c))
      && var s3 := Next(g, s2, Signal(c));
      && s3.cpus[c].queue == s.cpus[c].queue[1..] && s3.cpus[c].handling == Idle
      && item.id in s.shoots && item.id in s3.shoots
      && s3.shoots[item.id].acked == s.shoots[item.id].acked + {c} && s3.shoots[item.id].acks == s.shoots[item.id].acks + 1
      && s3.cpus[c].tlb == Deleted(g, s.cpus[c].tlb, item.range)
  {
    assert CpuInv(s, c);
  }

  /** The rounds of both loops the initiator still has before it. */
  function Rounds(sh: Shoot, n: nat): int {
    match sh.phase
    case Counting(i) => n - i + 1 + n + 1
    case Pushing(i) => n - i + 1
    case _ => 0
  }

  /** Each round is one fewer, so that the initiator comes to its wait after a round for each CPU and one to see the end,
      twice over; no other step adds any. */
  lemma InitiatorAdvances(g: Guard, s: State, e: Step, id: nat)
    requires Inv(s) && Enabled(s, e) && id in s.shoots
    ensures id in Next(g, s, e).shoots && |Next(g, s, e).cpus| == |s.cpus|
    ensures e == CountNext(id) || e == PushNext(id) ==>
            Rounds(s.shoots[id], |s.cpus|) > 0 && Rounds(Next(g, s, e).shoots[id], |s.cpus|) == Rounds(s.shoots[id], |s.cpus|) - 1
    ensures !(e == CountNext(id) || e == PushNext(id)) ==>
            Rounds(Next(g, s, e).shoots[id], |s.cpus|) == Rounds(s.shoots[id], |s.cpus|)
    ensures Rounds(s.shoots[id], |s.cpus|) == 0 <==> s.shoots[id].phase.Waiting? || s.shoots[id].phase.Returned?
  {
    assert ShootInv(s, id);
  }

  /** The step activates a CPU after its own round of the count and before its own round of the push. */
  predicate IsLate(s: State, id: nat, e: Step) {
    && e.Activate? && id in s.shoots && e.c != s.shoots[id].cpu
    && match s.shoots[id].phase
       case Counting(n) => e.c < n
       case Pushing(n) => n <= e.c
       case _ => false
  }

  /** The CPUs a run activates too late for a shootdown. */
  ghost function Late(g: Guard, s: State, steps: seq<Step>, id: nat): set<nat>
    decreases |steps|
  {
    if steps == [] || !Enabled(s, steps[0]) then {}
    else (if IsLate(s, id, steps[0]) then {steps[0].c} else {}) + Late(g, Next(g, s, steps[0]), steps[1..], id)
  }

  /** `h` are the CPUs activated too late so far: they and the counted ones are pushed to. */
  ghost predicate Tracks(s: State, id: nat, h: set<nat>) {
    && id in s.shoots && s.shoots[id].counted !! h
    && (forall c | c in s.shoots[id].counted || c in h :: c < |s.cpus| && c != s.shoots[id].cpu && s.cpus[c].active)
    && (forall c | 0 <= c < |s.cpus| && c != s.shoots[id].cpu :: TracksAt(s, id, h, c))
    && (forall c | c in s.shoots[id].pushed :: c < |s.cpus| && c != s.shoots[id].cpu)
  }

  ghost predicate TracksAt(s: State, id: nat, h: set<nat>, c: nat)
    requires id in s.shoots && c < |s.cpus|
  {
    var sh := s.shoots[id];
    var known := c in sh.counted || c in h;
    match sh.phase
    case Counting(n) => n <= |s.cpus| && c !in sh.pushed && if c < n then s.cpus[c].active == known else !known
    case Pushing(n) => n <= |s.cpus| && if c < n then (c in sh.pushed) == known else c !in sh.pushed && s.cpus[c].active == known
    case _ => (c in sh.pushed) == known
  }

  ghost function LateBy(s: State, id: nat, e: Step): set<nat> {
    if IsLate(s, id, e) then {e.c} else {}
  }

  lemma CountTracks(g: Guard, s: State, id: nat, h: set<nat>)
    requires Enabled(s, CountNext(id)) && Tracks(s, id, h)
    ensures Tracks(Next(g, s, CountNext(id)), id, h)
  {
    var s' := Next(g, s, CountNext(id));
    forall c | 0 <= c < |s'.cpus| && c != s'.shoots[id].cpu ensures TracksAt(s', id, h, c) {
      assert TracksAt(s, id, h, c);
    }
    var n := s.shoots[id].phase.next;
    assert n < |s.cpus| && n != s.shoots[id].cpu ==> TracksAt(s, id, h, n);
  }

  lemma PushTracks(g: Guard, s: State, id: nat, h: set<nat>)
    requires Enabled(s, PushNext(id)) && Tracks(s, id, h)
    ensures Tracks(Next(g, s, PushNext(id)), id, h)
  {
    var s' := Next(g, s, PushNext(id));
    forall c | 0 <= c < |s'.cpus| && c != s'.shoots[id].cpu ensures TracksAt(s', id, h, c) {
      assert TracksAt(s, id, h, c);
    }
  }

  lemma ActivateTracks(g: Guard, s: State, e: Step, id: nat, h: set<nat>)
    requires Enabled(s, e) && e.Activate? && Tracks(s, id, h)
    ensures Tracks(Next(g, s, e), id, h + LateBy(s, id, e))
  {
    var s', h' := Next(g, s, e), h + LateBy(s, id, e);
    forall c | 0 <= c < |s'.cpus| && c != s'.shoots[id].cpu ensures TracksAt(s', id, h', c) {
      assert TracksAt(s, id, h, c);
    }
  }

  lemma StepTracks(g: Guard, s: State, e: Step, id: nat, h: set<nat>)
    requires Enabled(s, e) && Tracks(s, id, h)
    ensures Tracks(Next(g, s, e), id, h + LateBy(s, id, e))
  {
    if e.Activate? {
      ActivateTracks(g, s, e, id, h);
    } else {
      assert h + LateBy(s, id, e) == h;
      if e == CountNext(id) {
        CountTracks(g, s, id, h);
      } else if e == PushNext(id) {
        PushTracks(g, s, id, h);
      } else {
        QuietTracks(g, s, e, id, h);
      }
    }
  }

  lemma QuietTracks(g: Guard, s: State, e: Step, id: nat, h: set<nat>)
    requires Enabled(s, e) && Tracks(s, id, h) && !e.Activate? && e != CountNext(id) && e != PushNext(id)
    ensures Tracks(Next(g, s, e), id, h)
  {
    var s' := Next(g, s, e);
    forall c | 0 <= c < |s'.cpus| && c != s'.shoots[id].cpu ensures TracksAt(s', id, h, c) {
      assert TracksAt(s, id, h, c);
    }
  }

  lemma {:induction false} RunTracks(g: Guard, s: State, steps: seq<Step>, s': State, id: nat, h: set<nat>)
    requires Tracks(s, id, h) && Reaches(g, s, steps, s')
    ensures Tracks(s', id, h + Late(g, s, steps, id))
    decreases |steps|
  {
    if steps != [] {
      var h' := h + LateBy(s, id, steps[0]);
      StepTracks(g, s, steps[0], id, h);
      RunTracks(g, Next(g, s, steps[0]), steps[1..], s', id, h');
      assert h' + Late(g, Next(g, s, steps[0]), steps[1..], id) == h + Late(g, s, steps, id);
    } else {
      assert h + Late(g, s, steps, id) == h;
    }
  }

  /** Once its pushes are made, a shootdown has pushed to exactly those it counted if and only if no CPU was
      activated between its own count and its own push. */
  lemma PushedExact(g: Guard, s: State, id: nat, c: nat, range: Range, after: seq<Step>, s': State)
    requires Enabled(s, Begin(id, c, range)) && Reaches(g, Next(g, s, Begin(id, c, range)), after, s')
    ensures id in s'.shoots
    ensures s'.shoots[id].phase.Waiting? || s'.shoots[id].phase.Returned? ==>
              var late := Late(g, Next(g, s, Begin(id, c, range)), after, id);
              && s'.shoots[id].pushed == s'.shoots[id].counted + late
              && (s'.shoots[id].counted == s'.shoots[id].pushed <==> late == {})
  {
    var s1 := Next(g, s, Begin(id, c, range));
    assert Tracks(s1, id, {}) by {
      forall k | 0 <= k < |s1.cpus| && k != s1.shoots[id].cpu ensures TracksAt(s1, id, {}, k) {
      }
    }
    RunTracks(g, s1, after, s', id, {});
    var late := Late(g, s1, after, id);
    assert {} + late == late;
    if s'.shoots[id].phase.Waiting? || s'.shoots[id].phase.Returned? {
      forall k | k in s'.shoots[id].pushed || k in s'.shoots[id].counted || k in late
        ensures k in s'.shoots[id].pushed <==> k in s'.shoots[id].counted + late
      {
        assert TracksAt(s', id, late, k);
      }
    }
  }

  /** For a shootdown begun in any reachable state: when its wait may first return, no queue or handler refers to
      its initiator's state if and only if no CPU was activated between its own count and its own push; and without
      such an activation none does at any later time. */
  lemma AckSafety(g: Guard, s0: State, before: seq<Step>, s: State, id: nat, c: nat, range: Range, after: seq<Step>, s': State)
    requires Start(s0) && Reaches(g, s0, before, s) && Enabled(s, Begin(id, c, range))
    requires Reaches(g, Next(g, s, Begin(id, c, range)), after, s')
    ensures id in s'.shoots
    ensures s'.shoots[id].phase.Waiting? || s'.shoots[id].phase.Returned? ==>
              var late := Late(g, Next(g, s, Begin(id, c, range)), after, id);
              && (s'.shoots[id].acks == s'.shoots[id].awaited ==> (Outstanding(s', id) == {} <==> late == {}))
              && (s'.shoots[id].acks >= s'.shoots[id].awaited && late == {} ==> Outstanding(s', id) == {})
  {
    PushedExact(g, s, id, c, range, after, s');
    assert Inv(s') by {
      StartInv(s0);
      RunKeepsInv(g, s0, before, s);
      StepKeepsInv(g, s, Begin(id, c, range));
      RunKeepsInv(g, Next(g, s, Begin(id, c, range)), after, s');
    }
    if s'.shoots[id].phase.Waiting? || s'.shoots[id].phase.Returned? {
      WaitSafe(s', id);
    }
  }

  /** No CPU is activated while the shootdown counts or pushes. */
  ghost predicate Calm(g: Guard, s: State, steps: seq<Step>, id: nat)
    decreases |steps|
  {
    steps != [] && Enabled(s, steps[0]) ==>
      && !(steps[0].Activate? && id in s.shoots && (s.shoots[id].phase.Counting? || s.shoots[id].phase.Pushing?))
      && Calm(g, Next(g, s, steps[0]), steps[1..], id)
  }

  /** With a fixed set of active CPUs from count to push no CPU is late, whatever is activated after. */
  lemma {:induction false} FixedActiveSet(g: Guard, s: State, steps: seq<Step>, id: nat)
    requires Calm(g, s, steps, id)
    ensures Late(g, s, steps, id) == {}
    decreases |steps|
  {
    if steps != [] && Enabled(s, steps[0]) {
      FixedActiveSet(g, Next(g, s, steps[0]), steps[1..], id);
    }
  }
}

/** Where the shootdown code as written misses its promise, and exactly when it meets it. */
module ShootdownFindings {
  import opened Basics
  import opened ShootdownModel
  import opened ShootdownRuns

  /** Only the null range passes the guard as written, and it has no page: the handler deletes nothing. */
  lemma HandlerDeletesNothing(tlb: map<nat, nat>, r: Range)
    ensures Deleted(AsWritten, tlb, r) == tlb
  {
    if IsNull(r) {
      assert Pages(r) == {};
    }
  }

  /** With the guard the other way round exactly the pages of the range go, each page once and no other. */
  lemma DeletedExact(g: Guard, tlb: map<nat, nat>, r: Range, p: nat)
    ensures p in Deleted(g, tlb, r) <==>
            p in tlb && (g.AsWritten? || !(r.start / 4096 <= p < r.start / 4096 + r.pages))
    ensures p in Deleted(g, tlb, r) ==> Deleted(g, tlb, r)[p] == tlb[p]
  {
    HandlerDeletesNothing(tlb, r);
  }

  /** A handler leaves no translation of the range exactly when its guard is the other way round or
      there was none to begin with. */
  lemma HandlerExact(g: Guard, tlb: map<nat, nat>, r: Range)
    ensures Deleted(g, tlb, r).Keys !! Pages(r) <==> g.NonNull? || tlb.Keys !! Pages(r)
  {
    HandlerDeletesNothing(tlb, r);
    if IsNull(r) {
      assert Pages(r) == {};
    }
  }

  /** So as written no step of any initiator or handler changes what any CPU has cached. */
  lemma ShootdownHasNoEffect(s: State, e: Step, c: nat)
    requires Enabled(s, e) && c < |s.cpus|
    requires e.Begin? || e.CountNext? || e.PushNext? || e.Pop? || e.Flush? || e.Signal? || e.Return?
    ensures Next(AsWritten, s, e).cpus[c].tlb == s.cpus[c].tlb
  {
    if e.Flush? {
      HandlerDeletesNothing(s.cpus[e.c].tlb, s.cpus[e.c].handling.item.range);
    }
  }

  /** The loops that map or unmap a window hand the shootdown the address they have advanced to: the range starts
      where the window ends, so it shares no page with it and covers it exactly when the window is empty. */
  lemma AdvancedRangeMisses(start: nat, bytes: nat)
    requires start % PAGE == 0 && bytes % PAGE == 0
    ensures Pages(Range(start + bytes, bytes / PAGE)) !! Pages(Range(start, bytes / PAGE))
    ensures Pages(Range(start, bytes / PAGE)) <= Pages(Range(start + bytes, bytes / PAGE)) <==> bytes == 0
  {
    assert (start + bytes) / PAGE == start / PAGE + bytes / PAGE;
    if bytes > 0 {
      assert InRange(Range(start, bytes / PAGE), start / PAGE);
      assert start / PAGE in Pages(Range(start, bytes / PAGE));
    }
  }

  lemma {:induction false} OneMore(g: Guard, s: State, steps: seq<Step>, s': State, e: Step)
    requires Reaches(g, s, steps, s') && Enabled(s', e)
    ensures Reaches(g, s, steps + [e], Next(g, s', e))
    decreases |steps|
  {
    if steps == [] {
      assert steps + [e] == [e];
      assert [e][1..] == [];
    } else {
      OneMore(g, Next(g, s, steps[0]), steps[1..], s', e);
      assert (steps + [e])[1..] == steps[1..] + [e];
    }
  }

  // ----------------------------------------------------------- a stale translation after a returned wait

  const R: Range := Range(20480, 1)

  function NewCpu(active: bool, tlb: map<nat, nat>, mine: map<nat, nat>): Cpu {
    Cpu(active, active, [], Idle, tlb, mine)
  }

  /** CPU 1 has page 5 cached; CPU 0 has changed it and begun a shootdown of it. */
  function Begun(): State {
    State([NewCpu(false, map[], map[5 := 1]), NewCpu(true, map[5 := 0], map[])], map[5 := 1],
          map[0 := Shoot(0, R, map[5 := 1], Counting(0), 0, 0, {}, {}, {})])
  }

  function At(phase: Phase, awaited: nat, acks: nat, counted: set<nat>, pushed: set<nat>, acked: set<nat>, queue: seq<Item>, h: Handling): State {
    State([NewCpu(false, map[], map[5 := 1]), Cpu(true, true, queue, h, map[5 := 0], map[])], map[5 := 1],
          map[0 := Shoot(0, R, map[5 := 1], phase, awaited, acks, counted, pushed, acked)])
  }

  function Boot(): State {
    State([NewCpu(false, map[], map[]), NewCpu(false, map[], map[])], map[], map[])
  }

  /** The run one step longer. */
  lemma Then(steps: seq<Step>, s: State, e: Step, s': State) returns (more: seq<Step>)
    requires Reaches(AsWritten, Boot(), steps, s) && Enabled(s, e) && Next(AsWritten, s, e) == s'
    ensures Reaches(AsWritten, Boot(), more, s')
  {
    OneMore(AsWritten, Boot(), steps, s, e);
    more := steps + [e];
  }

  lemma ReachesBegun() returns (steps: seq<Step>)
    ensures Reaches(AsWritten, Boot(), steps, Begun())
  {
    var c0 := NewCpu(false, map[], map[]);
    var s1 := State([c0, c0.(active := true)], map[], map[]);
    var s2 := State([c0, NewCpu(true, map[], map[])], map[], map[]);
    var s3 := State([c0, NewCpu(true, map[5 := 0], map[])], map[], map[]);
    var s4 := State([NewCpu(false, map[], map[5 := 1]), NewCpu(true, map[5 := 0], map[])], map[5 := 1], map[]);
    steps := Then([], Boot(), Activate(1), s1);
    steps := Then(steps, s1, FlushAll(1), s2);
    steps := Then(steps, s2, Fill(1, 5), s3);
    steps := Then(steps, s3, Change(0, 5), s4);
    assert Wanted(s4.cpus[0], R) == map[5 := 1];
    steps := Then(steps, s4, Begin(0, 0, R), Begun());
  }

  /** Equal collections that the runs below meet under different names. */
  lemma SameCollections()
    ensures {} + {1} == {1 as nat} && [Item(0, R)] + [] == [Item(0, R)] && [Item(0, R)][1..] == []
  {
  }

  lemma ReachesCounted() returns (steps: seq<Step>)
    ensures Reaches(AsWritten, Boot(), steps, At(Pushing(0), 1, 0, {1}, {}, {}, [], Idle))
  {
    steps := ReachesBegun();
    SameCollections();
    steps := Then(steps, Begun(), CountNext(0), At(Counting(1), 0, 0, {}, {}, {}, [], Idle));
    steps := Then(steps, At(Counting(1), 0, 0, {}, {}, {}, [], Idle), CountNext(0), At(Counting(2), 1, 0, {1}, {}, {}, [], Idle));
    steps := Then(steps, At(Counting(2), 1, 0, {1}, {}, {}, [], Idle), CountNext(0), At(Pushing(0), 1, 0, {1}, {}, {}, [], Idle));
  }

  lemma ReachesWaiting() returns (steps: seq<Step>)
    ensures Reaches(AsWritten, Boot(), steps, At(Waiting, 1, 0, {1}, {1}, {}, [Item(0, R)], Idle))
  {
    steps := ReachesCounted();
    SameCollections();
    steps := Then(steps, At(Pushing(0), 1, 0, {1}, {}, {}, [], Idle), PushNext(0), At(Pushing(1), 1, 0, {1}, {}, {}, [], Idle));
    steps := Then(steps, At(Pushing(1), 1, 0, {1}, {}, {}, [], Idle), PushNext(0), At(Pushing(2), 1, 0, {1}, {1}, {}, [Item(0, R)], Idle));
    steps := Then(steps, At(Pushing(2), 1, 0, {1}, {1}, {}, [Item(0, R)], Idle), PushNext(0), At(Waiting, 1, 0, {1}, {1}, {}, [Item(0, R)], Idle));
  }

  lemma ReachesFlushed() returns (steps: seq<Step>)
    ensures Reaches(AsWritten, Boot(), steps, At(Waiting, 1, 0, {1}, {1}, {}, [], Flushed(Item(0, R))))
  {
    steps := ReachesWaiting();
    SameCollections();
    HandlerDeletesNothing(map[5 := 0], R);
    steps := Then(steps, At(Waiting, 1, 0, {1}, {1}, {}, [Item(0, R)], Idle), Pop(1), At(Waiting, 1, 0, {1}, {1}, {}, [], Popped(Item(0, R))));
    steps := Then(steps, At(Waiting, 1, 0, {1}, {1}, {}, [], Popped(Item(0, R))), Flush(1), At(Waiting, 1, 0, {1}, {1}, {}, [], Flushed(Item(0, R))));
  }

  /** CPU 0 returns from its wait, CPU 1 having signalled, and CPU 1 still translates page 5 the old way. */
  lemma StaleAfterWait() returns (steps: seq<Step>, s: State)
    ensures Start(Boot()) && Reaches(AsWritten, Boot(), steps, s) && |s.cpus| == 2 && 0 in s.shoots
    ensures s.shoots[0].phase.Returned? && s.shoots[0].counted == s.shoots[0].pushed == {1} && s.cpus[1].ready
    ensures 5 in s.shoots[0].asof && 5 in s.cpus[1].tlb && s.cpus[1].tlb[5] < s.shoots[0].asof[5]
  {
    steps := ReachesFlushed();
    SameCollections();
    steps := Then(steps, At(Waiting, 1, 0, {1}, {1}, {}, [], Flushed(Item(0, R))), Signal(1), At(Waiting, 1, 1, {1}, {1}, {1}, [], Idle));
    steps := Then(steps, At(Waiting, 1, 1, {1}, {1}, {1}, [], Idle), Return(0), At(Returned, 1, 1, {1}, {1}, {1}, [], Idle));
    s := At(Returned, 1, 1, {1}, {1}, {1}, [], Idle);
  }

  // ----------------------------------------------------------- a CPU activated between count and push

  function Tardy(phase: Phase, active: bool, pushed: set<nat>, queue: seq<Item>): State {
    State([NewCpu(false, map[], map[]), Cpu(active, false, queue, Idle, map[], map[])], map[],
          map[0 := Shoot(0, R, map[], phase, 0, 0, {}, pushed, {})])
  }

  lemma ReachesLate() returns (steps: seq<Step>)
    ensures Start(Boot()) && Reaches(AsWritten, Boot(), steps, Tardy(Pushing(0), true, {}, []))
  {
    steps := [];
    assert Wanted(Boot().cpus[0], R) == map[];
    steps := Then(steps, Boot(), Begin(0, 0, R), Tardy(Counting(0), false, {}, []));
    steps := Then(steps, Tardy(Counting(0), false, {}, []), CountNext(0), Tardy(Counting(1), false, {}, []));
    steps := Then(steps, Tardy(Counting(1), false, {}, []), CountNext(0), Tardy(Counting(2), false, {}, []));
    steps := Then(steps, Tardy(Counting(2), false, {}, []), CountNext(0), Tardy(Pushing(0), false, {}, []));
    steps := Then(steps, Tardy(Pushing(0), false, {}, []), Activate(1), Tardy(Pushing(0), true, {}, []));
  }

  /** The wait returns at once while CPU 1, activated after the count, still has the request queued. */
  lemma ReturnsTooEarly() returns (steps: seq<Step>, s: State)
    ensures Start(Boot()) && Reaches(AsWritten, Boot(), steps, s) && 0 in s.shoots
    ensures s.shoots[0].phase.Returned? && Outstanding(s, 0) == {1} && s.shoots[0].counted != s.shoots[0].pushed
  {
    steps := ReachesLate();
    SameCollections();
    steps := Then(steps, Tardy(Pushing(0), true, {}, []), PushNext(0), Tardy(Pushing(1), true, {}, []));
    steps := Then(steps, Tardy(Pushing(1), true, {}, []), PushNext(0), Tardy(Pushing(2), true, {1}, [Item(0, R)]));
    steps := Then(steps, Tardy(Pushing(2), true, {1}, [Item(0, R)]), PushNext(0), Tardy(Waiting, true, {1}, [Item(0, R)]));
    steps := Then(steps, Tardy(Waiting, true, {1}, [Item(0, R)]), Return(0), Tardy(Returned, true, {1}, [Item(0, R)]));
    s := Tardy(Returned, true, {1}, [Item(0, R)]);
    assert s.cpus[1].queue[0].id == 0;
  }
}

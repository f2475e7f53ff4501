/** The TLB shootdown protocol as interleaved steps of any number of CPUs and initiators
    (kernel/mem/vaddr_cache_shootdown.c, kernel/mem/vmm.c). */
module ShootdownModel {
  import opened Basics

  /** VMMCacheShootdownRange. */
  datatype Range = Range(start: nat, pages: nat)

  predicate IsNull(r: Range) {
    r.start == 0 && r.pages == 0
  }

  predicate InRange(r: Range, p: nat) {
    r.start / PAGE <= p < r.start / PAGE + r.pages
  }

  /** The page numbers delete_vmmcache_range goes through. */
  ghost function Pages(r: Range): set<nat> {
    set p: nat | p < r.start / PAGE + r.pages && InRange(r, p)
  }

  /** A queued request: the range and the state to signal, which stands for its initiator's stack variable. */
  datatype Item = Item(id: nat, range: Range)

  /** What the interrupt handler of a CPU is doing: nothing, or the item it took, before or after
      the place where translations are deleted. */
  datatype Handling = Idle | Popped(item: Item) | Flushed(item: Item)

  /** A CPU. Its TLB and its own page-table changes are kept as page versions: each change of a page
      gives it the next version, and a cached translation is as old as the version it was read at. */
  datatype Cpu = Cpu(active: bool, ready: bool, queue: seq<Item>, handling: Handling,
                     tlb: map<nat, nat>, mine: map<nat, nat>)

  /** Where the initiator is: counting the active queues, pushing to them, waiting, returned. */
  datatype Phase = Counting(next: nat) | Pushing(next: nat) | Waiting | Returned

  /** A shootdown under way: `asof` holds the versions its initiator wants to be visible. */
  datatype Shoot = Shoot(cpu: nat, range: Range, asof: map<nat, nat>, phase: Phase,
                         awaited: nat, acks: nat, counted: set<nat>, pushed: set<nat>, acked: set<nat>)

  datatype State = State(cpus: seq<Cpu>, version: map<nat, nat>, shoots: map<nat, Shoot>)

  function Version(s: State, p: nat): nat {
    if p in s.version then s.version[p] else 0
  }

  datatype Step =
    | Change(c: nat, p: nat)             // paging_map or invalidate_paging_mapping on one page
    | Begin(id: nat, c: nat, range: Range)
    | CountNext(id: nat)                 // one round of the loop in init_vmmcache_shootdown_state
    | PushNext(id: nat)                  // one round of the loop in _enqueue_vmmcache_shootdown_range
    | Pop(c: nat)                        // the handler takes the head of its queue
    | Flush(c: nat)                      // the handler's guarded delete_vmmcache_range
    | Signal(c: nat)                     // the handler adds one to the item's counter
    | Return(id: nat)                    // the wait loop sees enough signals
    | Activate(c: nat)                   // the active flag is set
    | FlushAll(c: nat)                   // and then everything cached is dropped
    | Fill(c: nat, p: nat)               // the hardware caches a translation
    | Evict(c: nat, p: nat)              // or forgets one

  predicate Enabled(s: State, e: Step) {
    match e
    case Change(c, p) => c < |s.cpus|
    case Begin(id, c, range) => c < |s.cpus| && id !in s.shoots
    case CountNext(id) => id in s.shoots && s.shoots[id].phase.Counting?
    case PushNext(id) => id in s.shoots && s.shoots[id].phase.Pushing?
    case Pop(c) => c < |s.cpus| && s.cpus[c].handling.Idle? && s.cpus[c].queue != []
    case Flush(c) => c < |s.cpus| && s.cpus[c].handling.Popped?
    case Signal(c) => c < |s.cpus| && s.cpus[c].handling.Flushed? && s.cpus[c].handling.item.id in s.shoots
    case Return(id) => id in s.shoots && s.shoots[id].phase.Waiting? && s.shoots[id].acks >= s.shoots[id].awaited
    case Activate(c) => c < |s.cpus| && !s.cpus[c].active
    case FlushAll(c) => c < |s.cpus| && s.cpus[c].active
    case Fill(c, p) => c < |s.cpus|
    case Evict(c, p) => c < |s.cpus|
  }

  /** Which test stands in front of the handler's delete. */
  datatype Guard = AsWritten | NonNull

  predicate Deletes(g: Guard, r: Range) {
    if g.AsWritten? then IsNull(r) else !IsNull(r)
  }

  ghost function Deleted(g: Guard, tlb: map<nat, nat>, r: Range): map<nat, nat> {
    if Deletes(g, r) then tlb - Pages(r) else tlb
  }

  function WithCpu(s: State, c: nat, cpu: Cpu): State
    requires c < |s.cpus|
  {
    s.(cpus := s.cpus[c := cpu])
  }

  function WithShoot(s: State, id: nat, sh: Shoot): State {
    s.(shoots := s.shoots[id := sh])
  }

  /** The initiator's own changes to the pages of the range. */
  ghost function Wanted(cpu: Cpu, r: Range): map<nat, nat> {
    map p | p in cpu.mine && p in Pages(r) :: cpu.mine[p]
  }

  function Counted(sh: Shoot, n: nat, active: bool): Shoot
    requires sh.phase.Counting?
  {
    var i := sh.phase.next;
    if i == n then sh.(phase := Pushing(0))
    else if i != sh.cpu && active then sh.(phase := Counting(i + 1), awaited := sh.awaited + 1, counted := sh.counted + {i})
    else sh.(phase := Counting(i + 1))
  }

  ghost function Next(g: Guard, s: State, e: Step): State
    requires Enabled(s, e)
  {
    match e
    case Change(c, p) =>
      var v := Version(s, p) + 1;
      WithCpu(s, c, s.cpus[c].(tlb := s.cpus[c].tlb - {p}, mine := s.cpus[c].mine[p := v])).(version := s.version[p := v])
    case Begin(id, c, range) =>
      WithShoot(s, id, Shoot(c, range, Wanted(s.cpus[c], range), Counting(0), 0, 0, {}, {}, {}))
    case CountNext(id) =>
      var sh := s.shoots[id];
      WithShoot(s, id, Counted(sh, |s.cpus|, sh.phase.next < |s.cpus| && s.cpus[sh.phase.next].active))
    case PushNext(id) =>
      var sh := s.shoots[id];
      var i := sh.phase.next;
      if i >= |s.cpus| then WithShoot(s, id, sh.(phase := Waiting))
      else if s.cpus[i].active && i != sh.cpu then
        WithCpu(WithShoot(s, id, sh.(phase := Pushing(i + 1), pushed := sh.pushed + {i})),
                i, s.cpus[i].(queue := [Item(id, sh.range)] + s.cpus[i].queue))
      else WithShoot(s, id, sh.(phase := Pushing(i + 1)))
    case Pop(c) =>
      WithCpu(s, c, s.cpus[c].(queue := s.cpus[c].queue[1..], handling := Popped(s.cpus[c].queue[0])))
    case Flush(c) =>
      var cpu := s.cpus[c];
      WithCpu(s, c, cpu.(handling := Flushed(cpu.handling.item), tlb := Deleted(g, cpu.tlb, cpu.handling.item.range)))
    case Signal(c) =>
      var id := s.cpus[c].handling.item.id;
      var sh := s.shoots[id];
      WithShoot(WithCpu(s, c, s.cpus[c].(handling := Idle)), id, sh.(acks := sh.acks + 1, acked := sh.acked + {c}))
    case Return(id) => WithShoot(s, id, s.shoots[id].(phase := Returned))
    case Activate(c) => WithCpu(s, c, s.cpus[c].(active := true))
    case FlushAll(c) => WithCpu(s, c, s.cpus[c].(ready := true, tlb := map[]))
    case Fill(c, p) => WithCpu(s, c, s.cpus[c].(tlb := s.cpus[c].tlb[p := Version(s, p)]))
    case Evict(c, p) => WithCpu(s, c, s.cpus[c].(tlb := s.cpus[c].tlb - {p}))
  }

  /** No version is from the future. */
  predicate UpToDate(s: State, m: map<nat, nat>) {
    forall p | p in m :: m[p] <= Version(s, p)
  }

  /** Subsystem initialisation: every queue is empty and inactive; the TLBs hold whatever they hold. */
  predicate Start(s: State) {
    && s.shoots == map[]
    && (forall c | 0 <= c < |s.cpus| ::
          && !s.cpus[c].active && !s.cpus[c].ready && s.cpus[c].queue == [] && s.cpus[c].handling.Idle?
          && s.cpus[c].mine == map[] && UpToDate(s, s.cpus[c].tlb))
  }

  ghost predicate Reaches(g: Guard, s: State, steps: seq<Step>, s': State)
    decreases |steps|
  {
    if steps == [] then s == s'
    else Enabled(s, steps[0]) && Reaches(g, Next(g, s, steps[0]), steps[1..], s')
  }
}

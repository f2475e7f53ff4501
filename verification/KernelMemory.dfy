/** The kernel heap on the region the virtual memory manager keeps for it, mapped by the page tables on frames of
    the frame allocator (kernel/mem/heap.c, kernel/mem/vmm.c, kernel/mem/frame_allocator.c). */
module KernelMemory {
  import opened Basics
  import opened Region
  import opened VmmModel
  import opened VmmProofs
  import V = VmmRuns
  import VF = VmmFrames
  import H = HeapModel
  import HR = HeapRuns
  import Paging
  import Words

  datatype Kernel = Kernel(heap: HR.Kernel, machine: VF.Machine)

  /** The heap's descriptor is on the manager's list. */
  ghost predicate Inv(k: Kernel) {
    VF.Accounted(k.machine) && HR.Good(k.heap) && k.heap.heap.region in k.machine.vmm.regions
  }

  // ----------------------------------------------------------- boot

  const HEAP_SIZE: nat := 4 * 1024 * 1024
  const HEAP_MAX: nat := 8 * 1024 * 1024 * 1024
  const HEAP_LOW_PADDING: nat := 16 * 1024
  const KHEAP: VF.Op := VF.AllocateOp(Heap, HEAP_SIZE, HEAP_MAX, HEAP_LOW_PADDING)

  /** Every region of the kernel zone meets the bounds of the heap. */
  lemma KernelRegion(r: Region)
    requires Placed(r) && r.kind.Heap?
    ensures r.size < TWO63 && End(r) <= TWO64 && WindowStart(r) > 0
    ensures WindowStart(r) % 8 == 0 && WindowSize(r) % 8 == 0
  {
    V.WindowAligned(r);
    PageIsWords(WindowStart(r));
    PageIsWords(WindowSize(r));
  }

  lemma PageIsWords(a: nat)
    requires a % PAGE == 0
    ensures a % 8 == 0
  {
  }

  /** The region a heap of these sizes would get. */
  ghost function HeapRegion(m: VF.Machine, size: nat, upper: nat, lower: nat): Region
    requires m.vmm.regions != []
  {
    var k := FindSpace(m.vmm.regions, size + lower + upper, 0);
    Region(m.vmm.regions[k].start, size + lower + upper, lower, upper, Heap)
  }

  lemma HeapRegionAdded(m: VF.Machine, size: nat, upper: nat, lower: nat, t: VF.Machine)
    requires V.Inv(m.vmm) && VF.Legal(m.vmm, VF.AllocateOp(Heap, size, upper, lower))
    requires VF.Steps(m, VF.AllocateOp(Heap, size, upper, lower), t)
    ensures HeapRegion(m, size, upper, lower) in t.vmm.regions
  {
    var k, r := VF.AllocateAdds(m, VF.AllocateOp(Heap, size, upper, lower), t);
  }

  lemma ListedIsPlaced(s: V.State, r: Region)
    requires V.Inv(s) && r in s.regions
    ensures Placed(r)
  {
    var i :| 0 <= i < |s.regions| && s.regions[i] == r;
    V.RegionPlaced(s, i);
  }

  lemma HeapIsGood(r: Region)
    requires Placed(r) && r.kind.Heap? && WindowSize(r) > 128
    ensures HR.Good(HR.Kernel(H.Init(r), map[])) && H.Init(r).region == r
  {
    KernelRegion(r);
    HR.BootIsGood(r);
  }

  /** kheap_init: whatever region allocation gives the heap, the heap on it starts in a good state. */
  lemma HeapBoots(m: VF.Machine, size: nat, upper: nat, lower: nat, t: VF.Machine)
    requires VF.Accounted(m) && VF.Legal(m.vmm, VF.AllocateOp(Heap, size, upper, lower)) && size > 128
    requires VF.Steps(m, VF.AllocateOp(Heap, size, upper, lower), t)
    ensures var r := HeapRegion(m, size, upper, lower);
      Padded(r) && WindowSize(r) == size && Inv(Kernel(HR.Kernel(H.Init(r), map[]), t))
  {
    HeapRegionAdded(m, size, upper, lower, t);
    VF.StepKeepsAccount(m, VF.AllocateOp(Heap, size, upper, lower), t);
    ListedIsPlaced(t.vmm, HeapRegion(m, size, upper, lower));
    HeapIsGood(HeapRegion(m, size, upper, lower));
  }

  /** The sizes kheap_init asks for are legal. */
  lemma KernelHeapLegal(s: V.State)
    ensures VF.Legal(s, KHEAP)
  {
  }

  // ----------------------------------------------------------- growth

  /** kmalloc grows the heap. */
  ghost predicate Grows(test: H.Test, s: H.State, n: nat)
    requires H.Inv(s) && n >= H.MIN_WORDS
  {
    H.Candidate(test, s, n) == s.wild && !H.CanSplit(s, s.wild, n) && H.CanGrow(s, n)
  }

  lemma MallocRegion(test: H.Test, s: H.State, n: nat)
    requires H.Inv(s) && n >= H.MIN_WORDS
    ensures H.Malloc(test, s, n).state.region ==
            if Grows(test, s, n) then ExpandTop(s.region, H.GrowthBytes(n)) else s.region
  {
    H.CandidateIsFree(test, s, n);
    if Grows(test, s, n) {
      H.GrowMakesRoom(s, n);
    }
  }

  /** Where the heap's region stands on the manager's list. */
  ghost function At(rs: Regions, r: Region): (i: nat)
    requires r in rs
    ensures i < |rs| && rs[i] == r
  {
    var i :| 0 <= i < |rs| && rs[i] == r;
    i
  }

  /** The expansion a growth by `n` words asks of the manager. */
  ghost function Expansion(m: VF.Machine, s: H.State, n: nat): VF.Op
    requires s.region in m.vmm.regions
  {
    VF.TopOp(At(m.vmm.regions, s.region), H.GrowthBytes(n))
  }

  lemma ExpansionRegions(m: VF.Machine, i: nat, bytes: nat, t: VF.Machine)
    requires V.Inv(m.vmm) && i < |m.vmm.regions| && VF.Steps(m, VF.TopOp(i, bytes), t)
    ensures t.vmm.regions == m.vmm.regions[i := ExpandTop(m.vmm.regions[i], bytes)]
  {
    var ps :| VF.Does(m, VF.TopOp(i, bytes), ps, t);
  }

  /** A growth of the heap is exactly an expansion of its region by the manager: one is granted if and only if the
      other is, and the descriptor the heap reads afterwards is the one on the manager's list. */
  lemma GrowthIsExpansion(m: VF.Machine, s: H.State, n: nat, t: VF.Machine)
    requires VF.Accounted(m) && H.Inv(s) && s.region in m.vmm.regions && s.growth
    ensures VF.Legal(m.vmm, Expansion(m, s, n))
    ensures H.CanGrow(s, n) <==> CanExpandTop(m.vmm.regions[At(m.vmm.regions, s.region)], H.GrowthBytes(n))
    ensures VF.Steps(m, Expansion(m, s, n), t) ==>
              && VF.Accounted(t)
              && t.vmm.regions == m.vmm.regions[At(m.vmm.regions, s.region) := ExpandTop(s.region, H.GrowthBytes(n))]
              && (H.CanGrow(s, n) ==> H.Grow(s, n).region in t.vmm.regions)
  {
    var i := At(m.vmm.regions, s.region);
    if VF.Steps(m, Expansion(m, s, n), t) {
      VF.StepKeepsAccount(m, Expansion(m, s, n), t);
      ExpansionRegions(m, i, H.GrowthBytes(n), t);
      assert t.vmm.regions[i] == ExpandTop(s.region, H.GrowthBytes(n));
    }
  }

  // ----------------------------------------------------------- other operations of the manager

  /** The operation is not on the heap's own region. */
  ghost predicate Spares(s: V.State, op: VF.Op, r: Region)
    requires VF.Legal(s, op)
  {
    match op
    case TopOp(i, _) => s.regions[i] != r
    case BottomOp(i, _) => s.regions[i] != r
    case DeallocateOp(i) => s.regions[i] != r
    case _ => true
  }

  lemma CutSpares(rs: Regions, k: nat, cut: Region, r: Region)
    requires k < |rs| && rs[k].start <= cut.start && End(cut) <= End(rs[k]) && r in rs && r != rs[k]
    ensures r in Cut(rs, k, cut)
  {
    assert rs == rs[..k] + [rs[k]] + rs[k + 1..];
  }

  lemma {:induction false} InTaken(rs: Regions, r: Region)
    requires !IsFree(r.kind)
    ensures r in rs <==> r in Taken(rs)
    decreases |rs|
  {
    if rs != [] {
      InTaken(rs[1..], r);
      assert rs == [rs[0]] + rs[1..];
    }
  }

  lemma DeallocateSpares(rs: Regions, i: nat, r: Region)
    requires i < |rs| && !IsFree(rs[i].kind) && r in rs && r != rs[i] && !IsFree(r.kind)
    ensures r in Deallocated(rs, i)
  {
    DeallocateTaken(rs, i);
    InTaken(rs, r);
    InTaken(Deallocated(rs, i), r);
  }

  /** The region of a live handle stays on the list through every operation that is not on it. */
  lemma StaysListed(s: V.State, op: VF.Op, fs: seq<nat>, r: Region)
    requires V.Inv(s) && VF.Legal(s, op) && Spares(s, op, r) && r in s.regions && !IsFree(r.kind)
    ensures r in VF.Managed(s, op, fs).regions
  {
    match op
    case IdentityOp(paddr, size) =>
      if V.IdentityMap(s, paddr, size).Some? {
        CutSpares(s.regions, FindAddress(s.regions, paddr, 0), Region(paddr, size, 0, 0, Identity), r);
      }
    case CopyOp(_, _, vaddr, size, _) =>
      if V.CopyMapping(s, VF.CopySource(op), vaddr, size).Some? {
        CutSpares(s.regions, FindAddress(s.regions, vaddr, 0), Region(vaddr, size, 0, 0, MemoryMapping), r);
      }
    case MapOp(paddr, size, _) => MapStaysListed(s, paddr, size, r);
    case AllocateOp(kind, size, upper, lower) => AllocateStaysListed(s, kind, size, upper, lower, fs, r);
    case TopOp(i, bytes) => UpdateSpares(s.regions, i, ExpandTop(s.regions[i], bytes), r);
    case BottomOp(i, bytes) => UpdateSpares(s.regions, i, ExpandBottom(s.regions[i], bytes), r);
    case DeallocateOp(i) => DeallocateSpares(s.regions, i, r);
  }

  lemma UpdateSpares(rs: Regions, i: nat, x: Region, r: Region)
    requires i < |rs| && r in rs && rs[i] != r
    ensures r in rs[i := x]
  {
    var j :| 0 <= j < |rs| && rs[j] == r;
    assert rs[i := x][j] == r;
  }

  lemma MapStaysListed(s: V.State, paddr: nat, size: nat, r: Region)
    requires WellFormed(s.regions) && r in s.regions && !IsFree(r.kind)
    ensures r in V.OrElse(V.MemoryMap(s, paddr, size), s).regions
  {
    var total := size + 2 * V.MAP_PADDING;
    var k := V.Space(s, total);
    if k.Some? {
      CutSpares(s.regions, k.value, Region(s.regions[k.value].start, total, V.MAP_PADDING, V.MAP_PADDING, MemoryMapping), r);
    }
  }

  lemma AllocateStaysListed(s: V.State, kind: Kind, size: nat, upper: nat, lower: nat, fs: seq<nat>, r: Region)
    requires s.regions != [] && r in s.regions && !IsFree(r.kind)
    ensures r in V.OrElse(V.Allocate(s, kind, size, upper, lower, fs), s).regions
  {
    var k := V.Space(s, size + lower + upper);
    if k.Some? {
      CutSpares(s.regions, k.value, Region(s.regions[k.value].start, size + lower + upper, lower, upper, kind), r);
    }
  }

  lemma StaysListedStep(m: VF.Machine, op: VF.Op, r: Region, t: VF.Machine)
    requires V.Inv(m.vmm) && VF.Legal(m.vmm, op) && Spares(m.vmm, op, r) && r in m.vmm.regions && !IsFree(r.kind)
    requires VF.Steps(m, op, t)
    ensures r in t.vmm.regions
  {
    var ps :| VF.Does(m, op, ps, t);
    StaysListed(m.vmm, op, VF.M.FramesTaken(ps, |ps| - 1), r);
  }

  // ----------------------------------------------------------- runs of the whole kernel

  datatype Op = Request(bytes: nat) | Release(at: nat) | EnableGrowth | Manage(op: VF.Op)

  /** With the test as written a request must be one it serves; with the intended test nothing is asked of it. */
  ghost predicate Legal(test: H.Test, k: Kernel, op: Op)
    requires HR.Good(k.heap)
  {
    match op
    case Request(bytes) => test.AsWritten? ==> HR.Served(test, k.heap.heap, H.Words(bytes))
    case Release(a) => a in k.heap.held
    case EnableGrowth => true
    case Manage(o) => VF.Legal(k.machine.vmm, o) && Spares(k.machine.vmm, o, k.heap.heap.region)
  }

  lemma LegalIsServed(test: H.Test, k: Kernel, bytes: nat)
    requires HR.Good(k.heap) && Legal(test, k, Request(bytes))
    ensures HR.Served(test, k.heap.heap, H.Words(bytes))
  {
    if test.Intended? {
      HR.IntendedServes(k.heap.heap, H.Words(bytes));
    }
  }

  /** What the request does to the manager: nothing, or the expansion a growth asks for. */
  ghost predicate Behind(test: H.Test, k: Kernel, bytes: nat, m: VF.Machine)
    requires Inv(k)
  {
    var n := H.Words(bytes);
    if Grows(test, k.heap.heap, n) then
      GrowthIsExpansion(k.machine, k.heap.heap, n, m);
      VF.Steps(k.machine, Expansion(k.machine, k.heap.heap, n), m)
    else m == k.machine
  }

  /** One operation; a panic has no next state. */
  ghost predicate Steps(test: H.Test, k: Kernel, op: Op, t: Kernel)
    requires Inv(k) && Legal(test, k, op)
  {
    match op
    case Request(bytes) =>
      LegalIsServed(test, k, bytes);
      && !H.Malloc(test, k.heap.heap, H.Words(bytes)).outcome.OutOfMemory?
      && t.heap == HR.Exec(test, k.heap, HR.MallocOp(bytes)) && Behind(test, k, bytes, t.machine)
    case Release(a) => t == k.(heap := HR.Exec(test, k.heap, HR.FreeOp(a)))
    case EnableGrowth => t == k.(heap := HR.Exec(test, k.heap, HR.EnableOp))
    case Manage(o) => t.heap == k.heap && VF.Steps(k.machine, o, t.machine)
  }

  lemma MallocKeepsInv(test: H.Test, k: Kernel, bytes: nat, t: Kernel)
    requires Inv(k) && Legal(test, k, Request(bytes)) && Steps(test, k, Request(bytes), t)
    ensures Inv(t)
  {
    var n := H.Words(bytes);
    LegalIsServed(test, k, bytes);
    HR.ExecGood(test, k.heap, HR.MallocOp(bytes));
    MallocRegion(test, k.heap.heap, n);
    if Grows(test, k.heap.heap, n) {
      GrowthIsExpansion(k.machine, k.heap.heap, n, t.machine);
    }
  }

  lemma FreeKeepsRegion(test: H.Test, k: HR.Kernel, a: nat)
    requires HR.Good(k) && a in k.held
    ensures HR.Exec(test, k, HR.FreeOp(a)).heap.region == k.heap.region
  {
    assert a in HR.Live(k.heap.chunks);
  }

  lemma FreeKeepsInv(test: H.Test, k: Kernel, a: nat, t: Kernel)
    requires Inv(k) && a in k.heap.held && Steps(test, k, Release(a), t)
    ensures Inv(t)
  {
    HR.ExecGood(test, k.heap, HR.FreeOp(a));
    FreeKeepsRegion(test, k.heap, a);
  }

  lemma HeapInUse(k: Kernel)
    requires HR.Good(k.heap)
    ensures !IsFree(k.heap.heap.region.kind)
  {
  }

  lemma ManageKeepsInv(test: H.Test, k: Kernel, o: VF.Op, t: Kernel)
    requires Inv(k) && Legal(test, k, Manage(o)) && Steps(test, k, Manage(o), t)
    ensures Inv(t)
  {
    VF.StepKeepsAccount(k.machine, o, t.machine);
    HeapInUse(k);
    StaysListedStep(k.machine, o, k.heap.heap.region, t.machine);
  }

  lemma StepKeepsInv(test: H.Test, k: Kernel, op: Op, t: Kernel)
    requires Inv(k) && Legal(test, k, op) && Steps(test, k, op, t)
    ensures Inv(t)
  {
    match op
    case Request(bytes) => MallocKeepsInv(test, k, bytes, t);
    case Release(a) => FreeKeepsInv(test, k, a, t);
    case EnableGrowth => HR.ExecGood(test, k.heap, HR.EnableOp);
    case Manage(o) => ManageKeepsInv(test, k, o, t);
  }

  lemma StepGrows(test: H.Test, k: Kernel, op: Op, t: Kernel)
    requires Inv(k) && Legal(test, k, op) && Steps(test, k, op, t)
    ensures VF.Grew(k.machine, t.machine, true)
  {
    if op.Manage? {
      VF.StepGrows(k.machine, op.op, t.machine);
    } else if op.Request? && Grows(test, k.heap.heap, H.Words(op.bytes)) {
      GrowthIsExpansion(k.machine, k.heap.heap, H.Words(op.bytes), t.machine);
      VF.StepGrows(k.machine, Expansion(k.machine, k.heap.heap, H.Words(op.bytes)), t.machine);
    }
  }

  ghost predicate Runs(test: H.Test, k: Kernel, ops: seq<Op>, t: Kernel)
    requires Inv(k)
    decreases |ops|
  {
    if ops == [] then t == k
    else
      Legal(test, k, ops[0]) &&
      exists n :: Steps(test, k, ops[0], n) && (StepKeepsInv(test, k, ops[0], n); Runs(test, n, ops[1..], t))
  }

  lemma FirstStep(test: H.Test, k: Kernel, ops: seq<Op>, t: Kernel) returns (n: Kernel)
    requires Inv(k) && Runs(test, k, ops, t) && ops != []
    ensures Inv(n) && VF.Grew(k.machine, n.machine, true) && Runs(test, n, ops[1..], t)
  {
    n :| Steps(test, k, ops[0], n) && (StepKeepsInv(test, k, ops[0], n); Runs(test, n, ops[1..], t));
    StepKeepsInv(test, k, ops[0], n);
    StepGrows(test, k, ops[0], n);
  }

  lemma {:induction false} RunKeepsInv(test: H.Test, k: Kernel, ops: seq<Op>, t: Kernel)
    requires Inv(k) && Runs(test, k, ops, t)
    ensures Inv(t) && VF.Grew(k.machine, t.machine, true)
    decreases |ops|
  {
    if ops != [] {
      var n := FirstStep(test, k, ops, t);
      RunKeepsInv(test, n, ops[1..], t);
      VF.GrewTwice(k.machine, n.machine, t.machine, true, true);
    }
  }

  /** Every page of the heap has a frame of its own, and the tables translate it there, present and writable
      on every level. */
  lemma HeapIsMapped(k: Kernel, v: nat)
    requires Inv(k) && v % PAGE == 0 && 8 * k.heap.heap.lo <= v < 8 * k.heap.heap.hi
    ensures v in k.machine.vmm.owned && k.machine.vmm.owned[v] in k.machine.paged.frames.live
    ensures VF.Reported(k.machine, v) == Paging.MapState(Words.Word(k.machine.vmm.owned[v]), 3, true)
    ensures VF.Writable(k.machine, v)
  {
    var s, r := k.machine.vmm, k.heap.heap.region;
    var i := At(s.regions, r);
    SpotOf(s.regions, i, v);
    assert V.OwnedPage(s.regions, v);
    assert v in s.pages;
    VF.MappedIsCanonical(s, v);
    VF.TablesAgree(k.machine, v);
    VF.OwnedIsWritable(k.machine, v);
  }

  // ----------------------------------------------------------- from boot

  /** The blocks held are safe; the heap is exactly the window of a region on the manager's list; and every page of
      it translates to a held frame. */
  ghost predicate Sound(k: Kernel) {
    var s, r := k.heap.heap, k.heap.heap.region;
    && HR.Safe(k.heap) && r in k.machine.vmm.regions && Padded(r)
    && WindowStart(r) == 8 * s.lo && WindowEnd(r) == 8 * s.hi
    && forall v | v % PAGE == 0 && 8 * s.lo <= v < 8 * s.hi :: HeapPage(k, v)
  }

  ghost predicate HeapPage(k: Kernel, v: nat) {
    && v in k.machine.vmm.owned && k.machine.vmm.owned[v] in k.machine.paged.frames.live
    && VF.Reported(k.machine, v) == Paging.MapState(Words.Word(k.machine.vmm.owned[v]), 3, true)
    && VF.Writable(k.machine, v)
  }

  lemma InvIsSound(k: Kernel)
    requires Inv(k)
    ensures Sound(k)
  {
    HR.GoodIsSafe(k.heap);
    V.RegionPlaced(k.machine.vmm, At(k.machine.vmm.regions, k.heap.heap.region));
    forall v: nat | v % PAGE == 0 && 8 * k.heap.heap.lo <= v < 8 * k.heap.heap.hi ensures HeapPage(k, v) {
      HeapIsMapped(k, v);
    }
  }

  /** From a machine as it boots, any operations of the manager and then kheap_init lead to `k`. */
  ghost predicate Boots(b: VF.Machine, before: seq<VF.Op>, m: VF.Machine, k: Kernel) {
    && VF.Boot(b)
    && (VF.BootAccounted(b); VF.Runs(b, before, m))
    && (VF.BootAccounted(b); VF.RunKeepsAccount(b, before, m); KernelHeapLegal(m.vmm); VF.Steps(m, KHEAP, k.machine))
    && (VF.BootAccounted(b); VF.RunKeepsAccount(b, before, m); KernelHeapLegal(m.vmm);
        HeapBoots(m, HEAP_SIZE, HEAP_MAX, HEAP_LOW_PADDING, k.machine);
        k.heap == HR.Kernel(H.Init(HeapRegion(m, HEAP_SIZE, HEAP_MAX, HEAP_LOW_PADDING)), map[]))
  }

  lemma BootKeepsInv(b: VF.Machine, before: seq<VF.Op>, m: VF.Machine, k: Kernel)
    requires Boots(b, before, m, k)
    ensures Inv(k) && VF.Grew(b, k.machine, true)
  {
    VF.BootAccounted(b);
    VF.RunKeepsAccount(b, before, m);
    KernelHeapLegal(m.vmm);
    HeapBoots(m, HEAP_SIZE, HEAP_MAX, HEAP_LOW_PADDING, k.machine);
    VF.RunGrows(b, before, m);
    VF.StepGrows(m, KHEAP, k.machine);
    VF.GrewTwice(b, m, k.machine, VF.Copies(before), false);
  }

  /** The kernel heap starts as one free block in a window of 4 MB, with 16 KB below it that are never mapped and
      8 GB above it to grow into, and does not grow until it is told to. */
  lemma KernelHeapStarts(b: VF.Machine, before: seq<VF.Op>, m: VF.Machine, k: Kernel)
    requires Boots(b, before, m, k)
    ensures var s, r := k.heap.heap, k.heap.heap.region;
      && r.kind == Heap && r.lower == 16384 && r.upper == 8589934592 && r.size == 16384 + 4194304 + 8589934592
      && 8 * s.lo == r.start + 16384 && s.hi == s.lo + 524288 && !s.growth
      && s.chunks == map[s.lo := H.Chunk(524286, true)] && s.wild == s.lo && k.heap.held == map[]
  {
    BootKeepsInv(b, before, m, k);
    KernelRegion(k.heap.heap.region);
  }

  /** From boot on, over every run of requests, releases, growth and operations of the manager on other regions: the
      blocks held are safe, the heap is exactly the window of its region, every page of it translates to a frame of
      its own, and every frame is accounted for.  With the intended test nothing is asked of requests. */
  lemma EveryRunIsSafe(b: VF.Machine, before: seq<VF.Op>, m: VF.Machine, k: Kernel, test: H.Test, ops: seq<Op>, t: Kernel)
    requires Boots(b, before, m, k) && (BootKeepsInv(b, before, m, k); Runs(test, k, ops, t))
    ensures Sound(t) && VF.Accounted(t.machine) && VF.Grew(b, t.machine, true)
  {
    BootKeepsInv(b, before, m, k);
    RunKeepsInv(test, k, ops, t);
    VF.GrewTwice(b, k.machine, t.machine, true, true);
    InvIsSound(t);
  }
}

/** The virtual memory manager on the page tables it writes and the frame allocator it draws from
    (kernel/mem/vmm.c, kernel/HAL/x86-64/x64-memory.c, kernel/mem/frame_allocator.c). */
module VmmFrames {
  import opened Basics
  import opened Region
  import opened VmmModel
  import opened VmmProofs
  import opened VmmRuns
  import M = Mapping
  import P = PageTables
  import TableAccess
  import Paging
  import Words

  /** The manager, the frame allocator with the tables, and the root of the kernel's paging structure. */
  datatype Machine = Machine(vmm: State, paged: M.Paged, root: P.Frame)

  /** The tables map exactly the manager's pages, and every frame held is one of its data frames, one of the tables
      or somebody else's. */
  ghost predicate Accounted(m: Machine) {
    Inv(m.vmm) && M.Backed(m.paged, m.root, m.vmm.pages, m.vmm.owned)
  }

  // ----------------------------------------------------------- operations

  /** A copy is given the source's entries and the number of tables the source lacks at each page. */
  datatype Op =
    | IdentityOp(paddr: nat, size: nat)
    | CopyOp(entries: map<nat, bv64>, missing: map<nat, nat>, vaddr: nat, size: nat, flags: bv16)
    | MapOp(paddr: nat, size: nat, flags: bv16)
    | AllocateOp(kind: Kind, size: nat, upper: nat, lower: nat)
    | TopOp(i: nat, bytes: nat)
    | BottomOp(i: nat, bytes: nat)
    | DeallocateOp(i: nat)

  predicate Legal(s: State, op: Op) {
    match op
    case IdentityOp(paddr, size) => paddr % PAGE == 0 && size % PAGE == 0
    case CopyOp(_, _, vaddr, size, _) => vaddr % PAGE == 0 && size % PAGE == 0
    case MapOp(_, size, _) => size % PAGE == 0
    case AllocateOp(kind, size, upper, lower) =>
      Owned(kind) && (size + lower + upper) % PAGE == 0 && upper % PAGE == 0 && lower % PAGE == 0
    case TopOp(i, _) => i < |s.regions|
    case BottomOp(i, _) => i < |s.regions|
    case DeallocateOp(i) => i < |s.regions| && !IsFree(s.regions[i].kind) && !ReadsPastEnd(s.regions, i)
  }

  /** There is room; without it the two operations that search for space panic. */
  predicate Roomy(s: State, op: Op)
    requires s.regions != []
  {
    match op
    case MapOp(_, size, _) => Space(s, size + 2 * MAP_PADDING).Some?
    case AllocateOp(_, size, upper, lower) => Space(s, size + lower + upper).Some?
    case _ => true
  }

  function Physical(paddr: nat, size: nat): seq<nat> {
    seq(size / PAGE, i => paddr + i * PAGE)
  }

  /** The mappings a copy takes over. */
  function CopySource(op: Op): map<nat, nat>
    requires op.CopyOp?
  {
    M.Source(op.vaddr, op.size / PAGE, op.entries, op.flags)
  }

  /** The page the mapping loop starts at. */
  function Base(s: State, op: Op): nat
    requires s.regions != [] && Legal(s, op) && Roomy(s, op)
  {
    match op
    case IdentityOp(paddr, _) => paddr
    case CopyOp(_, _, vaddr, _, _) => vaddr
    case MapOp(_, size, _) => s.regions[Space(s, size + 2 * MAP_PADDING).value].start + MAP_PADDING
    case AllocateOp(_, size, upper, lower) => s.regions[Space(s, size + lower + upper).value].start + lower
    case TopOp(i, _) => if Padded(s.regions[i]) then WindowEnd(s.regions[i]) else 0
    case BottomOp(i, bytes) => WindowStart(ExpandBottom(s.regions[i], bytes))
    case DeallocateOp(i) => WindowStart(s.regions[i])
  }

  /** The rounds of the loop an operation runs over its window. */
  function Acts(s: State, op: Op): seq<M.Act>
    requires s.regions != [] && Legal(s, op) && Roomy(s, op)
  {
    var w := Base(s, op);
    match op
    case IdentityOp(_, _) => []
    case CopyOp(entries, missing, vaddr, size, flags) =>
      if CopyMapping(s, CopySource(op), vaddr, size).Some? then M.CopyActs(w, size / PAGE, entries, flags, missing) else []
    case MapOp(paddr, size, flags) => M.WriteActs(w, Physical(paddr, size), flags)
    case AllocateOp(_, size, _, _) => M.FreshActs(w, PagesFor(size))
    case TopOp(i, bytes) => if CanExpandTop(s.regions[i], bytes) then M.FreshActs(w, RoundUp(bytes) / PAGE) else []
    case BottomOp(i, bytes) => if CanExpandBottom(s.regions[i], bytes) then M.FreshActs(w, RoundUp(bytes) / PAGE) else []
    case DeallocateOp(i) =>
      if Padded(s.regions[i]) then M.UnmapActs(w, WindowSize(s.regions[i]) / PAGE, Owned(s.regions[i].kind)) else []
  }

  /** What the operation does to the manager, given the data frames its loop takes. */
  ghost function Managed(s: State, op: Op, frames: seq<nat>): State
    requires Inv(s) && Legal(s, op)
  {
    match op
    case IdentityOp(paddr, size) => OrElse(IdentityMap(s, paddr, size), s)
    case CopyOp(_, _, vaddr, size, _) => OrElse(CopyMapping(s, CopySource(op), vaddr, size), s)
    case MapOp(paddr, size, _) => OrElse(MemoryMap(s, paddr, size), s)
    case AllocateOp(kind, size, upper, lower) => OrElse(Allocate(s, kind, size, upper, lower, frames), s)
    case TopOp(i, bytes) => RegionPlaced(s, i); WindowAligned(s.regions[i]); ExpandedTop(s, i, bytes, frames)
    case BottomOp(i, bytes) => RegionPlaced(s, i); WindowAligned(s.regions[i]); ExpandedBottom(s, i, bytes, frames)
    case DeallocateOp(i) => RegionPlaced(s, i); Deallocate(s, i)
  }

  /** The operation changes the list and then runs its loop, each round drawing what it needs from the frame
      allocator; a round that finds no frame is a panic, and nothing follows. */
  ghost predicate Does(m: Machine, op: Op, ps: seq<M.Paged>, t: Machine)
    requires Inv(m.vmm) && Legal(m.vmm, op)
  {
    && Roomy(m.vmm, op)
    && M.Rounds(ps, Acts(m.vmm, op), m.root) && ps[0] == m.paged
    && t == Machine(Managed(m.vmm, op, M.FramesTaken(ps, |ps| - 1)), ps[|ps| - 1], m.root)
  }

  ghost predicate Steps(m: Machine, op: Op, t: Machine)
    requires Inv(m.vmm) && Legal(m.vmm, op)
  {
    exists ps :: Does(m, op, ps, t)
  }

  // ----------------------------------------------------------- every step keeps the account

  /** A window inside a region lies in one half of the address space. */
  lemma InZone(r: Region, w: nat, n: nat)
    requires Placed(r) && w % PAGE == 0 && r.start <= w && w + n * PAGE <= End(r)
    ensures M.Window(w, n)
  {
  }

  lemma KeysAligned(s: State)
    requires Inv(s)
    ensures M.PageKeys(s.pages) && M.PageKeys(s.owned)
  {
    PagesAligned(s);
  }

  /** Nothing in free space is owned. */
  lemma FreeUnowned(s: State, k: nat, w: nat, n: nat)
    requires Inv(s) && k < |s.regions| && IsFree(s.regions[k].kind) && s.regions[k].start <= w && w + n * PAGE <= End(s.regions[k])
    ensures M.Unowned(s.owned, w, n)
  {
    forall i | 0 <= i < n ensures w + i * PAGE !in s.owned {
      FreeIsUnmapped(s, k, w + i * PAGE);
    }
  }

  /** The padding of a region has no frames. */
  lemma PaddingUnowned(s: State, i: nat, v: nat)
    requires Inv(s) && i < |s.regions| && s.regions[i].start <= v < End(s.regions[i]) && !SpotIn(s.regions[i], v).inside
    ensures v !in s.owned
  {
    SpotOf(s.regions, i, v);
    assert v in s.owned ==> OwnedPage(s.regions, v);
  }

  /** A region of another kind has no frames of its own. */
  lemma NothingOwned(s: State, i: nat, v: nat)
    requires Inv(s) && i < |s.regions| && !Owned(s.regions[i].kind) && s.regions[i].start <= v < End(s.regions[i])
    ensures v !in s.owned
  {
    SpotOf(s.regions, i, v);
    assert v in s.owned ==> OwnedPage(s.regions, v);
  }

  lemma WholeBytes(bytes: nat, n: nat)
    requires n == RoundUp(bytes) / PAGE
    ensures n * PAGE == RoundUp(bytes)
  {
  }

  lemma IdentityKept(m: Machine, op: Op, ps: seq<M.Paged>, t: Machine)
    requires Accounted(m) && Legal(m.vmm, op) && op.IdentityOp? && Does(m, op, ps, t)
    ensures Accounted(t)
  {
    IdentityMapKeepsInv(m.vmm, op.paddr, op.size);
  }

  lemma CopyWindow(s: State, op: Op)
    requires Inv(s) && Legal(s, op) && op.CopyOp? && CopyMapping(s, CopySource(op), op.vaddr, op.size).Some?
    ensures M.Window(op.vaddr, op.size / PAGE) && M.Unowned(s.owned, op.vaddr, op.size / PAGE)
  {
    var k := FindAddress(s.regions, op.vaddr, 0);
    RegionPlaced(s, k);
    InZone(s.regions[k], op.vaddr, op.size / PAGE);
    FreeUnowned(s, k, op.vaddr, op.size / PAGE);
  }

  lemma CopyMaps(s: State, src: map<nat, nat>, vaddr: nat, size: nat)
    requires s.regions != [] && CopyMapping(s, src, vaddr, size).Some? && size % PAGE == 0
    ensures var t := CopyMapping(s, src, vaddr, size).value;
      t.owned == s.owned && t.pages == M.Mixed(s.pages, src, vaddr, size / PAGE)
  {
    assert size / PAGE * PAGE == size;
  }

  lemma CopyIs(s: State, op: Op)
    requires Inv(s) && Legal(s, op) && op.CopyOp? && CopyMapping(s, CopySource(op), op.vaddr, op.size).Some?
    ensures var t := CopyMapping(s, CopySource(op), op.vaddr, op.size).value;
      Inv(t) && t.owned == s.owned && t.pages == M.Mixed(s.pages, CopySource(op), op.vaddr, op.size / PAGE)
  {
    CopyMaps(s, CopySource(op), op.vaddr, op.size);
    CopyMappingKeepsInv(s, CopySource(op), op.vaddr, op.size);
  }

  lemma CopyKept(m: Machine, op: Op, ps: seq<M.Paged>, t: Machine)
    requires Accounted(m) && Legal(m.vmm, op) && op.CopyOp? && Does(m, op, ps, t)
    ensures Accounted(t)
  {
    var s := m.vmm;
    if CopyMapping(s, CopySource(op), op.vaddr, op.size).Some? {
      CopyWindow(s, op);
      CopyIs(s, op);
      KeysAligned(s);
      M.CopyLoop(ps, m.root, op.vaddr, op.size / PAGE, op.entries, op.flags, op.missing, s.pages, s.owned);
    }
  }

  lemma MapWindow(s: State, op: Op)
    requires Inv(s) && Legal(s, op) && op.MapOp? && Roomy(s, op)
    ensures M.Window(Base(s, op), op.size / PAGE) && M.Unowned(s.owned, Base(s, op), op.size / PAGE)
  {
    var k := Space(s, op.size + 2 * MAP_PADDING).value;
    RegionPlaced(s, k);
    WholePages(s.regions[k].start, MAP_PADDING);
    InZone(s.regions[k], Base(s, op), op.size / PAGE);
    FreeUnowned(s, k, Base(s, op), op.size / PAGE);
  }

  lemma MapIs(s: State, op: Op)
    requires Inv(s) && Legal(s, op) && op.MapOp? && Roomy(s, op)
    ensures var t := MemoryMap(s, op.paddr, op.size);
      && Base(s, op) % PAGE == 0 && t.Some? && Inv(t.value)
      && t.value.owned == s.owned && t.value.pages == s.pages + Range(Base(s, op), Physical(op.paddr, op.size))
  {
    MapWindow(s, op);
    MemoryMapKeepsInv(s, op.paddr, op.size);
    PhysicalIs(s, op);
  }

  lemma PhysicalIs(s: State, op: Op)
    requires Inv(s) && Legal(s, op) && op.MapOp? && Roomy(s, op) && Base(s, op) % PAGE == 0
    ensures var t := MemoryMap(s, op.paddr, op.size);
      t.Some? && t.value.owned == s.owned && t.value.pages == s.pages + Range(Base(s, op), Physical(op.paddr, op.size))
  {
    var k, w := FindSpace(s.regions, op.size + 2 * MAP_PADDING, 0), Base(s, op);
    var r := Region(s.regions[k].start, op.size + 2 * MAP_PADDING, MAP_PADDING, MAP_PADDING, MemoryMapping);
    var fs := Physical(op.paddr, op.size);
    MemoryMapIs(s, op.paddr, op.size, fs, r, State(Cut(s.regions, k, r), s.pages + Range(w, fs), s.owned));
  }

  lemma MapKept(m: Machine, op: Op, ps: seq<M.Paged>, t: Machine)
    requires Accounted(m) && Legal(m.vmm, op) && op.MapOp? && Does(m, op, ps, t)
    ensures Accounted(t)
  {
    var s := m.vmm;
    MapWindow(s, op);
    MapIs(s, op);
    KeysAligned(s);
    M.WriteLoop(ps, m.root, Base(s, op), Physical(op.paddr, op.size), op.flags, s.pages, s.owned);
  }

  /** An operation that maps `n` pages from `w` on, given fresh frames for them. */
  ghost predicate Extends(s: State, op: Op, w: nat, n: nat)
    requires Inv(s) && Legal(s, op)
  {
    && M.Window(w, n) && M.Unowned(s.owned, w, n)
    && forall fs | |fs| == n && Fresh(s.owned, fs) :: ExtendsWith(s, op, w, fs)
  }

  ghost predicate ExtendsWith(s: State, op: Op, w: nat, fs: seq<nat>)
    requires Inv(s) && Legal(s, op) && w % PAGE == 0
  {
    var t := Managed(s, op, fs);
    Inv(t) && t.pages == s.pages + Range(w, fs) && t.owned == s.owned + Range(w, fs)
  }

  lemma AllocateWindow(s: State, op: Op)
    requires Inv(s) && Legal(s, op) && op.AllocateOp? && Roomy(s, op)
    ensures M.Window(Base(s, op), PagesFor(op.size)) && M.Unowned(s.owned, Base(s, op), PagesFor(op.size))
  {
    var k := Space(s, op.size + op.lower + op.upper).value;
    var w, n := Base(s, op), PagesFor(op.size);
    RegionPlaced(s, k);
    WholeSize(op.size, op.lower, op.upper, seq(n, _ => 0));
    WholeStart(s.regions[k].start, op.lower);
    InZone(s.regions[k], w, n);
    FreeUnowned(s, k, w, n);
  }

  lemma AllocateMaps(s: State, op: Op, fs: seq<nat>)
    requires Inv(s) && Legal(s, op) && op.AllocateOp? && Roomy(s, op) && Base(s, op) % PAGE == 0
    ensures var t := Allocate(s, op.kind, op.size, op.upper, op.lower, fs);
      t.Some? && t.value.pages == s.pages + Range(Base(s, op), fs) && t.value.owned == s.owned + Range(Base(s, op), fs)
  {
    var k, w := Space(s, op.size + op.lower + op.upper).value, Base(s, op);
    var r := Region(s.regions[k].start, op.size + op.lower + op.upper, op.lower, op.upper, op.kind);
    assert PageOf(WindowStart(r)) == w;
    AllocateIs(s, op.kind, op.size, op.upper, op.lower, fs, r,
               State(Cut(s.regions, k, r), s.pages + Range(w, fs), s.owned + Range(w, fs)));
  }

  lemma AllocateWith(s: State, op: Op, fs: seq<nat>)
    requires Inv(s) && Legal(s, op) && op.AllocateOp? && Roomy(s, op) && Base(s, op) % PAGE == 0
    requires |fs| == PagesFor(op.size) && Fresh(s.owned, fs)
    ensures ExtendsWith(s, op, Base(s, op), fs)
  {
    AllocateKeepsInv(s, op.kind, op.size, op.upper, op.lower, fs);
    AllocateMaps(s, op, fs);
  }

  lemma AllocateExtends(s: State, op: Op)
    requires Inv(s) && Legal(s, op) && op.AllocateOp? && Roomy(s, op)
    ensures Extends(s, op, Base(s, op), PagesFor(op.size))
  {
    AllocateWindow(s, op);
    forall fs | |fs| == PagesFor(op.size) && Fresh(s.owned, fs) ensures ExtendsWith(s, op, Base(s, op), fs) {
      AllocateWith(s, op, fs);
    }
  }

  lemma TopWindow(s: State, op: Op)
    requires Inv(s) && Legal(s, op) && op.TopOp? && CanExpandTop(s.regions[op.i], op.bytes)
    ensures M.Window(Base(s, op), RoundUp(op.bytes) / PAGE) && M.Unowned(s.owned, Base(s, op), RoundUp(op.bytes) / PAGE)
  {
    var w, n := Base(s, op), RoundUp(op.bytes) / PAGE;
    RegionPlaced(s, op.i);
    WindowAligned(s.regions[op.i]);
    WholeBytes(op.bytes, n);
    InZone(s.regions[op.i], w, n);
    forall i | 0 <= i < n ensures w + i * PAGE !in s.owned {
      PaddingUnowned(s, op.i, w + i * PAGE);
    }
  }

  lemma TopExtends(s: State, op: Op)
    requires Inv(s) && Legal(s, op) && op.TopOp? && CanExpandTop(s.regions[op.i], op.bytes)
    ensures Extends(s, op, Base(s, op), RoundUp(op.bytes) / PAGE)
  {
    TopWindow(s, op);
    WholeBytes(op.bytes, RoundUp(op.bytes) / PAGE);
    forall fs | |fs| == RoundUp(op.bytes) / PAGE && Fresh(s.owned, fs) ensures ExtendsWith(s, op, Base(s, op), fs) {
      ExpandTopKeepsInv(s, op.i, op.bytes, fs);
    }
  }

  lemma BelowUnowned(s: State, i: nat, w: nat, n: nat)
    requires Inv(s) && i < |s.regions| && s.regions[i].start <= w && w + n * PAGE <= WindowStart(s.regions[i]) <= End(s.regions[i])
    ensures M.Unowned(s.owned, w, n)
  {
    forall k | 0 <= k < n ensures w + k * PAGE !in s.owned {
      PaddingUnowned(s, i, w + k * PAGE);
    }
  }

  lemma BottomWindow(s: State, op: Op)
    requires Inv(s) && Legal(s, op) && op.BottomOp? && CanExpandBottom(s.regions[op.i], op.bytes)
    ensures M.Window(Base(s, op), RoundUp(op.bytes) / PAGE) && M.Unowned(s.owned, Base(s, op), RoundUp(op.bytes) / PAGE)
  {
    var w, n := Base(s, op), RoundUp(op.bytes) / PAGE;
    RegionPlaced(s, op.i);
    WholeBytes(op.bytes, n);
    ExpandBottomIs(s, op.i, op.bytes, []);
    InZone(s.regions[op.i], w, n);
    BelowUnowned(s, op.i, w, n);
  }

  lemma BottomExtends(s: State, op: Op)
    requires Inv(s) && Legal(s, op) && op.BottomOp? && CanExpandBottom(s.regions[op.i], op.bytes)
    ensures Extends(s, op, Base(s, op), RoundUp(op.bytes) / PAGE)
  {
    BottomWindow(s, op);
    RegionPlaced(s, op.i);
    WholeBytes(op.bytes, RoundUp(op.bytes) / PAGE);
    forall fs | |fs| == RoundUp(op.bytes) / PAGE && Fresh(s.owned, fs) ensures ExtendsWith(s, op, Base(s, op), fs) {
      ExpandBottomKeepsInv(s, op.i, op.bytes, fs);
      ExpandBottomIs(s, op.i, op.bytes, fs);
    }
  }

  lemma ExtendsKept(m: Machine, op: Op, ps: seq<M.Paged>, t: Machine, w: nat, n: nat)
    requires Accounted(m) && Legal(m.vmm, op) && Does(m, op, ps, t)
    requires Extends(m.vmm, op, w, n) && Acts(m.vmm, op) == M.FreshActs(w, n)
    ensures Accounted(t)
  {
    KeysAligned(m.vmm);
    M.FreshLoop(ps, m.root, w, n, m.vmm.pages, m.vmm.owned);
    assert ExtendsWith(m.vmm, op, w, M.FramesTaken(ps, n));
  }

  lemma ExpandKept(m: Machine, op: Op, ps: seq<M.Paged>, t: Machine)
    requires Accounted(m) && Legal(m.vmm, op) && (op.TopOp? || op.BottomOp?) && Does(m, op, ps, t)
    ensures Accounted(t)
  {
    var s := m.vmm;
    if op.TopOp? && CanExpandTop(s.regions[op.i], op.bytes) {
      TopExtends(s, op);
      ExtendsKept(m, op, ps, t, Base(s, op), RoundUp(op.bytes) / PAGE);
    } else if op.BottomOp? && CanExpandBottom(s.regions[op.i], op.bytes) {
      BottomExtends(s, op);
      ExtendsKept(m, op, ps, t, Base(s, op), RoundUp(op.bytes) / PAGE);
    }
  }

  lemma WindowOwnership(s: State, i: nat, w: nat, n: nat)
    requires Inv(s) && i < |s.regions| && Placed(s.regions[i])
    requires w == WindowStart(s.regions[i]) && n == WindowSize(s.regions[i]) / PAGE && w + n * PAGE == WindowEnd(s.regions[i])
    ensures M.OwnedOrNot(s.owned, w, n, Owned(s.regions[i].kind))
  {
    forall k | 0 <= k < n ensures (w + k * PAGE in s.owned) == Owned(s.regions[i].kind) {
      if Owned(s.regions[i].kind) {
        WindowIsOwned(s, i, k);
      } else {
        NothingOwned(s, i, w + k * PAGE);
      }
    }
  }

  lemma DeallocateIs(s: State, i: nat)
    requires Inv(s) && i < |s.regions| && !IsFree(s.regions[i].kind)
    ensures Placed(s.regions[i]) && Inv(Deallocate(s, i))
    ensures var r := s.regions[i];
      var w, n := WindowStart(r), WindowSize(r) / PAGE;
      M.Window(w, n) && w + n * PAGE == WindowEnd(r) && M.OwnedOrNot(s.owned, w, n, Owned(r.kind))
  {
    var r := s.regions[i];
    RegionPlaced(s, i);
    WindowAligned(r);
    DeallocateKeepsInv(s, i);
    var w, n := WindowStart(r), WindowSize(r) / PAGE;
    InZone(r, w, n);
    WindowOwnership(s, i, w, n);
  }

  lemma DeallocateUnmaps(s: State, op: Op, fs: seq<nat>, w: nat, n: nat)
    requires Inv(s) && Legal(s, op) && op.DeallocateOp? && Padded(s.regions[op.i])
    requires w == WindowStart(s.regions[op.i]) && w + n * PAGE == WindowEnd(s.regions[op.i])
    ensures var t := Managed(s, op, fs);
      t == Deallocate(s, op.i) && t.pages == Outside(s.pages, w, w + n * PAGE) && t.owned == Outside(s.owned, w, w + n * PAGE)
  {
  }

  lemma DeallocateLoop(m: Machine, op: Op, ps: seq<M.Paged>, t: Machine, w: nat, n: nat)
    requires Accounted(m) && Legal(m.vmm, op) && op.DeallocateOp? && Does(m, op, ps, t) && Padded(m.vmm.regions[op.i])
    requires w == WindowStart(m.vmm.regions[op.i]) && n == WindowSize(m.vmm.regions[op.i]) / PAGE
    requires M.Window(w, n) && M.OwnedOrNot(m.vmm.owned, w, n, Owned(m.vmm.regions[op.i].kind))
    ensures M.Backed(t.paged, m.root, Outside(m.vmm.pages, w, w + n * PAGE), Outside(m.vmm.owned, w, w + n * PAGE))
  {
    KeysAligned(m.vmm);
    var release := Owned(m.vmm.regions[op.i].kind);
    M.UnmapSweeps(w, n, release);
    M.UnmapLoop(ps, m.root, w, n, release, m.vmm.pages, m.vmm.owned);
  }

  lemma DeallocateKept(m: Machine, op: Op, ps: seq<M.Paged>, t: Machine)
    requires Accounted(m) && Legal(m.vmm, op) && op.DeallocateOp? && Does(m, op, ps, t)
    ensures Accounted(t)
  {
    DeallocateIs(m.vmm, op.i);
    var w, n := WindowStart(m.vmm.regions[op.i]), WindowSize(m.vmm.regions[op.i]) / PAGE;
    DeallocateLoop(m, op, ps, t, w, n);
    DeallocateUnmaps(m.vmm, op, M.FramesTaken(ps, |ps| - 1), w, n);
  }

  lemma WindowValues(owned: map<nat, nat>, lo: nat, hi: nat)
    requires Injective(owned) && M.PageKeys(owned)
    ensures Outside(owned, lo, hi).Values + Within(owned, lo, hi).Values == owned.Values
    ensures Outside(owned, lo, hi).Values !! Within(owned, lo, hi).Values
  {
    var a, b := Outside(owned, lo, hi), Within(owned, lo, hi);
    forall f | f in owned.Values ensures f in a.Values + b.Values {
      var v :| v in owned && owned[v] == f;
      assert if lo <= v < hi then b[v] == f else a[v] == f;
    }
    forall v, x | v in a && x in b ensures a[v] != b[x] {
      assert v != x;
    }
  }

  lemma GivesBack(live: set<nat>, live': set<nat>, others: set<nat>, tables: set<nat>, owned: set<nat>, owned': set<nat>, given: set<nat>)
    requires M.Shares(live, others, owned, tables) && M.Shares(live', others, owned', tables)
    requires owned' + given == owned && owned' !! given
    ensures live' == live - given && given <= live
  {
  }

  ghost predicate SharesOf(m: Machine) {
    M.Shares(m.paged.frames.live, m.paged.others, m.vmm.owned.Values, m.paged.tables)
  }

  lemma OwnedGivesBack(m: Machine, t: Machine, lo: nat, hi: nat)
    requires SharesOf(m) && SharesOf(t) && Injective(m.vmm.owned) && M.PageKeys(m.vmm.owned)
    requires t.vmm.owned == Outside(m.vmm.owned, lo, hi) && t.paged.tables == m.paged.tables && t.paged.others == m.paged.others
    ensures var given := Within(m.vmm.owned, lo, hi).Values;
      given <= m.paged.frames.live && t.paged.frames.live == m.paged.frames.live - given
  {
    WindowValues(m.vmm.owned, lo, hi);
    GivesBack(m.paged.frames.live, t.paged.frames.live, m.paged.others, m.paged.tables, m.vmm.owned.Values, t.vmm.owned.Values,
              Within(m.vmm.owned, lo, hi).Values);
  }

  /** The tables and the frames of others when the pages of the window are the region's own. */
  lemma ReleasesOnly(m: Machine, op: Op, t: Machine)
    requires Accounted(m) && Legal(m.vmm, op) && op.DeallocateOp? && Steps(m, op, t) && Owned(m.vmm.regions[op.i].kind)
    ensures t.paged.tables == m.paged.tables && t.paged.others == m.paged.others
  {
    var ps :| Does(m, op, ps, t);
    DeallocateIs(m.vmm, op.i);
    var r := m.vmm.regions[op.i];
    M.UnmapTables(ps, t.paged, m.root, WindowStart(r), WindowSize(r) / PAGE, m.vmm.pages, m.vmm.owned);
  }

  lemma OwnedAfter(m: Machine, op: Op, t: Machine)
    requires Inv(m.vmm) && Legal(m.vmm, op) && op.DeallocateOp? && Steps(m, op, t)
    ensures Placed(m.vmm.regions[op.i])
    ensures var r := m.vmm.regions[op.i]; t.vmm.owned == Outside(m.vmm.owned, WindowStart(r), WindowEnd(r))
    ensures !Owned(m.vmm.regions[op.i].kind) ==> t.vmm.owned == m.vmm.owned
  {
    var ps :| Does(m, op, ps, t);
    DeallocateIs(m.vmm, op.i);
    var r := m.vmm.regions[op.i];
    DeallocateUnmaps(m.vmm, op, M.FramesTaken(ps, |ps| - 1), WindowStart(r), WindowSize(r) / PAGE);
    if !Owned(r.kind) {
      KeysAligned(m.vmm);
      KeepsAll(m.vmm.owned, WindowStart(r), WindowSize(r) / PAGE);
    }
  }

  /** Deallocating a stack, heap or general-use region gives back exactly the frames of its window, and creates no
      table. */
  lemma DeallocateGivesBack(m: Machine, op: Op, t: Machine)
    requires Accounted(m) && Legal(m.vmm, op) && op.DeallocateOp? && Steps(m, op, t)
    requires m.vmm.regions[op.i].kind == Stack || m.vmm.regions[op.i].kind == Heap || m.vmm.regions[op.i].kind == GeneralUse
    ensures Padded(m.vmm.regions[op.i]) && t.paged.tables == m.paged.tables
    ensures var r := m.vmm.regions[op.i];
      var given := Within(m.vmm.owned, WindowStart(r), WindowEnd(r)).Values;
      given <= m.paged.frames.live && t.paged.frames.live == m.paged.frames.live - given
  {
    OwnedAfter(m, op, t);
    ReleasesOnly(m, op, t);
    assert SharesOf(t) by {
      StepKeepsAccount(m, op, t);
    }
    KeysAligned(m.vmm);
    OwnedGivesBack(m, t, WindowStart(m.vmm.regions[op.i]), WindowEnd(m.vmm.regions[op.i]));
  }

  /** Deallocating any other region gives back none. */
  lemma DeallocateKeepsFrames(m: Machine, op: Op, t: Machine)
    requires Accounted(m) && Legal(m.vmm, op) && op.DeallocateOp? && Steps(m, op, t)
    requires m.vmm.regions[op.i].kind == Identity || m.vmm.regions[op.i].kind == MemoryMapping
    ensures m.paged.frames.live <= t.paged.frames.live && t.vmm.owned == m.vmm.owned
  {
    OwnedAfter(m, op, t);
    StepGrows(m, op, t);
    assert SharesOf(t) by {
      StepKeepsAccount(m, op, t);
    }
  }

  lemma KeepsAll(owned: map<nat, nat>, w: nat, n: nat)
    requires M.OwnedOrNot(owned, w, n, false) && M.PageKeys(owned) && w % PAGE == 0
    ensures Outside(owned, w, w + n * PAGE) == owned
  {
    M.MixedGone(owned, w, n);
    M.MixedUnowned(owned, w, n);
  }

  /** Every operation, with all the frames it draws for data and for tables and gives back, keeps the account. */
  lemma StepKeepsAccount(m: Machine, op: Op, t: Machine)
    requires Accounted(m) && Legal(m.vmm, op) && Steps(m, op, t)
    ensures Accounted(t)
  {
    var ps :| Does(m, op, ps, t);
    match op
    case IdentityOp(_, _) => IdentityKept(m, op, ps, t);
    case CopyOp(_, _, _, _, _) => CopyKept(m, op, ps, t);
    case MapOp(_, _, _) => MapKept(m, op, ps, t);
    case AllocateOp(_, size, _, _) =>
      AllocateExtends(m.vmm, op);
      ExtendsKept(m, op, ps, t, Base(m.vmm, op), PagesFor(size));
    case TopOp(_, _) => ExpandKept(m, op, ps, t);
    case BottomOp(_, _) => ExpandKept(m, op, ps, t);
    case DeallocateOp(_) => DeallocateKept(m, op, ps, t);
  }

  lemma NoCopies(s: State, op: Op)
    requires Inv(s) && Legal(s, op) && Roomy(s, op) && !op.CopyOp?
    ensures forall i | 0 <= i < |Acts(s, op)| :: !Acts(s, op)[i].Copy?
  {
  }

  /** Tables once created stay; the frames of others only grow, and stay the same without copies. */
  ghost predicate Grew(m: Machine, t: Machine, copies: bool) {
    && t.root == m.root && m.paged.tables <= t.paged.tables
    && m.paged.others <= t.paged.others && (!copies ==> t.paged.others == m.paged.others)
  }

  lemma StepGrows(m: Machine, op: Op, t: Machine)
    requires Inv(m.vmm) && Legal(m.vmm, op) && Steps(m, op, t)
    ensures Grew(m, t, op.CopyOp?)
  {
    var ps :| Does(m, op, ps, t);
    M.LoopGrows(ps, Acts(m.vmm, op), m.root);
    if !op.CopyOp? {
      NoCopies(m.vmm, op);
    }
  }

  lemma AllocateRegions(s: State, op: Op, fs: seq<nat>, k: nat, r: Region)
    requires Inv(s) && Legal(s, op) && op.AllocateOp? && Space(s, op.size + op.lower + op.upper) == Some(k)
    requires r == Region(s.regions[k].start, op.size + op.lower + op.upper, op.lower, op.upper, op.kind)
    ensures k < |Managed(s, op, fs).regions| && Managed(s, op, fs).regions[k] == r
  {
    CutHolds(s.regions, k, r);
  }

  /** The region a successful allocation has added. */
  lemma AllocateAdds(m: Machine, op: Op, t: Machine) returns (k: nat, r: Region)
    requires Inv(m.vmm) && Legal(m.vmm, op) && op.AllocateOp? && Steps(m, op, t)
    ensures Space(m.vmm, op.size + op.lower + op.upper) == Some(k) && k < |m.vmm.regions|
    ensures r == Region(m.vmm.regions[k].start, op.size + op.lower + op.upper, op.lower, op.upper, op.kind)
    ensures k < |t.vmm.regions| && t.vmm.regions[k] == r
  {
    var ps :| Does(m, op, ps, t);
    k := Space(m.vmm, op.size + op.lower + op.upper).value;
    r := Region(m.vmm.regions[k].start, op.size + op.lower + op.upper, op.lower, op.upper, op.kind);
    AllocateRegions(m.vmm, op, M.FramesTaken(ps, |ps| - 1), k, r);
  }

  // ----------------------------------------------------------- every run

  ghost predicate Runs(m: Machine, ops: seq<Op>, t: Machine)
    requires Accounted(m)
    decreases |ops|
  {
    if ops == [] then t == m
    else
      Legal(m.vmm, ops[0]) &&
      exists n :: Steps(m, ops[0], n) && (StepKeepsAccount(m, ops[0], n); Runs(n, ops[1..], t))
  }

  lemma FirstStep(m: Machine, ops: seq<Op>, t: Machine) returns (n: Machine)
    requires Accounted(m) && Runs(m, ops, t) && ops != []
    ensures Legal(m.vmm, ops[0]) && Steps(m, ops[0], n) && Accounted(n) && Runs(n, ops[1..], t)
  {
    n :| Steps(m, ops[0], n) && (StepKeepsAccount(m, ops[0], n); Runs(n, ops[1..], t));
    StepKeepsAccount(m, ops[0], n);
  }

  lemma {:induction false} RunKeepsAccount(m: Machine, ops: seq<Op>, t: Machine)
    requires Accounted(m) && Runs(m, ops, t)
    ensures Accounted(t)
    decreases |ops|
  {
    if ops != [] {
      var n := FirstStep(m, ops, t);
      RunKeepsAccount(n, ops[1..], t);
    }
  }

  predicate Copies(ops: seq<Op>) {
    exists i :: 0 <= i < |ops| && ops[i].CopyOp?
  }

  lemma CopiesLater(ops: seq<Op>)
    requires ops != []
    ensures Copies(ops) <==> ops[0].CopyOp? || Copies(ops[1..])
  {
    assert forall i | 0 < i < |ops| :: ops[i] == ops[1..][i - 1];
  }

  lemma GrewTwice(m: Machine, n: Machine, t: Machine, first: bool, later: bool)
    requires Grew(m, n, first) && Grew(n, t, later)
    ensures Grew(m, t, first || later)
  {
  }

  lemma {:induction false} RunGrows(m: Machine, ops: seq<Op>, t: Machine)
    requires Accounted(m) && Runs(m, ops, t)
    ensures Grew(m, t, Copies(ops))
    decreases |ops|
  {
    if ops != [] {
      var n := FirstStep(m, ops, t);
      StepGrows(m, ops[0], n);
      RunGrows(n, ops[1..], t);
      CopiesLater(ops);
      GrewTwice(m, n, t, ops[0].CopyOp?, Copies(ops[1..]));
    }
  }

  /** The initial list, and a paging structure that maps nothing, its tables on frames of their own. */
  ghost predicate Boot(m: Machine) {
    && m.vmm == START && M.Account(m.paged, m.root, {})
    && forall v: nat | Words.CanonicalPage(v) :: M.EntryOf(m.paged.mem, m.root, v) == 0
  }

  lemma BootAccounted(m: Machine)
    requires Boot(m)
    ensures Accounted(m)
  {
    StartInv();
    var none: map<nat, nat> := map[];
    assert none.Values == {};
    forall v: nat | Words.CanonicalPage(v) ensures M.Shown(m.paged.mem, m.root, map[], map[], v) {
      assert M.EntryOf(m.paged.mem, m.root, v) == 0;
    }
  }

  /** Whatever is mapped is a page the tables tell from every other. */
  lemma MappedIsCanonical(s: State, v: nat)
    requires Inv(s) && v in s.pages
    ensures Words.CanonicalPage(v)
  {
    assert UsedPage(s.regions, v);
    SpotSource(s.regions, v);
    var i :| 0 <= i < |s.regions| && s.regions[i].start <= v < End(s.regions[i]);
    RegionPlaced(s, i);
  }

  /** Translation of a page, as get_physical_address reports it. */
  ghost function Reported(m: Machine, v: nat): Paging.MapState {
    Paging.Translation(m.paged.mem, m.root, Words.Word(v))
  }

  /** In every accounted state the tables say what the manager's pages say. */
  lemma TablesAgree(m: Machine, v: nat)
    requires Accounted(m) && Words.CanonicalPage(v)
    ensures Reported(m, v).present <==> v in m.vmm.pages
    ensures v in m.vmm.owned ==> Reported(m, v) == Paging.MapState(Words.Word(m.vmm.owned[v]), 3, true)
    ensures v in m.vmm.owned ==> m.vmm.owned[v] in m.paged.frames.live - m.paged.others - m.paged.tables
  {
    assert M.Shown(m.paged.mem, m.root, m.vmm.pages, m.vmm.owned, v);
    if v in m.vmm.owned {
      M.OwnedPage(m.paged, v, m.root, m.vmm.pages, m.vmm.owned);
      assert m.vmm.owned[v] in m.vmm.owned.Values;
    }
  }

  /** Every entry on the path of the page, from the root of the structure down, is present and writable. */
  ghost predicate Writable(m: Machine, v: nat) {
    TableAccess.WritablePath(m.paged.mem, m.root, 4, P.RouteOf(Words.Word(v)))
  }

  /** An owned page can be written to. */
  lemma OwnedIsWritable(m: Machine, v: nat)
    requires Accounted(m) && Words.CanonicalPage(v) && v in m.vmm.owned
    ensures Writable(m, v)
  {
    assert M.Shown(m.paged.mem, m.root, m.vmm.pages, m.vmm.owned, v);
    Paging.MapEntryBits(Words.Word(m.vmm.owned[v]), M.WRITABLE);
    TableAccess.OpenPath(m.paged.mem, m.root, 4, P.RouteOf(Words.Word(v)));
  }

  lemma MapLoop(m: Machine, op: Op, t: Machine) returns (ps: seq<M.Paged>)
    requires Inv(m.vmm) && Legal(m.vmm, op) && op.MapOp? && Steps(m, op, t)
    ensures Roomy(m.vmm, op) && t.root == m.root && M.Window(Base(m.vmm, op), op.size / PAGE)
    ensures M.Rounds(ps, M.WriteActs(Base(m.vmm, op), Physical(op.paddr, op.size), op.flags), m.root) && t.paged == ps[|ps| - 1]
  {
    ps :| Does(m, op, ps, t);
    MapWindow(m.vmm, op);
  }

  /** memory_map: each page of the window has the entry of its page of physical memory, with the flags given. */
  lemma MapEntries(m: Machine, op: Op, t: Machine, i: nat, v: nat, e: bv64)
    requires Inv(m.vmm) && Legal(m.vmm, op) && op.MapOp? && Roomy(m.vmm, op) && Steps(m, op, t) && i < op.size / PAGE
    requires v == Base(m.vmm, op) + i * PAGE && e == Paging.MapEntry(Words.Word(op.paddr + i * PAGE), op.flags)
    ensures t.root == m.root && M.HasEntry(t.paged, m.root, v, e)
  {
    var ps := MapLoop(m, op, t);
    M.WriteLoopEntry(ps, t.paged, m.root, Base(m.vmm, op), Physical(op.paddr, op.size), op.flags, i, v, e);
  }

  lemma CopyLoop(m: Machine, op: Op, t: Machine) returns (ps: seq<M.Paged>)
    requires Inv(m.vmm) && Legal(m.vmm, op) && op.CopyOp? && Steps(m, op, t)
    requires CopyMapping(m.vmm, CopySource(op), op.vaddr, op.size).Some?
    ensures t.root == m.root && M.Window(op.vaddr, op.size / PAGE)
    ensures M.Rounds(ps, M.CopyActs(op.vaddr, op.size / PAGE, op.entries, op.flags, op.missing), m.root) && t.paged == ps[|ps| - 1]
  {
    ps :| Does(m, op, ps, t);
    CopyWindow(m.vmm, op);
  }

  /** The mapping copy: each page of the range takes the source's entry, with the new flags if there are any. */
  lemma CopyEntries(m: Machine, op: Op, t: Machine, i: nat, v: nat, e: bv64)
    requires Inv(m.vmm) && Legal(m.vmm, op) && op.CopyOp? && Steps(m, op, t) && i < op.size / PAGE
    requires CopyMapping(m.vmm, CopySource(op), op.vaddr, op.size).Some?
    requires v == op.vaddr + i * PAGE
    requires e == Paging.CopyEntry(if v in op.entries then op.entries[v] else 0, op.flags as bv64)
    ensures t.root == m.root && M.HasEntry(t.paged, m.root, v, e)
  {
    var ps := CopyLoop(m, op, t);
    M.CopyLoopEntry(ps, t.paged, m.root, op.vaddr, op.size / PAGE, op.entries, op.flags, op.missing, i, v, e);
  }

  /** From boot on, over every run of the manager's operations on its page tables and the frame allocator: a page
      translates exactly when the manager has it mapped, an owned page to a frame of its own, present and writable on every level;
      the frames held are exactly the data frames, the tables of the structure and those of others, which share
      none; tables are never given back, and others gain frames only where a copy fills in its source. */
  lemma EveryFrameIsAccountedFor(m: Machine, ops: seq<Op>, t: Machine, v: nat, w: nat)
    requires Boot(m) && (BootAccounted(m); Runs(m, ops, t))
    ensures Inv(t.vmm) && P.Tree(t.paged.mem, t.root, 4) && P.Tables(t.paged.mem, t.root, 4) == M.Framed(t.paged.tables)
    ensures M.Shares(t.paged.frames.live, t.paged.others, t.vmm.owned.Values, t.paged.tables)
    ensures Grew(m, t, Copies(ops))
    ensures v in t.vmm.owned && w in t.vmm.owned && v != w ==> t.vmm.owned[v] != t.vmm.owned[w]
    ensures Words.CanonicalPage(v) ==> (Reported(t, v).present <==> v in t.vmm.pages)
    ensures v in t.vmm.owned ==> Reported(t, v) == Paging.MapState(Words.Word(t.vmm.owned[v]), 3, true) && Writable(t, v)
  {
    BootAccounted(m);
    RunKeepsAccount(m, ops, t);
    RunGrows(m, ops, t);
    if v in t.vmm.owned {
      MappedIsCanonical(t.vmm, v);
      OwnedIsWritable(t, v);
    }
    if Words.CanonicalPage(v) {
      TablesAgree(t, v);
    }
  }
}

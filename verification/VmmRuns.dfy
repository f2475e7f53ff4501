/** The manager's operations with the pages they map and the frames behind them, and what
    holds over every run (kernel/mem/vmm.c). */
module VmmRuns {
  import opened Basics
  import opened Region
  import opened VmmModel
  import opened VmmProofs

  /** `pages` are the present mappings of the kernel's page table; `owned` are those of them
      whose frame the manager took from the frame allocator. */
  datatype State = State(regions: Regions, pages: map<nat, nat>, owned: map<nat, nat>)

  const MAP_PADDING: nat := 4 * PAGE

  // ----------------------------------------------------------- invariant

  ghost predicate OwnedPage(rs: Regions, v: nat) {
    v % PAGE == 0 && SpotAt(rs, v).Some? && Owned(SpotAt(rs, v).value.kind) && SpotAt(rs, v).value.inside
  }

  ghost predicate UsedPage(rs: Regions, v: nat) {
    v % PAGE == 0 && SpotAt(rs, v).Some? && !IsFree(SpotAt(rs, v).value.kind) && SpotAt(rs, v).value.inside
  }

  ghost predicate Injective(m: map<nat, nat>) {
    forall v, w | v in m && w in m && v != w :: m[v] != m[w]
  }

  /** Pages are mapped only in windows of regions in use; in stack, heap and general-use
      regions every page of the window is, each on a frame of its own. */
  ghost predicate Backed(s: State) {
    && (forall v | v in s.pages :: UsedPage(s.regions, v))
    && (forall v | v in s.owned :: v in s.pages && s.pages[v] == s.owned[v])
    && (forall v: nat :: v in s.owned <==> OwnedPage(s.regions, v))
    && Injective(s.owned)
  }

  ghost predicate Inv(s: State) {
    WellFormed(s.regions) && Backed(s)
  }

  lemma PagesAligned(s: State)
    requires Backed(s)
    ensures forall v | v in s.pages :: v % PAGE == 0
    ensures forall v | v in s.owned :: v % PAGE == 0
  {
    forall v | v in s.pages ensures v % PAGE == 0 {
      assert UsedPage(s.regions, v);
    }
  }

  lemma RegionPlaced(s: State, k: nat)
    requires Inv(s) && k < |s.regions|
    ensures Placed(s.regions[k])
  {
  }

  // ----------------------------------------------------------- page ranges

  /** The mappings of `|fs|` consecutive pages from `v0` on. */
  function Range(v0: nat, fs: seq<nat>): map<nat, nat>
    requires v0 % PAGE == 0
  {
    map v | v0 <= v < v0 + |fs| * PAGE && v % PAGE == 0 :: fs[(v - v0) / PAGE]
  }

  ghost predicate Fresh(owned: map<nat, nat>, fs: seq<nat>) {
    && (forall i, j | 0 <= i < j < |fs| :: fs[i] != fs[j])
    && (forall i, v | 0 <= i < |fs| && v in owned :: owned[v] != fs[i])
  }

  /** The mappings outside [lo, hi). */
  function Outside(m: map<nat, nat>, lo: nat, hi: nat): map<nat, nat> {
    map v | v in m && !(lo <= v < hi) :: m[v]
  }

  /** The page mappings inside [lo, hi). */
  function Within(m: map<nat, nat>, lo: nat, hi: nat): map<nat, nat> {
    map v | v in m && lo <= v < hi && v % PAGE == 0 :: m[v]
  }

  lemma RangeInjective(v0: nat, fs: seq<nat>)
    requires v0 % PAGE == 0 && forall i, j | 0 <= i < j < |fs| :: fs[i] != fs[j]
    ensures Injective(Range(v0, fs))
  {
    var m := Range(v0, fs);
    forall v, w | v in m && w in m && v != w ensures m[v] != m[w] {
      var i, j := (v - v0) / PAGE, (w - v0) / PAGE;
      assert i != j;
      assert fs[i] != fs[j];
    }
  }

  /** Mapping fresh frames over unowned pages keeps every frame on one page. */
  lemma AddRange(owned: map<nat, nat>, v0: nat, fs: seq<nat>)
    requires v0 % PAGE == 0 && Injective(owned) && Fresh(owned, fs)
    ensures Injective(owned + Range(v0, fs))
  {
    RangeInjective(v0, fs);
    var m, r := owned + Range(v0, fs), Range(v0, fs);
    forall v, w | v in m && w in m && v != w ensures m[v] != m[w] {
      if v in r && w !in r {
        assert owned[w] != fs[(v - v0) / PAGE];
      } else if w in r && v !in r {
        assert owned[v] != fs[(w - v0) / PAGE];
      }
    }
  }

  // ----------------------------------------------------------- operations

  /** identity_map: the one region that ends above the address must hold the whole range. */
  function IdentityMap(s: State, paddr: nat, size: nat): Option<State>
    requires s.regions != []
  {
    var k := FindAddress(s.regions, paddr, 0);
    if Holds(s.regions[k], paddr, size) && s.regions[k].kind.IdentityFree?
    then Some(s.(regions := Cut(s.regions, k, Region(paddr, size, 0, 0, Identity))))
    else None
  }

  /** copy_memory_mapping_from_paging_structure: the range takes over the source's entries. */
  function CopyMapping(s: State, src: map<nat, nat>, vaddr: nat, size: nat): Option<State>
    requires s.regions != []
  {
    var k := FindAddress(s.regions, vaddr, 0);
    if Holds(s.regions[k], vaddr, size) && s.regions[k].kind.Free?
    then Some(s.(regions := Cut(s.regions, k, Region(vaddr, size, 0, 0, MemoryMapping)),
                 pages := Outside(s.pages, vaddr, vaddr + size) + Within(src, vaddr, vaddr + size)))
    else None
  }

  /** Where the next region of `total` bytes would go; none is the panic of the source. */
  function Space(s: State, total: nat): Option<nat>
    requires s.regions != []
  {
    var k := FindSpace(s.regions, total, 0);
    if s.regions[k].kind.Free? && s.regions[k].size >= total then Some(k) else None
  }

  /** The page paging_map writes for an address. */
  function PageOf(v: nat): (p: nat)
    ensures p % PAGE == 0 && p <= v < p + PAGE
  {
    v - v % PAGE
  }

  /** The rounds of a mapping loop over that many bytes. */
  function PagesFor(bytes: nat): nat {
    (bytes + PAGE - 1) / PAGE
  }

  /** allocate_kernel_virtual_memory, with the frames alloc_frame hands out.  Kinds it checks for end in a panic;
      VM_TYPE_FREE and paddings that are not whole pages are let through. */
  function Allocate(s: State, kind: Kind, size: nat, upper: nat, lower: nat, frames: seq<nat>): Option<State>
    requires s.regions != []
  {
    var k := Space(s, size + lower + upper);
    if k.None? || !(kind.Free? || Owned(kind)) then None
    else
      var r := Region(s.regions[k.value].start, size + lower + upper, lower, upper, kind);
      Some(State(Cut(s.regions, k.value, r),
                 s.pages + Range(PageOf(WindowStart(r)), frames),
                 s.owned + Range(PageOf(WindowStart(r)), frames)))
  }

  /** memory_map: `size` bytes from `paddr` on, with four pages of padding on each side. */
  function MemoryMap(s: State, paddr: nat, size: nat): Option<State>
    requires s.regions != [] && WellFormed(s.regions)
  {
    var k := Space(s, size + 2 * MAP_PADDING);
    if k.None? then None
    else
      var r := Region(s.regions[k.value].start, size + 2 * MAP_PADDING, MAP_PADDING, MAP_PADDING, MemoryMapping);
      Some(s.(regions := Cut(s.regions, k.value, r),
              pages := s.pages + Range(WindowStart(r), seq(size / PAGE, i => paddr + i * PAGE))))
  }

  /** _try_expand_vmem_top of region `i`. */
  function ExpandedTop(s: State, i: nat, bytes: nat, frames: seq<nat>): State
    requires i < |s.regions| && Padded(s.regions[i]) && WindowEnd(s.regions[i]) % PAGE == 0
  {
    var r := s.regions[i];
    if !CanExpandTop(r, bytes) then s
    else State(s.regions[i := ExpandTop(r, bytes)],
               s.pages + Range(WindowEnd(r), frames), s.owned + Range(WindowEnd(r), frames))
  }

  /** _try_expand_vmem_bottom of region `i`. */
  function ExpandedBottom(s: State, i: nat, bytes: nat, frames: seq<nat>): State
    requires i < |s.regions| && WindowStart(s.regions[i]) % PAGE == 0
  {
    var r := s.regions[i];
    if !CanExpandBottom(r, bytes) then s
    else
      var r' := ExpandBottom(r, bytes);
      State(s.regions[i := r'],
            s.pages + Range(WindowStart(r'), frames), s.owned + Range(WindowStart(r'), frames))
  }

  /** deallocate_kernel_virtual_memory of region `i`. */
  function Deallocate(s: State, i: nat): State
    requires i < |s.regions| && Padded(s.regions[i])
  {
    var lo, hi := WindowStart(s.regions[i]), WindowEnd(s.regions[i]);
    State(Deallocated(s.regions, i), Outside(s.pages, lo, hi), Outside(s.owned, lo, hi))
  }

  // ----------------------------------------------------------- every operation keeps Inv

  lemma {:induction false} FindAddressOk(rs: Regions, v: nat, i: nat)
    requires i < |rs|
    ensures forall j | i <= j < FindAddress(rs, v, i) :: End(rs[j]) <= v
    ensures FindAddress(rs, v, i) == |rs| - 1 || v < End(rs[FindAddress(rs, v, i)])
    decreases |rs| - i
  {
    if !(i == |rs| - 1 || v < End(rs[i])) {
      FindAddressOk(rs, v, i + 1);
    }
  }

  /** Addresses of a free region have nothing mapped. */
  lemma FreeIsUnmapped(s: State, k: nat, v: nat)
    requires Inv(s) && k < |s.regions| && IsFree(s.regions[k].kind)
    requires s.regions[k].start <= v < End(s.regions[k])
    ensures v !in s.pages && v !in s.owned
  {
    SpotOf(s.regions, k, v);
    assert v in s.pages ==> UsedPage(s.regions, v);
  }

  lemma IdentityMapKeepsInv(s: State, paddr: nat, size: nat)
    requires Inv(s) && paddr % PAGE == 0 && size % PAGE == 0
    ensures IdentityMap(s, paddr, size).Some? ==> Inv(IdentityMap(s, paddr, size).value)
  {
    var k := FindAddress(s.regions, paddr, 0);
    FindAddressOk(s.regions, paddr, 0);
    var cut := Region(paddr, size, 0, 0, Identity);
    if Holds(s.regions[k], paddr, size) && s.regions[k].kind.IdentityFree? {
      assert Placed(s.regions[k]);
      LastIsKernel(s.regions);
      CutKeepsWellFormed(s.regions, k, cut);
      var t := IdentityMap(s, paddr, size).value;
      CutKeepsBacking(s, k, cut, t);
    }
  }

  lemma LastIsKernel(rs: Regions)
    requires WellFormed(rs)
    ensures !IdentityKind(rs[|rs| - 1].kind)
  {
    assert Placed(rs[|rs| - 1]);
  }

  /** Cutting an unowned region out of free space leaves the mappings right. */
  lemma CutKeepsBacking(s: State, k: nat, cut: Region, t: State)
    requires Inv(s) && k < |s.regions| && Cuttable(s.regions[k], cut) && !Owned(cut.kind)
    requires t == s.(regions := Cut(s.regions, k, cut))
    ensures Backed(t)
  {
    assert Placed(s.regions[k]);
    forall v: nat ensures OwnedPage(t.regions, v) <==> OwnedPage(s.regions, v)
             ensures v in s.pages ==> UsedPage(t.regions, v)
    {
      CutSpot(s.regions, k, cut, v);
      if cut.start <= v < End(cut) {
        SpotOf(s.regions, k, v);
        FreeIsUnmapped(s, k, v);
      }
    }
  }

  /** New owned pages: their regions now say so, and nothing else has changed. */
  lemma GrowOwned(s: State, t: State, w0: nat, fs: seq<nat>)
    requires w0 % PAGE == 0 && Backed(s) && Fresh(s.owned, fs)
    requires t.pages == s.pages + Range(w0, fs) && t.owned == s.owned + Range(w0, fs)
    requires forall v: nat :: OwnedPage(t.regions, v) <==> OwnedPage(s.regions, v) || v in Range(w0, fs)
    requires forall v | v in s.pages :: UsedPage(t.regions, v)
    ensures Backed(t)
  {
    AddRange(s.owned, w0, fs);
    forall v | v in t.pages ensures UsedPage(t.regions, v) {
      assert v in Range(w0, fs) ==> OwnedPage(t.regions, v);
    }
  }

  lemma {:induction false} FindSpaceOk(rs: Regions, size: nat, i: nat)
    requires i < |rs|
    ensures var k := FindSpace(rs, size, i);
      && (forall j | i <= j < k :: !(rs[j].kind.Free? && rs[j].size >= size))
      && (k < |rs| - 1 ==> rs[k].kind.Free? && rs[k].size >= size)
    decreases |rs| - i
  {
    if !(i == |rs| - 1 || (rs[i].size >= size && rs[i].kind.Free?)) {
      FindSpaceOk(rs, size, i + 1);
    }
  }

  /** Allocation fails exactly when no free region is large enough. */
  lemma SpaceExact(s: State, total: nat)
    requires s.regions != []
    ensures Space(s, total).None? <==> forall j | 0 <= j < |s.regions| :: !(s.regions[j].kind.Free? && s.regions[j].size >= total)
  {
    FindSpaceOk(s.regions, total, 0);
  }

  /** Allocation succeeds exactly for free, stack, heap and general-use regions, with room. */
  lemma AllocateAdmits(s: State, kind: Kind, size: nat, upper: nat, lower: nat, frames: seq<nat>)
    requires s.regions != []
    ensures Allocate(s, kind, size, upper, lower, frames).Some? <==>
              && (kind == Free || kind == Stack || kind == Heap || kind == GeneralUse)
              && exists j :: 0 <= j < |s.regions| && s.regions[j].kind == Free && s.regions[j].size >= size + lower + upper
  {
    SpaceExact(s, size + lower + upper);
  }

  /** The region allocation adds is the first free one large enough, cut at its front. */
  lemma AllocatePlaces(s: State, kind: Kind, size: nat, upper: nat, lower: nat, frames: seq<nat>, k: nat)
    requires kind == Free || kind == Stack || kind == Heap || kind == GeneralUse
    requires k < |s.regions| && s.regions[k].kind == Free && s.regions[k].size >= size + lower + upper
    requires forall j | 0 <= j < k :: !(s.regions[j].kind.Free? && s.regions[j].size >= size + lower + upper)
    ensures var t := Allocate(s, kind, size, upper, lower, frames);
      && t.Some? && k < |t.value.regions|
      && t.value.regions[k] == Region(s.regions[k].start, size + lower + upper, lower, upper, kind)
      && t.value.regions[..k] == s.regions[..k]
      && (if s.regions[k].size == size + lower + upper then t.value.regions[k + 1..] == s.regions[k + 1..]
          else t.value.regions[k + 1..] == [s.regions[k].(start := s.regions[k].start + (size + lower + upper),
                                                          size := s.regions[k].size - (size + lower + upper))] + s.regions[k + 1..])
  {
    FirstSpace(s.regions, size + lower + upper, 0, k);
  }

  /** memory_map succeeds exactly when a free region holds the mapping and 16 KB on each side of it. */
  lemma MemoryMapAdmits(s: State, paddr: nat, size: nat)
    requires s.regions != [] && WellFormed(s.regions)
    ensures MemoryMap(s, paddr, size).Some? <==>
              exists j :: 0 <= j < |s.regions| && s.regions[j].kind == Free && s.regions[j].size >= size + 32768
  {
    SpaceExact(s, size + 32768);
  }

  /** It adds the first such region, cut at its front. */
  lemma MemoryMapPlaces(s: State, paddr: nat, size: nat, k: nat)
    requires WellFormed(s.regions) && k < |s.regions| && s.regions[k].kind == Free && s.regions[k].size >= size + 32768
    requires forall j | 0 <= j < k :: !(s.regions[j].kind.Free? && s.regions[j].size >= size + 32768)
    ensures var t, v := MemoryMap(s, paddr, size), s.regions[k].start;
      && t.Some? && k < |t.value.regions| && t.value.owned == s.owned
      && t.value.regions[k] == Region(v, size + 32768, 16384, 16384, MemoryMapping)
      && t.value.regions[..k] == s.regions[..k]
      && (if s.regions[k].size == size + 32768 then t.value.regions[k + 1..] == s.regions[k + 1..]
          else t.value.regions[k + 1..] == [s.regions[k].(start := v + (size + 32768), size := s.regions[k].size - (size + 32768))]
                                           + s.regions[k + 1..])
  {
    FirstSpace(s.regions, size + 32768, 0, k);
  }

  /** And maps its window page by page from `paddr` on, and nothing else. */
  lemma MemoryMapPages(s: State, paddr: nat, size: nat, k: nat, w: nat)
    requires WellFormed(s.regions) && k < |s.regions| && s.regions[k].kind == Free && s.regions[k].size >= size + 32768
    requires forall j | 0 <= j < k :: !(s.regions[j].kind.Free? && s.regions[j].size >= size + 32768)
    requires w == s.regions[k].start + 16384 && MemoryMap(s, paddr, size).Some?
    ensures forall i: nat | i < size / 4096 ::
              PageHolds(MemoryMap(s, paddr, size).value.pages, w + 4096 * i, paddr + 4096 * i)
    ensures Outside(MemoryMap(s, paddr, size).value.pages, w, w + size) == Outside(s.pages, w, w + size)
  {
    FirstSpace(s.regions, size + 32768, 0, k);
    assert Placed(s.regions[k]);
    var fs, pages := seq(size / PAGE, i => paddr + i * PAGE), MemoryMap(s, paddr, size).value.pages;
    assert pages == s.pages + Range(w, fs);
    forall i: nat | i < size / 4096 ensures PageHolds(pages, w + 4096 * i, paddr + 4096 * i) {
      RangeHolds(w, fs, i);
    }
    RangeWithin(s.pages, w, fs, size);
  }

  lemma RangeWithin(m: map<nat, nat>, w: nat, fs: seq<nat>, size: nat)
    requires w % PAGE == 0 && |fs| == size / PAGE
    ensures Outside(m + Range(w, fs), w, w + size) == Outside(m, w, w + size)
  {
  }

  lemma RangeHolds(w: nat, fs: seq<nat>, i: nat)
    requires w % PAGE == 0 && i < |fs|
    ensures PageHolds(Range(w, fs), w + 4096 * i, fs[i])
  {
  }

  predicate PageHolds(pages: map<nat, nat>, v: nat, x: nat) {
    v in pages && pages[v] == x
  }

  lemma {:induction false} FirstSpace(rs: Regions, size: nat, i: nat, k: nat)
    requires i <= k < |rs| && rs[k].kind.Free? && rs[k].size >= size
    requires forall j | i <= j < k :: !(rs[j].kind.Free? && rs[j].size >= size)
    ensures FindSpace(rs, size, i) == k
    decreases |rs| - i
  {
    if i < k {
      FirstSpace(rs, size, i + 1, k);
    }
  }

  /** What a successful allocation comes to, for the region the search has found. */
  lemma AllocateIs(s: State, kind: Kind, size: nat, upper: nat, lower: nat, frames: seq<nat>, r: Region, t: State)
    requires s.regions != [] && (kind.Free? || Owned(kind))
    requires var k := FindSpace(s.regions, size + lower + upper, 0);
      && s.regions[k].kind.Free? && s.regions[k].size >= size + lower + upper
      && r == Region(s.regions[k].start, size + lower + upper, lower, upper, kind)
      && t == State(Cut(s.regions, k, r), s.pages + Range(PageOf(WindowStart(r)), frames),
                    s.owned + Range(PageOf(WindowStart(r)), frames))
    ensures Allocate(s, kind, size, upper, lower, frames) == Some(t)
  {
  }

  /** And a failed one. */
  lemma AllocateFails(s: State, kind: Kind, size: nat, upper: nat, lower: nat, frames: seq<nat>, r: Region)
    requires s.regions != [] && r == s.regions[FindSpace(s.regions, size + lower + upper, 0)]
    requires !r.kind.Free? || r.size < size + lower + upper || !(kind.Free? || Owned(kind))
    ensures Allocate(s, kind, size, upper, lower, frames) == None
  {
  }

  lemma MemoryMapIs(s: State, paddr: nat, size: nat, frames: seq<nat>, r: Region, t: State)
    requires WellFormed(s.regions)
    requires var k := FindSpace(s.regions, size + 2 * MAP_PADDING, 0);
      && s.regions[k].kind.Free? && s.regions[k].size >= size + 2 * MAP_PADDING
      && r == Region(s.regions[k].start, size + 2 * MAP_PADDING, MAP_PADDING, MAP_PADDING, MemoryMapping)
      && WindowStart(r) % PAGE == 0
      && frames == seq(size / PAGE, i => paddr + i * PAGE)
      && t == State(Cut(s.regions, k, r), s.pages + Range(WindowStart(r), frames), s.owned)
    ensures MemoryMap(s, paddr, size) == Some(t)
  {
  }

  lemma MultiplesAddUp(size: nat, lower: nat, upper: nat, start: nat)
    requires size % PAGE == 0 && lower % PAGE == 0 && upper % PAGE == 0 && start % PAGE == 0
    ensures (size + lower + upper) % PAGE == 0 && (start + lower) % PAGE == 0
  {
  }

  lemma WholeSize(size: nat, lower: nat, upper: nat, frames: seq<nat>)
    requires (size + lower + upper) % PAGE == 0 && upper % PAGE == 0 && lower % PAGE == 0 && |frames| == PagesFor(size)
    ensures size % PAGE == 0 && size == |frames| * PAGE
  {
  }

  lemma WholeStart(start: nat, lower: nat)
    requires start % PAGE == 0 && lower % PAGE == 0
    ensures PageOf(start + lower) == start + lower
  {
  }

  lemma PlacedKeepsInv(s: State, k: nat, r: Region, frames: seq<nat>, size: nat)
    requires Inv(s) && k < |s.regions| && s.regions[k].kind.Free? && Owned(r.kind)
    requires r.start == s.regions[k].start && r.size == size + r.lower + r.upper <= s.regions[k].size
    requires r.size % PAGE == 0 && r.upper % PAGE == 0 && r.lower % PAGE == 0
    requires |frames| == PagesFor(size) && Fresh(s.owned, frames)
    ensures PageOf(WindowStart(r)) == WindowStart(r)
    ensures Inv(State(Cut(s.regions, k, r), s.pages + Range(WindowStart(r), frames), s.owned + Range(WindowStart(r), frames)))
  {
    RegionPlaced(s, k);
    WholeSize(size, r.lower, r.upper, frames);
    WholeStart(r.start, r.lower);
    AllocatedKeepsInv(s, k, r, frames);
  }

  /** Stack, heap and general-use regions: the whole window is mapped, on fresh frames. */
  lemma AllocateKeepsInv(s: State, kind: Kind, size: nat, upper: nat, lower: nat, frames: seq<nat>)
    requires Inv(s) && Owned(kind) && (size + lower + upper) % PAGE == 0 && upper % PAGE == 0 && lower % PAGE == 0
    requires |frames| == PagesFor(size) && Fresh(s.owned, frames)
    ensures var r := Allocate(s, kind, size, upper, lower, frames); r.Some? ==> Inv(r.value)
  {
    var k := Space(s, size + lower + upper);
    if k.Some? {
      var r := Region(s.regions[k.value].start, size + lower + upper, lower, upper, kind);
      PlacedKeepsInv(s, k.value, r, frames, size);
      var w := WindowStart(r);
      AllocateIs(s, kind, size, upper, lower, frames, r,
                 State(Cut(s.regions, k.value, r), s.pages + Range(w, frames), s.owned + Range(w, frames)));
    }
  }

  /** The same, for the state allocation has led to. */
  lemma AllocateKeeps(s: State, kind: Kind, size: nat, upper: nat, lower: nat, frames: seq<nat>, t: State)
    requires Inv(s) && (size + lower + upper) % PAGE == 0 && |frames| == PagesFor(size) && Fresh(s.owned, frames)
    requires Allocate(s, kind, size, upper, lower, frames) == Some(t)
    ensures Owned(kind) && upper % PAGE == 0 && lower % PAGE == 0 ==> Inv(t)
  {
    if Owned(kind) && upper % PAGE == 0 && lower % PAGE == 0 {
      AllocateKeepsInv(s, kind, size, upper, lower, frames);
    }
  }

  lemma AllocatedKeepsInv(s: State, k: nat, r: Region, frames: seq<nat>)
    requires Inv(s) && k < |s.regions| && s.regions[k].kind.Free? && Owned(r.kind)
    requires r.start == s.regions[k].start && r.size <= s.regions[k].size && Padded(r)
    requires r.size % PAGE == 0 && r.lower % PAGE == 0 && r.upper % PAGE == 0
    requires WindowStart(r) % PAGE == 0 && WindowSize(r) == |frames| * PAGE && Fresh(s.owned, frames)
    ensures Inv(State(Cut(s.regions, k, r), s.pages + Range(WindowStart(r), frames), s.owned + Range(WindowStart(r), frames)))
  {
    RegionPlaced(s, k);
    AllocatedPlaced(s.regions[k], r);
    CutOwnedKeepsInv(s, k, r, frames, State(Cut(s.regions, k, r), s.pages + Range(WindowStart(r), frames),
                                            s.owned + Range(WindowStart(r), frames)));
  }

  lemma CutOwnedKeepsInv(s: State, k: nat, r: Region, frames: seq<nat>, t: State)
    requires Inv(s) && k < |s.regions| && Cuttable(s.regions[k], r) && Owned(r.kind)
    requires WindowStart(r) % PAGE == 0 && WindowSize(r) == |frames| * PAGE && Fresh(s.owned, frames)
    requires t == State(Cut(s.regions, k, r),
                        s.pages + Range(WindowStart(r), frames), s.owned + Range(WindowStart(r), frames))
    ensures Inv(t)
  {
    CutKeepsWellFormed(s.regions, k, r);
    forall v: nat ensures OwnedPage(t.regions, v) <==> OwnedPage(s.regions, v) || v in Range(WindowStart(r), frames)
             ensures v in s.pages ==> UsedPage(t.regions, v)
    {
      AllocatedPage(s, k, r, frames, v);
    }
    GrowOwned(s, t, WindowStart(r), frames);
  }

  lemma RangeIsWindow(r: Region, frames: seq<nat>, v: nat)
    requires Placed(r) && WindowSize(r) == |frames| * PAGE && WindowStart(r) % PAGE == 0
    ensures v in Range(WindowStart(r), frames) <==> v % PAGE == 0 && SpotIn(r, v).inside
  {
  }

  lemma AllocatedPage(s: State, k: nat, r: Region, frames: seq<nat>, v: nat)
    requires Inv(s) && k < |s.regions| && Cuttable(s.regions[k], r) && Owned(r.kind)
    requires WindowStart(r) % PAGE == 0 && WindowSize(r) == |frames| * PAGE
    ensures var rs := Cut(s.regions, k, r);
      && (OwnedPage(rs, v) <==> OwnedPage(s.regions, v) || v in Range(WindowStart(r), frames))
      && (v in s.pages ==> UsedPage(rs, v))
  {
    assert Placed(s.regions[k]);
    CutSpot(s.regions, k, r, v);
    RangeIsWindow(r, frames, v);
    if r.start <= v < End(r) {
      SpotOf(s.regions, k, v);
      FreeIsUnmapped(s, k, v);
    }
  }

  lemma AllocatedPlaced(free: Region, r: Region)
    requires Placed(free) && free.kind.Free? && r.start == free.start && r.size <= free.size
    requires r.size % PAGE == 0 && r.lower % PAGE == 0 && r.upper % PAGE == 0 && Padded(r)
    requires !IsFree(r.kind) && !IdentityKind(r.kind)
    ensures Cuttable(free, r)
  {
  }

  lemma CutHolds(rs: Regions, k: nat, cut: Region)
    requires k < |rs| && rs[k].start == cut.start && End(cut) <= End(rs[k])
    ensures k < |Cut(rs, k, cut)| && Cut(rs, k, cut)[k] == cut
  {
  }

  /** A free region that is not empty has its pages mapped. */
  lemma FreeIsMapped(s: State, k: nat, r: Region, frames: seq<nat>, t: State)
    requires Inv(s) && k < |s.regions| && s.regions[k].kind.Free? && r.kind.Free? && r.lower == 0 && r.upper == 0
    requires r.start == s.regions[k].start && 0 < r.size <= s.regions[k].size && |frames| == PagesFor(r.size)
    requires t.regions == Cut(s.regions, k, r) && t.pages == s.pages + Range(PageOf(r.start), frames)
    ensures !Inv(t)
  {
    RegionPlaced(s, k);
    CutSpot(s.regions, k, r, r.start);
    assert r.start in t.pages && !UsedPage(t.regions, r.start);
  }

  /** An empty free region is left unmerged with the free one behind it. */
  lemma FreeIsUnmerged(s: State, k: nat, r: Region, t: State)
    requires k < |s.regions| && s.regions[k].kind.Free? && r.kind.Free? && r.size == 0
    requires r.start == s.regions[k].start && s.regions[k].size > 0 && t.regions == Cut(s.regions, k, r)
    ensures !Inv(t)
  {
    CutHolds(s.regions, k, r);
    assert t.regions[k + 1] == s.regions[k].(start := End(r), size := End(s.regions[k]) - End(r));
    assert !Merged(t.regions[k], t.regions[k + 1]);
  }

  /** A free region has no paddings. */
  lemma FreeIsUnpadded(s: State, k: nat, r: Region, t: State)
    requires k < |s.regions| && r.kind.Free? && (r.lower != 0 || r.upper != 0)
    requires r.start == s.regions[k].start && r.size <= s.regions[k].size && t.regions == Cut(s.regions, k, r)
    ensures !Inv(t)
  {
    CutHolds(s.regions, k, r);
    assert Inv(t) ==> Placed(t.regions[k]);
  }

  /** An empty free region put in place of another changes nothing. */
  lemma EmptyOnEmpty(s: State, k: nat, r: Region, t: State)
    requires Inv(s) && k < |s.regions| && s.regions[k].kind.Free? && r.kind.Free? && r.lower == 0 && r.upper == 0
    requires r.start == s.regions[k].start && r.size == 0 && s.regions[k].size == 0
    requires t == State(Cut(s.regions, k, r), s.pages + Range(PageOf(r.start), []), s.owned + Range(PageOf(r.start), []))
    ensures t == s && Inv(t)
  {
    RegionPlaced(s, k);
    assert r == s.regions[k];
    UpdateIsCut(s.regions, k, r);
    assert t.pages == s.pages && t.owned == s.owned;
  }

  /** Allocating a region of kind VM_TYPE_FREE breaks the manager, unless it is an empty one on an empty one. */
  lemma FreeAllocateExact(s: State, k: nat, r: Region, frames: seq<nat>, t: State)
    requires Inv(s) && k < |s.regions| && s.regions[k].kind.Free? && r.kind.Free?
    requires r.start == s.regions[k].start && r.size <= s.regions[k].size && Padded(r) && |frames| == PagesFor(WindowSize(r))
    requires t == State(Cut(s.regions, k, r), s.pages + Range(PageOf(WindowStart(r)), frames),
                        s.owned + Range(PageOf(WindowStart(r)), frames))
    ensures Inv(t) <==> r.size == 0 && s.regions[k].size == 0
  {
    if r.lower != 0 || r.upper != 0 {
      FreeIsUnpadded(s, k, r, t);
    } else if r.size > 0 {
      FreeIsMapped(s, k, r, frames, t);
    } else if s.regions[k].size > 0 {
      FreeIsUnmerged(s, k, r, t);
    } else {
      EmptyOnEmpty(s, k, r, t);
    }
  }

  /** Allocation checks neither for VM_TYPE_FREE nor for the paddings one by one.  Of what it lets through,
      exactly the owned kinds with paddings of whole pages keep the manager consistent, and the empty region put
      in place of an empty free one. */
  lemma AllocateExact(s: State, kind: Kind, size: nat, upper: nat, lower: nat, frames: seq<nat>)
    requires Inv(s) && (size + lower + upper) % PAGE == 0 && |frames| == PagesFor(size) && Fresh(s.owned, frames)
    requires Allocate(s, kind, size, upper, lower, frames).Some?
    ensures Inv(Allocate(s, kind, size, upper, lower, frames).value) <==>
              || (Owned(kind) && lower % PAGE == 0 && upper % PAGE == 0)
              || (kind.Free? && size + lower + upper == 0 && s.regions[FindSpace(s.regions, 0, 0)].size == 0)
  {
    var k := Space(s, size + lower + upper).value;
    var r := Region(s.regions[k].start, size + lower + upper, lower, upper, kind);
    var t := Allocate(s, kind, size, upper, lower, frames).value;
    if kind.Free? {
      FreeAllocateExact(s, k, r, frames, t);
    } else {
      AllocateKeeps(s, kind, size, upper, lower, frames, t);
      CutHolds(s.regions, k, r);
      assert Inv(t) ==> Placed(t.regions[k]);
    }
  }

  // ----------------------------------------------------------- paddings that are not whole pages

  /** Some round of the mapping loop over [w, w + size) maps the page `p`. */
  ghost predicate Touched(w: nat, size: nat, p: nat) {
    exists i: nat :: Round(w, size, i, p)
  }

  predicate Round(w: nat, size: nat, i: nat, p: nat) {
    i * PAGE < size && p == PageOf(w + i * PAGE)
  }

  /** Every address of [w, w + size) is on a page the loop has mapped. */
  ghost predicate FullyMapped(w: nat, size: nat) {
    forall v | w <= v < w + size :: Touched(w, size, PageOf(v))
  }

  lemma RoundPage(w: nat, i: nat)
    ensures PageOf(w + i * PAGE) == PageOf(w) + i * PAGE
  {
  }

  /** The window starts on a page, or its last part page fits on the page before. */
  predicate Fitting(w: nat, size: nat) {
    w % PAGE == 0 || (size % PAGE != 0 && w % PAGE + size % PAGE <= PAGE)
  }

  lemma PageMonotone(a: nat, b: nat)
    requires a <= b
    ensures PageOf(a) <= PageOf(b)
  {
    PageGap(PageOf(b), PageOf(a));
  }

  lemma LastPageNear(w: nat, size: nat)
    requires size > 0 && Fitting(w, size)
    ensures PageOf(w + size - 1) < PageOf(w) + size
  {
    if w % PAGE != 0 {
      var whole := size - size % PAGE;
      WholePages(PageOf(w), whole);
      PageGap(PageOf(w) + whole, PageOf(w + size - 1));
    }
  }

  lemma PagesApart(p: nat, q: nat) returns (i: nat)
    requires p % PAGE == 0 && q % PAGE == 0 && p <= q
    ensures q == p + i * PAGE
  {
    i := (q - p) / PAGE;
    WholePages(q, p);
  }

  lemma FittingIsMapped(w: nat, size: nat, v: nat)
    requires w <= v < w + size && Fitting(w, size)
    ensures Touched(w, size, PageOf(v))
  {
    PageMonotone(w, v);
    PageMonotone(v, w + size - 1);
    LastPageNear(w, size);
    var i := PagesApart(PageOf(w), PageOf(v));
    RoundPage(w, i);
    assert Round(w, size, i, PageOf(v));
  }

  lemma LastByteIsMissed(w: nat, size: nat, i: nat)
    requires size > 0 && !Fitting(w, size) && i * PAGE < size
    ensures PageOf(w + i * PAGE) < PageOf(w + size - 1)
  {
    RoundPage(w, i);
  }

  /** With the whole reservation in whole pages, which is all the code asserts, the loop covers the window exactly when
      it is empty, starts on a page, or its last part page fits on the page before. */
  lemma LoopCoversExact(start: nat, size: nat, upper: nat, lower: nat)
    requires start % PAGE == 0 && (size + lower + upper) % PAGE == 0
    ensures FullyMapped(start + lower, size) <==> Covered(size, lower)
  {
    var w := start + lower;
    assert w % PAGE == lower % PAGE;
    if size == 0 {
    } else if Fitting(w, size) {
      forall v | w <= v < w + size ensures Touched(w, size, PageOf(v)) {
        FittingIsMapped(w, size, v);
      }
    } else {
      var last := PageOf(w + size - 1);
      forall i: nat {:trigger Round(w, size, i, last)} ensures !Round(w, size, i, last) {
        if i * PAGE < size {
          LastByteIsMissed(w, size, i);
        }
      }
      assert !Touched(w, size, last);
    }
  }

  predicate Covered(size: nat, lower: nat) {
    size == 0 || lower % PAGE == 0 || (size % PAGE != 0 && lower % PAGE + size % PAGE <= PAGE)
  }

  lemma RoundsFor(size: nat, i: nat)
    ensures i * PAGE < size <==> i < PagesFor(size)
  {
  }

  /** The rounds of the loop map exactly the pages allocation adds. */
  lemma TouchedIsMapped(w: nat, size: nat, frames: seq<nat>, p: nat)
    requires |frames| == PagesFor(size)
    ensures Touched(w, size, p) <==> p in Range(PageOf(w), frames)
  {
    if Touched(w, size, p) {
      var i: nat :| Round(w, size, i, p);
      RoundPage(w, i);
      RoundsFor(size, i);
    }
    if p in Range(PageOf(w), frames) {
      var i := PagesApart(PageOf(w), p);
      RoundPage(w, i);
      RoundsFor(size, i);
      assert Round(w, size, i, p);
    }
  }

  /** Every address of [w, w + size) is on a mapped page. */
  ghost predicate AllMapped(pages: map<nat, nat>, w: nat, size: nat) {
    forall v | w <= v < w + size :: PageOf(v) in pages
  }

  /** In free space only the loop's own pages are mapped afterwards. */
  lemma OnlyTheLoop(s: State, k: nat, w: nat, size: nat, frames: seq<nat>, v: nat)
    requires Inv(s) && k < |s.regions| && IsFree(s.regions[k].kind) && |frames| == PagesFor(size)
    requires s.regions[k].start <= w <= v < w + size <= End(s.regions[k])
    ensures PageOf(v) in s.pages + Range(PageOf(w), frames) <==> Touched(w, size, PageOf(v))
  {
    RegionPlaced(s, k);
    PageMonotone(s.regions[k].start, v);
    FreeIsUnmapped(s, k, PageOf(v));
    TouchedIsMapped(w, size, frames, PageOf(v));
  }

  /** What allocation lets through has its whole window mapped exactly when the window is empty, starts on a page, or
      its last part page fits on the page before. */
  lemma WindowMappedExact(s: State, kind: Kind, size: nat, upper: nat, lower: nat, frames: seq<nat>, k: nat)
    requires Inv(s) && (size + lower + upper) % PAGE == 0 && |frames| == PagesFor(size)
    requires Space(s, size + lower + upper) == Some(k) && Allocate(s, kind, size, upper, lower, frames).Some?
    ensures AllMapped(Allocate(s, kind, size, upper, lower, frames).value.pages, s.regions[k].start + lower, size) <==>
              Covered(size, lower)
  {
    RegionPlaced(s, k);
    var w := s.regions[k].start + lower;
    forall v | w <= v < w + size
      ensures PageOf(v) in s.pages + Range(PageOf(w), frames) <==> Touched(w, size, PageOf(v))
    {
      OnlyTheLoop(s, k, w, size, frames, v);
    }
    LoopCoversExact(s.regions[k].start, size, upper, lower);
  }

  /** For whole pages of data: exactly when the lower padding is whole pages. */
  lemma WholeWindowMappedExact(s: State, kind: Kind, size: nat, upper: nat, lower: nat, frames: seq<nat>, k: nat)
    requires Inv(s) && (size + lower + upper) % PAGE == 0 && |frames| == PagesFor(size) && size > 0 && size % PAGE == 0
    requires Space(s, size + lower + upper) == Some(k) && Allocate(s, kind, size, upper, lower, frames).Some?
    ensures AllMapped(Allocate(s, kind, size, upper, lower, frames).value.pages, s.regions[k].start + lower, size) <==>
              lower % PAGE == 0
  {
    WindowMappedExact(s, kind, size, upper, lower, frames, k);
  }

  /** A page of data between two half pages of padding passes the assertion; the page its second half lies on is not
      mapped. */
  lemma HalfPagePaddings(f: nat)
    ensures (PAGE + 2048 + 2048) % PAGE == 0
    ensures var t := Allocate(State(INITIAL, map[], map[]), GeneralUse, PAGE, 2048, 2048, [f]);
      && t.Some? && t.value.regions[1] == Region(KERNEL_START, 2 * PAGE, 2048, 2048, GeneralUse)
      && KERNEL_START in t.value.pages && KERNEL_START + PAGE !in t.value.pages
      && WindowStart(t.value.regions[1]) < KERNEL_START + PAGE < WindowStart(t.value.regions[1]) + PAGE
  {
    InitialSizes();
    assert FindSpace(INITIAL, 2 * PAGE, 0) == 1;
  }

  lemma MemoryMapKeepsInv(s: State, paddr: nat, size: nat)
    requires Inv(s) && size % PAGE == 0
    ensures MemoryMap(s, paddr, size).Some? ==> Inv(MemoryMap(s, paddr, size).value)
  {
    var k := Space(s, size + 2 * MAP_PADDING);
    if k.Some? {
      var r := Region(s.regions[k.value].start, size + 2 * MAP_PADDING, MAP_PADDING, MAP_PADDING, MemoryMapping);
      RegionPlaced(s, k.value);
      MultiplesAddUp(size, MAP_PADDING, MAP_PADDING, r.start);
      AllocatedPlaced(s.regions[k.value], r);
      var w, fs := WindowStart(r), seq(size / PAGE, i => paddr + i * PAGE);
      MappedKeepsInv(s, k.value, r, fs, s.(regions := Cut(s.regions, k.value, r), pages := s.pages + Range(w, fs)));
    }
  }

  /** Cutting an unowned region out of free space and mapping its window. */
  lemma MappedKeepsInv(s: State, k: nat, r: Region, frames: seq<nat>, t: State)
    requires Inv(s) && k < |s.regions| && Cuttable(s.regions[k], r) && !Owned(r.kind)
    requires WindowStart(r) % PAGE == 0 && WindowSize(r) == |frames| * PAGE
    requires t == s.(regions := Cut(s.regions, k, r), pages := s.pages + Range(WindowStart(r), frames))
    ensures Inv(t)
  {
    CutKeepsWellFormed(s.regions, k, r);
    CutKeepsBacking(s, k, r, s.(regions := Cut(s.regions, k, r)));
    RegionPlaced(s, k);
    forall v | v in t.pages && v !in s.pages ensures UsedPage(t.regions, v) {
      CutSpot(s.regions, k, r, v);
      RangeIsWindow(r, frames, v);
    }
    forall v | v in s.owned ensures t.pages[v] == s.owned[v] {
      OwnedElsewhere(s, k, r, v);
    }
  }

  lemma OwnedElsewhere(s: State, k: nat, r: Region, v: nat)
    requires Inv(s) && k < |s.regions| && IsFree(s.regions[k].kind) && v in s.owned
    requires s.regions[k].start <= r.start && End(r) <= End(s.regions[k])
    ensures !(r.start <= v < End(r))
  {
    if r.start <= v < End(r) {
      FreeIsUnmapped(s, k, v);
    }
  }

  lemma CopyMappingKeepsInv(s: State, src: map<nat, nat>, vaddr: nat, size: nat)
    requires Inv(s) && vaddr % PAGE == 0 && size % PAGE == 0
    ensures CopyMapping(s, src, vaddr, size).Some? ==> Inv(CopyMapping(s, src, vaddr, size).value)
  {
    var k := FindAddress(s.regions, vaddr, 0);
    var r := Region(vaddr, size, 0, 0, MemoryMapping);
    if Holds(s.regions[k], vaddr, size) && s.regions[k].kind.Free? {
      assert Placed(s.regions[k]);
      assert Cuttable(s.regions[k], r);
      CutKeepsWellFormed(s.regions, k, r);
      CutKeepsBacking(s, k, r, s.(regions := Cut(s.regions, k, r)));
      var t := CopyMapping(s, src, vaddr, size).value;
      forall v | v in t.pages && v !in s.pages ensures UsedPage(t.regions, v) {
        CutSpot(s.regions, k, r, v);
      }
      forall v | v in s.owned ensures v in t.pages && t.pages[v] == s.owned[v] {
        OwnedElsewhere(s, k, r, v);
      }
    }
  }

  lemma UpdateKeepsWellFormed(rs: Regions, i: nat, r: Region)
    requires WellFormed(rs) && i < |rs| && Placed(r)
    requires r.start == rs[i].start && r.size == rs[i].size && r.kind == rs[i].kind
    ensures WellFormed(rs[i := r])
  {
    var t := rs[i := r];
    forall k | 0 <= k < |t| - 1 ensures Meets(t[k], t[k + 1]) && Merged(t[k], t[k + 1]) {
      assert Meets(rs[k], rs[k + 1]) && Merged(rs[k], rs[k + 1]);
    }
  }

  /** Moving a window's edge into the padding and mapping the pages gained. */
  lemma ExpandKeepsInv(s: State, i: nat, r: Region, w0: nat, frames: seq<nat>, t: State)
    requires Inv(s) && i < |s.regions| && Owned(s.regions[i].kind) && Placed(r)
    requires r == s.regions[i].(lower := r.lower, upper := r.upper)
    requires w0 % PAGE == 0 && Fresh(s.owned, frames)
    requires t == State(s.regions[i := r], s.pages + Range(w0, frames), s.owned + Range(w0, frames))
    requires forall v: nat | v % PAGE == 0 ::
      SpotIn(r, v).inside <==> SpotIn(s.regions[i], v).inside || v in Range(w0, frames)
    requires forall v | v in Range(w0, frames) :: r.start <= v < End(r)
    ensures Inv(t)
  {
    UpdateKeepsWellFormed(s.regions, i, r);
    UpdateIsCut(s.regions, i, r);
    forall v: nat ensures OwnedPage(t.regions, v) <==> OwnedPage(s.regions, v) || v in Range(w0, frames)
             ensures v in s.pages ==> UsedPage(t.regions, v)
    {
      CutSpot(s.regions, i, r, v);
      if r.start <= v < End(r) {
        SpotOf(s.regions, i, v);
      }
    }
    GrowOwned(s, t, w0, frames);
  }

  /** Stacks, heaps and general-use regions are expanded, exactly when the padding holds the bytes in whole pages. */
  lemma ExpandExact(r: Region, bytes: nat, pages: nat)
    requires 4096 * pages >= bytes > 4096 * (pages - 1)
    ensures CanExpandTop(r, bytes) <==> (r.kind == Stack || r.kind == Heap || r.kind == GeneralUse) && 4096 * pages <= r.upper
    ensures CanExpandBottom(r, bytes) <==> (r.kind == Stack || r.kind == Heap || r.kind == GeneralUse) && 4096 * pages <= r.lower
    ensures CanExpandTop(r, bytes) ==> ExpandTop(r, bytes) == Region(r.start, r.size, r.lower, r.upper - 4096 * pages, r.kind)
    ensures CanExpandBottom(r, bytes) ==> ExpandBottom(r, bytes) == Region(r.start, r.size, r.lower - 4096 * pages, r.upper, r.kind)
    ensures !CanExpandTop(r, bytes) ==> ExpandTop(r, bytes) == r
    ensures !CanExpandBottom(r, bytes) ==> ExpandBottom(r, bytes) == r
  {
  }

  lemma ExpandTopKeepsInv(s: State, i: nat, bytes: nat, frames: seq<nat>)
    requires Inv(s) && i < |s.regions| && Fresh(s.owned, frames) && |frames| * PAGE == RoundUp(bytes)
    ensures Padded(s.regions[i]) && WindowEnd(s.regions[i]) % PAGE == 0
    ensures Inv(ExpandedTop(s, i, bytes, frames))
  {
    var r := s.regions[i];
    assert Placed(r);
    WindowAligned(r);
    if CanExpandTop(r, bytes) {
      var r' := ExpandTop(r, bytes);
      assert Placed(r');
      ExpandKeepsInv(s, i, r', WindowEnd(r), frames, ExpandedTop(s, i, bytes, frames));
    }
  }

  lemma ExpandBottomKeepsInv(s: State, i: nat, bytes: nat, frames: seq<nat>)
    requires Inv(s) && i < |s.regions| && Fresh(s.owned, frames) && |frames| * PAGE == RoundUp(bytes)
    ensures WindowStart(s.regions[i]) % PAGE == 0
    ensures Inv(ExpandedBottom(s, i, bytes, frames))
  {
    var r := s.regions[i];
    assert Placed(r);
    WindowAligned(r);
    if CanExpandBottom(r, bytes) {
      var r' := ExpandBottom(r, bytes);
      assert Placed(r');
      WindowAligned(r');
      ExpandKeepsInv(s, i, r', WindowStart(r'), frames, ExpandedBottom(s, i, bytes, frames));
    }
  }

  /** What a granted expansion comes to. */
  lemma ExpandBottomIs(s: State, i: nat, bytes: nat, frames: seq<nat>)
    requires i < |s.regions| && Placed(s.regions[i]) && CanExpandBottom(s.regions[i], bytes)
    ensures var r := s.regions[i];
      var v0 := r.start + r.lower - RoundUp(bytes);
      && v0 % PAGE == 0 && WindowStart(r) % PAGE == 0
      && ExpandedBottom(s, i, bytes, frames) ==
           State(s.regions[i := r.(lower := r.lower - RoundUp(bytes))], s.pages + Range(v0, frames), s.owned + Range(v0, frames))
  {
    WindowAligned(s.regions[i]);
    WindowAligned(ExpandBottom(s.regions[i], bytes));
  }

  lemma ExpandTopIs(s: State, i: nat, bytes: nat, frames: seq<nat>, r: Region, size: nat, v0: nat)
    requires i < |s.regions| && r == s.regions[i] && Placed(r) && CanExpandTop(r, bytes) && size == RoundUp(bytes)
    requires v0 == r.start + r.lower + (r.size - r.upper - r.lower)
    ensures v0 == WindowEnd(r) && v0 % PAGE == 0 && size <= r.upper
    ensures ExpandedTop(s, i, bytes, frames) ==
            State(s.regions[i := r.(upper := r.upper - size)], s.pages + Range(v0, frames), s.owned + Range(v0, frames))
  {
    WindowAligned(r);
  }

  lemma WindowAligned(r: Region)
    requires Placed(r)
    ensures WindowStart(r) % PAGE == 0 && WindowEnd(r) % PAGE == 0 && WindowSize(r) % PAGE == 0
  {
    WholePages(r.start, r.lower);
    WholePages(r.size, r.upper);
    WholePages(r.size - r.upper, r.lower);
    WholePages(WindowStart(r), WindowSize(r));
  }

  /** Deallocation leaves nothing mapped in the region and every other page as it was. */
  lemma DeallocateKeepsInv(s: State, i: nat)
    requires Inv(s) && i < |s.regions| && !IsFree(s.regions[i].kind)
    ensures Padded(s.regions[i])
    ensures var t := Deallocate(s, i);
      && Inv(t)
      && (forall v | s.regions[i].start <= v < End(s.regions[i]) :: v !in t.pages)
      && (forall v | !(s.regions[i].start <= v < End(s.regions[i])) ::
            (v in t.pages <==> v in s.pages) && (v in t.pages ==> t.pages[v] == s.pages[v]))
  {
    var r := s.regions[i];
    assert Placed(r);
    var t := Deallocate(s, i);
    DeallocateKeepsWellFormed(s.regions, i);
    forall v: nat ensures OwnedPage(t.regions, v) <==> v in t.owned
             ensures v in t.pages ==> UsedPage(t.regions, v) && !(r.start <= v < End(r))
    {
      DeallocateSpot(s.regions, i, v);
      if r.start <= v < End(r) {
        SpotOf(s.regions, i, v);
        assert v in s.pages ==> UsedPage(s.regions, v);
      }
    }
  }

  /** Every page of an owned window has its frame. */
  lemma WindowIsOwned(s: State, i: nat, k: nat)
    requires Inv(s) && i < |s.regions| && Owned(s.regions[i].kind) && Padded(s.regions[i])
    requires k < WindowSize(s.regions[i]) / PAGE
    ensures WindowStart(s.regions[i]) + k * PAGE in s.owned
  {
    var r := s.regions[i];
    assert Placed(r);
    WindowAligned(r);
    var v := WindowStart(r) + k * PAGE;
    SpotOf(s.regions, i, v);
    assert OwnedPage(s.regions, v);
  }

  lemma WindowPages(s: State, i: nat)
    requires Inv(s) && i < |s.regions| && Padded(s.regions[i])
    ensures Owned(s.regions[i].kind) ==>
              forall v | WindowStart(s.regions[i]) <= v < WindowEnd(s.regions[i]) && v % PAGE == 0 :: v in s.owned
  {
    var r := s.regions[i];
    forall v | Owned(r.kind) && WindowStart(r) <= v < WindowEnd(r) && v % PAGE == 0 ensures v in s.owned {
      SpotOf(s.regions, i, v);
      assert OwnedPage(s.regions, v);
    }
  }

  /** `fs` lists the frames of the window [lo, hi), page by page. */
  ghost predicate FramesOf(owned: map<nat, nat>, lo: nat, hi: nat, fs: seq<nat>) {
    && |fs| * PAGE == hi - lo
    && forall k | 0 <= k < |fs| :: lo + k * PAGE in owned && fs[k] == owned[lo + k * PAGE]
  }

  /** Giving back the frames of one window: each is given back once, and what is kept is
      exactly the rest. */
  lemma FramesReturned(owned: map<nat, nat>, lo: nat, hi: nat, fs: seq<nat>)
    requires Injective(owned) && lo % PAGE == 0 && FramesOf(owned, lo, hi, fs)
    requires forall v | v in owned :: v % PAGE == 0
    ensures forall j, k | 0 <= j < k < |fs| :: fs[j] != fs[k]
    ensures (set f | f in fs) + Outside(owned, lo, hi).Values == owned.Values
    ensures (set f | f in fs) !! Outside(owned, lo, hi).Values
  {
    var rest := Outside(owned, lo, hi);
    forall f | f in owned.Values ensures f in fs || f in rest.Values {
      var v :| v in owned && owned[v] == f;
      if v in rest {
        assert rest[v] == f;
      } else {
        var k := (v - lo) / PAGE;
        assert v == lo + k * PAGE && fs[k] == f;
      }
    }
    forall f | f in rest.Values ensures f in owned.Values && f !in fs {
      var v :| v in rest && rest[v] == f;
      assert owned[v] == f;
    }
    forall f | f in fs ensures f in owned.Values {
      var k :| 0 <= k < |fs| && fs[k] == f;
      assert owned[lo + k * PAGE] == f;
    }
  }

  // ----------------------------------------------------------- when mapping succeeds

  ghost predicate AllOfKind(rs: Regions, kind: Kind, a: nat, size: nat) {
    forall v | a <= v < a + size :: SpotAt(rs, v) == Some(Spot(kind, true))
  }

  lemma FindsRegionOf(rs: Regions, a: nat, i: nat)
    requires Tiles(rs) && i < |rs| && rs[i].start <= a < End(rs[i])
    ensures FindAddress(rs, a, 0) == i
  {
    FindAddressOk(rs, a, 0);
    var k := FindAddress(rs, a, 0);
    if k < i {
      Sorted(rs, k, i);
    }
  }

  /** No empty region lies strictly inside the range. */
  ghost predicate Unsplit(rs: Regions, a: nat, size: nat) {
    forall i | 0 <= i < |rs| && rs[i].size == 0 :: !(a < rs[i].start < a + size)
  }

  /** A range that is free throughout, with no empty region inside, lies in a single region, as
      neighbours of the same free kind have been merged. */
  lemma FreeRangeInOneRegion(rs: Regions, kind: Kind, a: nat, size: nat, i: nat)
    requires WellFormed(rs) && IsFree(kind) && AllOfKind(rs, kind, a, size) && Unsplit(rs, a, size)
    requires i < |rs| && rs[i].start <= a < End(rs[i]) && rs[i].kind == kind
    ensures a + size <= End(rs[i])
  {
    var v := End(rs[i]);
    assert i + 1 < |rs| ==> Merged(rs[i], rs[i + 1]) && Meets(rs[i], rs[i + 1]);
    if v < a + size {
      assert SpotAt(rs, v) == Some(Spot(kind, true));
      SpotSource(rs, v);
      var j :| 0 <= j < |rs| && rs[j].start <= v < End(rs[j]) && SpotIn(rs[j], v) == Spot(kind, true);
      if j < i {
        Sorted(rs, j, i);
      } else {
        Sorted(rs, i, i + 1);
        if j > i + 1 {
          Sorted(rs, i + 1, j);
        }
      }
    }
  }

  lemma HeldIsUnsplit(rs: Regions, k: nat, a: nat, size: nat)
    requires Tiles(rs) && k < |rs| && Holds(rs[k], a, size)
    ensures Unsplit(rs, a, size)
  {
    forall i | 0 <= i < |rs| && rs[i].size == 0 ensures !(a < rs[i].start < a + size) {
      if i < k {
        Sorted(rs, i, k);
      } else if k < i {
        Sorted(rs, k, i);
      }
    }
  }

  /** identity_map and the mapping copy look at one region only.  They find the range exactly when all of it
      is free in their zone and no empty region splits it. */
  lemma HoldsExact(rs: Regions, kind: Kind, a: nat, size: nat)
    requires WellFormed(rs) && IsFree(kind) && size > 0
    ensures var r := rs[FindAddress(rs, a, 0)];
      Holds(r, a, size) && r.kind == kind <==> AllOfKind(rs, kind, a, size) && Unsplit(rs, a, size)
  {
    var k := FindAddress(rs, a, 0);
    if Holds(rs[k], a, size) && rs[k].kind == kind {
      assert Placed(rs[k]);
      forall v | a <= v < a + size ensures SpotAt(rs, v) == Some(Spot(kind, true)) {
        SpotOf(rs, k, v);
      }
      HeldIsUnsplit(rs, k, a, size);
    }
    if AllOfKind(rs, kind, a, size) && Unsplit(rs, a, size) {
      assert SpotAt(rs, a) == Some(Spot(kind, true));
      SpotSource(rs, a);
      var i :| 0 <= i < |rs| && rs[i].start <= a < End(rs[i]) && SpotIn(rs[i], a) == Spot(kind, true);
      FindsRegionOf(rs, a, i);
      FreeRangeInOneRegion(rs, kind, a, size, i);
    }
  }

  /** An empty range succeeds exactly where the address itself is free in the zone, or is the end of the list and
      the last region is. */
  lemma HoldsEmptyExact(rs: Regions, kind: Kind, a: nat)
    requires WellFormed(rs) && IsFree(kind)
    ensures var r := rs[FindAddress(rs, a, 0)];
      Holds(r, a, 0) && r.kind == kind <==>
        SpotAt(rs, a) == Some(Spot(kind, true)) || (a == KERNEL_END && rs[|rs| - 1].kind == kind)
  {
    var k := FindAddress(rs, a, 0);
    FindAddressOk(rs, a, 0);
    assert Placed(rs[k]);
    if rs[k].start <= a < End(rs[k]) {
      SpotOf(rs, k, a);
    } else {
      forall i | 0 <= i < |rs| ensures !(rs[i].start <= a < End(rs[i])) {
        if k < i {
          Sorted(rs, k, i);
        }
      }
      SpotNone(rs, a);
    }
  }

  lemma IdentityMapExact(s: State, paddr: nat, size: nat)
    requires WellFormed(s.regions) && size > 0
    ensures IdentityMap(s, paddr, size).Some? <==>
              AllOfKind(s.regions, IdentityFree, paddr, size) && Unsplit(s.regions, paddr, size)
  {
    HoldsExact(s.regions, IdentityFree, paddr, size);
  }

  lemma CopyMappingExact(s: State, src: map<nat, nat>, vaddr: nat, size: nat)
    requires WellFormed(s.regions) && size > 0
    ensures CopyMapping(s, src, vaddr, size).Some? <==>
              AllOfKind(s.regions, Free, vaddr, size) && Unsplit(s.regions, vaddr, size)
  {
    HoldsExact(s.regions, Free, vaddr, size);
  }

  lemma CutListed(rs: Regions, k: nat, cut: Region)
    requires k < |rs| && Holds(rs[k], cut.start, cut.size)
    ensures cut in Cut(rs, k, cut)
  {
    assert Cut(rs, k, cut)[|rs[..k] + Before(rs[k], cut.start)|] == cut;
  }

  /** An identity mapping adds one region of exactly the range and maps no page yet. */
  lemma IdentityMapTakes(s: State, paddr: nat, size: nat)
    requires s.regions != [] && IdentityMap(s, paddr, size).Some?
    ensures var t := IdentityMap(s, paddr, size).value;
      Region(paddr, size, 0, 0, Identity) in t.regions && t.pages == s.pages && t.owned == s.owned
  {
    CutListed(s.regions, FindAddress(s.regions, paddr, 0), Region(paddr, size, 0, 0, Identity));
  }

  /** A mapping copy adds one region of exactly the range; a page of it is mapped as in the source, any other as before. */
  lemma CopyMappingTakes(s: State, src: map<nat, nat>, vaddr: nat, size: nat, v: nat)
    requires s.regions != [] && CopyMapping(s, src, vaddr, size).Some?
    ensures var t := CopyMapping(s, src, vaddr, size).value;
      && Region(vaddr, size, 0, 0, MemoryMapping) in t.regions && t.owned == s.owned
      && (if vaddr <= v < vaddr + size
          then v % 4096 == 0 ==> (v in t.pages <==> v in src) && (v in src ==> PageHolds(t.pages, v, src[v]))
          else (v in t.pages <==> v in s.pages) && (v in s.pages ==> PageHolds(t.pages, v, s.pages[v])))
  {
    CutListed(s.regions, FindAddress(s.regions, vaddr, 0), Region(vaddr, size, 0, 0, MemoryMapping));
  }

  /** An empty region, which a request of size zero leaves behind, splits free space: the next
      request across it fails although every address of it is free. */
  lemma EmptyRegionBlocks()
    ensures var s := State(INITIAL, map[], map[]);
      var t := IdentityMap(s, 2 * PAGE, 0);
      && t.Some? && WellFormed(t.value.regions)
      && AllOfKind(t.value.regions, IdentityFree, PAGE, 2 * PAGE)
      && IdentityMap(t.value, PAGE, 2 * PAGE).None?
  {
    var s := State(INITIAL, map[], map[]);
    InitialSizes();
    var cut := Region(2 * PAGE, 0, 0, 0, Identity);
    assert Cuttable(INITIAL[0], cut);
    CutKeepsWellFormed(INITIAL, 0, cut);
    var rs := Cut(INITIAL, 0, cut);
    assert rs[0] == Region(PAGE, PAGE, 0, 0, IdentityFree);
    forall v | PAGE <= v < 3 * PAGE ensures SpotAt(rs, v) == Some(Spot(IdentityFree, true)) {
      CutSpot(INITIAL, 0, cut, v);
      SpotOf(INITIAL, 0, v);
    }
  }

  /** One page with the rest of the kernel zone as padding: its deallocation reads past the end of the list. */
  lemma LastRegionFaults(f: nat)
    ensures var t := Allocate(State(INITIAL, map[], map[]), GeneralUse, PAGE, KERNEL_END - KERNEL_START - PAGE, 0, [f]);
      && WellFormed(INITIAL) && t.Some?
      && |t.value.regions| == 2 && t.value.regions[1].kind.GeneralUse? && ReadsPastEnd(t.value.regions, 1)
  {
    InitialSizes();
    assert FindSpace(INITIAL, KERNEL_END - KERNEL_START, 0) == 1;
  }

  // ----------------------------------------------------------- every run

  datatype Op =
    | IdentityOp(paddr: nat, size: nat)
    | CopyOp(src: map<nat, nat>, vaddr: nat, size: nat)
    | MapOp(paddr: nat, size: nat)
    | AllocateOp(kind: Kind, size: nat, upper: nat, lower: nat, frames: seq<nat>)
    | TopOp(i: nat, bytes: nat, frames: seq<nat>)
    | BottomOp(i: nat, bytes: nat, frames: seq<nat>)
    | DeallocateOp(i: nat)

  ghost predicate Legal(s: State, op: Op) {
    match op
    case IdentityOp(paddr, size) => paddr % PAGE == 0 && size % PAGE == 0
    case CopyOp(_, vaddr, size) => vaddr % PAGE == 0 && size % PAGE == 0
    case MapOp(_, size) => size % PAGE == 0
    case AllocateOp(kind, size, upper, lower, frames) =>
      && Owned(kind) && (size + lower + upper) % PAGE == 0 && upper % PAGE == 0 && lower % PAGE == 0
      && |frames| == PagesFor(size) && Fresh(s.owned, frames)
    case TopOp(i, bytes, frames) => i < |s.regions| && |frames| * PAGE == RoundUp(bytes) && Fresh(s.owned, frames)
    case BottomOp(i, bytes, frames) => i < |s.regions| && |frames| * PAGE == RoundUp(bytes) && Fresh(s.owned, frames)
    case DeallocateOp(i) => i < |s.regions| && !IsFree(s.regions[i].kind) && !ReadsPastEnd(s.regions, i)
  }

  function OrElse(r: Option<State>, s: State): State {
    if r.Some? then r.value else s
  }

  ghost function Step(s: State, op: Op): State
    requires Inv(s) && Legal(s, op)
  {
    match op
    case IdentityOp(paddr, size) => OrElse(IdentityMap(s, paddr, size), s)
    case CopyOp(src, vaddr, size) => OrElse(CopyMapping(s, src, vaddr, size), s)
    case MapOp(paddr, size) => OrElse(MemoryMap(s, paddr, size), s)
    case AllocateOp(kind, size, upper, lower, frames) => OrElse(Allocate(s, kind, size, upper, lower, frames), s)
    case TopOp(i, bytes, frames) => ExpandTopKeepsInv(s, i, bytes, frames); ExpandedTop(s, i, bytes, frames)
    case BottomOp(i, bytes, frames) => ExpandBottomKeepsInv(s, i, bytes, frames); ExpandedBottom(s, i, bytes, frames)
    case DeallocateOp(i) => DeallocateKeepsInv(s, i); Deallocate(s, i)
  }

  lemma StepKeepsInv(s: State, op: Op)
    requires Inv(s) && Legal(s, op)
    ensures Inv(Step(s, op))
  {
    match op
    case IdentityOp(paddr, size) => IdentityMapKeepsInv(s, paddr, size);
    case CopyOp(src, vaddr, size) => CopyMappingKeepsInv(s, src, vaddr, size);
    case MapOp(paddr, size) => MemoryMapKeepsInv(s, paddr, size);
    case AllocateOp(kind, size, upper, lower, frames) => AllocateKeepsInv(s, kind, size, upper, lower, frames);
    case TopOp(i, bytes, frames) => ExpandTopKeepsInv(s, i, bytes, frames);
    case BottomOp(i, bytes, frames) => ExpandBottomKeepsInv(s, i, bytes, frames);
    case DeallocateOp(i) => DeallocateKeepsInv(s, i);
  }

  ghost predicate Reaches(s: State, ops: seq<Op>, t: State)
    requires Inv(s)
    decreases |ops|
  {
    if ops == [] then t == s
    else Legal(s, ops[0]) && (StepKeepsInv(s, ops[0]); Reaches(Step(s, ops[0]), ops[1..], t))
  }

  lemma {:induction false} RunKeepsInv(s: State, ops: seq<Op>, t: State)
    requires Inv(s) && Reaches(s, ops, t)
    ensures Inv(t)
    decreases |ops|
  {
    if ops != [] {
      StepKeepsInv(s, ops[0]);
      RunKeepsInv(Step(s, ops[0]), ops[1..], t);
    }
  }

  /** initialize_kernel_VMM: the two free zones, nothing mapped. */
  const START: State := State(INITIAL, map[], map[])

  lemma StartInv()
    ensures Inv(START)
  {
    InitialSizes();
    forall v: nat ensures !OwnedPage(INITIAL, v) {
      if SpotAt(INITIAL, v).Some? {
        SpotSource(INITIAL, v);
      }
    }
  }

  /** From the two initial regions on, every run of the manager's operations keeps the list
      sorted, aligned, gap free and overlap free, with the mapped pages of every owned region
      exactly its window, each on a frame of its own. */
  lemma EveryRunIsSafe(ops: seq<Op>, t: State, i: nat, j: nat, v: nat)
    requires Inv(START) && Reaches(START, ops, t)
    ensures Inv(t)
    ensures i < j < |t.regions| ==> End(t.regions[i]) <= t.regions[j].start
    ensures i < |t.regions| && Owned(t.regions[i].kind) && t.regions[i].start <= v < End(t.regions[i]) && v % PAGE == 0 ==>
              Padded(t.regions[i]) &&
              (v in t.pages <==> WindowStart(t.regions[i]) <= v < WindowEnd(t.regions[i]))
  {
    RunKeepsInv(START, ops, t);
    if i < j < |t.regions| {
      Sorted(t.regions, i, j);
    }
    if i < |t.regions| && Owned(t.regions[i].kind) && t.regions[i].start <= v < End(t.regions[i]) && v % PAGE == 0 {
      assert Placed(t.regions[i]);
      SpotOf(t.regions, i, v);
      assert v in t.owned <==> OwnedPage(t.regions, v);
      assert v in t.pages ==> UsedPage(t.regions, v);
    }
  }

  // ----------------------------------------------------------- runs without empty requests

  ghost predicate NoEmpty(rs: Regions) {
    forall i | 0 <= i < |rs| :: rs[i].size > 0
  }

  predicate NonZero(op: Op) {
    match op
    case IdentityOp(_, size) => size > 0
    case CopyOp(_, _, size) => size > 0
    case AllocateOp(_, size, upper, lower, _) => size + lower + upper > 0
    case _ => true
  }

  lemma CutKeepsNoEmpty(rs: Regions, i: nat, cut: Region)
    requires NoEmpty(rs) && i < |rs| && rs[i].start <= cut.start && End(cut) <= End(rs[i]) && cut.size > 0
    ensures NoEmpty(Cut(rs, i, cut))
  {
    var ps := Before(rs[i], cut.start) + [cut] + After(rs[i], End(cut));
    assert NoEmpty(ps);
    forall j | 0 <= j < |Cut(rs, i, cut)| ensures Cut(rs, i, cut)[j].size > 0 {
      if j >= i + |ps| {
        assert Cut(rs, i, cut)[j] == rs[i + 1..][j - i - |ps|];
      } else if j >= i {
        assert Cut(rs, i, cut)[j] == ps[j - i];
      }
    }
  }

  lemma {:induction false} MergeKeepsNoEmpty(rs: Regions, j: nat)
    requires NoEmpty(rs) && j < |rs|
    ensures NoEmpty(MergeFrom(rs, j))
    decreases |rs|
  {
    if j + 1 < |rs| && rs[j + 1].kind == rs[j].kind {
      MergeKeepsNoEmpty(rs[..j] + [rs[j].(size := rs[j].size + rs[j + 1].size)] + rs[j + 2..], j);
    }
  }

  lemma IdentityKeepsNoEmpty(s: State, paddr: nat, size: nat)
    requires s.regions != [] && NoEmpty(s.regions) && size > 0
    ensures NoEmpty(OrElse(IdentityMap(s, paddr, size), s).regions)
  {
    if IdentityMap(s, paddr, size).Some? {
      CutKeepsNoEmpty(s.regions, FindAddress(s.regions, paddr, 0), Region(paddr, size, 0, 0, Identity));
    }
  }

  lemma CopyKeepsNoEmpty(s: State, src: map<nat, nat>, vaddr: nat, size: nat)
    requires s.regions != [] && NoEmpty(s.regions) && size > 0
    ensures NoEmpty(OrElse(CopyMapping(s, src, vaddr, size), s).regions)
  {
    if CopyMapping(s, src, vaddr, size).Some? {
      CutKeepsNoEmpty(s.regions, FindAddress(s.regions, vaddr, 0), Region(vaddr, size, 0, 0, MemoryMapping));
    }
  }

  lemma MapKeepsNoEmpty(s: State, paddr: nat, size: nat)
    requires WellFormed(s.regions) && NoEmpty(s.regions)
    ensures NoEmpty(OrElse(MemoryMap(s, paddr, size), s).regions)
  {
    var total := size + 2 * MAP_PADDING;
    var k := Space(s, total);
    if k.Some? {
      CutKeepsNoEmpty(s.regions, k.value, Region(s.regions[k.value].start, total, MAP_PADDING, MAP_PADDING, MemoryMapping));
    }
  }

  lemma AllocateKeepsNoEmpty(s: State, kind: Kind, size: nat, upper: nat, lower: nat, frames: seq<nat>)
    requires WellFormed(s.regions) && NoEmpty(s.regions) && size + lower + upper > 0
    ensures NoEmpty(OrElse(Allocate(s, kind, size, upper, lower, frames), s).regions)
  {
    var total := size + lower + upper;
    var k := Space(s, total);
    if k.Some? {
      CutKeepsNoEmpty(s.regions, k.value, Region(s.regions[k.value].start, total, lower, upper, kind));
    }
  }

  lemma StepKeepsNoEmpty(s: State, op: Op)
    requires Inv(s) && Legal(s, op) && NonZero(op) && NoEmpty(s.regions)
    ensures NoEmpty(Step(s, op).regions)
  {
    match op
    case IdentityOp(paddr, size) => IdentityKeepsNoEmpty(s, paddr, size);
    case CopyOp(src, vaddr, size) => CopyKeepsNoEmpty(s, src, vaddr, size);
    case MapOp(paddr, size) => MapKeepsNoEmpty(s, paddr, size);
    case AllocateOp(kind, size, upper, lower, frames) => AllocateKeepsNoEmpty(s, kind, size, upper, lower, frames);
    case TopOp(_, _, _) =>
    case BottomOp(_, _, _) =>
    case DeallocateOp(i) =>
      MergeKeepsNoEmpty(s.regions[i := Released(s.regions[i])], MergePoint(s.regions, i));
  }

  lemma {:induction false} RunKeepsNoEmpty(s: State, ops: seq<Op>, t: State)
    requires Inv(s) && NoEmpty(s.regions) && Reaches(s, ops, t) && forall i | 0 <= i < |ops| :: NonZero(ops[i])
    ensures NoEmpty(t.regions)
    decreases |ops|
  {
    if ops != [] {
      StepKeepsInv(s, ops[0]);
      StepKeepsNoEmpty(s, ops[0]);
      RunKeepsNoEmpty(Step(s, ops[0]), ops[1..], t);
    }
  }

  /** After any run of non-empty requests identity_map and the mapping copy succeed exactly when all of the
      range is free in their zone. */
  lemma MappingExactOverRuns(ops: seq<Op>, t: State, src: map<nat, nat>, a: nat, size: nat)
    requires Inv(START) && Reaches(START, ops, t) && size > 0 && forall i | 0 <= i < |ops| :: NonZero(ops[i])
    ensures Inv(t)
    ensures IdentityMap(t, a, size).Some? <==> AllOfKind(t.regions, IdentityFree, a, size)
    ensures CopyMapping(t, src, a, size).Some? <==> AllOfKind(t.regions, Free, a, size)
  {
    RunKeepsInv(START, ops, t);
    RunKeepsNoEmpty(START, ops, t);
    IdentityMapExact(t, a, size);
    CopyMappingExact(t, src, a, size);
  }
}

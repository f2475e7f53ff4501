/** The virtual memory manager's list of regions as a sequence of values, and the address
    space it stands for (kernel/mem/vmm.c). */
module VmmModel {
  import opened Basics
  import opened Region

  const IDENTITY_END: nat := 0x80_0000_0000
  const KERNEL_START: nat := 0xffff_8000_0000_0000
  const KERNEL_END: nat := 0xffff_ffff_ffff_f000

  type Regions = seq<Region>

  // ----------------------------------------------------------- well-formed lists

  predicate IdentityKind(k: Kind) {
    k.IdentityFree? || k.Identity?
  }

  /** A region and its paddings are whole pages; it lies in one of the two kernel zones, has a
      kind of that zone and, if free, no padding. */
  predicate Placed(r: Region) {
    && r.start % PAGE == 0 && r.size % PAGE == 0 && Padded(r)
    && r.lower % PAGE == 0 && r.upper % PAGE == 0
    && (if r.start < IDENTITY_END
        then PAGE <= r.start && End(r) <= IDENTITY_END && IdentityKind(r.kind)
        else KERNEL_START <= r.start && End(r) <= KERNEL_END && !IdentityKind(r.kind))
    && (IsFree(r.kind) ==> r.lower == 0 && r.upper == 0)
  }

  /** `s` starts where `r` ends, or they meet at the border of the two zones. */
  predicate Meets(r: Region, s: Region) {
    End(r) == s.start || (End(r) == IDENTITY_END && s.start == KERNEL_START)
  }

  predicate Merged(r: Region, s: Region) {
    !(IsFree(r.kind) && r.kind == s.kind)
  }

  /** Every region is in place and each begins where the one before it ends. */
  ghost predicate Tiles(rs: Regions) {
    && (forall i | 0 <= i < |rs| :: Placed(rs[i]))
    && (forall i | 0 <= i < |rs| - 1 :: Meets(rs[i], rs[i + 1]))
  }

  ghost predicate NoFreeNeighbours(rs: Regions) {
    forall i | 0 <= i < |rs| - 1 :: Merged(rs[i], rs[i + 1])
  }

  /** The list covers the two zones from end to end, without gap or overlap. */
  ghost predicate WellFormed(rs: Regions) {
    && rs != []
    && rs[0].start == PAGE
    && End(rs[|rs| - 1]) == KERNEL_END
    && Tiles(rs)
    && NoFreeNeighbours(rs)
  }

  // ----------------------------------------------------------- the address space

  /** What the list says about one address: the kind of its region and whether the address is
      in the window the paddings leave. */
  datatype Spot = Spot(kind: Kind, inside: bool)

  function SpotIn(r: Region, v: nat): Spot {
    Spot(r.kind, WindowStart(r) <= v && v + r.upper < End(r))
  }

  function SpotAt(rs: Regions, v: nat): Option<Spot> {
    if rs == [] then None
    else if rs[0].start <= v < End(rs[0]) then Some(SpotIn(rs[0], v))
    else SpotAt(rs[1..], v)
  }

  /** The regions handles can point to. */
  function Taken(rs: Regions): Regions {
    if rs == [] then []
    else (if IsFree(rs[0].kind) then [] else [rs[0]]) + Taken(rs[1..])
  }

  // ----------------------------------------------------------- cutting

  /** What cutting [start, start + size) out of a free region leaves: at most one remainder on
      each side, the cut itself given kind and paddings. */
  function Before(r: Region, start: nat): Regions {
    if r.start < start then [r.(size := start - r.start)] else []
  }

  function After(r: Region, end: nat): Regions {
    if end < End(r) then [r.(start := end, size := End(r) - end)] else []
  }

  function Cut(rs: Regions, i: nat, cut: Region): Regions
    requires i < |rs| && rs[i].start <= cut.start && End(cut) <= End(rs[i])
  {
    rs[..i] + (Before(rs[i], cut.start) + [cut] + After(rs[i], End(cut))) + rs[i + 1..]
  }

  predicate Holds(r: Region, start: nat, size: nat) {
    r.start <= start && start + size <= End(r)
  }

  // ----------------------------------------------------------- searching

  /** identity_map and the mapping copy stop at the first region ending above the address. */
  function FindAddress(rs: Regions, v: nat, i: nat): (k: nat)
    requires i < |rs|
    ensures i <= k < |rs|
    decreases |rs| - i
  {
    if i == |rs| - 1 || v < End(rs[i]) then i else FindAddress(rs, v, i + 1)
  }

  /** memory_map and allocation stop at the first free region that is large enough, or at the last. */
  function FindSpace(rs: Regions, size: nat, i: nat): (k: nat)
    requires i < |rs|
    ensures i <= k < |rs|
    decreases |rs| - i
  {
    if i == |rs| - 1 || (rs[i].size >= size && rs[i].kind.Free?) then i else FindSpace(rs, size, i + 1)
  }

  // ----------------------------------------------------------- merging

  function FreeKind(start: nat): Kind {
    if start < IDENTITY_END then IdentityFree else Free
  }

  function Released(r: Region): Region {
    r.(kind := FreeKind(r.start), lower := 0, upper := 0)
  }

  /** Joins region `j` with the regions after it as long as they have its kind. */
  function MergeFrom(rs: Regions, j: nat): Regions
    requires j < |rs|
    decreases |rs|
  {
    if j + 1 < |rs| && rs[j + 1].kind == rs[j].kind
    then MergeFrom(rs[..j] + [rs[j].(size := rs[j].size + rs[j + 1].size)] + rs[j + 2..], j)
    else rs
  }

  /** Where deallocation starts merging: at the region before, when that is free too. */
  function MergePoint(rs: Regions, i: nat): nat
    requires i < |rs|
  {
    if i > 0 && rs[i - 1].kind == FreeKind(rs[i].start) then i - 1 else i
  }

  /** deallocate_kernel_virtual_memory looks at the kind of the region after the merge point
      without asking whether there is one. */
  predicate ReadsPastEnd(rs: Regions, i: nat)
    requires i < |rs|
  {
    MergePoint(rs, i) + 1 == |rs|
  }

  function Deallocated(rs: Regions, i: nat): Regions
    requires i < |rs|
  {
    MergeFrom(rs[i := Released(rs[i])], MergePoint(rs, i))
  }

  const INITIAL: Regions :=
    [Region(PAGE, IDENTITY_END - PAGE, 0, 0, IdentityFree),
     Region(KERNEL_START, KERNEL_END - KERNEL_START, 0, 0, Free)]

  /** The list initialize_kernel_VMM builds: identity mappings from the first page up to 512 GB, then the upper half
      of the address space, each size less the extra byte taken off against overflow, rounded down to whole pages. */
  lemma InitialSizes()
    ensures var low, high := 512 * 1024 * 1024 * 1024 - 4096, 0xffff_ffff_ffff_ffff - (0xffff_8000_0000_0000 + 1);
      INITIAL == [Region(4096, low - low % 4096, 0, 0, IdentityFree),
                  Region(0xffff_8000_0000_0000, high - high % 4096, 0, 0, Free)]
    ensures WellFormed(INITIAL)
  {
  }
}

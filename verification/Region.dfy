/** One virtual-memory descriptor as a value (kernel/mem/vmm.h): a reservation
    [start, start + size) whose mapped part is what the two paddings leave. */
module Region {
  import opened Basics

  datatype Kind =
    | Free | Stack | Heap | GeneralUse
    | IdentityFree | Identity | MemoryMapping

  datatype Region = Region(start: nat, size: nat, lower: nat, upper: nat, kind: Kind)

  predicate Padded(r: Region) {
    r.lower + r.upper <= r.size
  }

  function WindowStart(r: Region): nat {
    r.start + r.lower
  }

  function WindowSize(r: Region): nat
    requires Padded(r)
  {
    r.size - r.upper - r.lower
  }

  function WindowEnd(r: Region): nat
    requires Padded(r)
  {
    WindowStart(r) + WindowSize(r)
  }

  function End(r: Region): nat {
    r.start + r.size
  }

  /** The kinds whose frames belong to the region and which may be expanded. */
  predicate Owned(k: Kind) {
    k.Stack? || k.Heap? || k.GeneralUse?
  }

  predicate IsFree(k: Kind) {
    k.Free? || k.IdentityFree?
  }

  function RoundUp(bytes: nat): (r: nat)
    ensures r % PAGE == 0 && bytes <= r < bytes + PAGE
  {
    if bytes % PAGE != 0 then bytes + (PAGE - bytes % PAGE) else bytes
  }

  predicate CanExpandTop(r: Region, bytes: nat) {
    Owned(r.kind) && RoundUp(bytes) <= r.upper
  }

  function ExpandTop(r: Region, bytes: nat): Region {
    if CanExpandTop(r, bytes) then r.(upper := r.upper - RoundUp(bytes)) else r
  }

  predicate CanExpandBottom(r: Region, bytes: nat) {
    Owned(r.kind) && RoundUp(bytes) <= r.lower
  }

  function ExpandBottom(r: Region, bytes: nat): Region {
    if CanExpandBottom(r, bytes) then r.(lower := r.lower - RoundUp(bytes)) else r
  }
}

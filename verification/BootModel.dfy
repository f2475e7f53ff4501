/** From the firmware's memory map to the ranges the frame allocator starts with
    (kernel/HAL/bios/bootloader_data.c; the map is that of section 15.1 of the ACPI specification). */
module BootModel {
  import opened Basics
  import opened FrameModel

  const MAX_RANGES: nat := 128

  /** MemoryMapItem. */
  datatype Item = Item(base: nat, size: nat, free: bool)

  /** What the bootloader's own frame allocator left: the item it used and its first unused frame. */
  datatype Boot = Boot(base: nat, first: nat)

  /** 64-bit arithmetic. */
  function Wrap(x: int): nat {
    x % TWO64
  }

  // ----------------------------------------------------------- the stages

  predicate Keeps(item: Item) {
    item.free && item.size != 0
  }

  /** The free, non-empty items in map order. */
  function FreeRanges(items: seq<Item>): seq<Range> {
    if items == [] then []
    else
      var n := |items| - 1;
      FreeRanges(items[..n]) + if Keeps(items[n]) then [Range(items[n].base, items[n].size)] else []
  }

  function Consumed(r: Range, b: Boot): Range {
    if b.base == r.start then Range(b.first, Wrap(r.size - (b.first - r.start))) else r
  }

  function AboveLow(r: Range): Range {
    if r.start >= MB then r
    else if Wrap(r.start + r.size) > MB then Range(MB, Wrap(r.size - (MB - r.start)))
    else Range(r.start, 0)
  }

  function WholeSize(r: Range): Range {
    if r.size % PAGE != 0 then Range(r.start, Wrap(r.size - r.size % PAGE)) else r
  }

  function Align(r: Range): Range {
    if r.size == 0 then r
    else if r.start % PAGE != 0 then
      var up := PAGE - r.start % PAGE;
      WholeSize(Range(Wrap(r.start + up), Wrap(r.size - up)))
    else WholeSize(r)
  }

  function Prepare(r: Range, b: Boot): Range {
    Align(AboveLow(Consumed(r, b)))
  }

  function Prepared(ranges: seq<Range>, b: Boot): (out: seq<Range>)
    ensures |out| == |ranges| && forall i | 0 <= i < |ranges| :: out[i] == Prepare(ranges[i], b)
  {
    seq(|ranges|, i requires 0 <= i < |ranges| => Prepare(ranges[i], b))
  }

  function TotalFree(items: seq<Item>): nat {
    if items == [] then 0
    else
      var n := |items| - 1;
      TotalFree(items[..n]) + if Keeps(items[n]) then items[n].size else 0
  }

  // ----------------------------------------------------------- what a map must be like

  /** Rounding the start up takes more than there is. */
  predicate Underflows(r: Range) {
    r.size > 0 && r.start % PAGE != 0 && r.size < PAGE - r.start % PAGE
  }

  predicate Fits(r: Range) {
    r.start + r.size < TWO64
  }

  /** The range lies in the address space, holds the bootloader's mark if it is the bootloader's, and no stage
      underflows on it. */
  predicate Clean(r: Range, b: Boot) {
    && Fits(r)
    && (b.base == r.start ==> r.start <= b.first <= r.start + r.size)
    && !Underflows(AboveLow(Consumed(r, b)))
  }

  predicate Disjoint(ranges: seq<Range>) {
    forall i, j | 0 <= i < j < |ranges| :: !Meet(ranges[i], ranges[j])
  }

  predicate Ascending(ranges: seq<Range>) {
    forall i, j | 0 <= i < j < |ranges| :: ranges[i].start <= ranges[j].start
  }

  /** A page the kernel may use: whole in one free item, above the first megabyte, not taken by the bootloader. */
  ghost predicate Available(items: seq<Item>, b: Boot, f: nat) {
    exists i :: 0 <= i < |items| && items[i].free && Offers(Range(items[i].base, items[i].size), b, f)
  }

  /** No two items of the map share an address. */
  predicate ItemsDisjoint(items: seq<Item>) {
    forall i, j | 0 <= i < j < |items| ::
      !Meet(Range(items[i].base, items[i].size), Range(items[j].base, items[j].size))
  }

  predicate Offers(r: Range, b: Boot, f: nat) {
    Inside(r, f) && f >= 1048576 && (b.base == r.start ==> f >= b.first)
  }

  // ----------------------------------------------------------- one range

  lemma MinusMod(n: nat)
    ensures (n - n % PAGE) % PAGE == 0 && n - n % PAGE <= n < n - n % PAGE + PAGE
  {
  }

  lemma WholeSizeInside(r: Range, f: nat)
    requires r.size < TWO64 && r.start % PAGE == 0
    ensures WholeSize(r).size % PAGE == 0 && WholeSize(r).size <= r.size && WholeSize(r).start == r.start
    ensures Inside(WholeSize(r), f) <==> Inside(r, f)
  {
    MinusMod(r.size);
    if Inside(r, f) {
      PageSteps(f + PAGE - r.start, r.size);
    }
  }

  lemma PageSteps(a: nat, n: nat)
    requires a % PAGE == 0 && a <= n
    ensures a <= n - n % PAGE
  {
  }

  lemma RoundUp(start: nat, f: nat)
    requires start % PAGE != 0
    ensures (start + (PAGE - start % PAGE)) % PAGE == 0
    ensures f % PAGE == 0 && f >= start ==> f >= start + (PAGE - start % PAGE)
  {
  }

  lemma NoWrap(x: nat)
    requires x < TWO64
    ensures Wrap(x) == x
  {
  }

  lemma AlignUpInside(r: Range, f: nat)
    requires Fits(r) && r.start % PAGE != 0 && r.size >= PAGE - r.start % PAGE
    ensures Inside(Align(r), f) <==> Inside(r, f)
    ensures Aligned(Align(r)) && Align(r).size <= r.size
    ensures r.start <= Align(r).start && Align(r).start + Align(r).size <= r.start + r.size
  {
    var up := PAGE - r.start % PAGE;
    RoundUp(r.start, f);
    NoWrap(r.start + up);
    NoWrap(r.size - up);
    WholeSizeInside(Range(r.start + up, r.size - up), f);
  }

  /** Alignment keeps exactly the whole pages, unless it underflows. */
  lemma AlignInside(r: Range, f: nat)
    requires Fits(r) && !Underflows(r)
    ensures Inside(Align(r), f) <==> Inside(r, f)
    ensures Aligned(Align(r)) && Align(r).size <= r.size
    ensures Align(r).size > 0 ==> r.start <= Align(r).start && Align(r).start + Align(r).size <= r.start + r.size
  {
    if r.size > 0 {
      if r.start % PAGE != 0 {
        AlignUpInside(r, f);
      } else {
        WholeSizeInside(r, f);
      }
    }
  }

  /** And when it underflows it invents a page. */
  lemma AlignUnderflow(r: Range)
    requires Fits(r) && Underflows(r)
    ensures exists f: nat :: Inside(Align(r), f) && !Inside(r, f)
  {
    var up := PAGE - r.start % PAGE;
    var start := Wrap(r.start + up);
    RoundUp(r.start, 0);
    TopIsWhole(r.start + up);
    MinusMod(Wrap(r.size - up));
    assert Inside(Align(r), start) && !Inside(r, start);
  }

  lemma TopIsWhole(x: nat)
    requires x % PAGE == 0
    ensures Wrap(x) % PAGE == 0
  {
  }

  /** The pages of an aligned range are the range's own exactly when the fragment is not shorter than
      its round-up. */
  lemma AlignExact(r: Range)
    requires Fits(r)
    ensures (forall f: nat :: Inside(Align(r), f) ==> Inside(r, f)) <==> !Underflows(r)
  {
    if Underflows(r) {
      AlignUnderflow(r);
    } else {
      forall f: nat | Inside(Align(r), f) ensures Inside(r, f) {
        AlignInside(r, f);
      }
    }
  }

  lemma TrimInside(r: Range, b: Boot, f: nat)
    requires Fits(r) && (b.base == r.start ==> r.start <= b.first <= r.start + r.size)
    ensures var t := AboveLow(Consumed(r, b));
      && Fits(t) && t.size <= r.size
      && (Inside(t, f) <==> Offers(r, b, f))
      && (t.size > 0 ==> 1048576 <= t.start && r.start <= t.start && t.start + t.size <= r.start + r.size)
  {
  }

  /** A range above the first megabyte is left as it is; one below it is emptied where it stands. */
  lemma LowIsEmptied(r: Range)
    ensures r.start >= 1048576 ==> AboveLow(r) == r
    ensures r.start + r.size <= 1048576 && r.size > 0 ==> AboveLow(r) == Range(r.start, 0)
  {
  }

  /** All three stages on one range: exactly its usable pages, whole and above the first megabyte. */
  lemma PrepareExact(r: Range, b: Boot, f: nat)
    requires Clean(r, b)
    ensures Inside(Prepare(r, b), f) <==> Offers(r, b, f)
    ensures Aligned(Prepare(r, b)) && Prepare(r, b).size <= r.size
    ensures Prepare(r, b).size > 0 ==>
              && 1048576 <= Prepare(r, b).start && r.start <= Prepare(r, b).start
              && Prepare(r, b).start + Prepare(r, b).size <= r.start + r.size
  {
    TrimInside(r, b, f);
    AlignInside(AboveLow(Consumed(r, b)), f);
  }
}

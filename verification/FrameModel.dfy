/** The physical frame allocator as a value (kernel/mem/frame_allocator.c). */
module FrameModel {
  import opened Basics

  const MB: nat := 1048576
  const GB: nat := 1073741824

  /** PhysicalMemoryRange. */
  datatype Range = Range(start: nat, size: nat)

  /** `f` is a whole page of the range. */
  predicate Inside(r: Range, f: nat) {
    f % PAGE == 0 && r.start <= f && f + PAGE <= r.start + r.size
  }

  predicate InSome(ranges: seq<Range>, f: nat) {
    exists i :: 0 <= i < |ranges| && Inside(ranges[i], f)
  }

  predicate Aligned(r: Range) {
    r.size % PAGE == 0 && (r.size > 0 ==> r.start % PAGE == 0)
  }

  predicate Meet(a: Range, b: Range) {
    a.size > 0 && b.size > 0 && a.start < b.start + b.size && b.start < a.start + a.size
  }

  /** Ranges of whole pages above the first megabyte that do not overlap. */
  predicate Sound(ranges: seq<Range>) {
    && (forall i | 0 <= i < |ranges| :: Aligned(ranges[i]) && (ranges[i].size > 0 ==> ranges[i].start >= 1048576))
    && (forall i, j | 0 <= i < j < |ranges| :: !Meet(ranges[i], ranges[j]))
  }

  function PagesIn(ranges: seq<Range>): nat {
    if ranges == [] then 0 else PagesIn(ranges[..|ranges| - 1]) + ranges[|ranges| - 1].size / PAGE
  }

  /** FrameAllocatorState. `live` are the frames clients hold; `storage` is where the free stack is kept. */
  datatype State = State(ranges: seq<Range>, stack: seq<nat>, storage: Range, cached: nat, free: int, arch: bool,
                         live: set<nat>)

  // ----------------------------------------------------------- set-up

  /** The bytes set aside for the stack, as init_frame_allocator rounds them. */
  function StackBytes(usable: nat): nat {
    var needed := usable / PAGE * 8 + PAGE;
    needed + (PAGE - needed % PAGE)
  }

  predicate Suits(r: Range, needed: nat) {
    r.size >= needed && r.start + needed < GB
  }

  /** The first range from `i` that can hold the stack. */
  function FirstSuitable(ranges: seq<Range>, needed: nat, i: nat): (k: nat)
    requires i <= |ranges|
    ensures i <= k <= |ranges|
    ensures k < |ranges| ==> Suits(ranges[k], needed)
    ensures forall j | i <= j < k :: !Suits(ranges[j], needed)
    decreases |ranges| - i
  {
    if i == |ranges| || Suits(ranges[i], needed) then i else FirstSuitable(ranges, needed, i + 1)
  }

  function Cut(ranges: seq<Range>, i: nat, bytes: nat): seq<Range>
    requires i < |ranges| && bytes <= ranges[i].size
  {
    ranges[i := Range(ranges[i].start + bytes, ranges[i].size - bytes)]
  }

  function Initial(ranges: seq<Range>, usable: nat): State
    requires FirstSuitable(ranges, StackBytes(usable), 0) < |ranges|
  {
    var i, n := FirstSuitable(ranges, StackBytes(usable), 0), StackBytes(usable);
    var left := Cut(ranges, i, n);
    State(left, [], Range(ranges[i].start, n), i, PagesIn(left), false, {})
  }

  // ----------------------------------------------------------- operations

  /** The range may give a frame now: before the architecture is set up only from the first gigabyte. */
  predicate Usable(s: State, r: Range) {
    r.size >= PAGE && (s.arch || r.start + PAGE < GB)
  }

  function FirstUsable(s: State, i: nat): (k: nat)
    requires i <= |s.ranges|
    ensures i <= k <= |s.ranges|
    ensures k < |s.ranges| ==> Usable(s, s.ranges[k])
    ensures forall j | i <= j < k :: !Usable(s, s.ranges[j])
    decreases |s.ranges| - i
  {
    if i == |s.ranges| || Usable(s, s.ranges[i]) then i else FirstUsable(s, i + 1)
  }

  /** The cached range while it lasts, else the first usable one. */
  function Pick(s: State): (k: nat)
    requires s.cached < |s.ranges|
    ensures k <= |s.ranges| && (k < |s.ranges| ==> Usable(s, s.ranges[k]))
    ensures k == |s.ranges| ==> forall j | 0 <= j < |s.ranges| :: !Usable(s, s.ranges[j])
  {
    if Usable(s, s.ranges[s.cached]) then s.cached else FirstUsable(s, 0)
  }

  datatype Result = Granted(frame: nat, state: State) | Panic

  function Alloc(s: State): Result
    requires s.cached < |s.ranges|
  {
    if s.stack != [] then
      var f := s.stack[|s.stack| - 1];
      if f == 0 then Panic
      else Granted(f, s.(stack := s.stack[..|s.stack| - 1], free := s.free - 1, live := s.live + {f}))
    else
      var i := Pick(s);
      if i == |s.ranges| || s.ranges[i].start == 0 then Panic
      else
        var f := s.ranges[i].start;
        Granted(f, s.(ranges := Cut(s.ranges, i, PAGE), cached := i, free := s.free - 1, live := s.live + {f}))
  }

  datatype Outcome = Freed(state: State) | Overflow

  function Dealloc(s: State, f: nat): Outcome {
    if 8 * |s.stack| + 8 > s.storage.size then Overflow
    else Freed(s.(stack := s.stack + [f], free := s.free + 1, live := s.live - {f}))
  }

  // ----------------------------------------------------------- invariant

  /** A whole frame outside the ranges and the stack's storage; below the first gigabyte until the
      architecture is set up. */
  predicate Apart(s: State, f: nat) {
    && f % PAGE == 0 && f >= 1048576 && !InSome(s.ranges, f)
    && (f + PAGE <= s.storage.start || s.storage.start + s.storage.size <= f)
    && (!s.arch ==> f + PAGE < 1073741824)
  }

  predicate StorageApart(s: State) {
    && Aligned(s.storage) && s.storage.size > 0 && 1048576 <= s.storage.start
    && s.storage.start + s.storage.size < 1073741824
    && forall i | 0 <= i < |s.ranges| :: !Meet(s.ranges[i], s.storage)
  }

  ghost predicate Inv(s: State) {
    && s.cached < |s.ranges| && Sound(s.ranges) && StorageApart(s)
    && (forall f {:trigger Apart(s, f)} | f in s.live || f in s.stack :: Apart(s, f))
    && (forall i | 0 <= i < |s.stack| :: s.stack[i] !in s.live)
    && (forall i, j | 0 <= i < j < |s.stack| :: s.stack[i] != s.stack[j])
    && s.free == |s.stack| + PagesIn(s.ranges)
    && 8 * (|s.live| + |s.stack| + PagesIn(s.ranges)) <= s.storage.size
  }
}

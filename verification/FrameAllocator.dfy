/** The frame allocator in place: ranges consumed from the front, freed frames on a stack
    (kernel/mem/frame_allocator.c). */
module FrameAllocator {
  import opened Basics
  import opened FrameModel
  import opened FrameRuns

  class Allocator {
    const ranges: array<Range>       // free_memory.free_ranges
    var cells: array<nat>            // the words from frame_stack.base
    var top: nat                     // frame_stack.top, counted in words from the base
    var storage: Range
    var cached: nat
    var free: int
    var arch: bool                   // is_hal_arch_initialized
    var panicked: bool
    ghost var live: set<nat>

    ghost predicate Shape()
      reads this, cells
    {
      top <= cells.Length && 8 * cells.Length <= storage.size < 8 * cells.Length + 8
    }

    ghost function Abs(): State
      requires Shape()
      reads this, cells, ranges
    {
      State(ranges[..], cells[..top], storage, cached, free, arch, live)
    }

    ghost predicate Valid()
      reads this, cells, ranges
    {
      Shape() && Inv(Abs())
    }

    /** init_frame_allocator: panics exactly when no range can hold the stack. */
    constructor (rs: array<Range>, usable: nat)
      requires Sound(rs[..]) && PagesIn(rs[..]) * PAGE <= usable
      modifies rs
      ensures ranges == rs && fresh(cells)
      ensures panicked <==> FirstSuitable(old(rs[..]), StackBytes(usable), 0) == rs.Length
      ensures !panicked ==> Valid() && Abs() == Initial(old(rs[..]), usable)
    {
      ranges := rs;
      cells, top, storage, cached, free, arch, panicked, live := new nat[0], 0, Range(0, 0), 0, 0, false, true, {};
      new;
      var needed := usable / PAGE * 8;
      needed := needed + PAGE;
      needed := needed + (PAGE - needed % PAGE);
      var i := FindStorage(needed);
      if i < rs.Length {
        Reserve(i, needed);
        InitialInv(old(rs[..]), usable);
      }
    }

    /** The loop that looks for a range for the stack. */
    method FindStorage(needed: nat) returns (i: nat)
      ensures i == FirstSuitable(ranges[..], needed, 0)
    {
      i := 0;
      while i < ranges.Length
        invariant 0 <= i <= ranges.Length && FirstSuitable(ranges[..], needed, 0) == FirstSuitable(ranges[..], needed, i)
      {
        if ranges[i].size >= needed && ranges[i].start + needed < GB {
          return;
        }
        i := i + 1;
      }
    }

    method Reserve(i: nat, needed: nat)
      requires i < ranges.Length && Suits(ranges[i], needed)
      modifies this, ranges
      ensures !panicked && top == 0 && fresh(cells) && Shape() && live == {} && !arch
      ensures ranges[..] == old(Cut(ranges[..], i, needed)) && storage == old(Range(ranges[i].start, needed)) && cached == i
      ensures free == PagesIn(ranges[..])
    {
      cached := i;
      storage := Range(ranges[i].start, needed);
      cells := new nat[needed / 8];
      top, panicked, live, arch := 0, false, {}, false;
      ranges[i] := Range(ranges[i].start + needed, ranges[i].size - needed);
      assert ranges[..] == old(Cut(ranges[..], i, needed));
      free := CountPages();
    }

    /** The loop that sums the pages left. */
    method CountPages() returns (n: nat)
      ensures n == PagesIn(ranges[..])
    {
      n := 0;
      var i := 0;
      while i < ranges.Length
        invariant 0 <= i <= ranges.Length && n == PagesIn(ranges[..i])
      {
        assert ranges[..i + 1][..i] == ranges[..i];
        n := n + ranges[i].size / PAGE;
        i := i + 1;
      }
      assert ranges[..i] == ranges[..];
    }

    method FindUsable() returns (i: nat)
      requires Shape()
      ensures i == FirstUsable(Abs(), 0)
    {
      i := 0;
      while i < ranges.Length
        invariant 0 <= i <= ranges.Length && FirstUsable(Abs(), 0) == FirstUsable(Abs(), i)
      {
        if ranges[i].size >= PAGE && (arch || ranges[i].start + PAGE < GB) {
          return;
        }
        i := i + 1;
      }
    }

    /** frame_stack_pop. */
    method PopFrame() returns (frame: nat)
      requires Shape() && top > 0
      modifies this`top, this`free, this`live
      ensures Shape() && frame == old(cells[top - 1])
      ensures Abs() == old(Abs()).(stack := old(cells[..top - 1]), free := old(free) - 1, live := old(live) + {frame})
    {
      free := free - 1;
      top := top - 1;
      frame := cells[top];
      live := live + {frame};
    }

    /** The first page of a range. */
    method TakeFrame(i: nat) returns (frame: nat)
      requires Shape() && i < ranges.Length && ranges[i].size >= PAGE
      modifies this`free, this`cached, this`live, ranges
      ensures Shape() && frame == old(ranges[i].start)
      ensures Abs() == old(Abs()).(ranges := old(Cut(ranges[..], i, PAGE)), cached := i, free := old(free) - 1, live := old(live) + {frame})
    {
      free := free - 1;
      cached := i;
      frame := ranges[i].start;
      ranges[i] := Range(frame + PAGE, ranges[i].size - PAGE);
      live := live + {frame};
      assert ranges[..] == old(Cut(ranges[..], i, PAGE));
    }

    /** The range to take from: the cached one or the first usable. */
    method PickRange() returns (i: nat)
      requires Shape() && cached < ranges.Length
      ensures i == Pick(Abs())
    {
      if ranges[cached].size >= PAGE && (arch || ranges[cached].start + PAGE < GB) {
        i := cached;
      } else {
        i := FindUsable();
      }
    }

    method FromStack() returns (frame: nat)
      requires Valid() && top > 0
      modifies this`top, this`free, this`live
      ensures Valid() && frame != 0 && old(Alloc(Abs())) == Granted(frame, Abs())
    {
      ghost var s := Abs();
      PopKeepsInv(s);
      frame := PopFrame();
      assert s.stack[..|s.stack| - 1] == old(cells[..top - 1]);
    }

    method FromRanges() returns (ok: bool, frame: nat)
      requires Valid() && top == 0
      modifies this`free, this`cached, this`live, ranges
      ensures ok <==> old(Alloc(Abs())).Granted?
      ensures ok ==> Valid() && frame != 0 && old(Alloc(Abs())) == Granted(frame, Abs())
    {
      ghost var s := Abs();
      var i := PickRange();
      ok, frame := i < ranges.Length, 0;
      if ok {
        TakeKeepsInv(s);
        frame := TakeFrame(i);
      }
    }

    /** alloc_frame, which does what `Alloc` says and panics when it says so. */
    method AllocFrame() returns (ok: bool, frame: nat)
      requires Valid()
      modifies this`top, this`free, this`cached, this`live, ranges
      ensures ok <==> old(Alloc(Abs())).Granted?
      ensures ok ==> Valid() && old(Alloc(Abs())) == Granted(frame, Abs())
    {
      ok, frame := storage.size != 0 && storage.start != 0, 0;
      if ok {
        if top > 0 {
          frame := FromStack();
        } else {
          ok, frame := FromRanges();
        }
      }
      ok := ok && frame != 0;
    }

    /** dealloc_frame: for a frame its caller holds the stack never overflows. */
    method DeallocFrame(frame: nat) returns (ok: bool)
      requires Valid() && frame in live
      modifies this`top, this`free, this`live, cells
      ensures ok && Valid() && Freed(Abs()) == old(Dealloc(Abs(), frame))
    {
      DeallocEffect(Abs(), frame);
      ok := false;
      if 8 * top + 8 > storage.size {
        return;
      }
      free := free + 1;
      cells[top] := frame;
      top := top + 1;
      live := live - {frame};
      assert cells[..top] == old(cells[..top]) + [frame];
      ok := true;
    }
  }
}

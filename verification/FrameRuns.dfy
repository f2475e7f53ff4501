/** What every run of the frame allocator keeps. */
module FrameRuns {
  import opened Basics
  import opened FrameModel

  lemma Shorter(start: nat, size: nat, bytes: nat)
    requires bytes <= size && size % PAGE == 0 && bytes % PAGE == 0
    ensures (size - bytes) % PAGE == 0 && (size - bytes) / PAGE == size / PAGE - bytes / PAGE
    ensures start % PAGE == 0 ==> (start + bytes) % PAGE == 0
  {
  }

  lemma {:induction false} CutPages(ranges: seq<Range>, i: nat, bytes: nat)
    requires i < |ranges| && bytes <= ranges[i].size && ranges[i].size % PAGE == 0 && bytes % PAGE == 0
    ensures PagesIn(Cut(ranges, i, bytes)) == PagesIn(ranges) - bytes / PAGE
    decreases |ranges|
  {
    var n := |ranges| - 1;
    var cut := Cut(ranges, i, bytes);
    if i == n {
      assert cut[..n] == ranges[..n];
      Shorter(ranges[i].start, ranges[i].size, bytes);
    } else {
      assert cut[..n] == Cut(ranges[..n], i, bytes);
      CutPages(ranges[..n], i, bytes);
    }
  }

  lemma CutSound(ranges: seq<Range>, i: nat, bytes: nat)
    requires Sound(ranges) && i < |ranges| && bytes <= ranges[i].size && bytes % PAGE == 0
    ensures Sound(Cut(ranges, i, bytes))
  {
    var cut := Cut(ranges, i, bytes);
    Shorter(ranges[i].start, ranges[i].size, bytes);
    forall j, k | 0 <= j < k < |cut| ensures !Meet(cut[j], cut[k]) {
      assert !Meet(ranges[j], ranges[k]);
    }
  }

  /** Taking bytes off the front of a range takes exactly its pages there, and no page of another. */
  lemma CutInside(ranges: seq<Range>, i: nat, bytes: nat, f: nat)
    requires Sound(ranges) && i < |ranges| && bytes <= ranges[i].size && bytes % PAGE == 0
    ensures InSome(Cut(ranges, i, bytes), f) <==> InSome(ranges, f) && !(Inside(ranges[i], f) && f < ranges[i].start + bytes)
  {
    var cut := Cut(ranges, i, bytes);
    var r := ranges[i];
    Shorter(r.start, r.size, bytes);
    forall j | 0 <= j < |ranges| && j != i ensures cut[j] == ranges[j] && !(Inside(ranges[j], f) && Inside(r, f)) {
      assert if j < i then !Meet(ranges[j], r) else !Meet(r, ranges[j]);
    }
    assert Inside(cut[i], f) <==> Inside(r, f) && f >= r.start + bytes;
    if InSome(ranges, f) {
      var j :| 0 <= j < |ranges| && Inside(ranges[j], f);
      assert j != i ==> Inside(cut[j], f);
    }
    if InSome(cut, f) {
      var j :| 0 <= j < |cut| && Inside(cut[j], f);
      assert j != i ==> Inside(ranges[j], f);
    }
  }

  lemma CutStorage(ranges: seq<Range>, i: nat, bytes: nat, other: Range)
    requires i < |ranges| && bytes <= ranges[i].size && forall j | 0 <= j < |ranges| :: !Meet(ranges[j], other)
    ensures forall j | 0 <= j < |ranges| :: !Meet(Cut(ranges, i, bytes)[j], other)
  {
    assert !Meet(ranges[i], other);
  }

  lemma PagesWithin(usable: nat, pages: nat)
    requires pages * PAGE <= usable
    ensures pages <= usable / PAGE
  {
  }

  lemma RoundedUp(n: nat)
    ensures (n + (PAGE - n % PAGE)) % PAGE == 0 && n < n + (PAGE - n % PAGE)
  {
  }

  lemma StackBytesEnough(usable: nat, pages: nat)
    requires pages * PAGE <= usable
    ensures StackBytes(usable) % PAGE == 0 && StackBytes(usable) >= 8 * pages + PAGE
  {
    PagesWithin(usable, pages);
    RoundedUp(usable / PAGE * 8 + PAGE);
  }

  /** The least whole pages above eight bytes a page of usable memory and one page more. */
  lemma StackBytesLeast(usable: nat)
    ensures StackBytes(usable) % 4096 == 0
    ensures 8 * (usable / 4096) + 4096 < StackBytes(usable) <= 8 * (usable / 4096) + 8192
  {
    RoundedUp(usable / PAGE * 8 + PAGE);
  }

  /** The stack goes to the front of the first range that holds it below the first gigabyte; there is none exactly
      when every range is too short or too high. */
  lemma StorageChosen(ranges: seq<Range>, usable: nat, k: nat, n: nat)
    requires n == StackBytes(usable) && k <= |ranges|
    requires forall j | 0 <= j < k :: ranges[j].size < n || ranges[j].start + n >= 1073741824
    requires k < |ranges| ==> ranges[k].size >= n && ranges[k].start + n < 1073741824
    ensures FirstSuitable(ranges, n, 0) == k
    ensures k < |ranges| ==>
              var s := Initial(ranges, usable);
              && s.storage == Range(ranges[k].start, n) && s.cached == k && s.stack == [] && s.live == {} && !s.arch
              && s.ranges == ranges[..k] + [Range(ranges[k].start + n, ranges[k].size - n)] + ranges[k + 1..]
  {
    var m := FirstSuitable(ranges, n, 0);
    assert k < |ranges| ==> Suits(ranges[k], n);
    assert m < k ==> Suits(ranges[m], n);
    if k < |ranges| {
      CutIs(ranges, k, n);
    }
  }

  lemma CutIs(ranges: seq<Range>, k: nat, n: nat)
    requires k < |ranges| && n <= ranges[k].size
    ensures Cut(ranges, k, n) == ranges[..k] + [Range(ranges[k].start + n, ranges[k].size - n)] + ranges[k + 1..]
  {
  }

  /** The storage cut off a range holds exactly the pages the range lost. */
  lemma StorageInside(ranges: seq<Range>, i: nat, n: nat, f: nat)
    requires Sound(ranges) && i < |ranges| && 0 < n <= ranges[i].size && n % PAGE == 0
    ensures InSome(ranges, f) <==> InSome(Cut(ranges, i, n), f) || Inside(Range(ranges[i].start, n), f)
  {
    CutInside(ranges, i, n, f);
    if Inside(ranges[i], f) && f < ranges[i].start + n {
      PageGap(f, ranges[i].start + n);
    }
    assert Inside(Range(ranges[i].start, n), f) ==> Inside(ranges[i], f);
  }

  /** Initialisation with enough accounted RAM leaves a stack that can hold every frame, in storage
      no range includes. */
  lemma InitialInv(ranges: seq<Range>, usable: nat)
    requires Sound(ranges) && PagesIn(ranges) * PAGE <= usable && FirstSuitable(ranges, StackBytes(usable), 0) < |ranges|
    ensures Inv(Initial(ranges, usable))
    ensures forall f: nat ::
              InSome(ranges, f) <==> InSome(Initial(ranges, usable).ranges, f) || Inside(Initial(ranges, usable).storage, f)
  {
    var i, n := FirstSuitable(ranges, StackBytes(usable), 0), StackBytes(usable);
    StackBytesEnough(usable, PagesIn(ranges));
    CutSound(ranges, i, n);
    CutPages(ranges, i, n);
    StorageCut(ranges, i, n);
    forall f: nat ensures InSome(ranges, f) <==> InSome(Cut(ranges, i, n), f) || Inside(Range(ranges[i].start, n), f) {
      StorageInside(ranges, i, n, f);
    }
  }

  lemma StorageCut(ranges: seq<Range>, i: nat, n: nat)
    requires Sound(ranges) && i < |ranges| && 0 < n <= ranges[i].size && n % PAGE == 0
    ensures forall j | 0 <= j < |ranges| :: !Meet(Cut(ranges, i, n)[j], Range(ranges[i].start, n))
  {
    forall j | 0 <= j < |ranges| ensures !Meet(Cut(ranges, i, n)[j], Range(ranges[i].start, n)) {
      if j < i {
        assert !Meet(ranges[j], ranges[i]);
      } else if i < j {
        assert !Meet(ranges[i], ranges[j]);
      }
    }
  }

  /** All frames the allocator answers for. */
  function Count(s: State): nat {
    |s.live| + |s.stack| + PagesIn(s.ranges)
  }

  // ----------------------------------------------------------- allocation

  lemma PopKeepsInv(s: State)
    requires Inv(s) && s.stack != []
    ensures Alloc(s).Granted? && Inv(Alloc(s).state) && Count(Alloc(s).state) == Count(s)
  {
    var f := s.stack[|s.stack| - 1];
    assert f in s.stack && Apart(s, f);
    var t := s.(stack := s.stack[..|s.stack| - 1], free := s.free - 1, live := s.live + {f});
    forall g {:trigger Apart(t, g)} | g in t.live || g in t.stack ensures Apart(t, g) {
      assert g in s.live || g in s.stack;
      assert Apart(s, g);
    }
  }

  lemma TakeApart(s: State, t: State, i: nat, g: nat)
    requires Inv(s) && i < |s.ranges| && PAGE <= s.ranges[i].size && t.storage == s.storage && t.arch == s.arch
    requires s.arch || s.ranges[i].start + PAGE < GB
    requires t.ranges == Cut(s.ranges, i, PAGE) && (g == s.ranges[i].start || g in s.live)
    ensures Apart(t, g)
  {
    assert Aligned(s.ranges[i]) && Inside(s.ranges[i], s.ranges[i].start) && !Meet(s.ranges[i], s.storage);
    assert g in s.live ==> Apart(s, g);
    CutInside(s.ranges, i, PAGE, g);
  }

  lemma TakeRanges(s: State, i: nat)
    requires Inv(s) && i < |s.ranges| && PAGE <= s.ranges[i].size
    ensures var r, cut := s.ranges[i], Cut(s.ranges, i, PAGE);
      && r.start != 0 && InSome(s.ranges, r.start) && r.start !in s.live
      && |cut| == |s.ranges| && Sound(cut) && PagesIn(cut) == PagesIn(s.ranges) - 1
      && forall j | 0 <= j < |cut| :: !Meet(cut[j], s.storage)
  {
    var r := s.ranges[i];
    assert Aligned(r) && Inside(r, r.start);
    CutSound(s.ranges, i, PAGE);
    CutPages(s.ranges, i, PAGE);
    CutStorage(s.ranges, i, PAGE, s.storage);
    assert InSome(s.ranges, r.start);
    assert r.start in s.live ==> Apart(s, r.start);
  }

  lemma TakeKeepsInv(s: State)
    requires Inv(s) && s.stack == [] && Pick(s) < |s.ranges|
    ensures Alloc(s).Granted? && Inv(Alloc(s).state) && Count(Alloc(s).state) == Count(s)
    ensures Apart(Alloc(s).state, Alloc(s).frame) && InSome(s.ranges, Alloc(s).frame)
  {
    var i := Pick(s);
    TakeRanges(s, i);
    var f := s.ranges[i].start;
    var t := s.(ranges := Cut(s.ranges, i, PAGE), cached := i, free := s.free - 1, live := s.live + {f});
    assert Alloc(s) == Granted(f, t);
    forall g {:trigger Apart(t, g)} | g in t.live || g in t.stack ensures Apart(t, g) {
      TakeApart(s, t, i, g);
    }
  }

  lemma {:induction false} NoPages(ranges: seq<Range>)
    ensures PagesIn(ranges) == 0 <==> forall i | 0 <= i < |ranges| :: ranges[i].size < PAGE
    decreases |ranges|
  {
    if ranges != [] {
      var n := |ranges| - 1;
      NoPages(ranges[..n]);
      assert forall i | 0 <= i < n :: ranges[..n][i] == ranges[i];
    }
  }

  /** A granted frame was free, is now the client's alone, and before the architecture is set up lies in the
      first gigabyte. Afterwards allocation panics exactly when no frame is free. */
  lemma AllocEffect(s: State)
    requires Inv(s)
    ensures s.arch ==> (Alloc(s).Panic? <==> s.free == 0)
    ensures !s.arch ==> (Alloc(s).Panic? <==>
              && s.stack == []
              && forall i | 0 <= i < |s.ranges| :: s.ranges[i].size < 4096 || s.ranges[i].start + 4096 >= 1073741824)
    ensures Alloc(s).Granted? ==>
              var f, t := Alloc(s).frame, Alloc(s).state;
              && Inv(t) && Count(t) == Count(s) && f !in s.live && t.live == s.live + {f} && (f in s.stack || InSome(s.ranges, f))
              && (!s.arch ==> f + PAGE < 1073741824)
  {
    NoPages(s.ranges);
    if s.stack != [] {
      PopKeepsInv(s);
      var f := s.stack[|s.stack| - 1];
      assert f in s.stack && Apart(s, f);
    } else if Pick(s) < |s.ranges| {
      TakeKeepsInv(s);
      var r := s.ranges[Pick(s)];
      assert r.start in s.live ==> Apart(s, r.start);
    }
  }

  /** The range may give a frame. */
  predicate MayGive(s: State, i: nat)
    requires i < |s.ranges|
  {
    s.ranges[i].size >= 4096 && (s.arch || s.ranges[i].start + 4096 < 1073741824)
  }

  /** The frame returned last is the first to be granted again; with none returned it is the front of the range used
      last, and where that has none to give, of the first range that has.  The null frame is never granted. */
  lemma AllocChooses(s: State, k: nat, f: nat)
    requires s.cached < |s.ranges| && k < |s.ranges| && MayGive(s, k)
    requires k == s.cached || (!MayGive(s, s.cached) && forall j | 0 <= j < k :: !MayGive(s, j))
    requires f == if s.stack != [] then s.stack[|s.stack| - 1] else s.ranges[k].start
    ensures Alloc(s).Granted? <==> f != 0
    ensures Alloc(s).Granted? ==>
              var t, r := Alloc(s).state, s.ranges[k];
              && Alloc(s).frame == f && t.live == s.live + {f} && t.free == s.free - 1
              && (if s.stack != [] then s.stack == t.stack + [f] && t.ranges == s.ranges && t.cached == s.cached
                  else t.stack == [] && t.ranges == s.ranges[k := Range(r.start + 4096, r.size - 4096)] && t.cached == k)
  {
    if s.stack == [] {
      assert Usable(s, s.ranges[k]) && (Usable(s, s.ranges[s.cached]) <==> MayGive(s, s.cached));
      assert Pick(s) < k ==> MayGive(s, Pick(s));
    }
  }

  /** A frame is taken back exactly while the stack's storage has eight bytes left, and is the next to be granted. */
  lemma DeallocExact(s: State, f: nat)
    ensures Dealloc(s, f).Freed? <==> 8 * (|s.stack| + 1) <= s.storage.size
    ensures s.cached < |s.ranges| && f != 0 && Dealloc(s, f).Freed? ==>
              Alloc(Dealloc(s, f).state) == Granted(f, s.(live := s.live + {f}))
  {
    assert s.live - {f} + {f} == s.live + {f};
  }

  // ----------------------------------------------------------- deallocation

  /** A client that returns a frame it holds never overflows the stack. */
  lemma DeallocEffect(s: State, f: nat)
    requires Inv(s) && f in s.live
    ensures Dealloc(s, f).Freed? && Inv(Dealloc(s, f).state) && Dealloc(s, f).state.live == s.live - {f}
    ensures Count(Dealloc(s, f).state) == Count(s)
  {
    assert |s.live - {f}| == |s.live| - 1;
    assert Apart(s, f);
    var t := s.(stack := s.stack + [f], free := s.free + 1, live := s.live - {f});
    forall g {:trigger Apart(t, g)} | g in t.live || g in t.stack ensures Apart(t, g) {
      assert g in s.live || g in s.stack;
      assert Apart(s, g);
    }
  }

  // ----------------------------------------------------------- runs

  /** Where a frame may be. */
  predicate Owned(s: State, f: nat) {
    f in s.live || f in s.stack || InSome(s.ranges, f)
  }

  datatype Op = Take | Give(f: nat) | ArchReady

  /** Clients return only frames they hold. */
  predicate Legal(s: State, op: Op) {
    op.Give? ==> op.f in s.live
  }

  /** The next state, or none after a panic. */
  datatype Next = Running(state: State) | Stopped

  function Exec(s: State, op: Op): Next
    requires s.cached < |s.ranges|
  {
    match op
    case Take => (match Alloc(s) case Granted(_, t) => Running(t) case Panic => Stopped)
    case Give(f) => (match Dealloc(s, f) case Freed(t) => Running(t) case Overflow => Stopped)
    case ArchReady => Running(s.(arch := true))
  }

  ghost predicate Runs(s: State, ops: seq<Op>, t: State)
    decreases |ops|
  {
    if ops == [] then s == t
    else s.cached < |s.ranges| && Legal(s, ops[0]) && Exec(s, ops[0]).Running? && Runs(Exec(s, ops[0]).state, ops[1..], t)
  }

  lemma TakeKeepsOwned(s: State, f: nat)
    requires Inv(s) && Alloc(s).Granted?
    ensures Owned(Alloc(s).state, f) <==> Owned(s, f)
  {
    if s.stack != [] {
      var n := |s.stack| - 1;
      assert s.stack == s.stack[..n] + [s.stack[n]];
    } else {
      var i := Pick(s);
      CutInside(s.ranges, i, PAGE, f);
      assert Inside(s.ranges[i], s.ranges[i].start);
      if Inside(s.ranges[i], f) && f != s.ranges[i].start {
        PageGap(s.ranges[i].start, f);
      }
    }
  }

  lemma ExecKeeps(s: State, op: Op, f: nat)
    requires Inv(s) && Legal(s, op) && Exec(s, op).Running?
    ensures Inv(Exec(s, op).state) && Count(Exec(s, op).state) == Count(s) && (Owned(Exec(s, op).state, f) <==> Owned(s, f))
  {
    match op
    case Take =>
      AllocEffect(s);
      TakeKeepsOwned(s, f);
    case Give(g) =>
      DeallocEffect(s, g);
    case ArchReady =>
      var t := s.(arch := true);
      forall g {:trigger Apart(t, g)} | g in t.live || g in t.stack ensures Apart(t, g) {
        assert Apart(s, g);
      }
  }

  /** High memory is open exactly from the architecture's set-up on. */
  lemma {:induction false} OpenFromArchOn(s: State, ops: seq<Op>, t: State)
    requires Runs(s, ops, t)
    ensures t.arch <==> s.arch || ArchReady in ops
    decreases |ops|
  {
    if ops != [] {
      OpenFromArchOn(Exec(s, ops[0]).state, ops[1..], t);
      assert ops == [ops[0]] + ops[1..];
    }
  }

  /** Over every run the invariant holds, no frame is lost or invented, and no deallocation overflows. */
  lemma {:induction false} RunKeeps(s: State, ops: seq<Op>, t: State, f: nat)
    requires Inv(s) && Runs(s, ops, t)
    ensures Inv(t) && Count(t) == Count(s) && (Owned(t, f) <==> Owned(s, f))
    decreases |ops|
  {
    if ops != [] {
      ExecKeeps(s, ops[0], f);
      RunKeeps(Exec(s, ops[0]).state, ops[1..], t, f);
    }
  }

  /** From initialisation on, over every run: the frames clients hold are pages of the boot ranges outside the
      stack's storage, no two holders share one, held and free frames together stay what they were, and a
      legal deallocation is always accepted; until the architecture is set up all of them lie in the first gigabyte. */
  lemma EveryRunIsSafe(ranges: seq<Range>, usable: nat, ops: seq<Op>, t: State, f: nat)
    requires Sound(ranges) && PagesIn(ranges) * PAGE <= usable && FirstSuitable(ranges, StackBytes(usable), 0) < |ranges|
    requires Runs(Initial(ranges, usable), ops, t)
    ensures |t.live| + t.free == Initial(ranges, usable).free
    ensures f in t.live ==> InSome(ranges, f) && !Inside(t.storage, f) && f !in t.stack && !InSome(t.ranges, f)
    ensures f in t.live ==> Dealloc(t, f).Freed?
    ensures ArchReady !in ops && (f in t.live || f in t.stack) ==> f + PAGE < 1073741824
    ensures t.cached < |t.ranges| && (ArchReady in ops ==> (Alloc(t).Panic? <==> t.free == 0))
  {
    InitialInv(ranges, usable);
    var s := Initial(ranges, usable);
    RunKeeps(s, ops, t, f);
    OpenFromArchOn(s, ops, t);
    AllocEffect(t);
    if f in t.live {
      DeallocEffect(t, f);
      assert Apart(t, f) && Owned(t, f);
    }
    assert f in t.stack ==> Apart(t, f);
  }
}

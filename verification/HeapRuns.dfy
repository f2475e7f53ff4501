/** The heap as its clients see it, over every run of kmalloc and kfree. */
module HeapRuns {
  import opened Basics
  import opened Region
  import opened HeapModel
  import opened HeapProofs

  /** The allocated chunks: payload sizes by header address. */
  ghost function Live(c: Chunks): map<nat, nat> {
    map a | a in c && !c[a].free :: c[a].n
  }

  // ----------------------------------------------------------- the search

  /** Chunks that share a bucket differ by less than its step. */
  lemma SameBucketNear(x: nat, y: nat)
    requires 16 <= x && 16 <= y && BucketIndex(x) <= BucketIndex(y)
    ensures x <= 512 ==> x < y + 8
    ensures x <= 2560 ==> x < y + 64
    ensures x < 18432 ==> x < y + 512
  {
  }

  lemma BucketMonotone(x: nat, y: nat)
    requires 16 <= x <= y
    ensures BucketIndex(x) <= BucketIndex(y)
  {
    if y <= 512 {
      assert x / 8 <= y / 8;
    } else if y <= 2560 {
      if x > 512 { assert (x - 512) / 64 <= (y - 512) / 64; }
    } else {
      if x > 2560 { assert (x - 2560) / 512 <= (y - 2560) / 512; }
      else if x > 512 { assert (x - 512) / 64 <= 32; }
    }
  }

  /** Starting at the request's own bucket misses nothing: when the search comes back
      empty-handed, no free chunk but the wilderness could have served the request. */
  lemma SearchMissesNothing(test: Test, s: State, n: nat, a: nat)
    requires Inv(s) && n >= MIN_WORDS
    requires FirstFit(test, s.chunks, s.lists, BucketIndex(8 * n), n).None?
    requires a in s.chunks && s.chunks[a].free && a != s.wild
    ensures !Fits(s.chunks[a].n, n)
  {
    FirstFitListed(test, s.chunks, s.lists, BucketIndex(8 * n), n);
    if Fits(s.chunks[a].n, n) {
      var b := BucketOf(s.chunks, s.wild, a);
      BucketMonotone(8 * n, 8 * s.chunks[a].n);
      assert Belongs(s.chunks, s.wild, {}, a, b);
      assert a in s.lists[b];
      assert Accepts(test, s.chunks, a, n);
    }
  }

  // ----------------------------------------------------------- one call

  /** The exact condition under which the code hands out a chunk it has allocated: the
      candidate of the search is the wilderness, or really fits.  A caller can read it
      off the heap before the call. */
  ghost predicate Served(test: Test, s: State, n: nat)
    requires Inv(s) && n >= MIN_WORDS
  {
    CandidateIsFree(test, s, n);
    var a := Candidate(test, s, n);
    a == s.wild || Fits(s.chunks[a].n, n)
  }

  /** What the search loop takes, in words: as written a chunk of four words or of exactly the size asked for, whatever
      was asked for; as intended one that leaves four words. */
  predicate WouldTake(test: Test, c: Chunks, a: nat, n: nat) {
    a in c && (c[a].n == n || c[a].n >= if test.Intended? then n + 4 else 4)
  }

  lemma {:induction false} FirstInChooses(test: Test, c: Chunks, l: seq<nat>, n: nat, i: nat)
    requires i < |l| && WouldTake(test, c, l[i], n) && forall j | 0 <= j < i :: !WouldTake(test, c, l[j], n)
    ensures FirstIn(test, c, l, n) == Some(l[i])
    decreases |l|
  {
    if i > 0 {
      assert !WouldTake(test, c, l[0], n);
      FirstInChooses(test, c, l[1..], n, i - 1);
    }
  }

  lemma {:induction false} FirstInPasses(test: Test, c: Chunks, l: seq<nat>, n: nat)
    requires forall a | a in l :: !WouldTake(test, c, a, n)
    ensures FirstIn(test, c, l, n) == None
    decreases |l|
  {
    if l != [] {
      assert l[0] in l;
      FirstInPasses(test, c, l[1..], n);
    }
  }

  lemma {:induction false} FirstFitChooses(test: Test, c: Chunks, lists: Lists, b: nat, n: nat, k: nat, i: nat)
    requires b <= k < |lists| && i < |lists[k]| && WouldTake(test, c, lists[k][i], n)
    requires forall j | 0 <= j < i :: !WouldTake(test, c, lists[k][j], n)
    requires forall m, a | b <= m < k && a in lists[m] :: !WouldTake(test, c, a, n)
    ensures FirstFit(test, c, lists, b, n) == Some(lists[k][i])
    decreases k - b
  {
    if b == k {
      FirstInChooses(test, c, lists[k], n, i);
    } else {
      FirstInPasses(test, c, lists[b], n);
      FirstFitChooses(test, c, lists, b + 1, n, k, i);
    }
  }

  /** kmalloc settles on the first chunk it would take, from the request's own bucket upwards and in the order of the
      lists. */
  lemma CandidateChosen(test: Test, s: State, n: nat, k: nat, i: nat)
    requires Inv(s) && n >= 2 && BucketIndex(8 * n) <= k < 128 && i < |s.lists[k]|
    requires WouldTake(test, s.chunks, s.lists[k][i], n)
    requires forall j | 0 <= j < i :: !WouldTake(test, s.chunks, s.lists[k][j], n)
    requires forall m, a | BucketIndex(8 * n) <= m < k && a in s.lists[m] :: !WouldTake(test, s.chunks, a, n)
    ensures Candidate(test, s, n) == s.lists[k][i]
  {
    FirstFitChooses(test, s.chunks, s.lists, BucketIndex(8 * n), n, k, i);
  }

  /** The search starts at the request's own bucket: a candidate is short of the request by less than one step. */
  lemma CandidateNear(test: Test, s: State, n: nat)
    requires Inv(s) && n >= MIN_WORDS && Candidate(test, s, n) != s.wild
    ensures var a := Candidate(test, s, n);
      && a in s.chunks && s.chunks[a].free
      && (8 * n <= 512 ==> 8 * n <= 8 * s.chunks[a].n)
      && (8 * n <= 2560 ==> 8 * n < 8 * s.chunks[a].n + 64)
      && (8 * n < 18432 ==> 8 * n < 8 * s.chunks[a].n + 512)
      && (8 * n >= 18432 ==> 18432 <= 8 * s.chunks[a].n)
  {
    CandidateIsFree(test, s, n);
    var b := BucketIndex(8 * n);
    FirstFitListed(test, s.chunks, s.lists, b, n);
    var a := Candidate(test, s, n);
    var k :| b <= k < BUCKETS && a in s.lists[k];
    assert Belongs(s.chunks, s.wild, {}, a, k);
    SameBucketNear(8 * n, 8 * s.chunks[a].n);
  }

  /** A block handed out while still free is too small by at most that. */
  lemma UnservedNear(s: State, n: nat)
    requires Inv(s) && n >= MIN_WORDS && Malloc(AsWritten, s, n).outcome.StillFree?
    ensures var a := Malloc(AsWritten, s, n).outcome.at;
      && a in s.chunks && s.chunks[a].free && s.chunks[a].n != n && s.chunks[a].n < n + 4
      && (8 * n <= 512 ==> n < s.chunks[a].n)
      && (8 * n <= 2560 ==> 8 * n < 8 * s.chunks[a].n + 64)
      && (8 * n < 18432 ==> 8 * n < 8 * s.chunks[a].n + 512)
      && (8 * n >= 18432 ==> 18432 <= 8 * s.chunks[a].n)
  {
    CandidateNear(AsWritten, s, n);
  }

  lemma CarveLive(c: Chunks, lo: nat, hi: nat, wild: nat, a: nat, n: nat)
    requires Tiled(c, lo, hi, wild) && a in c && c[a].free
    requires n >= MIN_WORDS && c[a].n >= n + TAG_WORDS + MIN_WORDS
    ensures Live(Carve(c, a, n)) == Live(c)[a := n]
  {
    CarveTiled(c, lo, hi, wild, a, n);
  }

  /** What a kmalloc call does to the set of live blocks. */
  lemma MallocEffect(test: Test, s: State, n: nat)
    requires Inv(s) && n >= MIN_WORDS
    ensures var r := Malloc(test, s, n);
      match r.outcome
      case Allocated(a) =>
        && Served(test, s, n) && a == Candidate(test, s, n)
        && a !in Live(s.chunks)
        && Live(r.state.chunks) == Live(s.chunks)[a := n]
      case StillFree(a) =>
        && !Served(test, s, n)
        && r.state == s && a == Candidate(test, s, n) && a in s.chunks && s.chunks[a].free
      case OutOfMemory =>
        && Served(test, s, n)
        && r.state == s
        && (forall a | a in s.chunks && s.chunks[a].free && a != s.wild && Fits(s.chunks[a].n, n) :: Shadowed(s, a))
        && !CanSplit(s, s.wild, n) && !CanGrow(s, n)
  {
    CandidateIsFree(test, s, n);
    var a := Candidate(test, s, n);
    var r := Malloc(test, s, n);
    if a == s.wild {
      if CanSplit(s, a, n) {
        CarveLive(s.chunks, s.lo, s.hi, s.wild, a, n);
      } else if CanGrow(s, n) {
        GrowKeepsInv(s, n);
        GrowMakesRoom(s, n);
        var g := Grow(s, n);
        assert Live(g.chunks) == Live(s.chunks);
        CarveLive(g.chunks, g.lo, g.hi, g.wild, a, n);
      } else {
        forall x | x in s.chunks && s.chunks[x].free && x != s.wild && Fits(s.chunks[x].n, n)
          ensures Shadowed(s, x)
        {
          WildernessChosen(test, s, n, x);
        }
      }
    } else if s.chunks[a].n != n && CanSplit(s, a, n) {
      CarveLive(s.chunks, s.lo, s.hi, s.wild, a, n);
    }
  }

  lemma {:induction false} FirstInIsFirst(test: Test, c: Chunks, l: seq<nat>, n: nat)
    requires FirstIn(test, c, l, n).Some?
    ensures exists i :: 0 <= i < |l| && l[i] == FirstIn(test, c, l, n).value && forall j | 0 <= j < i :: !Accepts(test, c, l[j], n)
  {
    if Accepts(test, c, l[0], n) {
      assert l[0] == FirstIn(test, c, l, n).value;
    } else {
      FirstInIsFirst(test, c, l[1..], n);
      var k :| 0 <= k < |l[1..]| && l[1..][k] == FirstIn(test, c, l, n).value && forall j | 0 <= j < k :: !Accepts(test, c, l[1..][j], n);
      forall j | 0 <= j < k + 1 ensures !Accepts(test, c, l[j], n) {
        if j > 0 { assert l[j] == l[1..][j - 1]; }
      }
      assert l[k + 1] == FirstIn(test, c, l, n).value;
    }
  }

  /** `a` stands behind the wilderness in the last bucket. */
  ghost predicate Shadowed(s: State, a: nat)
    requires |s.lists| == BUCKETS
  {
    var l := s.lists[BUCKETS - 1];
    exists i, j :: 0 <= i < j < |l| && l[i] == s.wild && l[j] == a
  }

  /** When the search settles on the wilderness, the only fitting chunks it can have
      passed over are the ones behind the wilderness in the last bucket. */
  lemma WildernessChosen(test: Test, s: State, n: nat, a: nat)
    requires Inv(s) && n >= MIN_WORDS && Candidate(test, s, n) == s.wild
    requires a in s.chunks && s.chunks[a].free && a != s.wild && Fits(s.chunks[a].n, n)
    ensures Shadowed(s, a)
  {
    var b := BucketIndex(8 * n);
    var r := FirstFit(test, s.chunks, s.lists, b, n);
    if r.None? {
      SearchMissesNothing(test, s, n, a);
    } else {
      FirstFitStops(test, s.chunks, s.lists, b, n);
      var k :| b <= k < BUCKETS && FirstIn(test, s.chunks, s.lists[k], n) == r
        && forall m, x | b <= m < k && x in s.lists[m] :: !Accepts(test, s.chunks, x, n);
      FirstInListed(test, s.chunks, s.lists[k], n);
      assert Belongs(s.chunks, s.wild, {}, s.wild, k);
      BucketMonotone(8 * n, 8 * s.chunks[a].n);
      var h := BucketOf(s.chunks, s.wild, a);
      assert Belongs(s.chunks, s.wild, {}, a, h);
      assert a in s.lists[h] && Accepts(test, s.chunks, a, n);
      assert h == BUCKETS - 1 == k;
      FirstInIsFirst(test, s.chunks, s.lists[k], n);
    }
  }

  lemma {:induction false} FirstFitStops(test: Test, c: Chunks, lists: Lists, b: nat, n: nat)
    requires b <= |lists| && FirstFit(test, c, lists, b, n).Some?
    ensures exists k ::
              && b <= k < |lists|
              && FirstIn(test, c, lists[k], n) == FirstFit(test, c, lists, b, n)
              && forall m, x | b <= m < k && x in lists[m] :: !Accepts(test, c, x, n)
    decreases |lists| - b
  {
    FirstInListed(test, c, lists[b], n);
    if FirstIn(test, c, lists[b], n).None? {
      FirstFitStops(test, c, lists, b + 1, n);
    }
  }

  // ----------------------------------------------------------- out of memory

  /** A free chunk the search would take: accepted, and in a bucket it looks at. */
  ghost predicate Reachable(s: State, n: nat, a: nat)
    requires Inv(s) && n >= MIN_WORDS
  {
    && a in s.chunks && s.chunks[a].free && a != s.wild && Accepts(AsWritten, s.chunks, a, n)
    && BucketIndex(8 * n) <= BucketOf(s.chunks, s.wild, a)
  }

  /** The wilderness heads the last bucket, is accepted, and hides every chunk the search would take. */
  ghost predicate Hidden(s: State, n: nat)
    requires Inv(s) && n >= MIN_WORDS
  {
    && Accepts(AsWritten, s.chunks, s.wild, n)
    && s.lists[BUCKETS - 1] != [] && s.lists[BUCKETS - 1][0] == s.wild
    && forall a | Reachable(s, n, a) :: BucketOf(s.chunks, s.wild, a) == BUCKETS - 1
  }

  lemma BigInLast(s: State, a: nat)
    requires Inv(s) && a in s.lists[BUCKETS - 1] && a != s.wild
    ensures a in s.chunks && s.chunks[a].free && s.chunks[a].n >= MIN_WORDS + TAG_WORDS
  {
    assert Belongs(s.chunks, s.wild, {}, a, BUCKETS - 1);
  }

  lemma WildInLast(s: State, k: nat)
    requires Inv(s) && k < BUCKETS
    ensures s.wild in s.lists[k] <==> k == BUCKETS - 1
  {
    assert s.wild in s.lists[k] <==> Belongs(s.chunks, s.wild, {}, s.wild, k);
  }

  /** When the search ends at the wilderness: it met nothing it would take, or met the wilderness first. */
  lemma CandidateExact(s: State, n: nat)
    requires Inv(s) && n >= MIN_WORDS
    ensures Candidate(AsWritten, s, n) == s.wild <==> (forall a :: !Reachable(s, n, a)) || Hidden(s, n)
  {
    var b := BucketIndex(8 * n);
    var r := FirstFit(AsWritten, s.chunks, s.lists, b, n);
    FirstFitListed(AsWritten, s.chunks, s.lists, b, n);
    forall a | Reachable(s, n, a) ensures Listed(s, b, a) {
      assert Belongs(s.chunks, s.wild, {}, a, BucketOf(s.chunks, s.wild, a));
    }
    if r.Some? {
      FirstFitStops(AsWritten, s.chunks, s.lists, b, n);
      var k :| b <= k < BUCKETS && FirstIn(AsWritten, s.chunks, s.lists[k], n) == r
        && forall m, x | b <= m < k && x in s.lists[m] :: !Accepts(AsWritten, s.chunks, x, n);
      FirstInListed(AsWritten, s.chunks, s.lists[k], n);
      assert Belongs(s.chunks, s.wild, {}, r.value, k);
      if r.value == s.wild {
        WildFirst(s, n, k);
      } else {
        assert Reachable(s, n, r.value);
      }
    }
  }

  ghost predicate Listed(s: State, b: nat, a: nat)
    requires |s.lists| == BUCKETS
  {
    exists k :: b <= k < BUCKETS && a in s.lists[k]
  }

  lemma WildFirst(s: State, n: nat, k: nat)
    requires Inv(s) && n >= MIN_WORDS && BucketIndex(8 * n) <= k < BUCKETS
    requires FirstIn(AsWritten, s.chunks, s.lists[k], n) == Some(s.wild)
    requires forall m, x | BucketIndex(8 * n) <= m < k && x in s.lists[m] :: !Accepts(AsWritten, s.chunks, x, n)
    ensures Hidden(s, n)
  {
    FirstInListed(AsWritten, s.chunks, s.lists[k], n);
    WildInLast(s, k);
    FirstInIsFirst(AsWritten, s.chunks, s.lists[k], n);
    var i :| 0 <= i < |s.lists[k]| && s.lists[k][i] == s.wild
      && forall j | 0 <= j < i :: !Accepts(AsWritten, s.chunks, s.lists[k][j], n);
    if i > 0 {
      assert s.lists[k][0] != s.lists[k][i];
      BigInLast(s, s.lists[k][0]);
    }
    forall a | Reachable(s, n, a) ensures BucketOf(s.chunks, s.wild, a) == BUCKETS - 1 {
      var h := BucketOf(s.chunks, s.wild, a);
      assert Belongs(s.chunks, s.wild, {}, a, h);
      assert a in s.lists[h];
    }
  }

  /** kmalloc panics exactly when the wilderness can neither be split nor grown and the search either meets
      nothing it would take or meets the wilderness first. */
  lemma OutOfMemoryExact(s: State, n: nat)
    requires Inv(s) && n >= MIN_WORDS
    ensures Malloc(AsWritten, s, n).outcome.OutOfMemory? <==>
              && !CanSplit(s, s.wild, n) && !CanGrow(s, n)
              && ((forall a :: !Reachable(s, n, a)) || Hidden(s, n))
  {
    CandidateExact(s, n);
    CandidateIsFree(AsWritten, s, n);
  }

  /** With a chunk that fits the request outright, it panics exactly when that chunk is hidden too. */
  lemma PanicsDespiteExact(s: State, n: nat, x: nat)
    requires Inv(s) && n >= MIN_WORDS
    requires x in s.chunks && s.chunks[x].free && x != s.wild && Fits(s.chunks[x].n, n)
    ensures Malloc(AsWritten, s, n).outcome.OutOfMemory? <==> !CanSplit(s, s.wild, n) && !CanGrow(s, n) && Hidden(s, n)
  {
    OutOfMemoryExact(s, n);
    BucketMonotone(8 * n, 8 * s.chunks[x].n);
    assert Reachable(s, n, x);
  }

  /** What a kfree call does to the set of live blocks. */
  lemma FreeEffect(s: State, a: nat)
    requires Inv(s) && a in s.chunks && !s.chunks[a].free
    ensures Inv(FreeAt(s, a))
    ensures Live(FreeAt(s, a).chunks) == Live(s.chunks) - {a}
    ensures FreeAt(s, a).lo == s.lo && FreeAt(s, a).hi == s.hi
  {
    EndsInside(s.chunks, s.lo, s.hi, s.wild, a);
    ReleaseKeepsInv(s, Prev(s, a), a);
    ReleaseLive(s.chunks, s.lo, Prev(s, a), a);
  }

  /** The free chunk at `x` is the first the search meets in its bucket. */
  ghost predicate First(s: State, x: nat) {
    && x in s.chunks && s.chunks[x].free && s.chunks[x].n >= MIN_WORDS
    && var b := BucketOf(s.chunks, s.wild, x); b < |s.lists| && s.lists[b] != [] && s.lists[b][0] == x
  }

  lemma MergedNextIsFirst(s: State, a: nat)
    requires a in s.chunks && Next(s.chunks, a) in s.chunks && s.chunks[a].free
    requires s.chunks[a].n >= MIN_WORDS && s.chunks[Next(s.chunks, a)].n >= MIN_WORDS && |s.lists| == BUCKETS
    ensures First(MergeNext(s, a), a) && Next(MergeNext(s, a).chunks, a) > Next(s.chunks, a)
  {
  }

  lemma MergedBothIsFirst(s: State, p: nat, a: nat)
    requires p in s.chunks && Next(s.chunks, p) == a && a in s.chunks && Next(s.chunks, a) in s.chunks
    requires s.chunks[p].n >= MIN_WORDS && s.chunks[a].n >= MIN_WORDS && s.chunks[Next(s.chunks, a)].n >= MIN_WORDS
    requires |s.lists| == BUCKETS && s.chunks[p].free
    ensures First(MergeBoth(s, p, a), p) && Next(MergeBoth(s, p, a).chunks, p) > Next(s.chunks, a)
  {
  }

  /** The block just freed, with the free blocks around it, heads its bucket. */
  lemma FreedIsFirst(s: State, a: nat) returns (x: nat)
    requires Inv(s) && a in s.chunks && !s.chunks[a].free
    ensures First(FreeAt(s, a), x) && x <= a < Next(FreeAt(s, a).chunks, x)
  {
    EndsInside(s.chunks, s.lo, s.hi, s.wild, a);
    var p, f, b := Prev(s, a), MarkFree(s, a), Next(s.chunks, a);
    if a != s.lo && s.chunks[p].free {
      x := p;
      if s.chunks[b].free {
        MergedBothIsFirst(f, p, a);
      } else {
        MergedNextIsFirst(f, p);
      }
    } else {
      x := a;
      if s.chunks[b].free {
        MergedNextIsFirst(f, a);
      }
    }
  }

  /** So does what a split leaves: it begins behind the block and its tags. */
  lemma RestIsFirst(s: State, a: nat, n: nat)
    requires Inv(s) && a in s.chunks && n >= MIN_WORDS && CanSplit(s, a, n)
    ensures First(Split(s, a, n), a + n + 2)
  {
  }

  /** The chunks after a kfree, without the free lists. */
  function Released(c: Chunks, lo: nat, p: nat, a: nat): Chunks
    requires a in c && Next(c, a) in c
    requires a != lo ==> p in c && Next(c, p) == a
  {
    var f := c[a := c[a].(free := true)];
    var joinPrev := a != lo && c[p].free;
    if joinPrev && c[Next(c, a)].free then Join(Join(f, a), p)
    else if joinPrev then Join(f, p)
    else if c[Next(c, a)].free then Join(f, a)
    else f
  }

  lemma ReleaseLive(c: Chunks, lo: nat, p: nat, a: nat)
    requires a in c && !c[a].free && Next(c, a) in c
    requires a != lo ==> p in c && Next(c, p) == a
    ensures Live(Released(c, lo, p, a)) == Live(c) - {a}
  {
    var f := c[a := c[a].(free := true)];
    assert Live(f) == Live(c) - {a};
    if a != lo && c[p].free {
      if c[Next(c, a)].free {
        JoinLive(f, a);
        JoinLive(Join(f, a), p);
      } else {
        JoinLive(f, p);
      }
    } else if c[Next(c, a)].free {
      JoinLive(f, a);
    }
  }

  lemma JoinLive(c: Chunks, a: nat)
    requires a in c && Next(c, a) in c && c[a].free && c[Next(c, a)].free
    ensures Live(Join(c, a)) == Live(c)
  {
  }

  // ----------------------------------------------------------- every run

  datatype Op = MallocOp(bytes: nat) | FreeOp(at: nat) | EnableOp

  /** The heap together with what its clients hold: requested bytes by header address. */
  datatype Kernel = Kernel(heap: State, held: map<nat, nat>)

  ghost predicate Legal(test: Test, k: Kernel, op: Op)
    requires Inv(k.heap)
  {
    match op
    case MallocOp(bytes) => Served(test, k.heap, Words(bytes))
    case FreeOp(a) => a in k.held
    case EnableOp => true
  }

  ghost function Exec(test: Test, k: Kernel, op: Op): Kernel
    requires Good(k)
  {
    match op
    case MallocOp(bytes) =>
      var r := Malloc(test, k.heap, Words(bytes));
      if r.outcome.OutOfMemory? then k else Kernel(r.state, k.held[r.outcome.at := bytes])
    case FreeOp(a) =>
      if a in k.held then
        assert a in Live(k.heap.chunks);
        Kernel(FreeAt(k.heap, a), k.held - {a})
      else k
    case EnableOp => k.(heap := k.heap.(growth := true))
  }

  /** The heap is well formed and its allocated chunks are exactly the blocks held,
      each of exactly the size its request rounds up to. */
  ghost predicate Good(k: Kernel) {
    && Inv(k.heap)
    && Live(k.heap.chunks) == (map a | a in k.held :: Words(k.held[a]))
  }

  ghost predicate LegalRun(test: Test, k: Kernel, ops: seq<Op>)
    requires Good(k)
    decreases |ops|
  {
    ops != [] ==> Legal(test, k, ops[0]) && (ExecGood(test, k, ops[0]); LegalRun(test, Exec(test, k, ops[0]), ops[1..]))
  }

  ghost function Run(test: Test, k: Kernel, ops: seq<Op>): Kernel
    requires Good(k) && LegalRun(test, k, ops)
    decreases |ops|
  {
    if ops == [] then k
    else
      ExecGood(test, k, ops[0]);
      Run(test, Exec(test, k, ops[0]), ops[1..])
  }

  lemma ExecGood(test: Test, k: Kernel, op: Op)
    requires Good(k) && Legal(test, k, op)
    ensures Good(Exec(test, k, op)) && Exec(test, k, op).heap.lo == k.heap.lo
  {
    match op
    case MallocOp(bytes) => ExecMallocGood(test, k, bytes);
    case FreeOp(a) => ExecFreeGood(test, k, a);
    case EnableOp =>
  }

  lemma ExecMallocGood(test: Test, k: Kernel, bytes: nat)
    requires Good(k) && Served(test, k.heap, Words(bytes))
    ensures Good(Exec(test, k, MallocOp(bytes))) && Exec(test, k, MallocOp(bytes)).heap.lo == k.heap.lo
  {
    MallocEffect(test, k.heap, Words(bytes));
    MallocKeepsInv(test, k.heap, Words(bytes));
    var r := Malloc(test, k.heap, Words(bytes));
    if r.outcome.Allocated? {
      HandOut(k, r.state, r.outcome.at, bytes);
    }
  }

  lemma HandOut(k: Kernel, s: State, a: nat, bytes: nat)
    requires Good(k) && Inv(s) && Live(s.chunks) == Live(k.heap.chunks)[a := Words(bytes)]
    ensures Good(Kernel(s, k.held[a := bytes]))
  {
  }

  lemma ExecFreeGood(test: Test, k: Kernel, a: nat)
    requires Good(k) && a in k.held
    ensures Good(Exec(test, k, FreeOp(a))) && Exec(test, k, FreeOp(a)).heap.lo == k.heap.lo
  {
    assert a in Live(k.heap.chunks);
    FreeEffect(k.heap, a);
  }

  /** kmalloc that is not served breaks the correspondence at once: the block it hands
      out is not allocated. */
  lemma UnservedBreaks(test: Test, k: Kernel, bytes: nat)
    requires Good(k) && !Served(test, k.heap, Words(bytes))
    ensures !Good(Exec(test, k, MallocOp(bytes)))
  {
    MallocEffect(test, k.heap, Words(bytes));
    var a := Malloc(test, k.heap, Words(bytes)).outcome.at;
    var k' := Exec(test, k, MallocOp(bytes));
    assert k'.heap == k.heap && a !in Live(k'.heap.chunks);
    assert a in (map x | x in k'.held :: Words(k'.held[x]));
  }

  lemma {:induction false} RunGood(test: Test, k: Kernel, ops: seq<Op>)
    requires Good(k) && LegalRun(test, k, ops)
    ensures Good(Run(test, k, ops)) && Run(test, k, ops).heap.lo == k.heap.lo
    decreases |ops|
  {
    if ops != [] {
      ExecGood(test, k, ops[0]);
      RunGood(test, Exec(test, k, ops[0]), ops[1..]);
    }
  }

  lemma MallocGrowth(test: Test, s: State, n: nat)
    requires Inv(s) && n >= MIN_WORDS
    ensures var t := Malloc(test, s, n).state;
      t.growth == s.growth && s.hi <= t.hi && (!s.growth ==> t.hi == s.hi && t.region == s.region)
  {
    CandidateIsFree(test, s, n);
    if CanGrow(s, n) {
      GrowMakesRoom(s, n);
    }
  }

  /** The window grows only with growth on, and never shrinks. */
  predicate GrowsTo(s: State, t: State) {
    s.hi <= t.hi && (!t.growth ==> !s.growth && t.hi == s.hi && t.region == s.region)
  }

  lemma FreeGrowth(s: State, a: nat)
    requires Inv(s) && a in s.chunks && !s.chunks[a].free
    ensures var t := FreeAt(s, a); t.growth == s.growth && t.hi == s.hi && t.region == s.region
  {
  }

  lemma ExecGrowth(test: Test, k: Kernel, op: Op)
    requires Good(k)
    ensures GrowsTo(k.heap, Exec(test, k, op).heap)
    ensures Exec(test, k, op).heap.growth <==> k.heap.growth || op == EnableOp
  {
    match op
    case MallocOp(bytes) => MallocGrowth(test, k.heap, Words(bytes));
    case FreeOp(a) =>
      if a in k.held {
        assert a in Live(k.heap.chunks);
        FreeGrowth(k.heap, a);
      }
    case EnableOp =>
  }

  /** The heap's window stays what it is until growth is enabled, and growth is enabled by enable_kheap_growth alone;
      the window never shrinks. */
  lemma {:induction false} GrowsOnceEnabled(test: Test, k: Kernel, ops: seq<Op>)
    requires Good(k) && LegalRun(test, k, ops)
    ensures GrowsTo(k.heap, Run(test, k, ops).heap)
    ensures Run(test, k, ops).heap.growth <==> k.heap.growth || EnableOp in ops
    decreases |ops|
  {
    if ops != [] {
      ExecGood(test, k, ops[0]);
      ExecGrowth(test, k, ops[0]);
      GrowsOnceEnabled(test, Exec(test, k, ops[0]), ops[1..]);
      assert ops == [ops[0]] + ops[1..];
    }
  }

  lemma BootIsGood(region: Region)
    requires Padded(region) && region.kind.Heap? && WindowSize(region) > 128
    requires WindowStart(region) % 8 == 0 && WindowSize(region) % 8 == 0 && WindowStart(region) > 0
    requires region.size < TWO63 && End(region) <= TWO64
    ensures Good(Kernel(Init(region), map[]))
  {
    InitInv(region);
    assert Live(Init(region).chunks) == map[];
  }

  /** The blocks held lie inside the heap, are large enough for their requests and never share a word, header
      and footer included.  Whenever nothing is held any more, the heap is back to one wilderness chunk. */
  ghost predicate Safe(k: Kernel) {
    && Inv(k.heap)
    && (forall a | a in k.held ::
          && a in k.heap.chunks && !k.heap.chunks[a].free
          && k.held[a] <= 8 * k.heap.chunks[a].n
          && k.heap.lo <= a && Next(k.heap.chunks, a) <= k.heap.hi)
    && (forall a, b | a in k.held && b in k.held && a < b :: Next(k.heap.chunks, a) <= b)
    && (k.held == map[] ==>
          k.heap.chunks == map[k.heap.lo := Chunk(k.heap.hi - k.heap.lo - TAG_WORDS, true)])
  }

  lemma GoodIsSafe(k: Kernel)
    requires Good(k)
    ensures Safe(k)
  {
    var s := k.heap;
    forall a | a in k.held
      ensures && a in s.chunks && !s.chunks[a].free && k.held[a] <= 8 * s.chunks[a].n
              && s.lo <= a && Next(s.chunks, a) <= s.hi
    {
      assert a in Live(s.chunks) && Live(s.chunks)[a] == Words(k.held[a]);
      EndsInside(s.chunks, s.lo, s.hi, s.wild, a);
    }
    forall a, b | a in k.held && b in k.held && a < b ensures Next(s.chunks, a) <= b {
      InOrder(s.chunks, s.lo, s.hi, s.wild, a, b);
    }
    if k.held == map[] {
      AllFreeIsOneChunk(s);
    }
  }

  /** Every run in which each request is served is safe. */
  lemma EveryRunIsSafe(test: Test, k0: Kernel, ops: seq<Op>)
    requires Good(k0) && LegalRun(test, k0, ops)
    ensures Safe(Run(test, k0, ops))
  {
    RunGood(test, k0, ops);
    GoodIsSafe(Run(test, k0, ops));
  }

  /** With the intended test every request is served. */
  lemma IntendedServes(s: State, n: nat)
    requires Inv(s) && n >= MIN_WORDS
    ensures Served(Intended, s, n)
  {
    CandidateIsFree(Intended, s, n);
  }

  /** Clients free only blocks they hold; nothing is asked of their requests. */
  ghost predicate Disciplined(k: Kernel, ops: seq<Op>)
    requires Good(k)
    decreases |ops|
  {
    ops != [] ==>
      && (ops[0].FreeOp? ==> ops[0].at in k.held)
      && (IntendedLegal(k, ops[0]); ExecGood(Intended, k, ops[0]); Disciplined(Exec(Intended, k, ops[0]), ops[1..]))
  }

  lemma IntendedLegal(k: Kernel, op: Op)
    requires Good(k) && (op.FreeOp? ==> op.at in k.held)
    ensures Legal(Intended, k, op)
  {
    if op.MallocOp? {
      IntendedServes(k.heap, Words(op.bytes));
    }
  }

  lemma {:induction false} DisciplinedIsLegal(k: Kernel, ops: seq<Op>)
    requires Good(k) && Disciplined(k, ops)
    ensures LegalRun(Intended, k, ops)
    decreases |ops|
  {
    if ops != [] {
      IntendedLegal(k, ops[0]);
      ExecGood(Intended, k, ops[0]);
      DisciplinedIsLegal(Exec(Intended, k, ops[0]), ops[1..]);
    }
  }

  /** With the intended test every run is safe, whatever is requested. */
  lemma IntendedRunIsSafe(k0: Kernel, ops: seq<Op>)
    requires Good(k0) && Disciplined(k0, ops)
    ensures LegalRun(Intended, k0, ops) && Safe(Run(Intended, k0, ops))
  {
    DisciplinedIsLegal(k0, ops);
    EveryRunIsSafe(Intended, k0, ops);
  }

  /** With nothing allocated, coalescing has left a single wilderness chunk. */
  lemma AllFreeIsOneChunk(s: State)
    requires Inv(s) && Live(s.chunks) == map[]
    ensures s.chunks == map[s.lo := Chunk(s.hi - s.lo - TAG_WORDS, true)]
  {
    forall a | a in s.chunks ensures s.chunks[a].free {
      assert a !in Live(s.chunks);
    }
    EndsInside(s.chunks, s.lo, s.hi, s.wild, s.lo);
    NextNotFree(s.chunks, s.lo);
    forall a | a in s.chunks ensures a == s.lo {
      EndsInside(s.chunks, s.lo, s.hi, s.wild, a);
    }
  }
}

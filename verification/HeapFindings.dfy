/** Where kernel/mem/heap.c departs from what its comments promise, and exactly when. */
module HeapFindings {
  import opened Basics
  import opened HeapModel
  import opened HeapProofs
  import opened HeapRuns

  // ----------------------------------------------------------- the fit test

  lemma OnlyWildernessFree(s: State, n: nat)
    requires Inv(s) && n >= MIN_WORDS
    requires forall a | a in s.chunks && s.chunks[a].free :: a == s.wild
    ensures Candidate(AsWritten, s, n) == s.wild
  {
    CandidateIsFree(AsWritten, s, n);
  }

  /** kmalloc(40), kmalloc(16), kfree of the first block: a free chunk of 40 bytes between
      the heap's start and a live block. */
  ghost function FortyFree(s: State): State
    requires Inv(s) && s.chunks[s.lo].free && s.wild == s.lo && s.hi - s.lo >= 20
  {
    var s1 := Split(s, s.lo, 5);
    var s2 := Split(s1, s.lo + 7, 2);
    Release(s2, 0, s.lo)
  }

  lemma FreshIsOneChunk(s: State)
    requires Inv(s) && s.wild == s.lo
    ensures forall a | a in s.chunks :: a == s.lo
    ensures s.chunks[s.lo].n == s.hi - s.lo - TAG_WORDS
  {
    forall a | a in s.chunks ensures a == s.lo {
      EndsInside(s.chunks, s.lo, s.hi, s.wild, a);
    }
  }

  /** The first two requests are served from the wilderness. */
  lemma FortyFreeMallocs(s: State)
    requires Inv(s) && s.chunks[s.lo].free && s.wild == s.lo && s.hi - s.lo >= 20
    ensures Malloc(AsWritten, s, Words(40)) == Result(Split(s, s.lo, 5), Allocated(s.lo))
    ensures var s1 := Split(s, s.lo, 5);
      Inv(s1) && Malloc(AsWritten, s1, Words(16)) == Result(Split(s1, s.lo + 7, 2), Allocated(s.lo + 7))
    ensures Inv(Split(Split(s, s.lo, 5), s.lo + 7, 2))
  {
    FreshIsOneChunk(s);
    OnlyWildernessFree(s, 5);
    SplitKeepsInv(s, s.lo, 5);
    var s1 := Split(s, s.lo, 5);
    OnlyWildernessFree(s1, 2);
    SplitKeepsInv(s1, s.lo + 7, 2);
  }

  lemma FortyFreeRuns(s: State)
    requires Inv(s) && s.chunks[s.lo].free && s.wild == s.lo && s.hi - s.lo >= 20
    ensures var s2 := Split(Split(s, s.lo, 5), s.lo + 7, 2);
      Inv(s2) && s.lo in s2.chunks && !s2.chunks[s.lo].free && FreeAt(s2, s.lo) == FortyFree(s)
    ensures Inv(FortyFree(s))
    ensures FortyFree(s).wild == s.lo + 11
    ensures forall a | a in FortyFree(s).chunks && FortyFree(s).chunks[a].free :: a == s.lo || a == s.lo + 11
  {
    FreshIsOneChunk(s);
    FortyFreeMallocs(s);
    ReleaseKeepsInv(Split(Split(s, s.lo, 5), s.lo + 7, 2), 0, s.lo);
  }

  /** On that heap a request for 32 bytes gets the free chunk, still free and still listed,
      and the next request for 40 bytes gets it again: two holders of one block. */
  lemma SameBlockTwice(s: State)
    requires Inv(s) && s.chunks[s.lo].free && s.wild == s.lo && s.hi - s.lo >= 20
    ensures Inv(FortyFree(s))
    ensures Malloc(AsWritten, FortyFree(s), Words(32)) == Result(FortyFree(s), StillFree(s.lo))
    ensures Malloc(AsWritten, FortyFree(s), Words(40)).outcome == Allocated(s.lo)
  {
    FortyFreeRuns(s);
    var t := FortyFree(s);
    assert t.chunks[s.lo] == Chunk(5, true) && t.wild == s.lo + 11;
    assert Belongs(t.chunks, t.wild, {}, s.lo, 4);
    forall x | x in t.lists[4] ensures x == s.lo {
      assert Belongs(t.chunks, t.wild, {}, x, 4);
    }
    var l := t.lists[4];
    assert s.lo in l && l[0] in l;
    assert FirstIn(AsWritten, t.chunks, l, 4) == Some(s.lo) == FirstIn(AsWritten, t.chunks, l, 5);
    forall x ensures x !in t.lists[3] {
      assert x in t.lists[3] <==> Belongs(t.chunks, t.wild, {}, x, 3);
    }
    FirstInListed(AsWritten, t.chunks, t.lists[3], 4);
    assert FirstFit(AsWritten, t.chunks, t.lists, 4, 4) == Some(s.lo) == FirstFit(AsWritten, t.chunks, t.lists, 4, 5);
    assert FirstFit(AsWritten, t.chunks, t.lists, 3, 4) == Some(s.lo);
  }

  // ----------------------------------------------------------- the last bucket

  /** One call of kmalloc, and one of kfree. */
  ghost predicate Mallocs(s: State, n: nat, a: nat, t: State) {
    Inv(s) && n >= MIN_WORDS && Malloc(AsWritten, s, n) == Result(t, Allocated(a))
  }

  ghost predicate Frees(s: State, a: nat, t: State) {
    Inv(s) && a in s.chunks && !s.chunks[a].free && FreeAt(s, a) == t
  }

  /** With nothing else free, a request the wilderness can be split for is carved off its front. */
  lemma CarvesWilderness(s: State, n: nat) returns (t: State)
    requires Inv(s) && n >= MIN_WORDS && CanSplit(s, s.wild, n)
    requires forall a | a in s.chunks && s.chunks[a].free :: a == s.wild
    ensures Mallocs(s, n, s.wild, t) && Inv(t) && t.lo == s.lo && t.hi == s.hi
    ensures t.region == s.region && t.growth == s.growth
    ensures t.wild == s.wild + n + TAG_WORDS && t.chunks == Carve(s.chunks, s.wild, n)
    ensures forall a | a in t.chunks && t.chunks[a].free :: a == t.wild
  {
    OnlyWildernessFree(s, n);
    SplitKeepsInv(s, s.wild, n);
    t := Split(s, s.wild, n);
  }

  /** The first block released: it is listed in the last bucket. */
  lemma FreesFirst(s: State, m: nat) returns (t: State)
    requires Inv(s) && s.lo in s.chunks && s.chunks[s.lo] == Chunk(m, false)
    requires s.lo + m + 2 in s.chunks && !s.chunks[s.lo + m + 2].free
    ensures Frees(s, s.lo, t) && Inv(t) && t.lo == s.lo && t.hi == s.hi && t.wild == s.wild
    ensures t.region == s.region && t.growth == s.growth
    ensures t.chunks == s.chunks[s.lo := Chunk(m, true)]
  {
    ReleaseKeepsInv(s, Prev(s, s.lo), s.lo);
    t := FreeAt(s, s.lo);
  }

  lemma PrevIs(s: State, p: nat, a: nat)
    requires Inv(s) && p in s.chunks && a in s.chunks && Next(s.chunks, p) == a && a != s.lo
    ensures Prev(s, a) == p
  {
  }

  /** The block before the wilderness released, with an allocated one before it: the two become the wilderness, at
      the head of the last bucket. */
  lemma FreesLast(s: State, p: nat, a: nat) returns (t: State)
    requires Inv(s) && p in s.chunks && !s.chunks[p].free && Next(s.chunks, p) == a
    requires a in s.chunks && !s.chunks[a].free && a != s.lo && Next(s.chunks, a) == s.wild
    ensures Frees(s, a, t) && Inv(t) && t.lo == s.lo && t.wild == a && t.region == s.region && t.growth == s.growth
    ensures t.chunks == Join(s.chunks[a := Chunk(s.chunks[a].n, true)], a)
    ensures t.lists[BUCKETS - 1] != [] && t.lists[BUCKETS - 1][0] == a
  {
    PrevIs(s, p, a);
    ReleaseKeepsInv(s, p, a);
    t := FreeAt(s, a);
  }

  /** A heap that is one free chunk, and a request of `m` words that leaves room for two small blocks behind
      it but not for another of its size. */
  ghost predicate Roomy(s: State, m: nat) {
    && Inv(s) && s.wild == s.lo && m >= MIN_WORDS && BucketIndex(8 * m) == BUCKETS - 1
    && m + 14 <= s.hi - s.lo < 2 * m + 12
  }

  lemma ThreeBlocks(s: State, m: nat) returns (s1: State, s2: State, t: State)
    requires Roomy(s, m)
    ensures Mallocs(s, m, s.lo, s1) && Mallocs(s1, 2, s.lo + m + 2, s2) && Mallocs(s2, 2, s.lo + m + 6, t)
    ensures Inv(t) && t.lo == s.lo && t.region == s.region && t.growth == s.growth && t.wild == s.lo + m + 10
    ensures s.lo in t.chunks && t.chunks[s.lo] == Chunk(m, false)
    ensures s.lo + m + 2 in t.chunks && t.chunks[s.lo + m + 2] == Chunk(2, false)
    ensures s.lo + m + 6 in t.chunks && t.chunks[s.lo + m + 6] == Chunk(2, false)
    ensures t.chunks[t.wild].n == s.hi - s.lo - m - 12
  {
    FreshIsOneChunk(s);
    s1 := CarvesWilderness(s, m);
    s2 := CarvesWilderness(s1, 2);
    t := CarvesWilderness(s2, 2);
  }

  lemma TwoReleases(s: State, m: nat) returns (s1: State, t: State)
    requires Inv(s) && s.wild == s.lo + m + 10
    requires s.lo in s.chunks && s.chunks[s.lo] == Chunk(m, false)
    requires s.lo + m + 2 in s.chunks && s.chunks[s.lo + m + 2] == Chunk(2, false)
    requires s.lo + m + 6 in s.chunks && s.chunks[s.lo + m + 6] == Chunk(2, false)
    ensures Frees(s, s.lo, s1) && Frees(s1, s.lo + m + 6, t) && Inv(t)
    ensures t.region == s.region && t.growth == s.growth && t.wild == s.lo + m + 6
    ensures s.lo in t.chunks && t.chunks[s.lo] == Chunk(m, true)
    ensures t.chunks[t.wild].n == s.chunks[s.wild].n + 4
    ensures t.lists[BUCKETS - 1] != [] && t.lists[BUCKETS - 1][0] == t.wild
  {
    s1 := FreesFirst(s, m);
    t := FreesLast(s1, s.lo + m + 2, s.lo + m + 6);
  }

  /** On any heap that is one free chunk and cannot grow by the request: after three requests and two releases
      the request panics although a free chunk of exactly its size is there. */
  lemma PanicsWithAFit(s: State, m: nat) returns (s1: State, s2: State, s3: State, s4: State, t: State)
    requires Roomy(s, m) && !CanGrow(s, m)
    ensures Mallocs(s, m, s.lo, s1) && Mallocs(s1, 2, s.lo + m + 2, s2) && Mallocs(s2, 2, s.lo + m + 6, s3)
    ensures Frees(s3, s.lo, s4) && Frees(s4, s.lo + m + 6, t) && Inv(t)
    ensures s.lo in t.chunks && t.chunks[s.lo] == Chunk(m, true) && s.lo != t.wild
    ensures Malloc(AsWritten, t, m).outcome == OutOfMemory
  {
    s1, s2, s3 := ThreeBlocks(s, m);
    s4, t := TwoReleases(s3, m);
    HidesBehind(t, m);
    PanicsDespiteExact(t, m, s.lo);
  }

  lemma HidesBehind(t: State, m: nat)
    requires Inv(t) && m >= MIN_WORDS && BucketIndex(8 * m) == BUCKETS - 1
    requires t.chunks[t.wild].n >= MIN_WORDS + TAG_WORDS
    requires t.lists[BUCKETS - 1] != [] && t.lists[BUCKETS - 1][0] == t.wild
    ensures Hidden(t, m)
  {
  }

  // ----------------------------------------------------------- 64-bit arithmetic

  /** The request as kmalloc rounds it, in 64-bit arithmetic. */
  function Rounded64(bytes: nat): nat
    requires bytes < TWO64
  {
    var b := if bytes < 16 then 16 else bytes;
    if b % 8 != 0 then (b + (8 - b % 8)) % TWO64 else b
  }

  /** The size split_chunk_and_alloc computes for the second chunk: an unsigned
      subtraction stored in a signed 64-bit variable. */
  function Remainder64(size: nat, first: nat): int {
    var d := (size - (first + 16)) % TWO64;
    if d >= TWO63 then d - TWO64 else d
  }

  predicate SplitTest64(size: nat, first: nat) {
    Remainder64(size, first) >= 16
  }

  /** The test decides whether the chunk is large enough exactly for requests that do not
      reach past 2^63 beyond it, and by accident for the last few below 2^64. */
  lemma SplitTestExact(size: nat, first: nat)
    requires size < TWO63 && first < TWO64
    ensures (SplitTest64(size, first) <==> size >= first + 32)
       <==> (first + 16 <= TWO63 + size || TWO64 + size < first + 32)
  {
    var x := size - (first + 16);
    if x >= 0 {
    } else if x + TWO63 >= 0 {
      assert x % TWO64 == x + TWO64;
    } else if x + TWO64 >= 0 {
      assert x % TWO64 == x + TWO64;
    } else {
      assert x % TWO64 == x + 2 * TWO64;
    }
  }

  /** Up to 2^63 bytes the 64-bit computation is the plain one. */
  lemma RequestsUpTo2To63(bytes: nat, size: nat)
    requires bytes <= TWO63 && 16 <= size < TWO63
    ensures Rounded64(bytes) == 8 * Words(bytes)
    ensures SplitTest64(size, Rounded64(bytes)) <==> size >= Rounded64(bytes) + 32
    ensures SplitTest64(size, Rounded64(bytes)) ==> Remainder64(size, Rounded64(bytes)) == size - Rounded64(bytes) - 16
  {
    SplitTestExact(size, Rounded64(bytes));
  }

  /** Rounding up wraps exactly for the last seven sizes: to zero, which selects bucket -1. */
  lemma RoundingWraps(bytes: nat)
    requires bytes < TWO64
    ensures Rounded64(bytes) >= bytes <==> bytes <= TWO64 - 8
  {
  }
}

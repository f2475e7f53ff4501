/** The kernel heap as a value: which chunks tile it and which free list each
    free chunk is on (kernel/mem/heap.c).  Addresses and sizes are counted in
    8-byte words; a chunk at `a` has its header at `a`, its payload at
    `a + 1 .. a + n` and its footer at `a + n + 1`. */
module HeapModel {
  import opened Basics
  import opened Region

  const BUCKETS: nat := 128
  const MIN_WORDS: nat := 2
  const TAG_WORDS: nat := 2
  const GROWTH_STEP: nat := 16 * 1024 * 1024

  datatype Chunk = Chunk(n: nat, free: bool)
  type Chunks = map<nat, Chunk>
  type Lists = seq<seq<nat>>

  datatype State = State(
    lo: nat,             // heap->start
    hi: nat,             // heap->start + heap->size
    wild: nat,           // heap->wilderness_chunk
    chunks: Chunks,
    lists: Lists,        // the chains hanging off heap->free_buckets
    region: Region,      // the descriptor behind heap->heap_vmem
    growth: bool)        // heap->enable_growth

  // ----------------------------------------------------------- tiling

  function Next(c: Chunks, a: nat): nat
    requires a in c
  {
    a + c[a].n + TAG_WORDS
  }

  /** The chunk at `a` ends inside the heap and, unless it is the last, another starts where it ends. */
  ghost predicate InPlace(c: Chunks, hi: nat, wild: nat, a: nat)
    requires a in c
  {
    Next(c, a) <= hi && (a == wild || Next(c, a) in c)
  }

  /** The chunks cover exactly [lo, hi), the one at `wild` being the last. */
  ghost predicate Tiled(c: Chunks, lo: nat, hi: nat, wild: nat) {
    && 0 < lo
    && lo in c
    && wild in c
    && Next(c, wild) == hi
    && (forall a | a in c :: lo <= a && c[a].n >= MIN_WORDS)
    && (forall a {:trigger InPlace(c, hi, wild, a)} | a in c :: InPlace(c, hi, wild, a))
    && (forall a, b {:trigger Next(c, a), b in c} | a in c && b in c && a < b :: Next(c, a) <= b)
  }

  /** The chunks after carving `n` allocated words off the front of the chunk at `a`. */
  function Carve(c: Chunks, a: nat, n: nat): Chunks
    requires a in c && c[a].n >= n + TAG_WORDS
  {
    c[a := Chunk(n, false)][a + n + TAG_WORDS := Chunk(c[a].n - n - TAG_WORDS, true)]
  }

  /** The chunks after joining the one at `a` with the one that follows it. */
  function Join(c: Chunks, a: nat): Chunks
    requires a in c && Next(c, a) in c
  {
    (c - {Next(c, a)})[a := Chunk(c[a].n + c[Next(c, a)].n + TAG_WORDS, true)]
  }

  ghost predicate Apart(c: Chunks, a: nat)
    requires a in c
  {
    c[a].free && Next(c, a) in c ==> !c[Next(c, a)].free
  }

  ghost predicate NoAdjacentFree(c: Chunks) {
    forall a {:trigger Apart(c, a)} | a in c :: Apart(c, a)
  }

  // ----------------------------------------------------------- buckets

  /** get_bucket_index_from_size, on byte sizes of at least 16. */
  function BucketIndex(bytes: nat): (b: nat)
    requires 16 <= bytes
    ensures 1 <= b < BUCKETS
  {
    if bytes <= 512 then bytes / 8 - 1
    else if bytes <= 2560 then 64 + (bytes - 512) / 64
    else
      var b := 96 + (bytes - 2560) / 512;
      if b >= BUCKETS then BUCKETS - 1 else b
  }

  /** The first buckets hold one multiple of 8 bytes each, the next steps of 64 bytes, the next steps of 512,
      and the last everything from 18 KB on. */
  lemma BucketRange(bytes: nat, b: nat)
    requires 16 <= bytes && b == BucketIndex(bytes)
    ensures bytes <= 512 ==> 8 * (b + 1) <= bytes < 8 * (b + 2)
    ensures 512 < bytes <= 2560 ==> 512 + 64 * (b - 64) <= bytes < 512 + 64 * (b - 63)
    ensures 2560 < bytes < 18432 ==> 2560 + 512 * (b - 96) <= bytes < 2560 + 512 * (b - 95)
    ensures 18432 <= bytes ==> b == 127
  {
  }

  /** get_bucket_index_from_header. */
  function BucketOf(c: Chunks, wild: nat, a: nat): (b: nat)
    requires a in c && c[a].n >= MIN_WORDS
    ensures b < BUCKETS
  {
    if a == wild then BUCKETS - 1 else BucketIndex(8 * c[a].n)
  }

  ghost predicate NoDup(l: seq<nat>) {
    forall i, j | 0 <= i < j < |l| :: l[i] != l[j]
  }

  /** `a` is listed in bucket `b`: it is free, not set aside in `loose`, and `b` is its bucket. */
  ghost predicate Belongs(c: Chunks, wild: nat, loose: set<nat>, a: nat, b: nat) {
    a in c && c[a].free && a !in loose && c[a].n >= MIN_WORDS && BucketOf(c, wild, a) == b
  }

  /** The lists hold each free chunk outside `loose` once, in its own bucket, and nothing else. */
  ghost predicate Indexed(lists: Lists, c: Chunks, wild: nat, loose: set<nat>) {
    && |lists| == BUCKETS
    && (forall b, a | 0 <= b < BUCKETS :: a in lists[b] <==> Belongs(c, wild, loose, a, b))
    && (forall b | 0 <= b < BUCKETS :: NoDup(lists[b]))
  }

  function Without(l: seq<nat>, a: nat): seq<nat> {
    if l == [] then []
    else if l[0] == a then l[1..]
    else [l[0]] + Without(l[1..], a)
  }

  /** remove_from_bucket_list. */
  function Unlist(lists: Lists, b: nat, a: nat): Lists
    requires b < |lists|
  {
    lists[b := Without(lists[b], a)]
  }

  /** add_to_bucket_list. */
  function PushFront(lists: Lists, b: nat, a: nat): Lists
    requires b < |lists|
  {
    lists[b := [a] + lists[b]]
  }

  // ----------------------------------------------------------- invariant

  ghost predicate Sized(s: State) {
    && Padded(s.region)
    && s.region.kind.Heap?
    && WindowSize(s.region) == 8 * (s.hi - s.lo)
    && WindowStart(s.region) == 8 * s.lo
    && s.region.size < TWO63 && End(s.region) <= TWO64
  }

  ghost predicate Inv(s: State) {
    && Tiled(s.chunks, s.lo, s.hi, s.wild)
    && s.chunks[s.wild].free
    && NoAdjacentFree(s.chunks)
    && Indexed(s.lists, s.chunks, s.wild, {})
    && Sized(s)
  }

  // ----------------------------------------------------------- operations

  /** initialize_heap over a region whose window starts at `8 * lo`. */
  function Init(region: Region): State
    requires Padded(region) && WindowSize(region) > 128
  {
    var lo := WindowStart(region) / 8;
    var hi := lo + WindowSize(region) / 8;
    var c: Chunks := map[lo := Chunk(hi - lo - TAG_WORDS, true)];
    State(lo, hi, lo, c, PushFront(seq(BUCKETS, _ => []), BUCKETS - 1, lo), region, false)
  }

  /** The words a request of `bytes` occupies: at least two, rounded up. */
  function Words(bytes: nat): (n: nat)
    ensures MIN_WORDS <= n && bytes <= 8 * n
    ensures n == MIN_WORDS || 8 * n < bytes + 8
  {
    if bytes < 16 then MIN_WORDS else (bytes + 7) / 8
  }

  /** What carving `n` words out of a chunk of `size` words really needs. */
  predicate Fits(size: nat, n: nat) {
    size == n || size >= n + TAG_WORDS + MIN_WORDS
  }

  /** Which test the search loop applies.  As written it looks at the candidate alone: whether what is left
      after carving out the request is enough is not asked. */
  datatype Test = AsWritten | Intended

  predicate Takes(test: Test, size: nat, n: nat) {
    match test
    case AsWritten => size == n || size >= MIN_WORDS + TAG_WORDS
    case Intended => Fits(size, n)
  }

  predicate Accepts(test: Test, c: Chunks, a: nat, n: nat) {
    a in c && Takes(test, c[a].n, n)
  }

  function FirstIn(test: Test, c: Chunks, l: seq<nat>, n: nat): Option<nat> {
    if l == [] then None
    else if Accepts(test, c, l[0], n) then Some(l[0])
    else FirstIn(test, c, l[1..], n)
  }

  /** The chunk the search settles on, scanning the buckets from `b` upwards. */
  function FirstFit(test: Test, c: Chunks, lists: Lists, b: nat, n: nat): Option<nat>
    requires b <= |lists|
    decreases |lists| - b
  {
    if b == |lists| then None
    else
      var r := FirstIn(test, c, lists[b], n);
      if r.Some? then r else FirstFit(test, c, lists, b + 1, n)
  }

  function Candidate(test: Test, s: State, n: nat): nat
    requires n >= MIN_WORDS && |s.lists| == BUCKETS
  {
    var r := FirstFit(test, s.chunks, s.lists, BucketIndex(8 * n), n);
    if r.Some? then r.value else s.wild
  }

  predicate CanSplit(s: State, a: nat, n: nat)
    requires a in s.chunks
  {
    s.chunks[a].n >= n + TAG_WORDS + MIN_WORDS
  }

  /** split_chunk_and_alloc, when it succeeds. */
  function Split(s: State, a: nat, n: nat): State
    requires a in s.chunks && n >= MIN_WORDS && CanSplit(s, a, n) && |s.lists| == BUCKETS
  {
    var rest := a + n + TAG_WORDS;
    var c := Carve(s.chunks, a, n);
    var wild := if a == s.wild then rest else s.wild;
    var l := Unlist(s.lists, BucketOf(s.chunks, s.wild, a), a);
    s.(chunks := c, wild := wild, lists := PushFront(l, BucketOf(c, wild, rest), rest))
  }

  /** alloc_chunk. */
  function Take(s: State, a: nat): State
    requires a in s.chunks && s.chunks[a].n >= MIN_WORDS && |s.lists| == BUCKETS
  {
    s.(chunks := s.chunks[a := s.chunks[a].(free := false)],
       lists := Unlist(s.lists, BucketOf(s.chunks, s.wild, a), a))
  }

  /** The bytes try_increase_wilderness_chunk asks the VMM for: the least whole pages that are 16 MB and hold the
      request with its tags. */
  function GrowthBytes(n: nat): (bytes: nat)
    ensures bytes % 4096 == 0 && 16777216 <= bytes && 8 * n + 16 <= bytes
    ensures bytes == 16777216 || bytes < 8 * n + 16 + 4096
  {
    var least := 8 * n + 16;
    RoundUp(if GROWTH_STEP < least then least else GROWTH_STEP)
  }

  predicate CanGrow(s: State, n: nat) {
    s.growth && CanExpandTop(s.region, GrowthBytes(n))
  }

  /** try_increase_wilderness_chunk, when it succeeds. */
  function Grow(s: State, n: nat): State
    requires s.wild in s.chunks
  {
    var g := GrowthBytes(n) / 8;
    s.(hi := s.hi + g,
       chunks := s.chunks[s.wild := s.chunks[s.wild].(n := s.chunks[s.wild].n + g)],
       region := ExpandTop(s.region, GrowthBytes(n)))
  }

  datatype Outcome = Allocated(at: nat) | StillFree(at: nat) | OutOfMemory

  datatype Result = Result(state: State, outcome: Outcome)

  /** kmalloc on a request of `n` words. */
  function Malloc(test: Test, s: State, n: nat): Result
    requires n >= MIN_WORDS && Inv(s)
  {
    CandidateIsFree(test, s, n);
    var a := Candidate(test, s, n);
    if a != s.wild then
      if s.chunks[a].n == n then Result(Take(s, a), Allocated(a))
      else if CanSplit(s, a, n) then Result(Split(s, a, n), Allocated(a))
      else Result(s, StillFree(a))
    else if CanSplit(s, a, n) then Result(Split(s, a, n), Allocated(a))
    else if CanGrow(s, n) then
      GrowMakesRoom(s, n);
      Result(Split(Grow(s, n), a, n), Allocated(a))
    else Result(s, OutOfMemory)
  }

  /** merge_with_next_chunk. */
  function MergeNext(s: State, a: nat): State
    requires a in s.chunks && Next(s.chunks, a) in s.chunks
    requires s.chunks[a].n >= MIN_WORDS && s.chunks[Next(s.chunks, a)].n >= MIN_WORDS
    requires |s.lists| == BUCKETS
  {
    var b := Next(s.chunks, a);
    var c := Join(s.chunks, a);
    var wild := if b == s.wild then a else s.wild;
    var l := Unlist(s.lists, BucketOf(s.chunks, s.wild, a), a);
    var l' := Unlist(l, BucketOf(s.chunks, s.wild, b), b);
    s.(chunks := c, wild := wild, lists := PushFront(l', BucketOf(c, wild, a), a))
  }

  /** merge_with_next_and_prev_chunk, with `p` the chunk before `a`. */
  function MergeBoth(s: State, p: nat, a: nat): State
    requires p in s.chunks && Next(s.chunks, p) == a
    requires a in s.chunks && Next(s.chunks, a) in s.chunks
    requires s.chunks[p].n >= MIN_WORDS && s.chunks[a].n >= MIN_WORDS
    requires s.chunks[Next(s.chunks, a)].n >= MIN_WORDS
    requires |s.lists| == BUCKETS
  {
    var b := Next(s.chunks, a);
    var c := Join(Join(s.chunks, a), p);
    var wild := if b == s.wild then p else s.wild;
    var l := Unlist(s.lists, BucketOf(s.chunks, s.wild, a), a);
    var l' := Unlist(l, BucketOf(s.chunks, s.wild, b), b);
    var l'' := Unlist(l', BucketOf(s.chunks, s.wild, p), p);
    s.(chunks := c, wild := wild, lists := PushFront(l'', BucketOf(c, wild, p), p))
  }

  function MarkFree(s: State, a: nat): State
    requires a in s.chunks
  {
    s.(chunks := s.chunks[a := s.chunks[a].(free := true)])
  }

  /** kfree of the chunk at `a`; `p` is the chunk before it, unless it is the first. */
  function Release(s: State, p: nat, a: nat): State
    requires a in s.chunks && Next(s.chunks, a) in s.chunks
    requires a != s.lo ==> p in s.chunks && Next(s.chunks, p) == a
    requires forall x | x in s.chunks :: s.chunks[x].n >= MIN_WORDS
    requires |s.lists| == BUCKETS
  {
    var b := Next(s.chunks, a);
    var f := MarkFree(s, a);
    var joinPrev := a != s.lo && s.chunks[p].free;
    if joinPrev && s.chunks[b].free then MergeBoth(f, p, a)
    else if joinPrev then MergeNext(f, p)
    else if s.chunks[b].free then MergeNext(f, a)
    else f.(lists := PushFront(f.lists, BucketOf(f.chunks, f.wild, a), a))
  }

  /** The chunk before `a`, found through the tiling. */
  ghost function Prev(s: State, a: nat): (p: nat)
    requires Tiled(s.chunks, s.lo, s.hi, s.wild) && a in s.chunks
    ensures a != s.lo ==> p in s.chunks && p < a && Next(s.chunks, p) == a
  {
    if a == s.lo then 0
    else
      PrevExists(s, a);
      var p :| p in s.chunks && p < a && Next(s.chunks, p) == a;
      p
  }

  ghost function FreeAt(s: State, a: nat): State
    requires Inv(s) && a in s.chunks && !s.chunks[a].free
  {
    assert InPlace(s.chunks, s.hi, s.wild, a);
    Release(s, Prev(s, a), a)
  }

  // ----------------------------------------------------------- lemmas: tiling

  lemma PrevExists(s: State, a: nat)
    requires Tiled(s.chunks, s.lo, s.hi, s.wild) && a in s.chunks && a != s.lo
    ensures exists p :: p in s.chunks && p < a && Next(s.chunks, p) == a
  {
    var p := s.lo;
    while Next(s.chunks, p) != a
      invariant p in s.chunks && p < a
      decreases a - p
    {
      assert InPlace(s.chunks, s.hi, s.wild, p) && InPlace(s.chunks, s.hi, s.wild, a);
      p := Next(s.chunks, p);
    }
  }

  lemma CandidateIsFree(test: Test, s: State, n: nat)
    requires n >= MIN_WORDS && Inv(s)
    ensures Candidate(test, s, n) in s.chunks && s.chunks[Candidate(test, s, n)].free
    ensures Candidate(test, s, n) != s.wild ==> Accepts(test, s.chunks, Candidate(test, s, n), n)
  {
    FirstFitListed(test, s.chunks, s.lists, BucketIndex(8 * n), n);
  }

  lemma {:induction false} FirstInListed(test: Test, c: Chunks, l: seq<nat>, n: nat)
    ensures FirstIn(test, c, l, n).Some? ==> FirstIn(test, c, l, n).value in l && Accepts(test, c, FirstIn(test, c, l, n).value, n)
    ensures FirstIn(test, c, l, n).None? ==> forall a | a in l :: !Accepts(test, c, a, n)
  {
    if l != [] {
      FirstInListed(test, c, l[1..], n);
    }
  }

  lemma {:induction false} FirstFitListed(test: Test, c: Chunks, lists: Lists, b: nat, n: nat)
    requires b <= |lists|
    ensures var r := FirstFit(test, c, lists, b, n);
      if r.Some? then Accepts(test, c, r.value, n) && exists k :: b <= k < |lists| && r.value in lists[k]
      else forall k, a | b <= k < |lists| && a in lists[k] :: !Accepts(test, c, a, n)
    decreases |lists| - b
  {
    if b < |lists| {
      FirstInListed(test, c, lists[b], n);
      FirstFitListed(test, c, lists, b + 1, n);
    }
  }

  lemma GrowMakesRoom(s: State, n: nat)
    requires n >= MIN_WORDS && Inv(s) && CanGrow(s, n)
    ensures CanSplit(Grow(s, n), s.wild, n)
    ensures |Grow(s, n).lists| == BUCKETS
  {
  }
}

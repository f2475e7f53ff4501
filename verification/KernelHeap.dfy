/** kernel/mem/heap.c on an array of words, proved to do to the memory what HeapModel
    says happens to the state. */
module KernelHeap {
  import opened Basics
  import opened Region
  import opened HeapModel
  import opened HeapProofs
  import opened HeapFindings
  import opened HeapMemory

  function BucketOfWord(w: Word): (b: nat)
    requires SizeOf(w) >= MIN_WORDS
    ensures b < BUCKETS
  {
    if WildBit(w) then BUCKETS - 1 else BucketIndex(8 * SizeOf(w))
  }

  /** What the writes of remove_from_bucket_list amount to, for a chunk on its list. */
  lemma RemoveListed(m: seq<Word>, heads: seq<Word>, lists: Lists, nodes: set<nat>, b: nat, a: nat)
    requires Spaced(nodes) && Separate(lists, nodes) && Linked(m, heads, lists) && |m| < TWO63
    requires b < BUCKETS && a in lists[b] && a + 2 < |m|
    ensures m[a + 1] + 2 < |m| && m[a + 2] + 2 < |m|
    ensures var m' := Unlinked(m, a, m[a + 2], m[a + 1]);
      && SameButLinks(m, m', nodes)
      && Linked(m', if heads[b] == a then heads[b := m[a + 1]] else heads, Unlist(lists, b, a))
  {
    var l := lists[b];
    var k :| 0 <= k < |l| && l[k] == a;
    assert l[0] in l;
    assert Chained(m, l) && LinkedAt(m, l, k);
    UnlinkLinked(m, heads, lists, nodes, b, k);
  }

  /** For a chunk on no list, whose links are null, they change nothing. */
  lemma RemoveLoose(m: seq<Word>, heads: seq<Word>, lists: Lists, b: nat, a: nat)
    requires Linked(m, heads, lists) && b < BUCKETS && a !in lists[b]
    requires 0 < a && a + 2 < |m| && m[a + 1] == 0 && m[a + 2] == 0
    ensures Unlinked(m, a, m[a + 2], m[a + 1]) == m && heads[b] != a && Unlist(lists, b, a) == lists
  {
    WithoutAbsent(lists[b], a);
    assert lists[b] != [] ==> lists[b][0] in lists[b];
  }

  /** Either way the lists end up without the chunk and nothing but links has changed. */
  lemma RemovalLemma(m: seq<Word>, heads: seq<Word>, a: nat, c: Chunks, wild: nat, lists: Lists,
                     loose: set<nat>, lo: nat, hi: nat)
    requires Tiled(c, lo, hi, wild) && Indexed(lists, c, wild, loose)
    requires Linked(m, heads, lists) && |m| < TWO63
    requires a in c && c[a].free && a + 2 < |m|
    requires a in loose ==> m[a + 1] == 0 && m[a + 2] == 0
    ensures m[a + 1] + 2 < |m| && m[a + 2] + 2 < |m|
    ensures var b := BucketOf(c, wild, a);
      var m' := Unlinked(m, a, m[a + 2], m[a + 1]);
      && SameButLinks(m, m', FreeSet(c) - loose)
      && Linked(m', if heads[b] == a then heads[b := m[a + 1]] else heads, Unlist(lists, b, a))
      && (a in loose ==> m' == m && heads[b] != a && Unlist(lists, b, a) == lists)
  {
    var b := BucketOf(c, wild, a);
    assert a in lists[b] <==> Belongs(c, wild, loose, a, b);
    if a in loose {
      RemoveLoose(m, heads, lists, b, a);
    } else {
      TiledSpaced(c, lo, hi, wild);
      IndexedSeparate(lists, c, wild, loose);
      RemoveListed(m, heads, lists, FreeSet(c) - loose, b, a);
    }
  }

  class Heap {
    const mem: array<Word>        // the whole reservation, indexed by word address
    const buckets: array<Word>    // free_buckets
    const start: nat
    var size: nat
    var wilderness: nat
    var chunkCount: nat
    var growth: bool
    var region: Region
    ghost var state: State

    /** Tags and links describe `c` and `lists`; chunks in `loose` are on no list. */
    ghost predicate Shape(c: Chunks, wild: nat, lists: Lists, loose: set<nat>, hi: nat)
      reads mem, buckets
    {
      && buckets.Length == BUCKETS && mem != buckets
      && hi <= mem.Length && 8 * mem.Length <= TWO64
      && Tiled(c, start, hi, wild)
      && Indexed(lists, c, wild, loose)
      && Tags(mem[..], c, wild)
      && Linked(mem[..], buckets[..], lists)
    }

    /** The fields of the source's `struct Heap` agree with `state`. */
    ghost predicate Consistent()
      reads this, mem
    {
      && state.lo == start && state.hi == start + size && state.wild == wilderness
      && |state.chunks| == chunkCount
      && state.growth == growth && state.region == region
      && Padded(region) && End(region) == 8 * mem.Length
    }

    ghost predicate Valid()
      reads this, mem, buckets
    {
      && Inv(state)
      && Consistent()
      && Shape(state.chunks, state.wild, state.lists, {}, state.hi)
    }

    /** initialize_heap: one free wilderness chunk over the whole window. */
    constructor (words: array<Word>, r: Region)
      requires Padded(r) && r.kind.Heap? && WindowSize(r) > 128
      requires WindowStart(r) % 8 == 0 && WindowSize(r) % 8 == 0 && WindowStart(r) > 0
      requires r.size < TWO63 && End(r) == 8 * words.Length <= TWO64
      modifies words
      ensures Valid() && state == Init(r) && mem == words && fresh(buckets)
    {
      mem := words;
      buckets := new Word[BUCKETS](_ => 0);
      start := WindowStart(r) / 8;
      size := WindowSize(r) / 8;
      wilderness := WindowStart(r) / 8;
      chunkCount := 1;
      growth := false;
      region := r;
      state := Init(r);
      new;
      mem[start] := 8 * (size - TAG_WORDS) + 3;
      mem[start + size - 1] := 8 * (size - TAG_WORDS);
      InitInv(r);
      ghost var empty: Lists := seq(BUCKETS, _ => []);
      ghost var lists := AddToBucket(start, state.chunks, start, empty, {start}, state.hi);
      assert {start} - {start} == {};
    }

    // --------------------------------------------------------- bucket lists

    /** The writes of remove_from_bucket_list. */
    method Unlink(a: nat, b: nat)
      requires b < buckets.Length && mem != buckets && 8 * mem.Length <= TWO64
      requires a + 2 < mem.Length && mem[a + 1] + 2 < mem.Length && mem[a + 2] + 2 < mem.Length
      modifies mem, buckets
      ensures mem[..] == Unlinked(old(mem[..]), a, old(mem[a + 2]), old(mem[a + 1]))
      ensures buckets[..] ==
              if old(buckets[b]) == a then old(buckets[..])[b := old(mem[a + 1])] else old(buckets[..])
    {
      var prev := mem[a + 2];
      var next := mem[a + 1];
      if buckets[b] == a {
        buckets[b] := next;
      }
      if prev != 0 && next != 0 {
        mem[prev + 1] := next;
        mem[next + 2] := prev;
      } else if prev == 0 && next != 0 {
        mem[next + 2] := 0;
      } else if prev != 0 && next == 0 {
        mem[prev + 1] := 0;
      }
      mem[a + 1] := 0;
      mem[a + 2] := 0;
    }

    /** remove_from_bucket_list.  A chunk on no list is left as it is. */
    method RemoveFromBucket(a: nat, ghost c: Chunks, ghost wild: nat, ghost lists: Lists,
                            ghost loose: set<nat>, ghost hi: nat)
      returns (ghost lists': Lists)
      requires Shape(c, wild, lists, loose, hi)
      requires a in c && c[a].free && a + 2 < mem.Length
      requires a in loose ==> mem[a + 1] == 0 && mem[a + 2] == 0
      modifies mem, buckets
      ensures Shape(c, wild, lists', loose + {a}, hi)
      ensures lists' == Unlist(lists, BucketOf(c, wild, a), a)
      ensures mem[a + 1] == 0 && mem[a + 2] == 0
      ensures forall x | x in loose && x in c && c[x].free && x + 2 < mem.Length ::
                mem[x + 1] == old(mem[x + 1]) && mem[x + 2] == old(mem[x + 2])
      ensures PayloadsKept(old(mem[..]), mem[..], c)
      ensures a in loose ==> mem[..] == old(mem[..]) && buckets[..] == old(buckets[..]) && lists' == lists
    {
      ghost var m0, h0 := mem[..], buckets[..];
      assert Tagged(m0, c, wild, a);
      HeaderBits(c[a], a == wild, mem[a]);
      var b := BucketOfWord(mem[a]);
      RemovalLemma(m0, h0, a, c, wild, lists, loose, start, hi);
      Unlink(a, b);
      lists' := Unlist(lists, b, a);
      UnlistKeepsIndex(lists, c, wild, loose, a);
      LinksKeepTags(m0, mem[..], c, start, hi, wild, FreeSet(c) - loose);
      LooseUntouched(m0, mem[..], c, start, hi, wild, loose);
      assert a in loose ==> loose + {a} == loose;
    }

    /** add_to_bucket_list. */
    method AddToBucket(a: nat, ghost c: Chunks, ghost wild: nat, ghost lists: Lists,
                       ghost loose: set<nat>, ghost hi: nat)
      returns (ghost lists': Lists)
      requires Shape(c, wild, lists, loose, hi)
      requires a in c && c[a].free && a in loose && a + 2 < mem.Length
      modifies mem, buckets
      ensures Shape(c, wild, lists', loose - {a}, hi)
      ensures lists' == PushFront(lists, BucketOf(c, wild, a), a)
      ensures PayloadsKept(old(mem[..]), mem[..], c)
    {
      ghost var nodes := FreeSet(c);
      TiledSpaced(c, start, hi, wild);
      IndexedSeparate(lists, c, wild, loose);
      ghost var m0, h0 := mem[..], buckets[..];
      assert Tagged(m0, c, wild, a);
      HeaderBits(c[a], a == wild, mem[a]);
      var b := BucketOfWord(mem[a]);
      forall j | 0 <= j < BUCKETS ensures a !in lists[j] {
        assert !Belongs(c, wild, loose, a, j);
      }
      assert Separate(lists, nodes);
      PushLinked(m0, h0, lists, nodes, b, a);
      mem[a + 2] := 0;
      mem[a + 1] := buckets[b];
      if buckets[b] != 0 {
        mem[buckets[b] + 2] := a;
      }
      buckets[b] := a;
      lists' := PushFront(lists, b, a);
      PushKeepsIndex(lists, c, wild, loose, a);
      assert mem[..] == Pushed(m0, a, h0[b]);
      assert buckets[..] == h0[b := a];
      LinksKeepTags(m0, mem[..], c, start, hi, wild, FreeSet(c));
    }

    // --------------------------------------------------------- chunks

    /** The tag writes of split_chunk_and_alloc. */
    method WriteSplit(a: nat, n: nat, k: nat, isWild: bool)
      requires 8 * mem.Length <= TWO64 && a + n + k + 4 <= mem.Length
      requires n >= MIN_WORDS && k >= MIN_WORDS
      modifies mem
      ensures SameOutside(old(mem[..]), mem[..], a, a + n + k + 4)
      ensures mem[a] == 8 * n && mem[a + n + 1] == 8 * n
      ensures mem[a + n + 2] == Header(Chunk(k, true), isWild) && mem[a + n + k + 3] == 8 * k
    {
      mem[a] := 8 * n;
      mem[a + n + 1] := 8 * n;
      var rest := a + n + 2;
      mem[rest] := 8 * k + 1;
      if isWild {
        mem[rest] := mem[rest] + 2;
      }
      mem[rest + k + 1] := 8 * k;
    }

    /** The body of split_chunk_and_alloc, once the size test has passed. */
    method CarveChunk(a: nat, n: nat, k: nat, isWild: bool, ghost c: Chunks, ghost wild: nat,
                      ghost lists: Lists, ghost hi: nat)
      returns (ghost lists': Lists)
      requires Shape(c, wild, lists, {}, hi)
      requires a in c && c[a].free && c[a].n == n + k + TAG_WORDS && isWild == (a == wild)
      requires n >= MIN_WORDS && k >= MIN_WORDS
      modifies mem, buckets
      ensures var rest := a + n + TAG_WORDS;
        var wild' := if isWild then rest else wild;
        && Shape(Carve(c, a, n), wild', lists', {}, hi)
        && lists' == PushFront(Unlist(lists, BucketOf(c, wild, a), a), BucketOf(Carve(c, a, n), wild', rest), rest)
      ensures PayloadsKept(old(mem[..]), mem[..], c)
    {
      ghost var m0 := mem[..];
      EndsInside(c, start, hi, wild, a);
      ghost var lists1 := RemoveFromBucket(a, c, wild, lists, {}, hi);
      ghost var m1 := mem[..];
      WriteSplit(a, n, k, isWild);
      ghost var m2 := mem[..];
      var rest := a + n + TAG_WORDS;
      ghost var c', wild' := Carve(c, a, n), if a == wild then rest else wild;
      assert {} + {a} == {a};
      CarveTiled(c, start, hi, wild, a, n);
      CarveIndex(lists1, c, start, hi, wild, a, n);
      CarveTags(m1, m2, c, start, hi, wild, a, n);
      CarveLinks(m1, m2, buckets[..], lists1, c, start, hi, wild, a);
      lists' := AddToBucket(rest, c', wild', lists1, {rest}, hi);
      assert {rest} - {rest} == {};
      KeptTwice(m0, m1, m2, c, c);
      KeptTwice(m0, m2, mem[..], c, c');
    }

    /** split_chunk_and_alloc. */
    method SplitAndAlloc(a: nat, n: nat) returns (ok: bool)
      requires Valid() && a in state.chunks && state.chunks[a].free
      requires n >= MIN_WORDS && 8 * n <= TWO63
      modifies this, mem, buckets
      ensures Valid()
      ensures ok == old(CanSplit(state, a, n))
      ensures state == if ok then Split(old(state), a, n) else old(state)
      ensures PayloadsKept(old(mem[..]), mem[..], old(state.chunks))
    {
      ghost var c, wild := state.chunks, state.wild;
      assert Tagged(mem[..], c, wild, a);
      HeaderBits(c[a], a == wild, mem[a]);
      var size := SizeOf(mem[a]);
      SplitTestExact(8 * size, 8 * n);
      if !SplitTest64(8 * size, 8 * n) {
        return false;
      }
      SplitKeepsInv(state, a, n);
      CarveTiled(c, start, state.hi, wild, a, n);
      SplitChunk(a, n, size - n - TAG_WORDS, WildBit(mem[a]), Split(state, a, n));
      return true;
    }

    method SplitChunk(a: nat, n: nat, k: nat, isWild: bool, ghost t: State)
      requires Consistent() && Shape(state.chunks, state.wild, state.lists, {}, state.hi)
      requires a in state.chunks && state.chunks[a].free && state.chunks[a].n == n + k + TAG_WORDS
      requires isWild == (a == state.wild) && n >= MIN_WORDS && k >= MIN_WORDS
      requires a + n + TAG_WORDS !in state.chunks
      requires Inv(t) && t == Split(state, a, n)
      modifies this, mem, buckets
      ensures Valid() && state == t
      ensures PayloadsKept(old(mem[..]), mem[..], old(state.chunks))
    {
      ghost var lists' := CarveChunk(a, n, k, isWild, state.chunks, state.wild, state.lists, state.hi);
      if isWild {
        wilderness := a + n + TAG_WORDS;
      }
      chunkCount := chunkCount + 1;
      state := t;
    }

    /** alloc_chunk. */
    method AllocChunk(a: nat)
      requires Valid() && a in state.chunks && state.chunks[a].free && a != state.wild
      modifies this, mem, buckets
      ensures Valid() && state == Take(old(state), a)
      ensures PayloadsKept(old(mem[..]), mem[..], old(state.chunks))
    {
      ghost var c, wild, hi := state.chunks, state.wild, state.hi;
      ghost var m0 := mem[..];
      assert Tagged(m0, c, wild, a);
      EndsInside(c, start, hi, wild, a);
      ghost var lists := RemoveFromBucket(a, c, wild, state.lists, {}, hi);
      assert {} + {a} == {a};
      ghost var m1 := mem[..];
      assert Tagged(m1, c, wild, a);
      mem[a] := mem[a] - 1;
      RetagOne(m1, mem[..], c, start, hi, wild, a, false);
      CarveLinks(m1, mem[..], buckets[..], lists, c, start, hi, wild, a);
      TakeKeepsInv(state, a);
      state := Take(state, a);
      KeptTwice(m0, m1, mem[..], c, c);
    }

    /** The tag writes of the two merge functions: one header, one footer. */
    method WriteMerged(a: nat, n: nat, isWild: bool)
      requires 8 * mem.Length <= TWO64 && a + n + 2 <= mem.Length && n >= MIN_WORDS
      modifies mem
      ensures SameOutside(old(mem[..]), mem[..], a, a + n + 2)
      ensures forall w: nat | a < w < a + n + 1 :: mem[w] == old(mem[w])
      ensures mem[a] == Header(Chunk(n, true), isWild) && mem[a + n + 1] == 8 * n
    {
      mem[a] := 8 * n + 1;
      if isWild {
        mem[a] := mem[a] + 2;
      }
      mem[a + n + 1] := 8 * n;
    }

    /** The end of merge_with_next_chunk, once both chunks are off the lists. */
    method JoinChunks(a: nat, n: nat, isWild: bool, ghost c: Chunks, ghost wild: nat, ghost lists: Lists, ghost hi: nat)
      returns (ghost lists': Lists)
      requires a in c && a != wild && Next(c, a) in c && c[a].free && c[Next(c, a)].free
      requires Shape(c, wild, lists, {a, Next(c, a)}, hi)
      requires n == c[a].n + c[Next(c, a)].n + TAG_WORDS && isWild == (Next(c, a) == wild)
      modifies mem, buckets
      ensures var wild' := if isWild then a else wild;
        && Shape(Join(c, a), wild', lists', {}, hi)
        && lists' == PushFront(lists, BucketOf(Join(c, a), wild', a), a)
      ensures PayloadsKept(old(mem[..]), mem[..], c)
    {
      ghost var m0 := mem[..];
      ghost var b := Next(c, a);
      EndsInside(c, start, hi, wild, b);
      WriteMerged(a, n, isWild);
      ghost var m1 := mem[..];
      ghost var c', wild' := Join(c, a), if b == wild then a else wild;
      JoinTiled(c, start, hi, wild, a);
      JoinIndex(lists, c, start, hi, wild, a, {a, b});
      assert {a, b} - {b} == {a};
      JoinTags(m0, m1, c, start, hi, wild, a);
      CarveLinks(m0, m1, buckets[..], lists, c', start, hi, wild', a);
      lists' := AddToBucket(a, c', wild', lists, {a}, hi);
      assert {a} - {a} == {};
      KeptTwice(m0, m1, mem[..], c, c');
    }

    /** merge_with_next_chunk, with `loose` the one of the two chunks that is on no list. */
    method MergeWithNext(a: nat, ghost c: Chunks, ghost wild: nat, ghost lists: Lists,
                         ghost loose: set<nat>, ghost hi: nat)
      returns (ghost lists': Lists)
      requires Shape(c, wild, lists, loose, hi)
      requires a in c && a != wild && Next(c, a) in c && c[a].free && c[Next(c, a)].free
      requires loose <= {a, Next(c, a)}
      requires forall x | x in loose :: x + 2 < mem.Length && mem[x + 1] == 0 && mem[x + 2] == 0
      requires chunkCount == |c|
      modifies this`wilderness, this`chunkCount, mem, buckets
      ensures wilderness == if Next(c, a) == wild then a else old(wilderness)
      ensures chunkCount == |Join(c, a)|
      ensures var b := Next(c, a);
        var wild' := if b == wild then a else wild;
        && Shape(Join(c, a), wild', lists', {}, hi)
        && lists' == PushFront(Unlist(Unlist(lists, BucketOf(c, wild, a), a), BucketOf(c, wild, b), b),
                               BucketOf(Join(c, a), wild', a), a)
      ensures PayloadsKept(old(mem[..]), mem[..], c)
    {
      ghost var m0 := mem[..];
      assert Tagged(m0, c, wild, a) && Tagged(m0, c, wild, Next(c, a));
      HeaderBits(c[a], a == wild, mem[a]);
      var next := a + SizeOf(mem[a]) + TAG_WORDS;
      HeaderBits(c[next], next == wild, mem[next]);
      var isWild := WildBit(mem[next]);
      var n := SizeOf(mem[a]) + SizeOf(mem[next]) + TAG_WORDS;
      ghost var lists1 := RemoveFromBucket(a, c, wild, lists, loose, hi);
      ghost var m1 := mem[..];
      ghost var lists2 := RemoveFromBucket(next, c, wild, lists1, loose + {a}, hi);
      ghost var m2 := mem[..];
      assert loose + {a} + {next} == {a, next};
      if isWild {
        wilderness := a;
      }
      lists' := JoinChunks(a, n, isWild, c, wild, lists2, hi);
      chunkCount := chunkCount - 1;
      JoinSize(c, a);
      KeptTwice(m0, m1, m2, c, c);
      KeptTwice(m0, m2, mem[..], c, c);
    }

    /** The end of merge_with_next_and_prev_chunk, once the three chunks are off the lists. */
    method JoinThree(p: nat, n: nat, isWild: bool, ghost a: nat, ghost c: Chunks, ghost wild: nat,
                     ghost lists: Lists, ghost hi: nat)
      returns (ghost lists': Lists)
      requires a in c && a != wild && p in c && Next(c, p) == a && Next(c, a) in c
      requires c[p].free && c[a].free && c[Next(c, a)].free
      requires Shape(c, wild, lists, {p, a, Next(c, a)}, hi)
      requires n == c[p].n + c[a].n + c[Next(c, a)].n + 2 * TAG_WORDS && isWild == (Next(c, a) == wild)
      modifies mem, buckets
      ensures Next(Join(c, a), p) in Join(c, a)
      ensures var wild' := if isWild then p else wild;
        && Shape(Join(Join(c, a), p), wild', lists', {}, hi)
        && lists' == PushFront(lists, BucketOf(Join(Join(c, a), p), wild', p), p)
      ensures PayloadsKept(old(mem[..]), mem[..], c)
    {
      ghost var m0 := mem[..];
      ghost var c', wild' := Join(Join(c, a), p), if isWild then p else wild;
      JoinTwiceTiled(c, start, hi, wild, p, a);
      EndsInside(c', start, hi, wild', p);
      WriteMerged(p, n, isWild);
      ghost var m1 := mem[..];
      ThreeKept(m0, m1, c, start, hi, wild, p, a);
      JoinTwiceTags(m0, m1, c, start, hi, wild, p, a);
      JoinTwiceIndex(lists, c, start, hi, wild, p, a, {p, a, Next(c, a)});
      CarveLinks(m0, m1, buckets[..], lists, c', start, hi, wild', p);
      lists' := AddToBucket(p, c', wild', lists, {p}, hi);
      assert {p} - {p} == {};
      KeptTwice(m0, m1, mem[..], c, c');
    }

    /** Takes the three chunks of a double merge off their lists. */
    method DetachThree(a: nat, next: nat, prev: nat, ghost c: Chunks, ghost wild: nat, ghost lists: Lists, ghost hi: nat)
      returns (ghost lists': Lists)
      requires Shape(c, wild, lists, {a}, hi)
      requires a in c && next in c && prev in c && prev != a && next != a && prev != next
      requires c[prev].free && c[a].free && c[next].free
      requires a + 2 < mem.Length && mem[a + 1] == 0 && mem[a + 2] == 0
      requires next + 2 < mem.Length && prev + 2 < mem.Length
      modifies mem, buckets
      ensures Shape(c, wild, lists', {prev, a, next}, hi)
      ensures lists' == Unlist(Unlist(Unlist(lists, BucketOf(c, wild, a), a), BucketOf(c, wild, next), next),
                               BucketOf(c, wild, prev), prev)
      ensures PayloadsKept(old(mem[..]), mem[..], c)
    {
      ghost var m0 := mem[..];
      ghost var lists1 := RemoveFromBucket(a, c, wild, lists, {a}, hi);
      assert {a} + {a} == {a};
      ghost var lists2 := RemoveFromBucket(next, c, wild, lists1, {a}, hi);
      ghost var m1 := mem[..];
      lists' := RemoveFromBucket(prev, c, wild, lists2, {a} + {next}, hi);
      assert {a} + {next} + {prev} == {prev, a, next};
      KeptTwice(m0, m1, mem[..], c, c);
    }

    /** The chunks around `a`, read off its header, the footer before it and their own headers. */
    method Neighbours(a: nat, ghost p: nat, ghost c: Chunks, ghost wild: nat, ghost lists: Lists,
                      ghost loose: set<nat>, ghost hi: nat)
      returns (next: nat, prev: nat, n: nat, isWild: bool)
      requires Shape(c, wild, lists, loose, hi)
      requires a in c && p in c && Next(c, p) == a && Next(c, a) in c
      ensures next == Next(c, a) && prev == p && isWild == (next == wild)
      ensures n == c[p].n + c[a].n + c[next].n + 2 * TAG_WORDS
      ensures next + 2 < mem.Length
    {
      assert Tagged(mem[..], c, wild, a) && Tagged(mem[..], c, wild, Next(c, a)) && Tagged(mem[..], c, wild, p);
      HeaderBits(c[a], a == wild, mem[a]);
      next := a + SizeOf(mem[a]) + TAG_WORDS;
      prev := a - TAG_WORDS - SizeOf(mem[a - 1]);
      HeaderBits(c[next], next == wild, mem[next]);
      HeaderBits(c[p], p == wild, mem[prev]);
      isWild := WildBit(mem[next]);
      n := 2 * TAG_WORDS + SizeOf(mem[a]) + SizeOf(mem[next]) + SizeOf(mem[prev]);
      EndsInside(c, start, hi, wild, next);
    }

    /** merge_with_next_and_prev_chunk; the chunk being freed is the one on no list. */
    method MergeWithBoth(a: nat, ghost p: nat, ghost c: Chunks, ghost wild: nat, ghost lists: Lists, ghost hi: nat)
      returns (ghost lists': Lists)
      requires Shape(c, wild, lists, {a}, hi)
      requires a in c && a != wild && p in c && Next(c, p) == a && Next(c, a) in c
      requires c[p].free && c[a].free && c[Next(c, a)].free
      requires a + 2 < mem.Length && mem[a + 1] == 0 && mem[a + 2] == 0
      requires chunkCount == |c|
      modifies this`wilderness, this`chunkCount, mem, buckets
      ensures Next(Join(c, a), p) in Join(c, a)
      ensures wilderness == if Next(c, a) == wild then p else old(wilderness)
      ensures chunkCount == |Join(Join(c, a), p)|
      ensures var b := Next(c, a);
        var wild' := if b == wild then p else wild;
        && Shape(Join(Join(c, a), p), wild', lists', {}, hi)
        && lists' == PushFront(Unlist(Unlist(Unlist(lists, BucketOf(c, wild, a), a), BucketOf(c, wild, b), b),
                                      BucketOf(c, wild, p), p),
                               BucketOf(Join(Join(c, a), p), wild', p), p)
      ensures PayloadsKept(old(mem[..]), mem[..], c)
    {
      ghost var m0 := mem[..];
      var next, prev, n, isWild := Neighbours(a, p, c, wild, lists, {a}, hi);
      JoinTwiceSize(c, p, a);
      ghost var lists1 := DetachThree(a, next, prev, c, wild, lists, hi);
      ghost var m1 := mem[..];
      if isWild {
        wilderness := prev;
      }
      lists' := JoinThree(prev, n, isWild, a, c, wild, lists1, hi);
      chunkCount := chunkCount - 2;
      KeptTwice(m0, m1, mem[..], c, c);
    }

    /** The tag writes of try_increase_wilderness_chunk, growing a chunk of `n` words by `g`. */
    method WriteStretched(a: nat, n: nat, g: nat)
      requires 8 * mem.Length <= TWO64 && a + n + g + 2 <= mem.Length && n >= MIN_WORDS && g > 0
      requires mem[a] == Header(Chunk(n, true), true)
      modifies mem
      ensures mem[a] == Header(Chunk(n + g, true), true) && mem[a + n + g + 1] == 8 * (n + g)
      ensures SameOutside(old(mem[..]), mem[..], a, mem.Length)
      ensures forall w: nat | w < a + n + 1 && w != a :: mem[w] == old(mem[w])
    {
      mem[a] := mem[a] + 8 * g;
      HeaderBits(Chunk(n + g, true), true, mem[a]);
      mem[a + SizeOf(mem[a]) + 1] := 8 * SizeOf(mem[a]);
    }

    /** try_increase_wilderness_chunk. */
    method TryIncreaseWilderness(n: nat) returns (ok: bool)
      requires Valid() && n >= MIN_WORDS && 8 * n <= TWO63
      modifies this, mem
      ensures Valid() && ok == old(CanGrow(state, n))
      ensures state == if ok then Grow(old(state), n) else old(state)
      ensures PayloadsKept(old(mem[..]), mem[..], old(state.chunks))
    {
      var bytes := GrowthBytes(n);
      if !growth || !CanExpandTop(region, bytes) {
        return false;
      }
      GrowKeepsInv(state, n);
      var g := bytes / 8;
      GrowthFits(state, n, g);
      StretchChunk(g, state.chunks, state.wild, state.lists, state.hi);
      region := ExpandTop(region, bytes);
      size := size + g;
      state := Grow(state, n);
      return true;
    }

    method StretchChunk(g: nat, ghost c: Chunks, ghost wild: nat, ghost lists: Lists, ghost hi: nat)
      requires Shape(c, wild, lists, {}, hi) && wild == wilderness && c[wild].free && NoAdjacentFree(c)
      requires g > 0 && hi + g <= mem.Length
      modifies mem
      ensures Shape(c[wild := c[wild].(n := c[wild].n + g)], wild, lists, {}, hi + g)
      ensures PayloadsKept(old(mem[..]), mem[..], c)
    {
      ghost var m0 := mem[..];
      assert Tagged(m0, c, wild, wild);
      HeaderBits(c[wild], true, mem[wilderness]);
      WriteStretched(wilderness, SizeOf(mem[wilderness]), g);
      StretchTags(m0, mem[..], c, start, hi, wild, g);
      StretchLinks(m0, mem[..], buckets[..], lists, c, start, hi, wild);
      StretchTiled(c, start, hi, wild, g);
      StretchIndex(lists, c, start, hi, wild, g);
    }

    /** The search loops of kmalloc, with the wilderness as the fallback; the size test is the one written or the
        one intended. */
    method FindCandidate(test: Test, n: nat) returns (a: nat)
      requires Valid() && n >= MIN_WORDS
      ensures a == Candidate(test, state, n)
    {
      ghost var c, lists := state.chunks, state.lists;
      ghost var goal := FirstFit(test, c, lists, BucketIndex(8 * n), n);
      var found := 0;
      var b := BucketIndex(8 * n);
      while found == 0 && b < BUCKETS
        invariant b <= BUCKETS
        invariant found == 0 ==> goal == FirstFit(test, c, lists, b, n)
        invariant found != 0 ==> goal == Some(found)
        decreases BUCKETS - b
      {
        ghost var l := lists[b];
        ghost var k := 0;
        ListedPositive(state, b);
        var candidate := buckets[b];
        while candidate != 0 && found == 0
          invariant k <= |l|
          invariant found == 0 ==> candidate == (if k < |l| then l[k] else 0)
          invariant found == 0 ==> FirstIn(test, c, l, n) == FirstIn(test, c, l[k..], n)
          invariant found != 0 ==> FirstIn(test, c, l, n) == Some(found)
          decreases |l| - k
        {
          assert l[k] in l && Belongs(c, state.wild, {}, candidate, b);
          assert Tagged(mem[..], c, state.wild, candidate) && LinkedAt(mem[..], l, k);
          HeaderBits(c[candidate], candidate == state.wild, mem[candidate]);
          var size := SizeOf(mem[candidate]);
          if Takes(test, size, n) {
            found := candidate;
          }
          candidate := mem[candidate + 1];
          k := k + 1;
        }
        assert k < |l| ==> l[k] in l;
        assert found == 0 ==> l[k..] == [];
        assert FirstFit(test, c, lists, b, n) ==
               if FirstIn(test, c, l, n).Some? then FirstIn(test, c, l, n) else FirstFit(test, c, lists, b + 1, n);
        b := b + 1;
      }
      a := if found == 0 then wilderness else found;
    }

    /** kmalloc.  The outcome is `StillFree` when the split that the code does not check fails. */
    method Kmalloc(test: Test, bytes: nat) returns (r: Outcome)
      requires Valid() && bytes <= TWO63
      modifies this, mem, buckets
      ensures Valid()
      ensures Result(state, r) == Malloc(test, old(state), Words(bytes))
      ensures PayloadsKept(old(mem[..]), mem[..], old(state.chunks))
    {
      var n := Words(bytes);
      CandidateIsFree(test, state, n);
      var a := FindCandidate(test, n);
      assert Tagged(mem[..], state.chunks, state.wild, a);
      HeaderBits(state.chunks[a], a == state.wild, mem[a]);
      if !WildBit(mem[a]) {
        if SizeOf(mem[a]) == n {
          AllocChunk(a);
          r := Allocated(a);
        } else {
          var ok := SplitAndAlloc(a, n);
          r := if ok then Allocated(a) else StillFree(a);
        }
      } else {
        r := MallocFromWilderness(a, n);
      }
    }

    method MallocFromWilderness(a: nat, n: nat) returns (r: Outcome)
      requires Valid() && a == state.wild && n >= MIN_WORDS && 8 * n <= TWO63
      modifies this, mem, buckets
      ensures Valid()
      ensures old(CanSplit(state, a, n)) ==> r == Allocated(a) && state == Split(old(state), a, n)
      ensures !old(CanSplit(state, a, n)) && old(CanGrow(state, n)) ==>
                r == Allocated(a) && CanSplit(Grow(old(state), n), a, n) && state == Split(Grow(old(state), n), a, n)
      ensures !old(CanSplit(state, a, n)) && !old(CanGrow(state, n)) ==> r == OutOfMemory && state == old(state)
      ensures PayloadsKept(old(mem[..]), mem[..], old(state.chunks))
    {
      ghost var m0, c := mem[..], state.chunks;
      var ok := SplitAndAlloc(a, n);
      if ok {
        return Allocated(a);
      }
      ghost var m1 := mem[..];
      if CanGrow(state, n) {
        GrowMakesRoom(state, n);
      }
      ok := TryIncreaseWilderness(n);
      ghost var m2, c2 := mem[..], state.chunks;
      KeptTwice(m0, m1, m2, c, c);
      if !ok {
        return OutOfMemory;
      }
      ok := SplitAndAlloc(a, n);
      KeptTwice(m0, m2, mem[..], c, c2);
      return if ok then Allocated(a) else OutOfMemory;
    }

    /** The flag and link writes at the start of kfree. */
    method MarkFreed(a: nat)
      requires Valid() && a in state.chunks && !state.chunks[a].free
      modifies mem
      ensures Shape(MarkFree(state, a).chunks, state.wild, state.lists, {a}, state.hi)
      ensures a + 2 < mem.Length && mem[a + 1] == 0 && mem[a + 2] == 0
      ensures PayloadsKept(old(mem[..]), mem[..], MarkFree(state, a).chunks)
    {
      ghost var c, wild, hi := state.chunks, state.wild, state.hi;
      ghost var m0 := mem[..];
      assert Tagged(m0, c, wild, a);
      EndsInside(c, start, hi, wild, a);
      mem[a] := mem[a] + 1;
      mem[a + 1] := 0;
      mem[a + 2] := 0;
      MarkFreeLoose(state, a);
      RetagOne(m0, mem[..], c, start, hi, wild, a, true);
      CarveLinks(m0, mem[..], buckets[..], state.lists, MarkFree(state, a).chunks, start, hi, wild, a);
    }

    /** is_heap_chunk_corrupted. */
    predicate TagsDisagree(a: nat)
      requires a < mem.Length && a + SizeOf(mem[a]) + 1 < mem.Length
      reads mem
    {
      var footer := mem[a + SizeOf(mem[a]) + 1];
      SizeOf(footer) != SizeOf(mem[a]) || SizeOf(footer) < MIN_WORDS || footer % 8 != 0
    }

    /** kfree of the block whose header is at `a`.  A block that is already free is the
        panic the source reports as a corrupted heap. */
    method Kfree(a: nat) returns (ok: bool)
      requires Valid() && a in state.chunks
      modifies this, mem, buckets
      ensures Valid() && ok == !old(state.chunks[a].free)
      ensures state == if ok then FreeAt(old(state), a) else old(state)
      ensures PayloadsKept(old(mem[..]), mem[..], old(MarkFree(state, a).chunks))
    {
      assert Tagged(mem[..], state.chunks, state.wild, a);
      HeaderBits(state.chunks[a], a == state.wild, mem[a]);
      if FreeBit(mem[a]) || WildBit(mem[a]) || TagsDisagree(a) {
        return false;
      }
      ghost var s, m0 := state, mem[..];
      ghost var p := Prev(s, a);
      EndsInside(s.chunks, start, s.hi, s.wild, a);
      ReleaseKeepsInv(s, p, a);
      MarkFreed(a);
      ghost var m1 := mem[..];
      ghost var f := MarkFree(s, a);
      var prevFree, nextFree, prev := FreeNeighbours(a, p, f.chunks, f.wild, f.lists, {a}, f.hi);
      ReleaseChunk(a, prev, prevFree, nextFree, Release(s, p, a));
      KeptTwice(m0, m1, mem[..], MarkFree(s, a).chunks, MarkFree(s, a).chunks);
      return true;
    }

    /** Halfway through kfree: the block at `a` is marked free and its links are null,
        but it is on no list and `state` does not know yet. */
    ghost predicate Pending(a: nat)
      reads this, mem, buckets
    {
      && a in state.chunks && Next(state.chunks, a) in state.chunks && a != state.wild
      && Consistent()
      && Shape(MarkFree(state, a).chunks, state.wild, state.lists, {a}, state.hi)
      && a + 2 < mem.Length && mem[a + 1] == 0 && mem[a + 2] == 0
    }

    /** kfree with no free neighbour. */
    method ListFreed(a: nat, ghost t: State)
      requires Pending(a) && Inv(t)
      requires var f := MarkFree(state, a);
        t == f.(lists := PushFront(f.lists, BucketOf(f.chunks, f.wild, a), a))
      modifies this, mem, buckets
      ensures Valid() && state == t
      ensures PayloadsKept(old(mem[..]), mem[..], old(MarkFree(state, a).chunks))
    {
      ghost var f := MarkFree(state, a);
      ghost var lists' := AddToBucket(a, f.chunks, f.wild, f.lists, {a}, f.hi);
      assert {a} - {a} == {};
      assert f.chunks.Keys == state.chunks.Keys;
      state := t;
    }

    /** kfree with only the previous chunk free. */
    method FreeIntoPrev(a: nat, p: nat, ghost t: State)
      requires Pending(a) && Inv(t)
      requires p in state.chunks && Next(state.chunks, p) == a && p != state.wild && p != a
      requires state.chunks[p].free && t == MergeNext(MarkFree(state, a), p)
      modifies this, mem, buckets
      ensures Valid() && state == t
      ensures PayloadsKept(old(mem[..]), mem[..], old(MarkFree(state, a).chunks))
    {
      ghost var f := MarkFree(state, a);
      assert Next(f.chunks, p) == a;
      ghost var lists' := MergeWithNext(p, f.chunks, f.wild, f.lists, {a}, f.hi);
      state := t;
    }

    /** kfree with only the next chunk free. */
    method FreeIntoNext(a: nat, ghost t: State)
      requires Pending(a) && Inv(t)
      requires state.chunks[Next(state.chunks, a)].free && t == MergeNext(MarkFree(state, a), a)
      modifies this, mem, buckets
      ensures Valid() && state == t
      ensures PayloadsKept(old(mem[..]), mem[..], old(MarkFree(state, a).chunks))
    {
      ghost var f := MarkFree(state, a);
      assert Next(f.chunks, a) == Next(state.chunks, a);
      ghost var lists' := MergeWithNext(a, f.chunks, f.wild, f.lists, {a}, f.hi);
      state := t;
    }

    /** kfree with both neighbours free. */
    method FreeIntoBoth(a: nat, ghost p: nat, ghost t: State)
      requires Pending(a) && Inv(t)
      requires p in state.chunks && Next(state.chunks, p) == a && state.chunks[p].free
      requires state.chunks[Next(state.chunks, a)].free && t == MergeBoth(MarkFree(state, a), p, a)
      modifies this, mem, buckets
      ensures Valid() && state == t
      ensures PayloadsKept(old(mem[..]), mem[..], old(MarkFree(state, a).chunks))
    {
      ghost var f := MarkFree(state, a);
      ghost var lists' := MergeWithBoth(a, p, f.chunks, f.wild, f.lists, f.hi);
      state := t;
    }

    /** The rest of kfree: coalesce with whichever neighbours are free. */
    method ReleaseChunk(a: nat, p: nat, prevFree: bool, nextFree: bool, ghost t: State)
      requires Pending(a) && |state.lists| == BUCKETS
      requires forall x | x in state.chunks :: state.chunks[x].n >= MIN_WORDS
      requires a != start ==> p in state.chunks && Next(state.chunks, p) == a && p != state.wild
      requires prevFree == (a != start && state.chunks[p].free)
      requires nextFree == state.chunks[Next(state.chunks, a)].free
      requires Inv(t) && t == Release(state, p, a)
      modifies this, mem, buckets
      ensures Valid() && state == t
      ensures PayloadsKept(old(mem[..]), mem[..], old(MarkFree(state, a).chunks))
    {
      if !prevFree && !nextFree {
        ListFreed(a, t);
      } else if prevFree && !nextFree {
        FreeIntoPrev(a, p, t);
      } else if !prevFree && nextFree {
        FreeIntoNext(a, t);
      } else {
        FreeIntoBoth(a, p, t);
      }
    }

    /** Whether the chunks around `a` are free, read off the tags. */
    method FreeNeighbours(a: nat, ghost p: nat, ghost c: Chunks, ghost wild: nat, ghost lists: Lists,
                          ghost loose: set<nat>, ghost hi: nat)
      returns (prevFree: bool, nextFree: bool, prev: nat)
      requires Shape(c, wild, lists, loose, hi)
      requires a in c && a != wild && Next(c, a) in c
      requires a != start ==> p in c && Next(c, p) == a
      ensures prevFree == (a != start && c[p].free)
      ensures nextFree == c[Next(c, a)].free
      ensures a != start ==> prev == p
    {
      assert Tagged(mem[..], c, wild, a) && Tagged(mem[..], c, wild, Next(c, a));
      HeaderBits(c[a], a == wild, mem[a]);
      prevFree, prev := false, 0;
      if a != start {
        assert Tagged(mem[..], c, wild, p);
        prev := a - TAG_WORDS - SizeOf(mem[a - 1]);
        HeaderBits(c[p], p == wild, mem[prev]);
        prevFree := FreeBit(mem[prev]);
      }
      var next := a + SizeOf(mem[a]) + TAG_WORDS;
      HeaderBits(c[next], next == wild, mem[next]);
      nextFree := FreeBit(mem[next]);
    }

    /** enable_kheap_growth. */
    method EnableGrowth()
      requires Valid()
      modifies this`growth, this`state
      ensures Valid() && state == old(state).(growth := true)
    {
      growth := true;
      state := state.(growth := true);
    }

    /** A client storing into its own block; the heap does not notice. */
    method Store(a: nat, k: nat, value: Word)
      requires Valid() && a in state.chunks && !state.chunks[a].free && k < state.chunks[a].n
      modifies mem
      ensures Valid() && a + 1 + k < mem.Length
      ensures mem[..] == old(mem[..])[a + 1 + k := value]
    {
      ghost var c, wild, hi := state.chunks, state.wild, state.hi;
      assert Tagged(mem[..], c, wild, a);
      ghost var m0 := mem[..];
      mem[a + 1 + k] := value;
      RetagOne(m0, mem[..], c, start, hi, wild, a, false);
      assert c[a := c[a].(free := false)] == c;
      forall b, x | 0 <= b < BUCKETS && x in state.lists[b] ensures x + 2 < a || Next(c, a) <= x {
        assert Belongs(c, wild, {}, x, b);
        InOrder(c, start, hi, wild, x, a);
      }
      TagWritesKeepLinks(m0, mem[..], buckets[..], state.lists, a, Next(c, a));
    }

    /** What the checks of the walk see at a chunk of a valid heap. */
    lemma SoundAt(a: nat)
      requires Valid() && a in state.chunks
      ensures a < mem.Length && start <= a && SizeOf(mem[a]) == state.chunks[a].n
      ensures WildBit(mem[a]) == (a == state.wild) && FreeBit(mem[a]) == state.chunks[a].free
      ensures a + SizeOf(mem[a]) + 1 < mem.Length && !TagsDisagree(a)
      ensures 8 * a + mem[a] <= 8 * (start + size)
    {
      EndsInside(state.chunks, start, state.hi, state.wild, a);
      assert Tagged(mem[..], state.chunks, state.wild, a);
      HeaderBits(state.chunks[a], a == state.wild, mem[a]);
    }

    /** unsync_is_kheap_corrupted: the walk ends and finds nothing, so the verdict depends on
        the alignment of the window alone. */
    method IsCorrupted() returns (corrupted: bool)
      requires Valid()
      ensures corrupted <==> 8 * size % PAGE != 0 || 8 * start % PAGE != 0
    {
      if 8 * size % PAGE != 0 || 8 * start % PAGE != 0 {
        return true;
      }
      ghost var c, wild, hi := state.chunks, state.wild, state.hi;
      var header := start;
      var done := false;
      var count := 0;
      StartIsFirst(c, start, hi, wild);
      while !done
        invariant header in c
        invariant count + (if done then 0 else 1) == |UpTo(c, header)|
        invariant done ==> header == wild
        decreases if done then 0 else 1 + wild - header
      {
        EndsInside(c, start, hi, wild, header);
        SoundAt(header);
        SubsetSize(UpTo(c, header), c.Keys);
        count := count + 1;
        if count > chunkCount || header < start || 8 * header + mem[header] > 8 * (start + size) || TagsDisagree(header) {
          return true;
        }
        if WildBit(mem[header]) {
          done := true;
        } else {
          NextIsNext(c, start, hi, wild, header);
          header := header + SizeOf(mem[header]) + TAG_WORDS;
        }
      }
      WildIsLast(c, start, hi, wild);
      return count != chunkCount;
    }
  }

  /** Writing over a chunk that is off every list disturbs no chain. */
  lemma CarveLinks(m: seq<Word>, m': seq<Word>, heads: seq<Word>, lists: Lists,
                   c: Chunks, lo: nat, hi: nat, wild: nat, a: nat)
    requires Tiled(c, lo, hi, wild) && Indexed(lists, c, wild, {a}) && a in c
    requires Linked(m, heads, lists) && SameOutside(m, m', a, Next(c, a))
    ensures Linked(m', heads, lists)
  {
    forall b, x | 0 <= b < BUCKETS && x in lists[b] ensures x + 2 < a || Next(c, a) <= x {
      assert Belongs(c, wild, {a}, x, b);
      InOrder(c, lo, hi, wild, x, a);
    }
    TagWritesKeepLinks(m, m', heads, lists, a, Next(c, a));
  }

  lemma JoinSize(c: Chunks, a: nat)
    requires a in c && Next(c, a) in c
    ensures |Join(c, a)| == |c| - 1
  {
    assert Join(c, a).Keys == c.Keys - {Next(c, a)};
  }

  lemma JoinTwiceSize(c: Chunks, p: nat, a: nat)
    requires a in c && p in c && Next(c, p) == a && Next(c, a) in c
    ensures Next(Join(c, a), p) in Join(c, a) && |Join(Join(c, a), p)| == |c| - 2
  {
    JoinSize(c, a);
    JoinSize(Join(c, a), p);
  }

  /** Changing the free flag of one chunk. */
  lemma RetagOne(m: seq<Word>, m': seq<Word>, c: Chunks, lo: nat, hi: nat, wild: nat, a: nat, free: bool)
    requires Tiled(c, lo, hi, wild) && Tags(m, c, wild) && a in c && Next(c, a) <= |m|
    requires SameOutside(m, m', a, Next(c, a) - 1)
    requires m'[a] == Header(c[a].(free := free), a == wild)
    ensures Tags(m', c[a := c[a].(free := free)], wild)
    ensures PayloadsKept(m, m', c[a := c[a].(free := true)])
    ensures SameOutside(m, m', a, a + 1) ==> PayloadsKept(m, m', c)
  {
    var c' := c[a := c[a].(free := free)];
    forall x {:trigger Tagged(m', c', wild, x)} | x in c'
      ensures Tagged(m', c', wild, x)
    {
      assert Tagged(m, c, wild, x);
      assert Next(c', x) == Next(c, x);
      if x != a { InOrder(c, lo, hi, wild, x, a); }
    }
    var freed := c[a := c[a].(free := true)];
    forall x {:trigger PayloadKept(m, m', freed, x)} | x in freed && !freed[x].free
      ensures PayloadKept(m, m', freed, x)
    {
      assert Next(freed, x) == Next(c, x);
      InOrder(c, lo, hi, wild, x, a);
    }
    if SameOutside(m, m', a, a + 1) {
      forall x {:trigger PayloadKept(m, m', c, x)} | x in c && !c[x].free
        ensures PayloadKept(m, m', c, x)
      {
        if x != a { InOrder(c, lo, hi, wild, x, a); }
      }
    }
  }

  /** The chunks after joining `p`, `a` and the chunk after it, and how the first join looks. */
  lemma JoinOnce(c: Chunks, lo: nat, hi: nat, wild: nat, p: nat, a: nat)
    requires Tiled(c, lo, hi, wild) && a in c && a != wild && p in c && Next(c, p) == a && Next(c, a) in c
    requires c[p].free && c[a].free && c[Next(c, a)].free
    ensures var c1 := Join(c, a);
      && Tiled(c1, lo, hi, if Next(c, a) == wild then a else wild)
      && p in c1 && c1[p] == c[p] && Next(c1, p) == a
      && a in c1 && c1[a] == Chunk(c[a].n + c[Next(c, a)].n + TAG_WORDS, true) && Next(c1, a) == Next(c, Next(c, a))
      && p != (if Next(c, a) == wild then a else wild)
  {
    JoinTiled(c, lo, hi, wild, a);
    EndsInside(c, lo, hi, wild, a);
  }

  /** Writing over three adjacent free chunks touches no allocated payload. */
  lemma ThreeKept(m: seq<Word>, m': seq<Word>, c: Chunks, lo: nat, hi: nat, wild: nat, p: nat, a: nat)
    requires Tiled(c, lo, hi, wild) && a in c && p in c && Next(c, p) == a && Next(c, a) in c
    requires c[p].free && c[a].free && c[Next(c, a)].free
    requires SameOutside(m, m', p, Next(c, Next(c, a)))
    ensures PayloadsKept(m, m', c)
  {
    FreeExtentKept(m, m', c, lo, hi, wild, p, Next(c, Next(c, a)));
  }

  /** One header and one footer written over three adjacent free chunks. */
  lemma JoinTwiceTags(m: seq<Word>, m': seq<Word>, c: Chunks, lo: nat, hi: nat, wild: nat, p: nat, a: nat)
    requires Tiled(c, lo, hi, wild) && Tags(m, c, wild) && 8 * |m| <= TWO64
    requires a in c && a != wild && p in c && Next(c, p) == a && Next(c, a) in c
    requires c[p].free && c[a].free && c[Next(c, a)].free
    requires var b := Next(c, a);
      var n := c[p].n + c[a].n + c[b].n + 2 * TAG_WORDS;
      && Next(c, b) <= |m| && |m'| == |m|
      && SameOutside(m, m', p, Next(c, b))
      && m'[p] == Header(Chunk(n, true), b == wild) && m'[Next(c, b) - 1] == 8 * n
    ensures Next(Join(c, a), p) in Join(c, a)
    ensures Tags(m', Join(Join(c, a), p), if Next(c, a) == wild then p else wild)
  {
    var b := Next(c, a);
    var k := c[a].n + c[b].n + TAG_WORDS;
    var mid := m[a := Header(Chunk(k, true), b == wild)][Next(c, b) - 1 := 8 * k];
    JoinTags(m, mid, c, lo, hi, wild, a);
    JoinOnce(c, lo, hi, wild, p, a);
    JoinTags(mid, m', Join(c, a), lo, hi, if b == wild then a else wild, p);
  }

  lemma JoinTwiceTiled(c: Chunks, lo: nat, hi: nat, wild: nat, p: nat, a: nat)
    requires Tiled(c, lo, hi, wild) && a in c && a != wild && p in c && Next(c, p) == a && Next(c, a) in c
    requires c[p].free && c[a].free && c[Next(c, a)].free
    ensures Next(Join(c, a), p) in Join(c, a)
    ensures var c' := Join(Join(c, a), p);
      && Tiled(c', lo, hi, if Next(c, a) == wild then p else wild)
      && p in c' && c'[p] == Chunk(c[p].n + c[a].n + c[Next(c, a)].n + 2 * TAG_WORDS, true)
      && Next(c', p) == Next(c, Next(c, a))
      && (forall x | x in c && !c[x].free :: x in c' && c'[x] == c[x])
  {
    JoinOnce(c, lo, hi, wild, p, a);
    JoinTiled(Join(c, a), lo, hi, if Next(c, a) == wild then a else wild, p);
  }

  /** Growing rewrites the wilderness header and adds a footer at the new end. */
  lemma StretchTags(m: seq<Word>, m': seq<Word>, c: Chunks, lo: nat, hi: nat, wild: nat, g: nat)
    requires Tiled(c, lo, hi, wild) && NoAdjacentFree(c) && c[wild].free && Tags(m, c, wild)
    requires SameOutside(m, m', wild, |m|) && hi + g <= |m|
    requires m'[wild] == Header(c[wild].(n := c[wild].n + g), true)
    requires m'[hi + g - 1] == 8 * (c[wild].n + g)
    ensures Tags(m', c[wild := c[wild].(n := c[wild].n + g)], wild)
    ensures PayloadsKept(m, m', c)
  {
    var c' := c[wild := c[wild].(n := c[wild].n + g)];
    forall x {:trigger Tagged(m', c', wild, x)} | x in c'
      ensures Tagged(m', c', wild, x)
    {
      EndsInside(c, lo, hi, wild, x);
      assert Tagged(m, c, wild, x);
    }
    forall a {:trigger PayloadKept(m, m', c, a)} | a in c && !c[a].free
      ensures PayloadKept(m, m', c, a)
    {
      EndsInside(c, lo, hi, wild, a);
      InOrder(c, lo, hi, wild, a, wild);
    }
  }

  lemma StretchLinks(m: seq<Word>, m': seq<Word>, heads: seq<Word>, lists: Lists,
                     c: Chunks, lo: nat, hi: nat, wild: nat)
    requires Tiled(c, lo, hi, wild) && Indexed(lists, c, wild, {}) && Linked(m, heads, lists)
    requires |m'| == |m| && hi <= |m|
    requires forall w: nat | w < hi - 1 && w != wild :: m'[w] == m[w]
    ensures Linked(m', heads, lists)
  {
    forall b | 0 <= b < BUCKETS ensures Chained(m', lists[b]) {
      forall k | 0 <= k < |lists[b]| ensures LinkedAt(m', lists[b], k) {
        assert lists[b][k] in lists[b];
        assert LinkedAt(m, lists[b], k) && Belongs(c, wild, {}, lists[b][k], b);
        EndsInside(c, lo, hi, wild, lists[b][k]);
      }
    }
  }

  lemma ListedPositive(s: State, b: nat)
    requires Inv(s) && b < BUCKETS
    ensures forall x | x in s.lists[b] :: 0 < x
  {
    forall x | x in s.lists[b] ensures 0 < x {
      assert Belongs(s.chunks, s.wild, {}, x, b);
    }
  }

  /** Links of chunks on no list are not written. */
  lemma LooseUntouched(m: seq<Word>, m': seq<Word>, c: Chunks, lo: nat, hi: nat, wild: nat, loose: set<nat>)
    requires Tiled(c, lo, hi, wild) && SameButLinks(m, m', FreeSet(c) - loose)
    ensures forall x | x in loose && x in c && c[x].free && x + 2 < |m| :: m'[x + 1] == m[x + 1] && m'[x + 2] == m[x + 2]
  {
    TiledSpaced(c, lo, hi, wild);
    assert forall x | x in c && c[x].free :: x in FreeSet(c);
  }

  // ----------------------------------------------------------- the walk

  ghost function UpTo(c: Chunks, a: nat): set<nat> {
    set x | x in c && x <= a
  }

  lemma StartIsFirst(c: Chunks, lo: nat, hi: nat, wild: nat)
    requires Tiled(c, lo, hi, wild)
    ensures UpTo(c, lo) == {lo}
  {
  }

  lemma WildIsLast(c: Chunks, lo: nat, hi: nat, wild: nat)
    requires Tiled(c, lo, hi, wild)
    ensures UpTo(c, wild) == c.Keys
  {
    forall x | x in c ensures x <= wild {
      EndsInside(c, lo, hi, wild, x);
    }
  }

  /** No chunk starts between one chunk and the next. */
  lemma NextIsNext(c: Chunks, lo: nat, hi: nat, wild: nat, a: nat)
    requires Tiled(c, lo, hi, wild) && a in c && a != wild
    ensures Next(c, a) in c && |UpTo(c, Next(c, a))| == |UpTo(c, a)| + 1
  {
    EndsInside(c, lo, hi, wild, a);
    forall x | x in c && x <= Next(c, a) ensures x <= a || x == Next(c, a) {
      if x != a { InOrder(c, lo, hi, wild, x, a); }
    }
    assert UpTo(c, Next(c, a)) == UpTo(c, a) + {Next(c, a)};
  }
}

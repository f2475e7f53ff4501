/** What every heap operation keeps, and what holds over every run. */
module HeapProofs {
  import opened Basics
  import opened Region
  import opened HeapModel

  // ----------------------------------------------------------- free lists

  lemma {:induction false} WithoutMember(l: seq<nat>, a: nat)
    requires NoDup(l)
    ensures NoDup(Without(l, a))
    ensures forall x :: x in Without(l, a) <==> x in l && x != a
  {
    if l != [] {
      assert forall x :: x in l <==> x == l[0] || x in l[1..];
      if l[0] != a {
        WithoutMember(l[1..], a);
        var r := Without(l[1..], a);
        assert l[0] !in l[1..];
        forall i, j | 0 <= i < j < |r| + 1 ensures ([l[0]] + r)[i] != ([l[0]] + r)[j] {
          if i == 0 { assert r[j - 1] in r; } else { assert r[i - 1] != r[j - 1]; }
        }
      }
    }
  }

  lemma UnlistKeepsIndex(lists: Lists, c: Chunks, wild: nat, loose: set<nat>, a: nat)
    requires Indexed(lists, c, wild, loose)
    requires a in c && c[a].n >= MIN_WORDS
    ensures Indexed(Unlist(lists, BucketOf(c, wild, a), a), c, wild, loose + {a})
  {
    var b := BucketOf(c, wild, a);
    WithoutMember(lists[b], a);
    var lists' := Unlist(lists, b, a);
    forall k, x | 0 <= k < BUCKETS
      ensures x in lists'[k] <==> Belongs(c, wild, loose + {a}, x, k)
    {
      assert x in lists[k] <==> Belongs(c, wild, loose, x, k);
    }
  }

  lemma PushKeepsIndex(lists: Lists, c: Chunks, wild: nat, loose: set<nat>, a: nat)
    requires Indexed(lists, c, wild, loose)
    requires a in c && c[a].free && c[a].n >= MIN_WORDS && a in loose
    ensures Indexed(PushFront(lists, BucketOf(c, wild, a), a), c, wild, loose - {a})
  {
    var b := BucketOf(c, wild, a);
    assert !Belongs(c, wild, loose, a, b);
    var lists' := PushFront(lists, b, a);
    forall k, x | 0 <= k < BUCKETS
      ensures x in lists'[k] <==> Belongs(c, wild, loose - {a}, x, k)
    {
      assert x in lists[k] <==> Belongs(c, wild, loose, x, k);
    }
  }

  /** Lists depend only on the chunks they hold. */
  lemma Reindex(lists: Lists, c: Chunks, wild: nat, loose: set<nat>,
                c': Chunks, wild': nat, loose': set<nat>)
    requires Indexed(lists, c, wild, loose)
    requires forall a, b :: Belongs(c, wild, loose, a, b) <==> Belongs(c', wild', loose', a, b)
    ensures Indexed(lists, c', wild', loose')
  {
  }

  // ----------------------------------------------------------- tiling

  lemma EndsInside(c: Chunks, lo: nat, hi: nat, wild: nat, x: nat)
    requires Tiled(c, lo, hi, wild) && x in c
    ensures Next(c, x) <= hi && (x == wild || Next(c, x) in c) && x <= wild
  {
    assert InPlace(c, hi, wild, x);
  }

  /** Two chunks do not overlap. */
  lemma InOrder(c: Chunks, lo: nat, hi: nat, wild: nat, a: nat, b: nat)
    requires Tiled(c, lo, hi, wild) && a in c && b in c && a != b
    ensures Next(c, a) <= b || Next(c, b) <= a
  {
  }

  lemma NextNotFree(c: Chunks, x: nat)
    requires NoAdjacentFree(c) && x in c
    ensures c[x].free && Next(c, x) in c ==> !c[Next(c, x)].free
  {
    assert Apart(c, x);
  }

  lemma CarveTiled(c: Chunks, lo: nat, hi: nat, wild: nat, a: nat, n: nat)
    requires Tiled(c, lo, hi, wild) && a in c
    requires n >= MIN_WORDS && c[a].n >= n + TAG_WORDS + MIN_WORDS
    ensures a + n + TAG_WORDS !in c
    ensures Tiled(Carve(c, a, n), lo, hi, if a == wild then a + n + TAG_WORDS else wild)
  {
    var c' := Carve(c, a, n);
    var rest := a + n + TAG_WORDS;
    var wild' := if a == wild then rest else wild;
    assert Next(c', rest) == Next(c, a);
    EndsInside(c, lo, hi, wild, a);
    forall x {:trigger InPlace(c', hi, wild', x)} | x in c'
      ensures InPlace(c', hi, wild', x)
    {
      if x in c {
        EndsInside(c, lo, hi, wild, x);
      }
    }
    forall x, y {:trigger Next(c', x), y in c'} | x in c' && y in c' && x < y ensures Next(c', x) <= y {
      if x == rest {
        InOrder(c, lo, hi, wild, a, y);
      } else if y != rest {
        InOrder(c, lo, hi, wild, x, y);
      } else if x != a {
        InOrder(c, lo, hi, wild, x, a);
      }
    }
  }

  lemma JoinTiled(c: Chunks, lo: nat, hi: nat, wild: nat, a: nat)
    requires Tiled(c, lo, hi, wild) && a in c && a != wild
    ensures Next(c, a) in c
    ensures Tiled(Join(c, a), lo, hi, if Next(c, a) == wild then a else wild)
  {
    EndsInside(c, lo, hi, wild, a);
    var c' := Join(c, a);
    var b := Next(c, a);
    var wild' := if b == wild then a else wild;
    EndsInside(c, lo, hi, wild, b);
    assert Next(c', a) == Next(c, b);
    forall x {:trigger InPlace(c', hi, wild', x)} | x in c'
      ensures InPlace(c', hi, wild', x)
    {
      EndsInside(c, lo, hi, wild, x);
    }
    forall x, y {:trigger Next(c', x), y in c'} | x in c' && y in c' && x < y ensures Next(c', x) <= y {
      InOrder(c, lo, hi, wild, x, y);
      if x == a {
        InOrder(c, lo, hi, wild, b, y);
      }
    }
  }

  lemma CarveApart(c: Chunks, lo: nat, hi: nat, wild: nat, a: nat, n: nat)
    requires Tiled(c, lo, hi, wild) && NoAdjacentFree(c) && a in c && c[a].free
    requires n >= MIN_WORDS && c[a].n >= n + TAG_WORDS + MIN_WORDS
    ensures NoAdjacentFree(Carve(c, a, n))
  {
    var c' := Carve(c, a, n);
    var rest := a + n + TAG_WORDS;
    CarveTiled(c, lo, hi, wild, a, n);
    EndsInside(c, lo, hi, wild, a);
    NextNotFree(c, a);
    forall x {:trigger Apart(c', x)} | x in c'
      ensures Apart(c', x)
    {
      if x == rest {
        assert Next(c', rest) == Next(c, a);
      } else if x != a {
        EndsInside(c, lo, hi, wild, x);
        NextNotFree(c, x);
      }
    }
  }

  ghost predicate ApartBut(c: Chunks, but: set<nat>) {
    forall x {:trigger Apart(c, x)} | x in c && x !in but :: Apart(c, x)
  }

  /** Joining repairs the one pair of free neighbours that starts at `a`. */
  lemma JoinApart(c: Chunks, lo: nat, hi: nat, wild: nat, a: nat, but: set<nat>)
    requires Tiled(c, lo, hi, wild) && a in c && a != wild && Next(c, a) in c
    requires c[a].free && c[Next(c, a)].free && Next(c, a) !in but
    requires ApartBut(c, but + {a})
    ensures ApartBut(Join(c, a), but)
  {
    var c' := Join(c, a);
    var b := Next(c, a);
    forall x {:trigger Apart(c', x)} | x in c' && x !in but
      ensures Apart(c', x)
    {
      assert x != a ==> Apart(c, x);
      if x == a {
        assert Apart(c, b) && Next(c', a) == Next(c, b);
      }
    }
  }

  lemma JoinTwice(c: Chunks, lo: nat, hi: nat, wild: nat, p: nat, a: nat)
    requires Tiled(c, lo, hi, wild) && a != wild
    requires p in c && Next(c, p) == a && a in c && Next(c, a) in c
    requires c[p].free && c[a].free && c[Next(c, a)].free
    requires ApartBut(c, {p} + {a})
    ensures Next(Join(c, a), p) in Join(c, a)
    ensures var c' := Join(Join(c, a), p);
      Tiled(c', lo, hi, if Next(c, a) == wild then p else wild) && NoAdjacentFree(c')
  {
    JoinTiled(c, lo, hi, wild, a);
    JoinApart(c, lo, hi, wild, a, {p});
    var w := if Next(c, a) == wild then a else wild;
    EndsInside(c, lo, hi, wild, a);
    JoinTiled(Join(c, a), lo, hi, w, p);
    assert {} + {p} == {p};
    JoinApart(Join(c, a), lo, hi, w, p, {});
  }

  // ----------------------------------------------------------- operations

  /** Once its front is off every list, carving a chunk leaves just the rest to be listed. */
  lemma CarveIndex(lists: Lists, c: Chunks, lo: nat, hi: nat, wild: nat, a: nat, n: nat)
    requires Tiled(c, lo, hi, wild) && Indexed(lists, c, wild, {a}) && a in c
    requires n >= MIN_WORDS && c[a].n >= n + TAG_WORDS + MIN_WORDS
    ensures var rest := a + n + TAG_WORDS;
      Indexed(lists, Carve(c, a, n), if a == wild then rest else wild, {rest})
  {
    CarveTiled(c, lo, hi, wild, a, n);
    var rest := a + n + TAG_WORDS;
    Reindex(lists, c, wild, {a}, Carve(c, a, n), if a == wild then rest else wild, {rest});
  }

  /** Joining two chunks that are off every list. */
  lemma JoinIndex(lists: Lists, c: Chunks, lo: nat, hi: nat, wild: nat, a: nat, loose: set<nat>)
    requires Tiled(c, lo, hi, wild) && Indexed(lists, c, wild, loose)
    requires a in c && a != wild && Next(c, a) in c && a in loose && Next(c, a) in loose
    ensures Indexed(lists, Join(c, a), if Next(c, a) == wild then a else wild, loose - {Next(c, a)})
  {
    var b := Next(c, a);
    Reindex(lists, c, wild, loose, Join(c, a), if b == wild then a else wild, loose - {b});
  }

  lemma SplitKeepsInv(s: State, a: nat, n: nat)
    requires Inv(s) && a in s.chunks && s.chunks[a].free
    requires n >= MIN_WORDS && CanSplit(s, a, n)
    ensures Inv(Split(s, a, n))
  {
    var rest := a + n + TAG_WORDS;
    var t := Split(s, a, n);
    CarveTiled(s.chunks, s.lo, s.hi, s.wild, a, n);
    CarveApart(s.chunks, s.lo, s.hi, s.wild, a, n);
    var l := Unlist(s.lists, BucketOf(s.chunks, s.wild, a), a);
    UnlistKeepsIndex(s.lists, s.chunks, s.wild, {}, a);
    assert {} + {a} == {a};
    CarveIndex(l, s.chunks, s.lo, s.hi, s.wild, a, n);
    PushKeepsIndex(l, t.chunks, t.wild, {rest}, rest);
    assert {rest} - {rest} == {};
  }

  lemma TakeKeepsInv(s: State, a: nat)
    requires Inv(s) && a in s.chunks && s.chunks[a].free && a != s.wild
    ensures Inv(Take(s, a))
  {
    var t := Take(s, a);
    UnlistKeepsIndex(s.lists, s.chunks, s.wild, {}, a);
    assert {} + {a} == {a};
    Reindex(t.lists, s.chunks, s.wild, {a}, t.chunks, t.wild, {});
    RemarkTiled(s.chunks, s.lo, s.hi, s.wild, t.chunks);
    forall x {:trigger Apart(t.chunks, x)} | x in t.chunks
      ensures Apart(t.chunks, x)
    {
      NextNotFree(s.chunks, x);
    }
  }

  /** The tiling does not look at the free flags. */
  lemma RemarkTiled(c: Chunks, lo: nat, hi: nat, wild: nat, c': Chunks)
    requires Tiled(c, lo, hi, wild) && c'.Keys == c.Keys
    requires forall x | x in c :: c'[x].n == c[x].n
    ensures Tiled(c', lo, hi, wild)
  {
    forall x {:trigger InPlace(c', hi, wild, x)} | x in c'
      ensures InPlace(c', hi, wild, x)
    {
      EndsInside(c, lo, hi, wild, x);
    }
    forall x, y {:trigger Next(c', x), y in c'} | x in c' && y in c' && x < y ensures Next(c', x) <= y {
      InOrder(c, lo, hi, wild, x, y);
    }
  }

  lemma StretchTiled(c: Chunks, lo: nat, hi: nat, wild: nat, g: nat)
    requires Tiled(c, lo, hi, wild) && NoAdjacentFree(c)
    ensures var c' := c[wild := c[wild].(n := c[wild].n + g)];
      Tiled(c', lo, hi + g, wild) && NoAdjacentFree(c')
  {
    var c' := c[wild := c[wild].(n := c[wild].n + g)];
    forall x {:trigger InPlace(c', hi + g, wild, x)} | x in c'
      ensures InPlace(c', hi + g, wild, x)
    {
      EndsInside(c, lo, hi, wild, x);
    }
    forall x, y {:trigger Next(c', x), y in c'} | x in c' && y in c' && x < y ensures Next(c', x) <= y {
      EndsInside(c, lo, hi, wild, y);
      InOrder(c, lo, hi, wild, x, y);
    }
    forall x {:trigger Apart(c', x)} | x in c'
      ensures Apart(c', x)
    {
      NextNotFree(c, x);
      if x == wild && Next(c', x) in c' {
        EndsInside(c, lo, hi, wild, Next(c', x));
      }
    }
  }

  lemma StretchIndex(lists: Lists, c: Chunks, lo: nat, hi: nat, wild: nat, g: nat)
    requires Tiled(c, lo, hi, wild) && Indexed(lists, c, wild, {})
    ensures Indexed(lists, c[wild := c[wild].(n := c[wild].n + g)], wild, {})
  {
    Reindex(lists, c, wild, {}, c[wild := c[wild].(n := c[wild].n + g)], wild, {});
  }

  lemma PagesAreWords(bytes: nat)
    requires bytes % PAGE == 0
    ensures 8 * (bytes / 8) == bytes && RoundUp(bytes) == bytes
  {
    var q := bytes / PAGE;
    assert bytes == 8 * (512 * q);
  }

  lemma GrowthIsPages(n: nat)
    ensures var bytes := GrowthBytes(n);
      0 < bytes && RoundUp(bytes) == bytes && 8 * (bytes / 8) == bytes
  {
    PagesAreWords(GrowthBytes(n));
  }

  /** A growth the VMM grants stays inside the reservation. */
  lemma GrowthFits(s: State, n: nat, g: nat)
    requires Sized(s) && s.wild in s.chunks && s.lo <= s.hi && CanGrow(s, n) && g == GrowthBytes(n) / 8
    ensures g > 0 && 8 * g == GrowthBytes(n)
    ensures var r := Grow(s, n).region;
      Padded(r) && WindowEnd(r) + r.upper == WindowEnd(s.region) + s.region.upper
    ensures Sized(Grow(s, n))
    ensures 8 * (s.hi + g) <= WindowEnd(s.region) + s.region.upper
  {
    GrowthIsPages(n);
  }

  lemma GrowKeepsInv(s: State, n: nat)
    requires Inv(s) && CanGrow(s, n)
    ensures Inv(Grow(s, n))
  {
    GrowthFits(s, n, GrowthBytes(n) / 8);
    StretchIndex(s.lists, s.chunks, s.lo, s.hi, s.wild, GrowthBytes(n) / 8);
    StretchTiled(s.chunks, s.lo, s.hi, s.wild, GrowthBytes(n) / 8);
  }

  /** kmalloc keeps the heap well formed, whichever way it ends. */
  lemma MallocKeepsInv(test: Test, s: State, n: nat)
    requires n >= MIN_WORDS && Inv(s)
    ensures Inv(Malloc(test, s, n).state) && Malloc(test, s, n).state.lo == s.lo
  {
    CandidateIsFree(test, s, n);
    var a := Candidate(test, s, n);
    if a != s.wild {
      if s.chunks[a].n == n {
        TakeKeepsInv(s, a);
      } else if CanSplit(s, a, n) {
        SplitKeepsInv(s, a, n);
      }
    } else if CanSplit(s, a, n) {
      SplitKeepsInv(s, a, n);
    } else if CanGrow(s, n) {
      GrowKeepsInv(s, n);
      GrowMakesRoom(s, n);
      SplitKeepsInv(Grow(s, n), a, n);
    }
  }

  lemma MergeNextIndex(s: State, a: nat, loose: set<nat>)
    requires Tiled(s.chunks, s.lo, s.hi, s.wild)
    requires a in s.chunks && a != s.wild && Next(s.chunks, a) in s.chunks
    requires s.chunks[a].free && s.chunks[Next(s.chunks, a)].free
    requires Indexed(s.lists, s.chunks, s.wild, loose) && loose <= {a, Next(s.chunks, a)}
    ensures var t := MergeNext(s, a); Indexed(t.lists, t.chunks, t.wild, {})
  {
    var b := Next(s.chunks, a);
    var t := MergeNext(s, a);
    var l := Unlist(s.lists, BucketOf(s.chunks, s.wild, a), a);
    UnlistKeepsIndex(s.lists, s.chunks, s.wild, loose, a);
    var l' := Unlist(l, BucketOf(s.chunks, s.wild, b), b);
    UnlistKeepsIndex(l, s.chunks, s.wild, loose + {a}, b);
    JoinIndex(l', s.chunks, s.lo, s.hi, s.wild, a, loose + {a} + {b});
    PushKeepsIndex(l', t.chunks, t.wild, loose + {a} + {b} - {b}, a);
    assert loose + {a} + {b} - {b} - {a} == {};
  }

  lemma MergeBothIndex(s: State, p: nat, a: nat)
    requires Tiled(s.chunks, s.lo, s.hi, s.wild) && a != s.wild
    requires p in s.chunks && Next(s.chunks, p) == a && a in s.chunks && Next(s.chunks, a) in s.chunks
    requires s.chunks[p].free && s.chunks[a].free && s.chunks[Next(s.chunks, a)].free
    requires Indexed(s.lists, s.chunks, s.wild, {a})
    ensures var t := MergeBoth(s, p, a); Indexed(t.lists, t.chunks, t.wild, {})
  {
    var b := Next(s.chunks, a);
    var l := Unlist(s.lists, BucketOf(s.chunks, s.wild, a), a);
    UnlistKeepsIndex(s.lists, s.chunks, s.wild, {a}, a);
    var l' := Unlist(l, BucketOf(s.chunks, s.wild, b), b);
    UnlistKeepsIndex(l, s.chunks, s.wild, {a} + {a}, b);
    var l'' := Unlist(l', BucketOf(s.chunks, s.wild, p), p);
    UnlistKeepsIndex(l', s.chunks, s.wild, {a} + {a} + {b}, p);
    JoinTwiceIndex(l'', s.chunks, s.lo, s.hi, s.wild, p, a, {a} + {a} + {b} + {p});
    var t := MergeBoth(s, p, a);
    PushKeepsIndex(l'', t.chunks, t.wild, {p}, p);
    assert {p} - {p} == {};
  }

  lemma JoinTwiceIndex(lists: Lists, c: Chunks, lo: nat, hi: nat, wild: nat, p: nat, a: nat, loose: set<nat>)
    requires Tiled(c, lo, hi, wild) && a != wild && Indexed(lists, c, wild, loose)
    requires p in c && Next(c, p) == a && a in c && Next(c, a) in c
    requires loose == {p, a, Next(c, a)}
    ensures Next(Join(c, a), p) in Join(c, a)
    ensures Indexed(lists, Join(Join(c, a), p), if Next(c, a) == wild then p else wild, {p})
  {
    var b := Next(c, a);
    JoinIndex(lists, c, lo, hi, wild, a, loose);
    JoinTiled(c, lo, hi, wild, a);
    EndsInside(c, lo, hi, wild, a);
    JoinIndex(lists, Join(c, a), lo, hi, if b == wild then a else wild, p, loose - {b});
    assert loose - {b} - {a} == {p};
  }

  /** A chunk just marked free is on no list yet; everything else is as before. */
  lemma MarkFreeLoose(s: State, a: nat)
    requires Inv(s) && a in s.chunks && !s.chunks[a].free
    ensures var f := MarkFree(s, a);
      Tiled(f.chunks, f.lo, f.hi, f.wild) && Indexed(f.lists, f.chunks, f.wild, {a}) && a != f.wild
  {
    var f := MarkFree(s, a);
    Reindex(s.lists, s.chunks, s.wild, {}, f.chunks, f.wild, {a});
    RemarkTiled(s.chunks, s.lo, s.hi, s.wild, f.chunks);
  }

  /** Marking `a` free can only make neighbours of `a` adjacent and free. */
  lemma MarkFreeApart(s: State, a: nat, but: set<nat>)
    requires Inv(s) && a in s.chunks && !s.chunks[a].free && Next(s.chunks, a) in s.chunks
    requires s.chunks[Next(s.chunks, a)].free ==> a in but
    requires forall x | x in s.chunks && Next(s.chunks, x) == a && s.chunks[x].free :: x in but
    ensures ApartBut(MarkFree(s, a).chunks, but)
  {
    var c := MarkFree(s, a).chunks;
    forall x {:trigger Apart(c, x)} | x in c && x !in but
      ensures Apart(c, x)
    {
      NextNotFree(s.chunks, x);
    }
  }

  lemma ReleaseBothKeepsInv(s: State, p: nat, a: nat)
    requires Inv(s) && a in s.chunks && !s.chunks[a].free && Next(s.chunks, a) in s.chunks
    requires p in s.chunks && Next(s.chunks, p) == a && s.chunks[p].free && s.chunks[Next(s.chunks, a)].free
    ensures Inv(MergeBoth(MarkFree(s, a), p, a))
  {
    MarkFreeLoose(s, a);
    var f := MarkFree(s, a);
    EndsInside(s.chunks, s.lo, s.hi, s.wild, a);
    MarkFreeApart(s, a, {p} + {a});
    JoinTwice(f.chunks, f.lo, f.hi, f.wild, p, a);
    MergeBothIndex(f, p, a);
  }

  lemma ReleasePrevKeepsInv(s: State, p: nat, a: nat)
    requires Inv(s) && a in s.chunks && !s.chunks[a].free && Next(s.chunks, a) in s.chunks
    requires p in s.chunks && Next(s.chunks, p) == a && s.chunks[p].free && !s.chunks[Next(s.chunks, a)].free
    ensures Inv(MergeNext(MarkFree(s, a), p))
  {
    MarkFreeLoose(s, a);
    var f := MarkFree(s, a);
    EndsInside(s.chunks, s.lo, s.hi, s.wild, a);
    assert {} + {p} == {p};
    MarkFreeApart(s, a, {p});
    MergeNextIndex(f, p, {a});
    JoinTiled(f.chunks, f.lo, f.hi, f.wild, p);
    JoinApart(f.chunks, f.lo, f.hi, f.wild, p, {});
  }

  lemma ReleaseNextKeepsInv(s: State, a: nat)
    requires Inv(s) && a in s.chunks && !s.chunks[a].free && Next(s.chunks, a) in s.chunks
    requires forall x | x in s.chunks && Next(s.chunks, x) == a :: !s.chunks[x].free
    requires s.chunks[Next(s.chunks, a)].free
    ensures Inv(MergeNext(MarkFree(s, a), a))
  {
    MarkFreeLoose(s, a);
    var f := MarkFree(s, a);
    assert {} + {a} == {a};
    MarkFreeApart(s, a, {a});
    MergeNextIndex(f, a, {a});
    JoinTiled(f.chunks, f.lo, f.hi, f.wild, a);
    JoinApart(f.chunks, f.lo, f.hi, f.wild, a, {});
  }

  lemma ReleaseAloneKeepsInv(s: State, a: nat)
    requires Inv(s) && a in s.chunks && !s.chunks[a].free && Next(s.chunks, a) in s.chunks
    requires forall x | x in s.chunks && Next(s.chunks, x) == a :: !s.chunks[x].free
    requires !s.chunks[Next(s.chunks, a)].free
    ensures var f := MarkFree(s, a);
      Inv(f.(lists := PushFront(f.lists, BucketOf(f.chunks, f.wild, a), a)))
  {
    MarkFreeLoose(s, a);
    var f := MarkFree(s, a);
    MarkFreeApart(s, a, {});
    PushKeepsIndex(f.lists, f.chunks, f.wild, {a}, a);
    assert {a} - {a} == {};
  }

  /** kfree keeps the heap well formed; in particular it leaves no two adjacent free chunks. */
  lemma ReleaseKeepsInv(s: State, p: nat, a: nat)
    requires Inv(s) && a in s.chunks && !s.chunks[a].free && Next(s.chunks, a) in s.chunks
    requires a != s.lo ==> p in s.chunks && Next(s.chunks, p) == a
    ensures Inv(Release(s, p, a))
  {
    var joinPrev := a != s.lo && s.chunks[p].free;
    if joinPrev && s.chunks[Next(s.chunks, a)].free {
      ReleaseBothKeepsInv(s, p, a);
    } else if joinPrev {
      ReleasePrevKeepsInv(s, p, a);
    } else if s.chunks[Next(s.chunks, a)].free {
      ReleaseNextKeepsInv(s, a);
    } else {
      ReleaseAloneKeepsInv(s, a);
    }
  }

  lemma InitInv(region: Region)
    requires Padded(region) && region.kind.Heap? && WindowSize(region) > 128
    requires WindowStart(region) % 8 == 0 && WindowSize(region) % 8 == 0 && WindowStart(region) > 0
    requires region.size < TWO63 && End(region) <= TWO64
    ensures Inv(Init(region))
  {
    var s := Init(region);
    var c := s.chunks;
    var empty: Lists := seq(BUCKETS, _ => []);
    assert Indexed(empty, c, s.wild, {s.lo});
    PushKeepsIndex(empty, c, s.wild, {s.lo}, s.lo);
    assert {s.lo} - {s.lo} == {};
  }
}

/** The whole pipeline from memory map to allocator ranges. */
module BootProofs {
  import opened Basics
  import opened FrameModel
  import opened BootModel

  predicate Perm(a: seq<Range>, b: seq<Range>) {
    multiset(a) == multiset(b)
  }

  lemma PermMember(a: seq<Range>, b: seq<Range>, r: Range)
    requires Perm(a, b)
    ensures r in a <==> r in b
  {
    assert r in a <==> r in multiset(a);
    assert r in b <==> r in multiset(b);
  }

  /** Two places with one value. */
  lemma {:induction false} CountedTwice(a: seq<Range>, r: Range) returns (i: nat, j: nat)
    requires multiset(a)[r] >= 2
    ensures i < j < |a| && a[i] == r && a[j] == r
    decreases |a|
  {
    var n := |a| - 1;
    assert a == a[..n] + [a[n]];
    if a[n] == r {
      assert r in multiset(a[..n]);
      j := n;
      i :| 0 <= i < n && a[..n][i] == r;
    } else {
      i, j := CountedTwice(a[..n], r);
    }
  }

  lemma SameTwice(b: seq<Range>, i: nat, j: nat)
    requires i < j < |b| && b[i] == b[j]
    ensures multiset(b)[b[i]] >= 2
  {
    assert b == b[..j] + [b[j]] + b[j + 1..];
    assert b[i] in b[..j];
    assert b[i] in multiset(b[..j]);
  }

  /** Reordering disjoint non-empty ranges leaves them disjoint. */
  lemma PermDisjoint(a: seq<Range>, b: seq<Range>)
    requires Perm(a, b) && Disjoint(a) && forall r | r in a :: r.size > 0
    ensures Disjoint(b)
  {
    forall i, j | 0 <= i < j < |b| ensures !Meet(b[i], b[j]) {
      PermMember(a, b, b[i]);
      PermMember(a, b, b[j]);
      var k :| 0 <= k < |a| && a[k] == b[i];
      var l :| 0 <= l < |a| && a[l] == b[j];
      if k == l {
        SameTwice(b, i, j);
        var m, n := CountedTwice(a, b[i]);
        assert !Meet(a[m], a[n]);
      } else if k < l {
        assert !Meet(a[k], a[l]);
      } else {
        assert !Meet(a[l], a[k]);
      }
    }
  }

  // ----------------------------------------------------------- what is kept of the map

  /** The ranges taken over are those of the free items that are not empty, each once and in map order: `idx` are the
      places they come from. */
  ghost predicate TakenFrom(items: seq<Item>, ranges: seq<Range>, idx: seq<nat>) {
    && |idx| == |ranges|
    && (forall k | 0 <= k < |idx| ::
          && idx[k] < |items| && items[idx[k]].free && items[idx[k]].size != 0
          && ranges[k] == Range(items[idx[k]].base, items[idx[k]].size))
    && (forall k, l | 0 <= k < l < |idx| :: idx[k] < idx[l])
    && (forall i | 0 <= i < |items| && items[i].free && items[i].size != 0 :: i in idx)
  }

  lemma {:induction false} FreeRangesExact(items: seq<Item>) returns (idx: seq<nat>)
    ensures TakenFrom(items, FreeRanges(items), idx)
    decreases |items|
  {
    if items == [] {
      idx := [];
    } else {
      var n := |items| - 1;
      var low := FreeRangesExact(items[..n]);
      assert items == items[..n] + [items[n]];
      if items[n].free && items[n].size != 0 {
        idx := low + [n];
        TakesOne(items[..n], FreeRanges(items[..n]), low, items[n]);
      } else {
        idx := low;
        TakesNone(items[..n], FreeRanges(items[..n]), low, items[n]);
        assert FreeRanges(items) == FreeRanges(items[..n]);
      }
    }
  }

  lemma TakesOne(items: seq<Item>, ranges: seq<Range>, idx: seq<nat>, item: Item)
    requires TakenFrom(items, ranges, idx) && item.free && item.size != 0
    ensures TakenFrom(items + [item], ranges + [Range(item.base, item.size)], idx + [|items|])
  {
    var all, more := items + [item], idx + [|items|];
    assert more[|idx|] == |items|;
    forall i | 0 <= i < |all| && all[i].free && all[i].size != 0 ensures i in more {
      assert i < |items| ==> items[i] == all[i] && i in idx;
    }
  }

  lemma TakesNone(items: seq<Item>, ranges: seq<Range>, idx: seq<nat>, item: Item)
    requires TakenFrom(items, ranges, idx) && !(item.free && item.size != 0)
    ensures TakenFrom(items + [item], ranges, idx)
  {
    var all := items + [item];
    forall i | 0 <= i < |all| && all[i].free && all[i].size != 0 ensures i in idx {
      assert i < |items| && items[i] == all[i];
    }
  }

  /** A range is taken over if and only if it is that of a free item that is not empty. */
  lemma FreeRangesMember(items: seq<Item>, r: Range)
    ensures r in FreeRanges(items) <==>
            exists i :: 0 <= i < |items| && items[i].free && items[i].size != 0 && r == Range(items[i].base, items[i].size)
  {
    var idx := FreeRangesExact(items);
    if r in FreeRanges(items) {
      var k :| 0 <= k < |idx| && FreeRanges(items)[k] == r;
      assert items[idx[k]].free;
    }
    if i :| 0 <= i < |items| && items[i].free && items[i].size != 0 && r == Range(items[i].base, items[i].size) {
      var k :| 0 <= k < |idx| && idx[k] == i;
      assert FreeRanges(items)[k] == r;
    }
  }

  lemma FreeDisjoint(items: seq<Item>)
    requires ItemsDisjoint(items)
    ensures Disjoint(FreeRanges(items))
  {
    var idx := FreeRangesExact(items);
    forall k, l | 0 <= k < l < |idx| ensures !Meet(FreeRanges(items)[k], FreeRanges(items)[l]) {
      assert idx[k] < idx[l];
    }
  }

  /** The total counts the free items' sizes and nothing else. */
  lemma TotalCounts(items: seq<Item>, item: Item)
    ensures TotalFree([]) == 0
    ensures TotalFree(items + [item]) == TotalFree(items) + if item.free then item.size else 0
  {
    assert (items + [item])[..|items|] == items;
  }

  lemma {:induction false} FreeNonEmpty(items: seq<Item>)
    ensures forall r | r in FreeRanges(items) :: r.size > 0
    decreases |items|
  {
    if items != [] {
      FreeNonEmpty(items[..|items| - 1]);
    }
  }

  /** Given the free items in ascending order: sound ranges, in order, of exactly the available pages. */
  lemma PipelineExact(items: seq<Item>, b: Boot, order: seq<Range>)
    requires Perm(FreeRanges(items), order) && Ascending(order)
    requires Disjoint(FreeRanges(items)) && forall r | r in FreeRanges(items) :: Clean(r, b)
    ensures Sound(Prepared(order, b))
    ensures forall i, j | 0 <= i < j < |order| && Prepared(order, b)[i].size > 0 && Prepared(order, b)[j].size > 0 ::
              Prepared(order, b)[i].start + Prepared(order, b)[i].size <= Prepared(order, b)[j].start
    ensures forall f: nat :: InSome(Prepared(order, b), f) <==> Available(items, b, f)
  {
    var out := Prepared(order, b);
    FreeNonEmpty(items);
    PermDisjoint(FreeRanges(items), order);
    forall i | 0 <= i < |order| ensures Clean(order[i], b) && order[i].size > 0 && Aligned(out[i]) && (out[i].size > 0 ==> out[i].start >= 1048576) {
      PermMember(FreeRanges(items), order, order[i]);
      PrepareExact(order[i], b, 0);
    }
    forall i, j | 0 <= i < j < |order| && out[i].size > 0 && out[j].size > 0
      ensures out[i].start + out[i].size <= out[j].start
    {
      PrepareExact(order[i], b, 0);
      PrepareExact(order[j], b, 0);
      assert !Meet(order[i], order[j]) && order[i].start <= order[j].start;
    }
    forall f: nat ensures InSome(out, f) <==> Available(items, b, f) {
      PipelinePage(items, b, order, f);
    }
  }

  lemma PipelinePage(items: seq<Item>, b: Boot, order: seq<Range>, f: nat)
    requires Perm(FreeRanges(items), order) && forall r | r in FreeRanges(items) :: Clean(r, b)
    ensures InSome(Prepared(order, b), f) <==> Available(items, b, f)
  {
    var out := Prepared(order, b);
    if InSome(out, f) {
      var i :| 0 <= i < |out| && Inside(out[i], f);
      PermMember(FreeRanges(items), order, order[i]);
      PrepareExact(order[i], b, f);
      FreeRangesMember(items, order[i]);
      var k :| 0 <= k < |items| && items[k].free && order[i] == Range(items[k].base, items[k].size);
      assert Offers(Range(items[k].base, items[k].size), b, f);
    }
    if Available(items, b, f) {
      var k :| 0 <= k < |items| && items[k].free && Offers(Range(items[k].base, items[k].size), b, f);
      var r := Range(items[k].base, items[k].size);
      FreeRangesMember(items, r);
      PermMember(FreeRanges(items), order, r);
      var i :| 0 <= i < |order| && order[i] == r;
      PrepareExact(r, b, f);
      assert Inside(out[i], f);
    }
  }

  /** No page of an item that is not free is ever given to the allocator. */
  lemma {:induction false} ReservedStaysOut(items: seq<Item>, b: Boot, order: seq<Range>, f: nat, j: nat)
    requires Perm(FreeRanges(items), order) && Ascending(order) && ItemsDisjoint(items)
    requires forall r | r in FreeRanges(items) :: Clean(r, b)
    requires InSome(Prepared(order, b), f) && j < |items| && !items[j].free
    ensures !Meet(Range(f, PAGE), Range(items[j].base, items[j].size))
  {
    PipelinePage(items, b, order, f);
    var k :| 0 <= k < |items| && items[k].free && Offers(Range(items[k].base, items[k].size), b, f);
    assert k != j;
    assert if k < j then !Meet(Range(items[k].base, items[k].size), Range(items[j].base, items[j].size))
           else !Meet(Range(items[j].base, items[j].size), Range(items[k].base, items[k].size));
  }

  // ----------------------------------------------------------- sizes

  function SumSizes(a: seq<Range>): nat {
    if a == [] then 0 else SumSizes(a[..|a| - 1]) + a[|a| - 1].size
  }

  lemma {:induction false} SumConcat(a: seq<Range>, b: seq<Range>)
    ensures SumSizes(a + b) == SumSizes(a) + SumSizes(b)
    decreases |b|
  {
    if b == [] {
      assert a + b == a;
    } else {
      var n := |b| - 1;
      assert (a + b)[..|a + b| - 1] == a + b[..n];
      SumConcat(a, b[..n]);
    }
  }

  lemma Cancel(a: multiset<Range>, b: multiset<Range>, r: Range)
    requires a + multiset{r} == b + multiset{r}
    ensures a == b
  {
    forall x ensures a[x] == b[x] {
      assert (a + multiset{r})[x] == (b + multiset{r})[x];
    }
  }

  lemma {:induction false} PermSum(a: seq<Range>, b: seq<Range>)
    requires Perm(a, b)
    ensures SumSizes(a) == SumSizes(b)
    decreases |a|
  {
    if a == [] {
      assert |multiset(b)| == |b|;
    } else {
      var n := |a| - 1;
      assert a == a[..n] + [a[n]];
      PermMember(a, b, a[n]);
      var k :| 0 <= k < |b| && b[k] == a[n];
      var rest := b[..k] + b[k + 1..];
      assert b == b[..k] + ([b[k]] + b[k + 1..]);
      assert multiset(a) == multiset(a[..n]) + multiset{a[n]};
      assert multiset(b) == multiset(rest) + multiset{b[k]};
      Cancel(multiset(a[..n]), multiset(rest), a[n]);
      PermSum(a[..n], rest);
      SumConcat(b[..k], [b[k]] + b[k + 1..]);
      SumConcat([b[k]], b[k + 1..]);
      SumConcat(b[..k], b[k + 1..]);
      assert SumSizes([b[k]]) == b[k].size;
    }
  }

  lemma {:induction false} TotalIsSum(items: seq<Item>)
    ensures TotalFree(items) == SumSizes(FreeRanges(items))
    decreases |items|
  {
    if items != [] {
      var n := |items| - 1;
      TotalIsSum(items[..n]);
      if Keeps(items[n]) {
        SumConcat(FreeRanges(items[..n]), [Range(items[n].base, items[n].size)]);
        assert SumSizes([Range(items[n].base, items[n].size)]) == items[n].size;
      } else {
        assert FreeRanges(items) == FreeRanges(items[..n]);
      }
    }
  }

  lemma {:induction false} PagesWithin(order: seq<Range>, b: Boot)
    requires forall r | r in order :: Clean(r, b)
    ensures PagesIn(Prepared(order, b)) * PAGE <= SumSizes(order)
    decreases |order|
  {
    if order != [] {
      var n := |order| - 1;
      assert Prepared(order, b)[..n] == Prepared(order[..n], b);
      PagesWithin(order[..n], b);
      assert order[n] in order;
      PrepareExact(order[n], b, 0);
    }
  }

  /** What the allocator's initialisation asks of its ranges holds of the pipeline's, with the reported total
      of free RAM, as long as that total fits in 64 bits. */
  lemma FeedsAllocator(items: seq<Item>, b: Boot, order: seq<Range>)
    requires Perm(FreeRanges(items), order) && Ascending(order)
    requires Disjoint(FreeRanges(items)) && (forall r | r in FreeRanges(items) :: Clean(r, b)) && TotalFree(items) < TWO64
    ensures Sound(Prepared(order, b)) && PagesIn(Prepared(order, b)) * PAGE <= Wrap(TotalFree(items))
  {
    PipelineExact(items, b, order);
    TotalIsSum(items);
    PermSum(FreeRanges(items), order);
    forall r | r in order ensures Clean(r, b) {
      PermMember(FreeRanges(items), order, r);
    }
    PagesWithin(order, b);
    NoWrap(TotalFree(items));
  }
}

/** The memory-map pipeline in place: filter, bubble sort, trim and align one static buffer
    (kernel/HAL/bios/bootloader_data.c). */
module BootMemory {
  import opened Basics
  import opened FrameModel
  import opened BootModel
  import opened BootProofs

  // ----------------------------------------------------------- the sort

  function Swapped(s: seq<Range>, j: nat): seq<Range>
    requires j + 1 < |s|
  {
    s[j := s[j + 1]][j + 1 := s[j]]
  }

  lemma SwappedPerm(s: seq<Range>, j: nat)
    requires j + 1 < |s|
    ensures Perm(s, Swapped(s, j))
  {
    var rest := s[j + 2..];
    assert s == s[..j] + [s[j], s[j + 1]] + rest;
    assert Swapped(s, j) == s[..j] + [s[j + 1], s[j]] + rest;
  }

  /** Everything in `s` from `m` on is in order and no smaller than what comes before. */
  predicate SortedFrom(s: seq<Range>, m: nat) {
    forall i, j | 0 <= i < j < |s| && m <= j :: s[i].start <= s[j].start
  }

  class BootMap {
    const buffer: array<Range>       // free_range_buffer
    var count: int                   // free_ranges_number, -1 until the first call

    constructor ()
      ensures buffer.Length == 128 && count == -1
    {
      buffer := new Range[MAX_RANGES](_ => Range(0, 0));
      count := -1;
    }

    /** The free, non-empty items; more than 128 of them is a panic. */
    method Fill(items: seq<Item>) returns (ok: bool, n: nat)
      requires buffer.Length == 128
      modifies buffer
      ensures ok <==> |FreeRanges(items)| <= 128
      ensures ok ==> n == |FreeRanges(items)| && buffer[..n] == FreeRanges(items)
    {
      n := 0;
      var i := 0;
      while i < |items|
        invariant 0 <= i <= |items| && n <= 128 && buffer[..n] == FreeRanges(items[..i])
      {
        assert items[..i + 1][..i] == items[..i];
        if items[i].free && items[i].size != 0 {
          if n == MAX_RANGES {
            FreeGrows(items, i + 1);
            return false, n;
          }
          buffer[n] := Range(items[i].base, items[i].size);
          n := n + 1;
        }
        i := i + 1;
      }
      assert items[..i] == items;
      ok := true;
    }

    method Swap(j: nat, m: nat)
      requires j + 1 < m <= buffer.Length
      modifies buffer
      ensures Perm(old(buffer[..m]), buffer[..m]) && buffer[m..] == old(buffer[m..])
      ensures buffer[j] == old(buffer[j + 1]) && buffer[j + 1] == old(buffer[j])
      ensures forall k | 0 <= k < m && k != j && k != j + 1 :: buffer[k] == old(buffer[k])
    {
      buffer[j], buffer[j + 1] := buffer[j + 1], buffer[j];
      assert buffer[..m] == Swapped(old(buffer[..m]), j);
      SwappedPerm(old(buffer[..m]), j);
    }

    /** One inner pass: the greatest of the first `m` starts goes last. */
    method Pass(m: nat)
      requires 0 < m <= buffer.Length
      modifies buffer
      ensures Perm(old(buffer[..m]), buffer[..m]) && buffer[m..] == old(buffer[m..])
      ensures forall k | 0 <= k < m :: buffer[k].start <= buffer[m - 1].start
    {
      var j := 0;
      while j < m - 1
        invariant 0 <= j <= m - 1 && Perm(old(buffer[..m]), buffer[..m]) && buffer[m..] == old(buffer[m..])
        invariant forall k | 0 <= k <= j :: buffer[k].start <= buffer[j].start
      {
        if buffer[j].start > buffer[j + 1].start {
          Swap(j, m);
        }
        j := j + 1;
      }
    }

    /** The bubble sort of the first `n` ranges. */
    method Sort(n: nat)
      requires n <= buffer.Length
      modifies buffer
      ensures Perm(old(buffer[..n]), buffer[..n]) && Ascending(buffer[..n])
    {
      var i := 0;
      while i < n
        invariant 0 <= i <= n && Perm(old(buffer[..n]), buffer[..n]) && SortedFrom(buffer[..n], n - i)
      {
        var m := n - i;
        ghost var s := buffer[..n];
        assert s[..m] == buffer[..m] && s[m..] == buffer[m..][..n - m];
        Pass(m);
        ghost var t := buffer[..n];
        assert t[..m] == buffer[..m] && t[m..] == buffer[m..][..n - m];
        assert forall k | 0 <= k < m :: t[k] == buffer[k];
        PassSorts(s, t, m);
        i := i + 1;
      }
    }

    /** The loop that takes out what the bootloader used. */
    method TrimConsumed(n: nat, b: Boot)
      requires n <= buffer.Length
      modifies buffer
      ensures forall i | 0 <= i < n :: buffer[i] == Consumed(old(buffer[i]), b)
    {
      var i := 0;
      while i < n
        invariant 0 <= i <= n
        invariant forall k | 0 <= k < n :: buffer[k] == if k < i then Consumed(old(buffer[k]), b) else old(buffer[k])
      {
        if b.base == buffer[i].start {
          buffer[i] := Range(buffer[i].start, Wrap(buffer[i].size - (b.first - buffer[i].start)));
          buffer[i] := Range(b.first, buffer[i].size);
        }
        i := i + 1;
      }
    }

    /** The loop that takes out the first megabyte. */
    method TrimLow(n: nat)
      requires n <= buffer.Length
      modifies buffer
      ensures forall i | 0 <= i < n :: buffer[i] == AboveLow(old(buffer[i]))
    {
      var i := 0;
      while i < n
        invariant 0 <= i <= n
        invariant forall k | 0 <= k < n :: buffer[k] == if k < i then AboveLow(old(buffer[k])) else old(buffer[k])
      {
        if buffer[i].start < MB {
          if Wrap(buffer[i].start + buffer[i].size) > MB {
            buffer[i] := Range(buffer[i].start, Wrap(buffer[i].size - (MB - buffer[i].start)));
            buffer[i] := Range(MB, buffer[i].size);
          } else {
            buffer[i] := Range(buffer[i].start, 0);
          }
        }
        i := i + 1;
      }
    }

    /** The loop that cuts every range to whole pages. */
    method AlignAll(n: nat)
      requires n <= buffer.Length
      modifies buffer
      ensures forall i | 0 <= i < n :: buffer[i] == Align(old(buffer[i]))
    {
      var i := 0;
      while i < n
        invariant 0 <= i <= n
        invariant forall k | 0 <= k < n :: buffer[k] == if k < i then Align(old(buffer[k])) else old(buffer[k])
      {
        if buffer[i].size != 0 {
          if buffer[i].start % PAGE != 0 {
            var up := PAGE - buffer[i].start % PAGE;
            buffer[i] := Range(Wrap(buffer[i].start + up), Wrap(buffer[i].size - up));
          }
          if buffer[i].size % PAGE != 0 {
            buffer[i] := Range(buffer[i].start, Wrap(buffer[i].size - buffer[i].size % PAGE));
          }
        }
        i := i + 1;
      }
    }

    /** free_mem_bootloader: on the first call the sorted, prepared free items, or a panic when there are too
        many; on later calls the same buffer untouched. */
    method FreeMemory(items: seq<Item>, b: Boot) returns (ok: bool, n: nat, ghost order: seq<Range>)
      requires buffer.Length == 128 && -1 <= count <= 128
      modifies this, buffer
      ensures old(count) != -1 ==> ok && n == old(count) == count && buffer[..] == old(buffer[..])
      ensures old(count) == -1 ==> (ok <==> |FreeRanges(items)| <= 128)
      ensures old(count) == -1 && ok ==>
                && n == count == |order| && n <= 128 && Perm(FreeRanges(items), order) && Ascending(order)
                && buffer[..n] == Prepared(order, b)
    {
      order := [];
      if count != -1 {
        return true, count, order;
      }
      ok, n := Fill(items);
      if !ok {
        return;
      }
      Sort(n);
      order := buffer[..n];
      TrimConsumed(n, b);
      TrimLow(n);
      AlignAll(n);
      count := n;
      assert |multiset(FreeRanges(items))| == |multiset(order)|;
    }
  }

  /** get_total_usable_RAM_size, a 64-bit sum. */
  method TotalUsable(items: seq<Item>) returns (total: nat)
    ensures total == Wrap(TotalFree(items))
  {
    total := 0;
    var i := 0;
    while i < |items|
      invariant 0 <= i <= |items| && total == Wrap(TotalFree(items[..i]))
    {
      assert items[..i + 1][..i] == items[..i];
      if items[i].free && items[i].size != 0 {
        total := Wrap(total + items[i].size);
      }
      i := i + 1;
    }
    assert items[..i] == items;
  }

  /** One more place of the tail is settled by a pass. */
  lemma PassSorts(s: seq<Range>, t: seq<Range>, m: nat)
    requires 0 < m <= |s| == |t| && SortedFrom(s, m) && Perm(s[..m], t[..m]) && t[m..] == s[m..]
    requires forall k | 0 <= k < m :: t[k].start <= t[m - 1].start
    ensures SortedFrom(t, m - 1) && Perm(s, t)
  {
    assert s == s[..m] + s[m..] && t == t[..m] + t[m..];
    forall i, j | 0 <= i < j < |t| && m - 1 <= j ensures t[i].start <= t[j].start {
      if j >= m {
        assert t[j] == t[m..][j - m] == s[m..][j - m] == s[j];
        if i < m {
          PermMember(s[..m], t[..m], t[..m][i]);
          var k :| 0 <= k < m && s[..m][k] == t[i];
          assert s[k].start <= s[j].start;
        } else {
          assert t[i] == t[m..][i - m] == s[m..][i - m] == s[i];
        }
      }
    }
  }

  lemma {:induction false} FreeGrows(items: seq<Item>, i: nat)
    requires i <= |items|
    ensures |FreeRanges(items[..i])| <= |FreeRanges(items)|
    decreases |items| - i
  {
    if i == |items| {
      assert items[..i] == items;
    } else {
      assert items[..i + 1][..i] == items[..i];
      FreeGrows(items, i + 1);
    }
  }
}

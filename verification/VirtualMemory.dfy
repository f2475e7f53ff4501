/** The manager's doubly linked list of descriptors, relinked in place (kernel/mem/vmm.c). */
module VirtualMemory {
  import opened Basics
  import opened Region
  import opened VmmModel
  import opened VmmProofs
  import opened VmmRuns

  class Descriptor {
    var start: nat
    var size: nat
    var lower: nat
    var upper: nat
    var kind: Kind
    var prev: Descriptor?
    var next: Descriptor?

    constructor (start: nat, size: nat, kind: Kind)
      ensures Value() == Region(start, size, 0, 0, kind) && prev == null && next == null
    {
      this.start, this.size, this.kind := start, size, kind;
      lower, upper := 0, 0;
      prev, next := null, null;
    }

    function Value(): Region
      reads this
    {
      Region(start, size, lower, upper, kind)
    }
  }

  /** The nodes hold the given regions. */
  ghost predicate Hold(ns: seq<Descriptor>, rs: Regions)
    reads ns
  {
    |ns| == |rs| && forall i | 0 <= i < |ns| :: ns[i].Value() == rs[i]
  }

  function Inserted(ns: seq<Descriptor>, k: nat, x: Descriptor): seq<Descriptor>
    requires k <= |ns|
  {
    ns[..k] + [x] + ns[k..]
  }

  lemma HoldInsert(ns: seq<Descriptor>, rs: Regions, k: nat, x: Descriptor)
    requires Hold(ns, rs) && k <= |ns|
    ensures Hold(Inserted(ns, k, x), InsertAt(rs, k, x.Value()))
  {
  }

  lemma InsertedMembers(ns: seq<Descriptor>, k: nat, x: Descriptor)
    requires k <= |ns|
    ensures forall n | n in ns :: n in Inserted(ns, k, x)
  {
    var t := Inserted(ns, k, x);
    forall n | n in ns ensures n in t {
      var i :| 0 <= i < |ns| && ns[i] == n;
      assert t[if i < k then i else i + 1] == n;
    }
  }

  /** Each node knows its neighbours. */
  ghost predicate Linked(ns: seq<Descriptor>)
    reads ns
  {
    && (forall i {:trigger ns[i].prev} | 0 <= i < |ns| :: ns[i].prev == if i == 0 then null else ns[i - 1])
    && (forall i {:trigger ns[i].next} | 0 <= i < |ns| :: ns[i].next == if i + 1 < |ns| then ns[i + 1] else null)
  }

  /** No node is on the list twice. */
  lemma {:induction false} Distinct(ns: seq<Descriptor>, i: nat, j: nat)
    requires Linked(ns) && i < j < |ns|
    ensures ns[i] != ns[j]
  {
    assert ns[i].prev == if i == 0 then null else ns[i - 1];
    assert ns[j].prev == ns[j - 1];
    if i > 0 {
      Distinct(ns, i - 1, j - 1);
    }
  }

  lemma OnlyAt(ns: seq<Descriptor>, k: nat)
    requires Linked(ns) && k < |ns|
    ensures forall i | 0 <= i < |ns| && i != k :: ns[i] != ns[k]
  {
    forall i | 0 <= i < |ns| && i != k ensures ns[i] != ns[k] {
      if i < k { Distinct(ns, i, k); } else { Distinct(ns, k, i); }
    }
  }

  /** The list is linked but for the links between `x` and the nodes it is to stand between. */
  ghost predicate Spliced(ns: seq<Descriptor>, k: nat, x: Descriptor)
    requires k <= |ns|
    reads ns, x
  {
    && (forall i {:trigger ns[i].prev} | 0 <= i < |ns| :: ns[i].prev == if i == k then x else if i == 0 then null else ns[i - 1])
    && (forall i {:trigger ns[i].next} | 0 <= i < |ns| ::
          ns[i].next == if i + 1 == k then x else if i + 1 < |ns| then ns[i + 1] else null)
    && x.prev == (if k == 0 then null else ns[k - 1]) && x.next == (if k < |ns| then ns[k] else null)
  }

  lemma LinkedInsert(ns: seq<Descriptor>, k: nat, x: Descriptor)
    requires k <= |ns| && Spliced(ns, k, x)
    ensures Linked(Inserted(ns, k, x))
  {
    var t := Inserted(ns, k, x);
    forall i {:trigger t[i].prev} | 0 <= i < |t| ensures t[i].prev == if i == 0 then null else t[i - 1] {
      assert t[i] == if i < k then ns[i] else if i == k then x else ns[i - 1];
    }
    forall i {:trigger t[i].next} | 0 <= i < |t| ensures t[i].next == if i + 1 < |t| then t[i + 1] else null {
      assert t[i] == if i < k then ns[i] else if i == k then x else ns[i - 1];
    }
  }

  class Manager {
    var head: Descriptor
    ghost var nodes: seq<Descriptor>
    ghost var repr: set<Descriptor>   // the nodes are among these
    ghost var regions: Regions        // what the nodes hold
    var pages: map<nat, nat>          // the present mappings of the paging structure
    ghost var owned: map<nat, nat>    // those on frames taken from the frame allocator
    var locked: bool

    ghost predicate Chain()
      reads this, repr
    {
      && nodes != [] && head == nodes[0]
      && (forall i | 0 <= i < |nodes| :: nodes[i] in repr)
      && Linked(nodes)
    }

    ghost function Abstract(): State
      reads this
    {
      State(regions, pages, owned)
    }

    ghost predicate Valid()
      reads this, repr
    {
      Chain() && Hold(nodes, regions) && Inv(Abstract())
    }

    /** initialize_kernel_VMM. */
    constructor ()
      ensures Valid() && Abstract() == START && !locked && fresh(repr)
    {
      var first := new Descriptor(PAGE, IDENTITY_END - PAGE, IdentityFree);
      var second := new Descriptor(KERNEL_START, KERNEL_END - KERNEL_START, Free);
      first.next := second;
      second.prev := first;
      head := first;
      nodes := [first, second];
      repr := {first, second};
      regions := INITIAL;
      pages, owned, locked := map[], map[], false;
      new;
      StartInv();
    }

    // --------------------------------------------------------- relinking

    /** Puts a new descriptor behind `d`. */
    method LinkAfter(d: Descriptor, x: Descriptor, ghost k: nat)
      requires Chain() && k < |nodes| && nodes[k] == d && x !in repr
      modifies this`nodes, this`repr, repr`prev, repr`next, x`prev, x`next
      ensures Chain() && nodes == Inserted(old(nodes), k + 1, x) && repr == old(repr) + {x}
      ensures x.Value() == old(x.Value())
      ensures forall n | n in old(repr) :: n.Value() == old(n.Value())
    {
      OnlyAt(nodes, k);
      assert d.next == if k + 1 < |nodes| then nodes[k + 1] else null by { assert nodes[k].next == d.next; }
      if k + 1 < |nodes| { OnlyAt(nodes, k + 1); }
      var next := d.next;
      x.next := next;
      x.prev := d;
      if next != null {
        next.prev := x;
      }
      d.next := x;
      LinkedInsert(nodes, k + 1, x);
      nodes := Inserted(nodes, k + 1, x);
      repr := repr + {x};
    }

    /** Puts a new descriptor in front of `d`, and finds the head again from there. */
    method LinkBefore(d: Descriptor, x: Descriptor, ghost k: nat)
      requires Chain() && k < |nodes| && nodes[k] == d && x !in repr
      modifies this`nodes, this`head, this`repr, repr`prev, repr`next, x`prev, x`next
      ensures Chain() && nodes == Inserted(old(nodes), k, x) && repr == old(repr) + {x}
      ensures x.Value() == old(x.Value())
      ensures forall n | n in old(repr) :: n.Value() == old(n.Value())
    {
      OnlyAt(nodes, k);
      assert d.prev == if k == 0 then null else nodes[k - 1] by { assert nodes[k].prev == d.prev; }
      if k > 0 { OnlyAt(nodes, k - 1); }
      var prev := d.prev;
      x.prev := prev;
      x.next := d;
      if prev != null {
        prev.next := x;
      }
      d.prev := x;
      ghost var at := if k == 0 then 1 else 0;
      LinkedInsert(nodes, k, x);
      nodes := Inserted(nodes, k, x);
      repr := repr + {x};
      UpdateHead(at);
    }

    /** update_head. */
    method UpdateHead(ghost at: nat)
      requires Linked(nodes) && at < |nodes| && nodes[at] == head
      modifies this`head
      ensures head == nodes[0]
    {
      ghost var k: int := at;
      assert nodes[k].prev == if k == 0 then null else nodes[k - 1];
      while head.prev != null
        invariant 0 <= k < |nodes| && nodes[k] == head
        invariant head.prev == if k == 0 then null else nodes[k - 1]
        decreases k
      {
        head := head.prev;
        k := k - 1;
        assert nodes[k].prev == if k == 0 then null else nodes[k - 1];
      }
    }

    // --------------------------------------------------------- searching

    /** The search of identity_map and the mapping copy. */
    method DescriptorAbove(v: nat) returns (d: Descriptor, ghost k: nat)
      requires Chain() && Hold(nodes, regions)
      ensures k == FindAddress(regions, v, 0) && nodes[k] == d
    {
      d, k := head, 0;
      ghost var rs := regions;
      assert nodes[k].next == if k + 1 < |nodes| then nodes[k + 1] else null;
      while d.next != null && d.start + d.size <= v
        invariant k < |nodes| && nodes[k] == d
        invariant d.next == if k + 1 < |nodes| then nodes[k + 1] else null
        invariant FindAddress(rs, v, 0) == FindAddress(rs, v, k)
        decreases |nodes| - k
      {
        assert rs[k] == d.Value();
        d, k := d.next, k + 1;
        assert nodes[k].next == if k + 1 < |nodes| then nodes[k + 1] else null;
      }
      assert rs[k] == d.Value();
    }

    /** The search of memory_map and allocation. */
    method DescriptorWithSpace(size: nat) returns (d: Descriptor, ghost k: nat)
      requires Chain() && Hold(nodes, regions)
      ensures k == FindSpace(regions, size, 0) && nodes[k] == d
    {
      d, k := head, 0;
      ghost var rs := regions;
      assert nodes[k].next == if k + 1 < |nodes| then nodes[k + 1] else null;
      while !(d.size >= size && d.kind.Free?) && d.next != null
        invariant k < |nodes| && nodes[k] == d
        invariant d.next == if k + 1 < |nodes| then nodes[k + 1] else null
        invariant FindSpace(rs, size, 0) == FindSpace(rs, size, k)
        decreases |nodes| - k
      {
        assert rs[k] == d.Value();
        d, k := d.next, k + 1;
        assert nodes[k].next == if k + 1 < |nodes| then nodes[k + 1] else null;
      }
      assert rs[k] == d.Value();
    }

    /** get_vmem_from_address: the region holding the address, if any. */
    method RegionOf(v: nat) returns (d: Descriptor?, ghost k: nat)
      requires Chain()
      ensures d == null ==> forall i | 0 <= i < |nodes| :: !(nodes[i].start <= v < nodes[i].start + nodes[i].size)
      ensures d != null ==> k < |nodes| && nodes[k] == d && d.start <= v < d.start + d.size
    {
      var n := head;
      k := 0;
      assert nodes[k].next == if k + 1 < |nodes| then nodes[k + 1] else null;
      while n.next != null && !(n.start <= v < n.start + n.size)
        invariant k < |nodes| && nodes[k] == n
        invariant n.next == if k + 1 < |nodes| then nodes[k + 1] else null
        invariant forall i | 0 <= i < k :: !(nodes[i].start <= v < nodes[i].start + nodes[i].size)
        decreases |nodes| - k
      {
        n, k := n.next, k + 1;
        assert nodes[k].next == if k + 1 < |nodes| then nodes[k + 1] else null;
      }
      d := if v >= n.start + n.size || v < n.start then null else n;
    }

    // --------------------------------------------------------- cutting

    /** Changes what the descriptor at position `k` covers. */
    method Resize(d: Descriptor, start: nat, size: nat, ghost k: nat)
      requires Chain() && Hold(nodes, regions) && k < |nodes| && nodes[k] == d
      modifies this`regions, d`start, d`size
      ensures Chain() && Hold(nodes, regions)
      ensures d.start == start && d.size == size
      ensures regions == old(regions)[k := d.Value()]
      ensures forall n | n in repr && n != d :: n.Value() == old(n.Value())
    {
      OnlyAt(nodes, k);
      d.start, d.size := start, size;
      regions := regions[k := d.Value()];
    }

    /** Puts a new descriptor at position `k`, behind the node that was there before it. */
    method InsertBehind(d: Descriptor, x: Descriptor, ghost k: nat)
      requires Chain() && Hold(nodes, regions) && k < |nodes| && nodes[k] == d && x !in repr
      modifies this`nodes, this`regions, this`repr, repr`prev, repr`next, x`prev, x`next
      ensures Chain() && Hold(nodes, regions)
      ensures k + 1 < |nodes| && nodes[k] == d && nodes[k + 1] == x
      ensures regions == InsertAt(old(regions), k + 1, x.Value()) && x.Value() == old(x.Value())
      ensures forall n | n in old(repr) :: n.Value() == old(n.Value())
      ensures repr == old(repr) + {x} && forall n | n in old(nodes) :: n in nodes
    {
      ghost var ns, rs := nodes, regions;
      LinkAfter(d, x, k);
      HoldInsert(ns, rs, k + 1, x);
      InsertedMembers(ns, k + 1, x);
      regions := InsertAt(rs, k + 1, x.Value());
    }

    method InsertInFront(d: Descriptor, x: Descriptor, ghost k: nat)
      requires Chain() && Hold(nodes, regions) && k < |nodes| && nodes[k] == d && x !in repr
      modifies this`nodes, this`head, this`regions, this`repr, repr`prev, repr`next, x`prev, x`next
      ensures Chain() && Hold(nodes, regions)
      ensures k + 1 < |nodes| && nodes[k] == x && nodes[k + 1] == d
      ensures regions == InsertAt(old(regions), k, x.Value()) && x.Value() == old(x.Value())
      ensures forall n | n in old(repr) :: n.Value() == old(n.Value())
      ensures repr == old(repr) + {x} && forall n | n in old(nodes) :: n in nodes
    {
      ghost var ns, rs := nodes, regions;
      LinkBefore(d, x, k);
      HoldInsert(ns, rs, k, x);
      InsertedMembers(ns, k, x);
      regions := InsertAt(rs, k, x.Value());
    }

    /** cut_descriptor_start on a region larger than the cut. */
    method CutStart(d: Descriptor, size: nat, ghost k: nat) returns (c: Descriptor)
      requires Chain() && Hold(nodes, regions) && k < |nodes| && nodes[k] == d
      requires d.lower == 0 && d.upper == 0 && size < d.size
      modifies this`nodes, this`regions, this`repr, repr
      ensures Chain() && k < |nodes| && nodes[k] == c == d
      ensures c.Value() == Region(old(d.start), size, 0, 0, old(d.kind))
      ensures regions == Cut(old(regions), k, c.Value()) && Hold(nodes, regions)
      ensures forall n | n in old(repr) && n != d :: n.Value() == old(n.Value())
      ensures old(repr) <= repr && fresh(repr - old(repr)) && forall n | n in old(nodes) :: n in nodes
    {
      assert regions[k] == d.Value();
      ghost var rs, cut := regions, Region(d.start, size, 0, 0, d.kind);
      CutIsInsert(rs, k, cut);
      var x := new Descriptor(d.start + size, d.size - size, d.kind);
      Resize(d, d.start, size, k);
      assert d.Value() == cut;
      InsertBehind(d, x, k);
      assert x.Value() == rs[k].(start := End(cut), size := End(rs[k]) - End(cut));
      assert regions == Cut(rs, k, cut);
      c := d;
    }

    /** The branch of cut_descriptor for a cut at the end. */
    method CutEnd(d: Descriptor, start: nat, size: nat, ghost k: nat) returns (c: Descriptor)
      requires Chain() && Hold(nodes, regions) && k < |nodes| && nodes[k] == d
      requires d.lower == 0 && d.upper == 0 && d.start < start && start + size == d.start + d.size
      modifies this`nodes, this`regions, this`repr, repr
      ensures Chain() && k + 1 < |nodes| && nodes[k + 1] == c && fresh(c)
      ensures c.Value() == Region(start, size, 0, 0, old(d.kind))
      ensures regions == Cut(old(regions), k, c.Value()) && Hold(nodes, regions)
      ensures forall n | n in old(repr) && n != d :: n.Value() == old(n.Value())
      ensures old(repr) <= repr && fresh(repr - old(repr)) && forall n | n in old(nodes) :: n in nodes
    {
      assert regions[k] == d.Value();
      ghost var rs, cut := regions, Region(start, size, 0, 0, d.kind);
      CutIsInsert(rs, k, cut);
      c := new Descriptor(start, size, d.kind);
      Resize(d, d.start, d.size - size, k);
      assert d.Value() == rs[k].(size := cut.start - rs[k].start);
      InsertBehind(d, c, k);
      assert regions == Cut(rs, k, cut);
    }

    /** The branch of cut_descriptor for a cut in the middle, with the two new descriptors. */
    method CutMiddle(d: Descriptor, before: Descriptor, after: Descriptor, start: nat, size: nat, ghost k: nat)
      requires Chain() && Hold(nodes, regions) && k < |nodes| && nodes[k] == d
      requires d.start < start && start + size < d.start + d.size
      requires before !in repr && after !in repr && before != after
      requires before.Value() == d.Value().(size := start - d.start)
      requires after.Value() == d.Value().(start := start + size, size := d.start + d.size - (start + size))
      modifies this`nodes, this`head, this`regions, this`repr, repr, before, after
      ensures Chain() && k + 1 < |nodes| && nodes[k + 1] == d
      ensures d.Value() == old(d.Value()).(start := start, size := size)
      ensures regions == Cut(old(regions), k, d.Value()) && Hold(nodes, regions)
      ensures forall n | n in old(repr) && n != d :: n.Value() == old(n.Value())
      ensures repr == old(repr) + {before} + {after} && forall n | n in old(nodes) :: n in nodes
    {
      ghost var rs, cut := regions, d.Value().(start := start, size := size);
      ghost var b, a := before.Value(), after.Value();
      assert rs[k] == d.Value();
      CutIsTwoInserts(rs, k, cut, b, a);
      Resize(d, start, size, k);
      assert regions == rs[k := cut];
      InsertInFront(d, before, k);
      assert regions == InsertAt(rs[k := cut], k, b);
      InsertBehind(d, after, k + 1);
    }

    /** cut_descriptor: `d` is free and holds the range; the result describes exactly it. */
    method CutDescriptor(d: Descriptor, start: nat, size: nat, ghost k: nat)
      returns (c: Descriptor, ghost j: nat)
      requires Chain() && Hold(nodes, regions) && k < |nodes| && nodes[k] == d
      requires d.lower == 0 && d.upper == 0 && Holds(d.Value(), start, size)
      modifies this`nodes, this`head, this`regions, this`repr, repr
      ensures Chain() && j < |nodes| && nodes[j] == c && (c == d || fresh(c))
      ensures j == k + |Before(old(d.Value()), start)|
      ensures c.Value() == Region(start, size, 0, 0, old(d.kind))
      ensures regions == Cut(old(regions), k, c.Value()) && Hold(nodes, regions)
      ensures forall n | n in old(repr) && n != d :: n.Value() == old(n.Value())
      ensures old(repr) <= repr && fresh(repr - old(repr)) && forall n | n in old(nodes) :: n in nodes
    {
      ghost var rs := regions;
      assert rs[k] == d.Value();
      j := k;
      if d.start == start && d.size == size {
        c := d;
        UpdateIsCut(rs, k, d.Value());
        regions := Cut(rs, k, d.Value());
      } else if d.start == start {
        c := CutStart(d, size, k);
      } else if d.start + d.size == start + size {
        c := CutEnd(d, start, size, k);
        j := k + 1;
      } else {
        var before := new Descriptor(d.start, start - d.start, d.kind);
        var after := new Descriptor(start + size, d.start + d.size - (start + size), d.kind);
        CutMiddle(d, before, after, start, size, k);
        c := d;
        j := k + 1;
      }
    }

    /** Cuts the range out of `d` and gives it its kind and paddings. */
    method Reserve(d: Descriptor, cut: Region, ghost k: nat) returns (c: Descriptor)
      requires Chain() && Hold(nodes, regions) && k < |nodes| && nodes[k] == d
      requires d.lower == 0 && d.upper == 0 && Holds(d.Value(), cut.start, cut.size)
      modifies this`nodes, this`head, this`regions, this`repr, repr
      ensures Chain() && c in nodes && (c == d || fresh(c)) && c.Value() == cut
      ensures regions == Cut(old(regions), k, cut) && Hold(nodes, regions)
      ensures forall n | n in old(repr) && n != d :: n.Value() == old(n.Value())
      ensures old(repr) <= repr && fresh(repr - old(repr)) && forall n | n in old(nodes) :: n in nodes
    {
      ghost var rs, kind := regions, d.kind;
      assert rs[k] == d.Value();
      ghost var j;
      c, j := CutDescriptor(d, cut.start, cut.size, k);
      CutRelabel(rs, k, c.Value(), cut);
      Relabel(c, cut, j);
    }

    /** Gives the descriptor at position `j` the kind and paddings of `cut`. */
    method Relabel(c: Descriptor, cut: Region, ghost j: nat)
      requires Chain() && Hold(nodes, regions) && j < |nodes| && nodes[j] == c
      requires c.start == cut.start && c.size == cut.size
      modifies this`regions, c`kind, c`lower, c`upper
      ensures Chain() && Hold(nodes, regions) && c.Value() == cut && regions == old(regions)[j := cut]
      ensures forall n | n in repr && n != c :: n.Value() == old(n.Value())
    {
      OnlyAt(nodes, j);
      c.kind, c.lower, c.upper := cut.kind, cut.lower, cut.upper;
      regions := regions[j := cut];
    }

    // --------------------------------------------------------- operations

    /** Regions in use stay on the list and keep their values. */
    twostate predicate HandlesKept(except: Descriptor?)
      reads *
    {
      forall n | n in old(nodes) && !IsFree(old(n.kind)) && n != except :: n in nodes && n.Value() == old(n.Value())
    }

    /** identity_map. */
    method IdentityMap(paddr: nat, size: nat) returns (h: Descriptor?)
      requires Valid() && !locked && paddr != 0 && paddr % PAGE == 0 && size % PAGE == 0
      modifies this`nodes, this`head, this`regions, this`repr, this`pages, this`owned, repr
      ensures Valid() && fresh(repr - old(repr)) && HandlesKept(null)
      ensures (h == null) == VmmRuns.IdentityMap(old(Abstract()), paddr, size).None?
      ensures Some(Abstract()) == if h == null then Some(old(Abstract()))
                                  else VmmRuns.IdentityMap(old(Abstract()), paddr, size)
      ensures h != null ==> h in nodes && h.Value() == Region(paddr, size, 0, 0, Identity)
    {
      ghost var s := Abstract();
      IdentityMapKeepsInv(s, paddr, size);
      var d, k := DescriptorAbove(paddr);
      RegionPlaced(s, k);
      assert regions[k] == d.Value();
      h := null;
      if paddr < d.start || paddr + size > d.start + d.size || !d.kind.IdentityFree? {
        return;
      }
      h := Reserve(d, Region(paddr, size, 0, 0, Identity), k);
    }

    /** copy_memory_mapping_from_paging_structure; `src` is the other paging structure. */
    method CopyMapping(src: map<nat, nat>, vaddr: nat, size: nat) returns (h: Descriptor?)
      requires Valid() && !locked && vaddr % PAGE == 0 && size % PAGE == 0
      modifies this`nodes, this`head, this`regions, this`repr, this`pages, this`owned, repr
      ensures Valid() && fresh(repr - old(repr)) && HandlesKept(null)
      ensures (h == null) == VmmRuns.CopyMapping(old(Abstract()), src, vaddr, size).None?
      ensures Some(Abstract()) == if h == null then Some(old(Abstract()))
                                  else VmmRuns.CopyMapping(old(Abstract()), src, vaddr, size)
      ensures h != null ==> h in nodes && h.Value() == Region(vaddr, size, 0, 0, MemoryMapping)
    {
      ghost var s := Abstract();
      CopyMappingKeepsInv(s, src, vaddr, size);
      PagesAligned(s);
      var d, k := DescriptorAbove(vaddr);
      RegionPlaced(s, k);
      assert regions[k] == d.Value();
      h := null;
      if vaddr < d.start || vaddr + size > d.start + d.size || !d.kind.Free? {
        return;
      }
      h := CopyInto(d, src, vaddr, size, k, VmmRuns.CopyMapping(s, src, vaddr, size).value);
    }

    method CopyInto(d: Descriptor, src: map<nat, nat>, vaddr: nat, size: nat, ghost k: nat, ghost t: State)
      returns (c: Descriptor)
      requires Chain() && Hold(nodes, regions) && k < |nodes| && nodes[k] == d && IsFree(d.kind)
      requires d.lower == 0 && d.upper == 0 && Holds(d.Value(), vaddr, size) && Holds(regions[k], vaddr, size)
      requires vaddr % PAGE == 0 && size % PAGE == 0 && forall v | v in pages :: v % PAGE == 0
      requires t == State(Cut(regions, k, Region(vaddr, size, 0, 0, MemoryMapping)),
                          Outside(pages, vaddr, vaddr + size) + Within(src, vaddr, vaddr + size), owned)
      modifies this`nodes, this`head, this`regions, this`repr, this`pages, repr
      ensures Chain() && Hold(nodes, regions) && Abstract() == t && fresh(repr - old(repr)) && HandlesKept(null)
      ensures c in nodes && c.Value() == Region(vaddr, size, 0, 0, MemoryMapping)
    {
      c := Reserve(d, Region(vaddr, size, 0, 0, MemoryMapping), k);
      CopyPages(src, vaddr, size);
    }

    /** The copy loop over the pages of the range. */
    method CopyPages(src: map<nat, nat>, vaddr: nat, size: nat)
      requires vaddr % PAGE == 0 && size % PAGE == 0 && forall v | v in pages :: v % PAGE == 0
      modifies this`pages
      ensures pages == Outside(old(pages), vaddr, vaddr + size) + Within(src, vaddr, vaddr + size)
    {
      ghost var m := pages;
      var v := vaddr;
      CopyNothing(m, src, vaddr);
      while v < vaddr + size
        invariant vaddr <= v <= vaddr + size && v % PAGE == 0
        invariant pages == Copied(m, src, vaddr, v)
      {
        CopyStep(m, src, vaddr, v);
        pages := if v in src then pages[v := src[v]] else pages - {v};
        v := v + PAGE;
      }
    }

    /** The mapping loop: one page per frame from `v0` on. */
    method MapFrames(v0: nat, frames: seq<nat>)
      requires v0 % PAGE == 0
      modifies this`pages
      ensures pages == old(pages) + Range(v0, frames)
    {
      var i := 0;
      while i < |frames|
        invariant i <= |frames|
        invariant pages == old(pages) + Range(v0, frames[..i])
      {
        RangeStep(v0, frames, i);
        pages := pages[v0 + i * PAGE := frames[i]];
        i := i + 1;
      }
      assert frames[..i] == frames;
    }

    /** Reserves the region `r` at the start of `d` and maps pages from `v0` on. */
    method ReserveAndMap(d: Descriptor, r: Region, v0: nat, frames: seq<nat>, ghost k: nat, ghost t: State)
      returns (c: Descriptor)
      requires Chain() && Hold(nodes, regions) && k < |nodes| && nodes[k] == d && IsFree(d.kind)
      requires d.lower == 0 && d.upper == 0 && Holds(d.Value(), r.start, r.size) && Holds(regions[k], r.start, r.size)
      requires v0 % PAGE == 0 && t.regions == Cut(regions, k, r) && t.pages == pages + Range(v0, frames)
      modifies this`nodes, this`head, this`regions, this`repr, this`pages, this`owned, repr
      ensures Chain() && Hold(nodes, regions) && Abstract() == t && fresh(repr - old(repr)) && HandlesKept(null)
      ensures c in nodes && c.Value() == r
    {
      c := Reserve(d, r, k);
      MapFrames(v0, frames);
      owned := t.owned;
    }

    /** The part of allocation after its search has found `d`. */
    method AllocateIn(d: Descriptor, kind: Kind, size: nat, upper: nat, lower: nat, frames: seq<nat>, ghost k: nat)
      returns (h: Descriptor)
      requires Valid() && (kind.Free? || Owned(kind)) && k == FindSpace(regions, size + lower + upper, 0) && nodes[k] == d
      requires d.kind.Free? && d.size >= size + lower + upper
      modifies this`nodes, this`head, this`regions, this`repr, this`pages, this`owned, repr
      ensures Chain() && Hold(nodes, regions) && fresh(repr - old(repr)) && HandlesKept(null)
      ensures VmmRuns.Allocate(old(Abstract()), kind, size, upper, lower, frames) == Some(Abstract())
      ensures h in nodes && h.Value() == Region(h.start, size + lower + upper, lower, upper, kind)
    {
      ghost var s := Abstract();
      RegionPlaced(s, k);
      assert regions[k] == d.Value();
      var r := Region(d.start, size + lower + upper, lower, upper, kind);
      var v0 := PageOf(WindowStart(r));
      ghost var t := State(Cut(regions, k, r), pages + Range(v0, frames), owned + Range(v0, frames));
      AllocateIs(s, kind, size, upper, lower, frames, r, t);
      h := ReserveAndMap(d, r, v0, frames, k, t);
    }

    /** Past the check of the kind: the search for room, and the reservation. */
    method AllocateChecked(kind: Kind, size: nat, upper: nat, lower: nat, frames: seq<nat>) returns (h: Descriptor?, shot: nat)
      requires Valid() && !locked && (size + lower + upper) % PAGE == 0 && (kind.Free? || Owned(kind))
      requires |frames| == PagesFor(size) && Fresh(owned, frames)
      modifies this`nodes, this`head, this`regions, this`repr, this`pages, this`owned, repr
      ensures Chain() && Hold(nodes, regions) && fresh(repr - old(repr)) && HandlesKept(null)
      ensures h == null || (Owned(kind) && upper % PAGE == 0 && lower % PAGE == 0) ==> Valid()
      ensures VmmRuns.Allocate(old(Abstract()), kind, size, upper, lower, frames) == if h == null then None else Some(Abstract())
      ensures h == null ==> Abstract() == old(Abstract())
      ensures h != null ==> h in nodes && h.Value() == Region(h.start, size + lower + upper, lower, upper, kind)
      ensures h != null ==> shot == h.start + lower + |frames| * PAGE
    {
      ghost var s := Abstract();
      var total := size + lower + upper;
      h, shot := null, 0;
      var d, k := DescriptorWithSpace(total);
      assert regions[k] == d.Value();
      if !d.kind.Free? || d.size < total {
        AllocateFails(s, kind, size, upper, lower, frames, d.Value());
        return;
      }
      h := AllocateIn(d, kind, size, upper, lower, frames, k);
      AllocateKeeps(s, kind, size, upper, lower, frames, Abstract());
      shot := h.start + h.lower + |frames| * PAGE;
    }

    /** allocate_kernel_virtual_memory, on the frames alloc_frame returns; no handle is the panic.  The manager stays
        valid for the kinds and paddings of `AllocateExact`.  `shot` is the range given to the TLB shootdown, which
        starts where the loop has ended. */
    method Allocate(kind: Kind, size: nat, upper: nat, lower: nat, frames: seq<nat>) returns (h: Descriptor?, shot: nat)
      requires Valid() && !locked && (size + lower + upper) % PAGE == 0
      requires |frames| == PagesFor(size) && Fresh(owned, frames)
      modifies this`nodes, this`head, this`regions, this`repr, this`pages, this`owned, repr
      ensures Chain() && Hold(nodes, regions) && fresh(repr - old(repr)) && HandlesKept(null)
      ensures h == null || (Owned(kind) && upper % PAGE == 0 && lower % PAGE == 0) ==> Valid()
      ensures VmmRuns.Allocate(old(Abstract()), kind, size, upper, lower, frames) == if h == null then None else Some(Abstract())
      ensures h == null ==> Abstract() == old(Abstract())
      ensures h != null ==> h in nodes && h.Value() == Region(h.start, size + lower + upper, lower, upper, kind)
      ensures h != null ==> shot == h.start + lower + |frames| * PAGE
    {
      if kind.IdentityFree? || kind.Identity? || kind.MemoryMapping? {
        return null, 0;
      }
      h, shot := AllocateChecked(kind, size, upper, lower, frames);
    }

    /** memory_map. */
    method MemoryMap(paddr: nat, size: nat) returns (h: Descriptor?, shot: nat)
      requires Valid() && !locked && paddr % PAGE == 0 && size % PAGE == 0
      modifies this`nodes, this`head, this`regions, this`repr, this`pages, this`owned, repr
      ensures Valid() && fresh(repr - old(repr)) && HandlesKept(null)
      ensures (h == null) == VmmRuns.MemoryMap(old(Abstract()), paddr, size).None?
      ensures Some(Abstract()) == if h == null then Some(old(Abstract())) else VmmRuns.MemoryMap(old(Abstract()), paddr, size)
      ensures h != null ==> h in nodes && h.kind.MemoryMapping? && shot == h.start + h.lower
    {
      ghost var s := Abstract();
      var total := size + 2 * MAP_PADDING;
      var d, k := DescriptorWithSpace(total);
      RegionPlaced(s, k);
      assert regions[k] == d.Value();
      h, shot := null, 0;
      if !d.kind.Free? || d.size < total {
        return;
      }
      var r := Region(d.start, total, MAP_PADDING, MAP_PADDING, MemoryMapping);
      MultiplesAddUp(size, MAP_PADDING, MAP_PADDING, d.start);
      var frames := seq(size / PAGE, i => paddr + i * PAGE);
      ghost var t := State(Cut(regions, k, r), pages + Range(WindowStart(r), frames), owned);
      MemoryMapIs(s, paddr, size, frames, r, t);
      assert Inv(t) by {
        MemoryMapKeepsInv(s, paddr, size);
      }
      h := ReserveAndMap(d, r, WindowStart(r), frames, k, t);
      shot := h.start + h.lower;
    }

    /** The rounding at the head of both expansions. */
    static method WholePages(bytes: nat) returns (size: nat)
      ensures size == RoundUp(bytes)
    {
      size := bytes;
      if size % PAGE != 0 {
        size := size + (PAGE - size % PAGE);
      }
    }

    /** Sets the paddings of the descriptor at position `k` and maps the pages gained. */
    method Repad(d: Descriptor, lower: nat, upper: nat, v0: nat, frames: seq<nat>, ghost k: nat, ghost t: State)
      requires Chain() && Hold(nodes, regions) && k < |nodes| && nodes[k] == d && v0 % PAGE == 0
      requires t.regions == regions[k := d.Value().(lower := lower, upper := upper)]
      requires t.pages == pages + Range(v0, frames)
      modifies this`regions, this`pages, this`owned, d`lower, d`upper
      ensures Chain() && Hold(nodes, regions) && Abstract() == t
      ensures d.Value() == old(d.Value()).(lower := lower, upper := upper)
      ensures forall n | n in repr && n != d :: n.Value() == old(n.Value())
    {
      OnlyAt(nodes, k);
      d.lower, d.upper := lower, upper;
      regions := t.regions;
      MapFrames(v0, frames);
      owned := t.owned;
    }

    method GrowTop(d: Descriptor, bytes: nat, frames: seq<nat>, ghost k: nat) returns (ok: bool)
      requires Valid() && k < |nodes| && nodes[k] == d
      requires Fresh(owned, frames) && |frames| * PAGE == RoundUp(bytes)
      modifies this`regions, this`pages, this`owned, d`lower, d`upper
      ensures Valid() && ok == CanExpandTop(old(d.Value()), bytes)
      ensures Padded(old(d.Value())) && WindowEnd(old(d.Value())) % PAGE == 0
      ensures Abstract() == ExpandedTop(old(Abstract()), k, bytes, frames)
      ensures d.Value() == ExpandTop(old(d.Value()), bytes)
      ensures forall n | n in repr && n != d :: n.Value() == old(n.Value())
    {
      ghost var s := Abstract();
      assert regions[k] == d.Value();
      ExpandTopKeepsInv(s, k, bytes, frames);
      var size := WholePages(bytes);
      ok := (d.kind.Heap? || d.kind.Stack? || d.kind.GeneralUse?) && size <= d.upper;
      if ok {
        RegionPlaced(s, k);
        var v0 := d.start + d.lower + (d.size - d.upper - d.lower);
        ExpandTopIs(s, k, bytes, frames, d.Value(), size, v0);
        Repad(d, d.lower, d.upper - size, v0, frames, k, ExpandedTop(s, k, bytes, frames));
      }
    }

    /** _try_expand_vmem_top.  With `useLock`, a refused expansion leaves the lock held. */
    method TryExpandTop(d: Descriptor, bytes: nat, frames: seq<nat>, useLock: bool, ghost k: nat)
      returns (ok: bool, shot: nat)
      requires Valid() && (useLock ==> !locked) && k < |nodes| && nodes[k] == d
      requires Fresh(owned, frames) && |frames| * PAGE == RoundUp(bytes)
      modifies this`regions, this`pages, this`owned, this`locked, d`lower, d`upper
      ensures Valid() && ok == CanExpandTop(old(d.Value()), bytes)
      ensures Padded(old(d.Value())) && WindowEnd(old(d.Value())) % PAGE == 0
      ensures Abstract() == ExpandedTop(old(Abstract()), k, bytes, frames)
      ensures d.Value() == ExpandTop(old(d.Value()), bytes)
      ensures forall n | n in repr && n != d :: n.Value() == old(n.Value())
      ensures locked == (old(locked) || (useLock && !ok))
      ensures ok ==> shot == WindowEnd(old(d.Value())) + RoundUp(bytes)
    {
      ok := GrowTop(d, bytes, frames, k);
      locked := locked || (useLock && !ok);
      RegionPlaced(Abstract(), k);
      assert regions[k] == d.Value();
      shot := d.start + d.size - d.upper;
    }

    method GrowBottom(d: Descriptor, bytes: nat, frames: seq<nat>, ghost k: nat) returns (ok: bool)
      requires Valid() && k < |nodes| && nodes[k] == d
      requires Fresh(owned, frames) && |frames| * PAGE == RoundUp(bytes)
      modifies this`regions, this`pages, this`owned, d`lower, d`upper
      ensures Valid() && ok == CanExpandBottom(old(d.Value()), bytes)
      ensures WindowStart(old(d.Value())) % PAGE == 0
      ensures Abstract() == ExpandedBottom(old(Abstract()), k, bytes, frames)
      ensures d.Value() == ExpandBottom(old(d.Value()), bytes)
      ensures forall n | n in repr && n != d :: n.Value() == old(n.Value())
    {
      ghost var s := Abstract();
      assert regions[k] == d.Value();
      ExpandBottomKeepsInv(s, k, bytes, frames);
      var size := WholePages(bytes);
      ok := (d.kind.Heap? || d.kind.Stack? || d.kind.GeneralUse?) && size <= d.lower;
      if ok {
        RegionPlaced(s, k);
        ExpandBottomIs(s, k, bytes, frames);
        Repad(d, d.lower - size, d.upper, d.start + d.lower - size, frames, k, ExpandedBottom(s, k, bytes, frames));
      }
    }

    /** _try_expand_vmem_bottom. */
    method TryExpandBottom(d: Descriptor, bytes: nat, frames: seq<nat>, useLock: bool, ghost k: nat)
      returns (ok: bool, shot: nat)
      requires Valid() && (useLock ==> !locked) && k < |nodes| && nodes[k] == d
      requires Fresh(owned, frames) && |frames| * PAGE == RoundUp(bytes)
      modifies this`regions, this`pages, this`owned, this`locked, d`lower, d`upper
      ensures Valid() && ok == CanExpandBottom(old(d.Value()), bytes)
      ensures WindowStart(old(d.Value())) % PAGE == 0
      ensures Abstract() == ExpandedBottom(old(Abstract()), k, bytes, frames)
      ensures d.Value() == ExpandBottom(old(d.Value()), bytes)
      ensures forall n | n in repr && n != d :: n.Value() == old(n.Value())
      ensures locked == (old(locked) || (useLock && !ok))
      ensures ok ==> shot == WindowStart(old(d.Value()))
    {
      ok := GrowBottom(d, bytes, frames, k);
      locked := locked || (useLock && !ok);
      RegionPlaced(Abstract(), k);
      assert regions[k] == d.Value();
      shot := d.start + d.lower + RoundUp(bytes);
    }

    // --------------------------------------------------------- deallocation

    /** The unmapping loop over [lo, hi); `freed` are the frames given back to the allocator. */
    method UnmapWindow(lo: nat, hi: nat, giveBack: bool) returns (freed: seq<nat>)
      requires lo <= hi && lo % PAGE == 0 && hi % PAGE == 0 && forall v | v in pages :: v % PAGE == 0
      requires giveBack ==> forall v | v in owned :: v in pages && pages[v] == owned[v]
      requires giveBack ==> forall v | lo <= v < hi && v % PAGE == 0 :: v in owned
      modifies this`pages
      ensures pages == Outside(old(pages), lo, hi)
      ensures giveBack ==> FramesOf(owned, lo, hi, freed)
      ensures !giveBack ==> freed == []
    {
      freed := [];
      var v := lo;
      assert pages == Outside(old(pages), lo, v);
      while v < hi
        invariant lo <= v <= hi && v % PAGE == 0
        invariant pages == Outside(old(pages), lo, v)
        invariant giveBack ==> FramesOf(owned, lo, v, freed)
        invariant !giveBack ==> freed == []
      {
        OutsideStep(old(pages), lo, v);
        if giveBack && v in pages {
          freed := freed + [pages[v]];
        }
        pages := pages - {v};
        v := v + PAGE;
      }
    }

    /** The loop of the merge: how far the run of free regions from `e` on reaches, and its size. */
    method RunEnd(e: Descriptor, ghost j: nat) returns (last: Descriptor?, total: nat, ghost m: nat)
      requires Chain() && Hold(nodes, regions) && j < |nodes| && nodes[j] == e
      ensures j < m <= |nodes| && last == if m < |nodes| then nodes[m] else null
      ensures IsRun(regions, j, m) && total == RunSize(regions, j, m)
      ensures m < |nodes| ==> nodes[m].kind != e.kind
    {
      ghost var rs, ns := regions, nodes;
      m := j + 1;
      total := e.size;
      assert rs[j] == e.Value() && nodes[j].next == if m < |ns| then ns[m] else null;
      last := e.next;
      while last != null && last.kind == e.kind
        invariant j < m <= |ns| && last == (if m < |ns| then ns[m] else null)
        invariant IsRun(rs, j, m) && total == RunSize(rs, j, m)
        decreases |ns| - m
      {
        assert rs[m] == last.Value() && ns[m].next == if m + 1 < |ns| then ns[m + 1] else null;
        total := total + last.size;
        last := last.next;
        m := m + 1;
      }
    }

    /** The merge at the end of deallocation: `e` swallows the regions of its kind behind it. */
    method MergeRun(e: Descriptor, ghost j: nat)
      requires Chain() && Hold(nodes, regions) && j < |nodes| && nodes[j] == e
      modifies this`nodes, this`regions, e`start, e`size, repr`next, repr`prev
      ensures Chain() && Hold(nodes, regions) && regions == MergeFrom(old(regions), j)
      ensures forall n | n in old(nodes) && n.kind != e.kind :: n in nodes
      ensures forall n | n in repr && n != e :: n.Value() == old(n.Value())
    {
      var last, total, m := RunEnd(e, j);
      assert regions[j] == e.Value() && (m < |nodes| ==> regions[m] == nodes[m].Value());
      MergeRunIs(regions, j, m);
      Unlink(e, last, total, j, m);
    }

    /** Marks the descriptor at position `k` free and finds where merging starts. */
    method Release(d: Descriptor, ghost k: nat) returns (e: Descriptor, ghost j: nat)
      requires Chain() && Hold(nodes, regions) && k < |nodes| && nodes[k] == d && !IsFree(d.kind)
      modifies this`regions, d`kind, d`lower, d`upper
      ensures Chain() && Hold(nodes, regions)
      ensures regions == old(regions)[k := Released(old(regions)[k])] && d.Value() == Released(old(d.Value()))
      ensures j == MergePoint(old(regions), k) && j < |nodes| && nodes[j] == e
      ensures e.kind == FreeKind(d.start)
      ensures forall n | n in repr && n != d :: n.Value() == old(n.Value())
    {
      ghost var rs := regions;
      assert rs[k] == d.Value();
      OnlyAt(nodes, k);
      assert d.prev == (if k == 0 then null else nodes[k - 1]) by { assert nodes[k].prev == d.prev; }
      var free := if d.start < IDENTITY_END then IdentityFree else Free;
      d.kind, d.lower, d.upper := free, 0, 0;
      regions := rs[k := Released(rs[k])];
      e, j := d, k;
      if d.prev != null && d.prev.kind == free {
        e, j := d.prev, k - 1;
      }
      assert k > 0 ==> rs[k - 1] == nodes[k - 1].Value();
    }

    /** The part of deallocation that works on the list. */
    method FreeNode(d: Descriptor, ghost k: nat) returns (fault: bool)
      requires Chain() && Hold(nodes, regions) && k < |nodes| && nodes[k] == d && !IsFree(d.kind)
      modifies this`nodes, this`regions, repr
      ensures fault == ReadsPastEnd(old(regions), k)
      ensures !fault ==> Chain() && Hold(nodes, regions) && regions == Deallocated(old(regions), k)
      ensures !fault ==> HandlesKept(d)
    {
      var e, j := Release(d, k);
      assert e.next == (if j + 1 < |nodes| then nodes[j + 1] else null) by { assert nodes[j].next == e.next; }
      fault := e.next == null;
      if !fault {
        MergeRun(e, j);
      }
    }

    /** The part of deallocation that works on the page table. */
    method UnmapRegion(d: Descriptor, ghost k: nat) returns (freed: seq<nat>, end: nat)
      requires Valid() && k < |nodes| && nodes[k] == d
      modifies this`pages, this`owned
      ensures Padded(d.Value()) && end == WindowEnd(d.Value())
      ensures pages == Outside(old(pages), WindowStart(d.Value()), end)
      ensures owned == Outside(old(owned), WindowStart(d.Value()), end)
      ensures if Owned(d.kind) then FramesOf(old(owned), WindowStart(d.Value()), end, freed) else freed == []
    {
      ghost var s := Abstract();
      assert regions[k] == d.Value();
      RegionPlaced(s, k);
      PagesAligned(s);
      WindowAligned(d.Value());
      WindowPages(s, k);
      var lo := d.start + d.lower;
      end := lo + (d.size - d.upper - d.lower);
      freed := UnmapWindow(lo, end, d.kind.Heap? || d.kind.Stack? || d.kind.GeneralUse?);
      owned := Outside(owned, lo, end);
    }

    /** deallocate_kernel_virtual_memory.  `fault` is the read through the null `next` of the
        last region; `freed` are the frames given back; `shot` is the start of the range given to
        the shootdown, where the unmapping loop has ended. */
    method Deallocate(d: Descriptor, ghost k: nat) returns (fault: bool, freed: seq<nat>, shot: nat)
      requires Valid() && !locked && k < |nodes| && nodes[k] == d && !IsFree(d.kind)
      modifies this`nodes, this`regions, this`pages, this`owned, repr
      ensures fault == ReadsPastEnd(old(regions), k)
      ensures Padded(old(d.Value())) && Padded(old(regions)[k])
      ensures !fault ==> Valid() && Abstract() == VmmRuns.Deallocate(old(Abstract()), k) && HandlesKept(d)
      ensures shot == WindowEnd(old(d.Value()))
      ensures if Owned(old(d.kind)) then FramesOf(old(owned), WindowStart(old(d.Value())), shot, freed) else freed == []
    {
      assert regions[k] == d.Value();
      DeallocateKeepsInv(Abstract(), k);
      freed, shot := UnmapRegion(d, k);
      fault := FreeNode(d, k);
    }

    /** Relinks `e` to the node at position `m`, dropping what lies between. */
    method Unlink(e: Descriptor, last: Descriptor?, total: nat, ghost j: nat, ghost m: nat)
      requires Chain() && Hold(nodes, regions) && j < m <= |nodes| && nodes[j] == e
      requires last == if m < |nodes| then nodes[m] else null
      requires IsRun(regions, j, m)
      modifies this`nodes, this`regions, e`start, e`size, repr`next, repr`prev
      ensures Chain() && Hold(nodes, regions)
      ensures regions == Squeezed(old(regions), j, m, total)
      ensures forall n | n in old(nodes) && n.kind != e.kind :: n in nodes
      ensures forall n | n in repr && n != e :: n.Value() == old(n.Value())
    {
      ghost var rs := regions;
      assert forall i | j <= i < m :: nodes[i].Value() == rs[i];
      KeptMembers(nodes, j, m, e.kind);
      Resize(e, e.start, total, j);
      SqueezedIsDrop(rs, j, m, total);
      Relink(e, last, j, m);
    }

    method Relink(e: Descriptor, last: Descriptor?, ghost j: nat, ghost m: nat)
      requires Chain() && Hold(nodes, regions) && j < m <= |nodes| && nodes[j] == e
      requires last == if m < |nodes| then nodes[m] else null
      modifies this`nodes, this`regions, repr`next, repr`prev
      ensures Chain() && Hold(nodes, regions)
      ensures nodes == Dropped(old(nodes), j, m) && regions == old(regions)[..j + 1] + old(regions)[m..]
      ensures forall n | n in repr :: n.Value() == old(n.Value())
    {
      OnlyAt(nodes, j);
      if m < |nodes| { OnlyAt(nodes, m); }
      e.next := last;
      if last != null {
        last.prev := e;
      }
      HoldDrop(nodes, regions, j, m);
      LinkedDrop(nodes, j, m);
      nodes, regions := Dropped(nodes, j, m), regions[..j + 1] + regions[m..];
    }
  }

  /** The nodes without those strictly between positions `j` and `m`. */
  function Dropped(ns: seq<Descriptor>, j: nat, m: nat): seq<Descriptor>
    requires j < m <= |ns|
  {
    ns[..j + 1] + ns[m..]
  }

  /** The list is linked but for the two links that lead past the nodes to be dropped. */
  ghost predicate Bridged(ns: seq<Descriptor>, j: nat, m: nat)
    requires j < m <= |ns|
    reads ns
  {
    && (forall i {:trigger ns[i].prev} | 0 <= i < |ns| && i != m :: ns[i].prev == if i == 0 then null else ns[i - 1])
    && (forall i {:trigger ns[i].next} | 0 <= i < |ns| && i != j :: ns[i].next == if i + 1 < |ns| then ns[i + 1] else null)
    && ns[j].next == (if m < |ns| then ns[m] else null) && (m < |ns| ==> ns[m].prev == ns[j])
  }

  lemma LinkedDrop(ns: seq<Descriptor>, j: nat, m: nat)
    requires j < m <= |ns| && Bridged(ns, j, m)
    ensures Linked(Dropped(ns, j, m))
  {
    var t, gap := Dropped(ns, j, m), m - j - 1;
    forall i {:trigger t[i].prev} | 0 <= i < |t| ensures t[i].prev == if i == 0 then null else t[i - 1] {
      assert t[i] == ns[if i <= j then i else i + gap];
    }
    forall i {:trigger t[i].next} | 0 <= i < |t| ensures t[i].next == if i + 1 < |t| then t[i + 1] else null {
      assert t[i] == ns[if i <= j then i else i + gap];
    }
  }

  lemma HoldDrop(ns: seq<Descriptor>, rs: Regions, j: nat, m: nat)
    requires Hold(ns, rs) && j < m <= |ns|
    ensures Hold(Dropped(ns, j, m), rs[..j + 1] + rs[m..])
  {
  }

  lemma KeptMembers(ns: seq<Descriptor>, j: nat, m: nat, kind: Kind)
    requires j < m <= |ns| && forall i | j < i < m :: ns[i].kind == kind
    ensures forall n | n in ns && n.kind != kind :: n in Dropped(ns, j, m)
  {
    var t := Dropped(ns, j, m);
    forall n | n in ns && n.kind != kind ensures n in t {
      var i :| 0 <= i < |ns| && ns[i] == n;
      assert t[if i <= j then i else i - (m - j - 1)] == n;
    }
  }

  /** The regions with those strictly between `j` and `m` gone and `j` resized. */
  function Squeezed(rs: Regions, j: nat, m: nat, total: nat): Regions
    requires j < m <= |rs|
  {
    rs[..j] + [rs[j].(size := total)] + rs[m..]
  }

  lemma SqueezedIsDrop(rs: Regions, j: nat, m: nat, total: nat)
    requires j < m <= |rs|
    ensures var t := rs[j := rs[j].(size := total)]; Squeezed(rs, j, m, total) == t[..j + 1] + t[m..]
  {
  }

  /** The regions between `j` and `m` all have the kind of `j`. */
  ghost predicate IsRun(rs: Regions, j: nat, m: nat) {
    j < m <= |rs| && forall i | j < i < m :: rs[i].kind == rs[j].kind
  }

  function RunSize(rs: Regions, j: nat, m: nat): nat
    requires j < m <= |rs|
  {
    if m == j + 1 then rs[j].size else RunSize(rs, j, m - 1) + rs[m - 1].size
  }

  lemma {:induction false} MergeRunFrom(rs: Regions, j: nat, m: nat, k: nat)
    requires IsRun(rs, j, m) && (m < |rs| ==> rs[m].kind != rs[j].kind) && j < k <= m
    ensures MergeFrom(Squeezed(rs, j, k, RunSize(rs, j, k)), j) == Squeezed(rs, j, m, RunSize(rs, j, m))
    decreases m - k
  {
    var s := Squeezed(rs, j, k, RunSize(rs, j, k));
    if k < m {
      var s' := Squeezed(rs, j, k + 1, RunSize(rs, j, k + 1));
      assert s' == s[..j] + [s[j].(size := s[j].size + s[j + 1].size)] + s[j + 2..];
      MergeRunFrom(rs, j, m, k + 1);
    }
  }

  /** Merging one region after another is merging the whole run at once. */
  lemma MergeRunIs(rs: Regions, j: nat, m: nat)
    requires IsRun(rs, j, m) && (m < |rs| ==> rs[m].kind != rs[j].kind)
    ensures MergeFrom(rs, j) == Squeezed(rs, j, m, RunSize(rs, j, m))
  {
    MergeRunFrom(rs, j, m, j + 1);
    assert Squeezed(rs, j, j + 1, rs[j].size) == rs;
  }

  lemma OutsideStep(m: map<nat, nat>, lo: nat, v: nat)
    requires lo <= v && v % PAGE == 0 && forall w | w in m :: w % PAGE == 0
    ensures Outside(m, lo, v + PAGE) == Outside(m, lo, v) - {v}
    ensures v in m ==> v in Outside(m, lo, v)
  {
    forall w | w in m && v <= w < v + PAGE ensures w == v {
      PageGap(v, w);
    }
  }

  lemma RangeStep(v0: nat, fs: seq<nat>, i: nat)
    requires v0 % PAGE == 0 && i < |fs|
    ensures Range(v0, fs[..i + 1]) == Range(v0, fs[..i])[v0 + i * PAGE := fs[i]]
  {
    var m, m' := Range(v0, fs[..i]), Range(v0, fs[..i + 1]);
    forall v: nat ensures v in m' <==> v in m || v == v0 + i * PAGE {
      if v in m' && v !in m {
        assert v - v0 == ((v - v0) / PAGE) * PAGE;
      }
    }
  }

  /** `m` with the pages of [lo, hi) taken over from `src`. */
  function Copied(m: map<nat, nat>, src: map<nat, nat>, lo: nat, hi: nat): map<nat, nat> {
    Outside(m, lo, hi) + Within(src, lo, hi)
  }

  lemma CopyNothing(m: map<nat, nat>, src: map<nat, nat>, lo: nat)
    ensures Copied(m, src, lo, lo) == m
  {
  }

  lemma CopyStepAt(m: map<nat, nat>, src: map<nat, nat>, lo: nat, v: nat, w: nat, a: map<nat, nat>, b: map<nat, nat>)
    requires lo <= v && v % PAGE == 0 && w % PAGE == 0
    requires a == Copied(m, src, lo, v + PAGE)
    requires b == if v in src then Copied(m, src, lo, v)[v := src[v]] else Copied(m, src, lo, v) - {v}
    ensures (w in a <==> w in b) && (w in a ==> a[w] == b[w])
  {
    if v <= w < v + PAGE { PageGap(v, w); }
  }

  lemma CopyStep(m: map<nat, nat>, src: map<nat, nat>, lo: nat, v: nat)
    requires lo <= v && v % PAGE == 0 && forall w | w in m :: w % PAGE == 0
    ensures Copied(m, src, lo, v + PAGE) ==
            if v in src then Copied(m, src, lo, v)[v := src[v]] else Copied(m, src, lo, v) - {v}
  {
    var a := Copied(m, src, lo, v + PAGE);
    var b := if v in src then Copied(m, src, lo, v)[v := src[v]] else Copied(m, src, lo, v) - {v};
    forall w: nat | w % PAGE == 0 ensures (w in a <==> w in b) && (w in a ==> a[w] == b[w]) {
      CopyStepAt(m, src, lo, v, w, a, b);
    }
    assert forall w | w in a || w in b :: w % PAGE == 0;
  }

  function InsertAt(rs: Regions, k: nat, r: Region): Regions
    requires k <= |rs|
  {
    rs[..k] + [r] + rs[k..]
  }

  /** Giving the cut region its final kind and paddings. */
  lemma CutRelabel(rs: Regions, k: nat, bare: Region, cut: Region)
    requires k < |rs| && Holds(rs[k], cut.start, cut.size)
    requires bare.start == cut.start && bare.size == cut.size
    ensures var j := k + |Before(rs[k], cut.start)|;
      j < |Cut(rs, k, bare)| && Cut(rs, k, bare)[j := cut] == Cut(rs, k, cut)
  {
  }

  lemma CutIsTwoInserts(rs: Regions, k: nat, cut: Region, before: Region, after: Region)
    requires k < |rs| && rs[k].start < cut.start && End(cut) < End(rs[k])
    requires before == rs[k].(size := cut.start - rs[k].start)
    requires after == rs[k].(start := End(cut), size := End(rs[k]) - End(cut))
    ensures Cut(rs, k, cut) == InsertAt(InsertAt(rs[k := cut], k, before), k + 2, after)
  {
    assert Before(rs[k], cut.start) + [cut] + After(rs[k], End(cut)) == [before, cut, after];
  }

  /** A cut, seen as resizing the region in place and inserting the remainders. */
  lemma CutIsInsert(rs: Regions, k: nat, cut: Region)
    requires k < |rs| && Holds(rs[k], cut.start, cut.size)
    requires cut.start == rs[k].start || End(cut) == End(rs[k])
    ensures var r := rs[k];
      var before := r.(size := cut.start - r.start);
      var after := r.(start := End(cut), size := End(r) - End(cut));
      Cut(rs, k, cut) ==
        if cut.start == r.start then
          (if End(cut) == End(r) then rs[k := cut] else InsertAt(rs[k := cut], k + 1, after))
        else InsertAt(rs[k := before], k + 1, cut)
  {
    var r := rs[k];
    var before := r.(size := cut.start - r.start);
    var after := r.(start := End(cut), size := End(r) - End(cut));
    if cut.start == r.start {
      if End(cut) == End(r) {
        assert Before(r, cut.start) + [cut] + After(r, End(cut)) == [cut];
      } else {
        assert Before(r, cut.start) + [cut] + After(r, End(cut)) == [cut, after];
      }
    } else {
      assert Before(r, cut.start) + [cut] + After(r, End(cut)) == [before, cut];
    }
  }
}

/** The paging operations on tables updated in place, proved against the flat map of `PageTables`
    (kernel/HAL/x86-64/x64-memory.c). */
module Paging {
  import opened PageTables
  import opened TableAccess

  // ----------------------------------------------------------- entries as the operations see them

  /** PagingMapState. */
  datatype MapState = MapState(paddr: bv64, flags: bv64, present: bool)

  /** The entry paging_map writes. */
  function MapEntry(p: bv64, flags: bv16): bv64 {
    (p & 0x0000_ffff_ffff_f000) | (((flags | 1) & 0xfff) as bv64)
  }

  /** The entry invalidate_paging_mapping leaves. */
  function Absent(e: bv64): bv64 {
    e & 0xffff_ffff_ffff_fffe
  }

  /** The entry a range copy writes for a source entry. */
  function CopyEntry(e: bv64, flags: bv64): bv64 {
    if flags == 0 then e else (e & 0x0000_ffff_ffff_f000) | flags
  }

  /** The address with bits 63 to 48 set where bit 47 is. */
  function Canonical(a: bv64): bv64 {
    if a & 0x8000_0000_0000 != 0 then a | 0xffff_0000_0000_0000 else a
  }

  /** What get_physical_address reports for an entry. */
  function Decode(e: bv64): MapState {
    MapState(Canonical(e & 0x0000_ffff_ffff_f000), e & 0xfff, e & 1 != 0)
  }

  lemma NothingDecodes()
    ensures Decode(0) == MapState(0, 0, false)
  {
  }

  /** The translation of an address, as get_physical_address reports it. */
  function Translation(mem: Memory, root: Frame, v: bv64): MapState {
    Decode(Leaf(mem, root, 4, RouteOf(v)))
  }

  lemma EntryParts(p: bv64, g: bv64)
    requires g & 0xfff == g
    ensures ((p & 0x0000_ffff_ffff_f000) | g) & 0x0000_ffff_ffff_f000 == p & 0x0000_ffff_ffff_f000
    ensures ((p & 0x0000_ffff_ffff_f000) | g) & 0xfff == g
    ensures ((p & 0x0000_ffff_ffff_f000) | g) & 1 == g & 1
  {
  }

  lemma FlagBits(f: bv16)
    ensures (((f | 1) & 0xfff) as bv64) & 0xfff == ((f | 1) & 0xfff) as bv64
    ensures (((f | 1) & 0xfff) as bv64) & 1 == 1
  {
  }

  lemma CanonicalOnly(p: bv64)
    ensures Canonical(p & 0x0000_ffff_ffff_f000) == p ==>
            && p & 0xfff == 0
            && (p & 0xffff_8000_0000_0000 == 0 || p & 0xffff_8000_0000_0000 == 0xffff_8000_0000_0000)
  {
  }

  lemma CanonicalLow(p: bv64)
    ensures p & 0xfff == 0 && p & 0xffff_8000_0000_0000 == 0 ==> Canonical(p & 0x0000_ffff_ffff_f000) == p
  {
  }

  lemma CanonicalHigh(p: bv64)
    ensures p & 0xfff == 0 && p & 0xffff_8000_0000_0000 == 0xffff_8000_0000_0000 ==> Canonical(p & 0x0000_ffff_ffff_f000) == p
  {
  }

  /** A mapped page comes back present, with its flags, and with its frame exactly when the frame
      is page aligned and bits 63 to 48 repeat bit 47. */
  lemma MapRoundTrip(p: bv64, flags: bv16)
    ensures Decode(MapEntry(p, flags)).present
    ensures Decode(MapEntry(p, flags)).flags == ((flags | 1) & 0xfff) as bv64
    ensures Decode(MapEntry(p, flags)).paddr == p <==>
            && p & 0xfff == 0
            && (p & 0xffff_8000_0000_0000 == 0 || p & 0xffff_8000_0000_0000 == 0xffff_8000_0000_0000)
  {
    FlagBits(flags);
    EntryParts(p, ((flags | 1) & 0xfff) as bv64);
    CanonicalOnly(p);
    CanonicalLow(p);
    CanonicalHigh(p);
  }

  lemma AbsentBits(e: bv64)
    ensures (e & 0xffff_ffff_ffff_fffe) & 0x0000_ffff_ffff_f000 == e & 0x0000_ffff_ffff_f000
    ensures (e & 0xffff_ffff_ffff_fffe) & 0xfff == (e & 0xfff) & 0xffe
    ensures (e & 0xffff_ffff_ffff_fffe) & 1 == 0
  {
  }

  /** Invalidation clears bit 0 and leaves every other bit. */
  lemma AbsentIsExact(e: bv64)
    ensures Absent(e) | (e & 1) == e && Absent(e) & 1 == 0
  {
  }

  /** Invalidation keeps the frame and every flag but the present one. */
  lemma AbsentKeepsFrame(e: bv64)
    ensures !Decode(Absent(e)).present
    ensures Decode(Absent(e)).paddr == Decode(e).paddr
    ensures Decode(Absent(e)).flags == Decode(e).flags & 0xffe
  {
    AbsentBits(e);
  }

  lemma SpilledBits(e: bv64, g: bv64)
    ensures ((e & 0x0000_ffff_ffff_f000) | g) & 0x0000_ffff_ffff_f000 == e & 0x0000_ffff_ffff_f000 <==>
            g & !e & 0x0000_ffff_ffff_f000 == 0
  {
  }

  /** A copy without flags takes the entry as it is. */
  lemma CopyIsPlain(e: bv64)
    ensures CopyEntry(e, 0) == e
  {
  }

  /** One with flags has them all. */
  lemma CopyHasFlags(e: bv64, flags: bv64)
    requires flags != 0
    ensures CopyEntry(e, flags) & flags == flags
  {
  }

  /** Of the entry it has the address bits, and nothing else beside the flags. */
  lemma CopyHasAddress(e: bv64, flags: bv64)
    requires flags != 0
    ensures CopyEntry(e, flags) & !flags == (e & 0x0000_ffff_ffff_f000) & !flags
  {
  }

  /** A copy with new flags keeps the frame of an entry exactly when the flags set no address bit
      that the entry does not already have. */
  lemma CopyKeepsFrame(e: bv64, flags: bv64)
    ensures Target(CopyEntry(e, flags)) == Target(e) <==> flags & !e & 0x0000_ffff_ffff_f000 == 0
  {
    SpilledBits(e, flags);
  }

  // ----------------------------------------------------------- trees and free frames

  /** The frames alloc_frame will hand out, next first: distinct, aligned and in none of the tables. */
  ghost predicate Unused(pool: seq<Frame>, frames: set<Frame>) {
    && (forall f | f in pool :: IsFrame(f.address) && f !in frames)
    && (forall i, j | 0 <= i < j < |pool| :: pool[i] != pool[j])
  }

  ghost function Frames(pool: seq<Frame>): set<Frame> {
    set f | f in pool
  }

  /** Nothing outside `frames` changed. */
  ghost predicate SameElsewhere(mem: Memory, mem': Memory, frames: set<Frame>) {
    forall y {:trigger Same(mem, mem', y)} | y !in frames :: Same(mem, mem', y)
  }

  ghost predicate SameLeaves(mem: Memory, mem': Memory, root: Frame) {
    forall w :: Leaf(mem', root, 4, w) == Leaf(mem, root, 4, w)
  }

  /** Tables and free frames together are conserved, tables are only added, and nothing else changes. */
  ghost predicate Grown(mem: Memory, pool: seq<Frame>, mem': Memory, pool': seq<Frame>, root: Frame) {
    && Tables(mem', root, 4) + Frames(pool') == Tables(mem, root, 4) + Frames(pool)
    && Tables(mem, root, 4) <= Tables(mem', root, 4)
    && SameElsewhere(mem, mem', Tables(mem, root, 4) + Frames(pool))
  }

  /** The first `n` free frames, and no other, have become tables. */
  ghost predicate Took(mem: Memory, pool: seq<Frame>, mem': Memory, pool': seq<Frame>, root: Frame, n: nat) {
    n <= |pool| && pool' == pool[n..] && Tables(mem', root, 4) == Tables(mem, root, 4) + Frames(pool[..n])
  }

  lemma TookNone(mem: Memory, pool: seq<Frame>, root: Frame)
    ensures Took(mem, pool, mem, pool, root, 0)
  {
    assert Frames(pool[..0]) == {};
  }

  lemma TookOne(mem: Memory, pool: seq<Frame>, mem': Memory, root: Frame)
    requires |pool| > 0 && Tables(mem', root, 4) == Tables(mem, root, 4) + {pool[0]}
    ensures Took(mem, pool, mem', pool[1..], root, 1)
  {
    assert pool[..1] == [pool[0]];
    assert Frames(pool[..1]) == {pool[0]};
  }

  lemma TookTwice(mem: Memory, pool: seq<Frame>, mem1: Memory, pool1: seq<Frame>, n1: nat,
                  mem2: Memory, pool2: seq<Frame>, n2: nat, root: Frame)
    requires Took(mem, pool, mem1, pool1, root, n1) && Took(mem1, pool1, mem2, pool2, root, n2)
    ensures Took(mem, pool, mem2, pool2, root, n1 + n2)
  {
    assert pool[..n1 + n2] == pool[..n1] + pool1[..n2];
    assert Frames(pool[..n1 + n2]) == Frames(pool[..n1]) + Frames(pool1[..n2]);
  }

  /** A table just added has nothing below it. */
  lemma MissingBelow(mem: Memory, f: Frame, k: nat, v: Route)
    requires 1 <= k <= 4 && f in mem && mem[f] == Cleared()
    ensures Missing(mem, f, k, v) == k - 1
  {
    EmptyTable(mem, f, k);
    assert Entry(mem, f, Index(v, k)) == 0;
  }

  /** A tree none of whose tables changed. */
  lemma Untouched(mem: Memory, mem': Memory, frames: set<Frame>, root: Frame)
    requires SameElsewhere(mem, mem', frames) && Tables(mem, root, 4) !! frames && Tree(mem, root, 4)
    ensures Tree(mem', root, 4) && Tables(mem', root, 4) == Tables(mem, root, 4) && SameLeaves(mem, mem', root)
    ensures KeepsOpen(mem, mem', root)
  {
    FrameTables(mem, mem', root, 4);
    FrameTree(mem, mem', root, 4);
    if Open(mem, root, 4) {
      FrameOpen(mem, mem', root, 4);
    }
    forall w ensures Leaf(mem', root, 4, w) == Leaf(mem, root, 4, w) {
      FrameLeaf(mem, mem', root, 4, w);
    }
  }

  /** Where the path ends, the entry is the flat map's. */
  lemma {:induction false} LeafAtEnd(mem: Memory, t: Frame, level: nat, v: Route)
    requires 1 <= level <= 4 && PathTo(mem, t, level, v, 1)
    ensures Leaf(mem, t, level, v) == Entry(mem, TableAt(mem, t, level, v, 1), v.pt)
    decreases level
  {
    if level > 1 {
      LeafAtEnd(mem, Child(mem, t, Index(v, level)), level - 1, v);
    }
  }

  /** Where a table is missing, the flat map holds nothing. */
  lemma {:induction false} LeafBroken(mem: Memory, t: Frame, level: nat, v: Route, k: nat)
    requires 1 < k <= level <= 4 && PathTo(mem, t, level, v, k)
    requires !HasChild(mem, TableAt(mem, t, level, v, k), k, Index(v, k))
    ensures Leaf(mem, t, level, v) == 0
    decreases level
  {
    if k < level {
      LeafBroken(mem, Child(mem, t, Index(v, level)), level - 1, v, k);
    }
  }

  /** Following one entry of a path. */
  lemma {:induction false} PathFurther(mem: Memory, t: Frame, level: nat, v: Route, k: nat)
    requires 1 < k <= level <= 4 && PathTo(mem, t, level, v, k)
    requires HasChild(mem, TableAt(mem, t, level, v, k), k, Index(v, k))
    ensures PathTo(mem, t, level, v, k - 1)
    ensures TableAt(mem, t, level, v, k - 1) == Child(mem, TableAt(mem, t, level, v, k), Index(v, k))
    decreases level
  {
    if k < level {
      PathFurther(mem, Child(mem, t, Index(v, level)), level - 1, v, k);
    }
  }

  /** Creating a table from the next free frame keeps everything but that frame and one entry. */
  lemma AddedGrows(mem: Memory, pool: seq<Frame>, root: Frame, v: Route, k: nat, x: Frame, f: Frame, mem': Memory, pool': seq<Frame>)
    requires 1 < k <= 4 && Tree(mem, root, 4) && Unused(pool, Tables(mem, root, 4)) && PathTo(mem, root, 4, v, k)
    requires x == TableAt(mem, root, 4, v, k) && x in mem && |mem[x]| == ENTRIES && x in Tables(mem, root, 4)
    requires !HasChild(mem, x, k, Index(v, k)) && |pool| > 0 && f == pool[0] && pool' == pool[1..]
    requires mem' == WithTable(mem, x, Index(v, k), f)
    ensures Tree(mem', root, 4) && Unused(pool', Tables(mem', root, 4)) && Tables(mem', root, 4) == Tables(mem, root, 4) + {f}
    ensures Grown(mem, pool, mem', pool', root) && SameLeaves(mem, mem', root) && KeepsOpen(mem, mem', root)
    ensures PathTo(mem', root, 4, v, k - 1) && TableAt(mem', root, 4, v, k - 1) == f
  {
    assert TableAdded(mem, root, 4, v, k, x, f, mem');
    AddTable(mem, root, 4, v, k, x, f, mem');
    if Open(mem, root, 4) {
      AddTableOpen(mem, root, 4, v, k, x, f, mem');
    }
    AddTablePath(mem, root, 4, v, k, x, f, mem');
    AddedLeaves(mem, root, v, k, x, f, mem');
    DrawnFrom(pool, Tables(mem, root, 4));
    WithTableElsewhere(mem, x, Index(v, k), f, Tables(mem, root, 4) + Frames(pool));
  }

  lemma WithTableElsewhere(mem: Memory, x: Frame, i: nat, f: Frame, frames: set<Frame>)
    requires x in mem && i < |mem[x]| && f != x && x in frames && f in frames
    ensures SameElsewhere(mem, WithTable(mem, x, i, f), frames)
  {
  }

  lemma AddedChild(mem: Memory, x: Frame, i: nat, f: Frame)
    requires x in mem && i < |mem[x]| && f != x && IsFrame(f.address)
    ensures var mem' := WithTable(mem, x, i, f); x in mem' && |mem'[x]| == |mem[x]| && Child(mem', x, i) == f
  {
    WithTableEntry(mem, x, i, f, i);
    TableEntryTarget(f.address);
  }

  lemma AddedLeaves(mem: Memory, root: Frame, v: Route, k: nat, x: Frame, f: Frame, mem': Memory)
    requires 1 < k <= 4 && Tree(mem, root, 4) && TableAdded(mem, root, 4, v, k, x, f, mem')
    ensures SameLeaves(mem, mem', root)
  {
    forall w ensures Leaf(mem', root, 4, w) == Leaf(mem, root, 4, w) {
      AddTableLeaf(mem, root, 4, v, k, x, f, mem', w);
    }
  }

  /** Drawing the first free frame into a set of tables. */
  lemma DrawnFrom(pool: seq<Frame>, frames: set<Frame>)
    requires |pool| > 0 && Unused(pool, frames)
    ensures Unused(pool[1..], frames + {pool[0]}) && frames + {pool[0]} + Frames(pool[1..]) == frames + Frames(pool)
  {
    assert pool == [pool[0]] + pool[1..];
  }

  lemma GrownTwice(mem: Memory, pool: seq<Frame>, mem1: Memory, pool1: seq<Frame>, mem2: Memory, pool2: seq<Frame>, root: Frame)
    requires Grown(mem, pool, mem1, pool1, root) && SameLeaves(mem, mem1, root)
    requires Grown(mem1, pool1, mem2, pool2, root) && SameLeaves(mem1, mem2, root)
    ensures Grown(mem, pool, mem2, pool2, root) && SameLeaves(mem, mem2, root)
  {
    ElsewhereTwice(mem, mem1, mem2, Tables(mem, root, 4) + Frames(pool));
  }

  lemma ElsewhereTwice(mem: Memory, mem1: Memory, mem2: Memory, frames: set<Frame>)
    requires SameElsewhere(mem, mem1, frames) && SameElsewhere(mem1, mem2, frames)
    ensures SameElsewhere(mem, mem2, frames)
  {
    forall y | y !in frames ensures Same(mem, mem2, y) {
      assert Same(mem, mem1, y) && Same(mem1, mem2, y);
    }
  }

  /** A path filled in with the first `n` free frames. */
  ghost predicate Filled(mem: Memory, pool: seq<Frame>, mem': Memory, pool': seq<Frame>, root: Frame, n: nat) {
    && Grown(mem, pool, mem', pool', root) && SameLeaves(mem, mem', root) && Took(mem, pool, mem', pool', root, n)
    && KeepsOpen(mem, mem', root)
  }

  lemma FilledTwice(mem: Memory, pool: seq<Frame>, mem1: Memory, pool1: seq<Frame>, n1: nat,
                    mem2: Memory, pool2: seq<Frame>, n2: nat, root: Frame)
    requires Filled(mem, pool, mem1, pool1, root, n1) && Filled(mem1, pool1, mem2, pool2, root, n2)
    ensures Filled(mem, pool, mem2, pool2, root, n1 + n2)
  {
    GrownTwice(mem, pool, mem1, pool1, mem2, pool2, root);
    TookTwice(mem, pool, mem1, pool1, n1, mem2, pool2, n2, root);
  }

  /** The flat map is `mem`'s but for the one route, which now holds `e`. */
  ghost predicate Rewritten(mem: Memory, mem': Memory, root: Frame, v: Route, e: bv64) {
    forall w :: Leaf(mem', root, 4, w) == if w == v then e else Leaf(mem, root, 4, w)
  }

  /** The same over addresses: the page of `v` holds `e`, every other page what it held. */
  ghost predicate PageWritten(mem: Memory, mem': Memory, root: Frame, v: bv64, e: bv64) {
    forall w :: WrittenAt(mem, mem', root, v, e, w)
  }

  ghost predicate WrittenAt(mem: Memory, mem': Memory, root: Frame, v: bv64, e: bv64, w: bv64) {
    Leaf(mem', root, 4, RouteOf(w)) == if SamePage(v, w) then e else Leaf(mem, root, 4, RouteOf(w))
  }

  lemma LeafRewritten(mem: Memory, mem': Memory, root: Frame, v: Route, e: bv64, x: Frame)
    requires Tree(mem, root, 4) && LeafWritten(mem, root, 4, v, e, x, mem')
    ensures Rewritten(mem, mem', root, v, e)
  {
    forall w ensures Leaf(mem', root, 4, w) == if w == v then e else Leaf(mem, root, 4, w) {
      WriteLeafAt(mem, root, 4, v, e, x, mem', w);
      WholePath(v, w);
    }
  }

  lemma SetEntryElsewhere(mem: Memory, t: Frame, i: nat, e: bv64, frames: set<Frame>)
    requires t in mem && i < |mem[t]| && t in frames
    ensures SameElsewhere(mem, SetEntry(mem, t, i, e), frames)
  {
  }

  lemma StoredGrows(mem: Memory, pool: seq<Frame>, mem1: Memory, mem2: Memory, pool1: seq<Frame>, root: Frame)
    requires Grown(mem, pool, mem1, pool1, root) && Tables(mem2, root, 4) == Tables(mem1, root, 4)
    requires SameElsewhere(mem1, mem2, Tables(mem1, root, 4))
    ensures Grown(mem, pool, mem2, pool1, root)
  {
    ElsewhereTwice(mem, mem1, mem2, Tables(mem, root, 4) + Frames(pool));
  }

  lemma OnRoute(mem: Memory, mem1: Memory, mem2: Memory, root: Frame, v: Route, e: bv64, w: Route)
    requires SameLeaves(mem, mem1, root) && Rewritten(mem1, mem2, root, v, e)
    ensures Leaf(mem2, root, 4, w) == if v == w then e else Leaf(mem, root, 4, w)
  {
    assert Leaf(mem1, root, 4, w) == Leaf(mem, root, 4, w);
  }

  lemma OnPageAt(mem: Memory, mem1: Memory, mem2: Memory, root: Frame, v: bv64, e: bv64, w: bv64)
    requires SameLeaves(mem, mem1, root) && Rewritten(mem1, mem2, root, RouteOf(v), e)
    ensures WrittenAt(mem, mem2, root, v, e, w)
  {
    SameRoute(v, w);
    OnRoute(mem, mem1, mem2, root, RouteOf(v), e, RouteOf(w));
  }

  lemma OnPage(mem: Memory, mem1: Memory, mem2: Memory, root: Frame, v: bv64, e: bv64)
    requires SameLeaves(mem, mem1, root) && Rewritten(mem1, mem2, root, RouteOf(v), e)
    ensures PageWritten(mem, mem2, root, v, e)
  {
    forall w ensures WrittenAt(mem, mem2, root, v, e, w) {
      OnPageAt(mem, mem1, mem2, root, v, e, w);
    }
  }

  lemma MapEntryBits(p: bv64, flags: bv16)
    ensures MapEntry(p, flags) & 3 == 3 <==> flags & 2 != 0
  {
  }

  /** Nothing above bit 47 gets into a mapped entry, and between there and the flags nothing but the frame. */
  lemma MapEntryHigh(p: bv64, flags: bv16)
    ensures MapEntry(p, flags) & 0xffff_0000_0000_0000 == 0
    ensures MapEntry(p, flags) & 0x0000_ffff_ffff_f000 == p & 0x0000_ffff_ffff_f000
  {
  }

  /** In an open structure a page just mapped can be written to exactly when its flags say so. */
  lemma MappedWritable(mem: Memory, mem': Memory, root: Frame, v: bv64, p: bv64, flags: bv16)
    requires PageWritten(mem, mem', root, v, MapEntry(p, flags)) && KeepsOpen(mem, mem', root)
    ensures Open(mem, root, 4) ==> (WritablePath(mem', root, 4, RouteOf(v)) <==> flags & 2 != 0)
  {
    assert WrittenAt(mem, mem', root, v, MapEntry(p, flags), v);
    MapEntryBits(p, flags);
    if Open(mem, root, 4) {
      OpenPath(mem', root, 4, RouteOf(v));
    }
  }

  lemma NoneBelow(mem: Memory, t: Frame)
    ensures forall n {:trigger Below(mem, t, 1, n)} :: Below(mem, t, 1, n) == {}
  {
  }

  lemma AtFront(t: Frame, pool: seq<Frame>)
    ensures multiset([t] + pool) == multiset(pool) + multiset{t}
  {
  }

  lemma SizesAdd(a: set<Frame>, b: set<Frame>, c: set<Frame>)
    requires a !! b && c == a + b
    ensures |c| == |a| + |b| && multiset(c) == multiset(a) + multiset(b)
  {
  }

  lemma BelowSplits(mem: Memory, t: Frame, level: nat, n: nat)
    requires level > 0 && Tree(mem, t, level) && n < ENTRIES
    ensures Below(mem, t, level, n + 1) == Below(mem, t, level, n) + Under(mem, t, level, n)
    ensures Below(mem, t, level, n) !! Under(mem, t, level, n)
  {
    var low, high, more := Below(mem, t, level, n), Under(mem, t, level, n), Below(mem, t, level, n + 1);
    forall x | x in more ensures x in low + high {
      var i := BelowSource(mem, t, level, n + 1, x);
    }
    forall x | x in low ensures x in more && x !in high {
      var i := BelowSource(mem, t, level, n, x);
    }
  }

  /** The subtrees of a tree are disjoint, so sizes and multisets add up. */
  lemma BelowNext(mem: Memory, t: Frame, level: nat, n: nat)
    requires level > 0 && Tree(mem, t, level) && n < ENTRIES
    ensures |Below(mem, t, level, n + 1)| == |Below(mem, t, level, n)| + |Under(mem, t, level, n)|
    ensures multiset(Below(mem, t, level, n + 1)) == multiset(Below(mem, t, level, n)) + multiset(Under(mem, t, level, n))
  {
    BelowSplits(mem, t, level, n);
    SizesAdd(Below(mem, t, level, n), Under(mem, t, level, n), Below(mem, t, level, n + 1));
  }

  lemma NotBelow(mem: Memory, t: Frame, level: nat)
    requires level > 0 && Tree(mem, t, level)
    ensures t !in Below(mem, t, level, ENTRIES)
    ensures |Tables(mem, t, level)| == 1 + |Below(mem, t, level, ENTRIES)|
    ensures multiset(Tables(mem, t, level)) == multiset{t} + multiset(Below(mem, t, level, ENTRIES))
  {
    if t in Below(mem, t, level, ENTRIES) {
      var i := BelowSource(mem, t, level, ENTRIES, t);
    }
  }

  /** Growing one tree leaves another alone. */
  lemma GrownOther(mem: Memory, pool: seq<Frame>, mem': Memory, pool': seq<Frame>, root: Frame, other: Frame)
    requires Grown(mem, pool, mem', pool', root) && Unused(pool', Tables(mem', root, 4))
    requires Tree(mem, other, 4) && Unused(pool, Tables(mem, other, 4)) && Tables(mem, other, 4) !! Tables(mem, root, 4)
    ensures Tree(mem', other, 4) && Tables(mem', other, 4) == Tables(mem, other, 4) && SameLeaves(mem, mem', other)
    ensures KeepsOpen(mem, mem', other)
    ensures Unused(pool', Tables(mem', other, 4)) && Tables(mem', other, 4) !! Tables(mem', root, 4)
  {
    Untouched(mem, mem', Tables(mem, root, 4) + Frames(pool), other);
    forall f | f in pool' ensures f !in Tables(mem, other, 4) {
      assert f in Tables(mem, root, 4) + Frames(pool);
    }
  }

  lemma GrownOtherMissing(mem: Memory, pool: seq<Frame>, mem': Memory, pool': seq<Frame>, root: Frame, other: Frame, v: Route)
    requires Grown(mem, pool, mem', pool', root)
    requires Unused(pool, Tables(mem, other, 4)) && Tables(mem, other, 4) !! Tables(mem, root, 4)
    ensures Missing(mem', other, 4, v) == Missing(mem, other, 4, v)
  {
    FrameMissing(mem, mem', other, 4, v);
  }

  /** The number of tables missing on the path of an address. */
  function Lacks(mem: Memory, root: Frame, v: bv64): nat {
    Missing(mem, root, 4, RouteOf(v))
  }

  /** Two structures filled in, one after the other, with the frames that come first. */
  ghost predicate TookBoth(mem: Memory, pool: seq<Frame>, mem': Memory, pool': seq<Frame>, src: Frame, dst: Frame, ns: nat, nd: nat) {
    && ns + nd <= |pool| && pool' == pool[ns + nd..]
    && Tables(mem', src, 4) == Tables(mem, src, 4) + Frames(pool[..ns])
    && Tables(mem', dst, 4) == Tables(mem, dst, 4) + Frames(pool[ns..ns + nd])
  }

  lemma TookInTurn(mem: Memory, pool: seq<Frame>, mem1: Memory, pool1: seq<Frame>, mem2: Memory, pool2: seq<Frame>,
                   src: Frame, dst: Frame, ns: nat, nd: nat)
    requires Took(mem, pool, mem1, pool1, src, ns) && Took(mem1, pool1, mem2, pool2, dst, nd)
    requires Tables(mem1, dst, 4) == Tables(mem, dst, 4) && Tables(mem2, src, 4) == Tables(mem1, src, 4)
    ensures TookBoth(mem, pool, mem2, pool2, src, dst, ns, nd)
  {
    assert pool1[..nd] == pool[ns..ns + nd];
  }

  lemma TookStill(mem: Memory, pool: seq<Frame>, mem1: Memory, mem2: Memory, pool': seq<Frame>,
                  src: Frame, dst: Frame, ns: nat, nd: nat)
    requires TookBoth(mem, pool, mem1, pool', src, dst, ns, nd)
    requires Tables(mem2, src, 4) == Tables(mem1, src, 4) && Tables(mem2, dst, 4) == Tables(mem1, dst, 4)
    ensures TookBoth(mem, pool, mem2, pool', src, dst, ns, nd)
  {
  }

  /** The entry of a path stays where nothing of its tree changed. */
  lemma EntryKept(mem: Memory, mem': Memory, frames: set<Frame>, root: Frame, v: Route, pt: Frame)
    requires Tree(mem, root, 4) && PathTo(mem, root, 4, v, 1) && pt == TableAt(mem, root, 4, v, 1)
    requires SameElsewhere(mem, mem', frames) && Tables(mem, root, 4) !! frames
    ensures pt in mem' && |mem'[pt]| == ENTRIES && mem'[pt][v.pt] == Leaf(mem, root, 4, v)
  {
    TableAtIn(mem, root, 4, v, 1);
    LeafAtEnd(mem, root, 4, v);
    assert Same(mem, mem', pt);
  }

  /** The number of pages a copy of that many bytes visits. */
  function PagesIn(bytes: nat): nat {
    (bytes + 4095) / 4096
  }

  lemma PageCount(bytes: nat, k: nat)
    ensures k == PagesIn(bytes) <==> bytes <= 4096 * k < bytes + 4096
  {
  }

  /** The address of page `k` of a range; addresses wrap. */
  function PageAt(start: bv64, k: nat): bv64 {
    if k == 0 then start else PageAt(start, k - 1) + 0x1000
  }

  /** The pages of a range follow each other 4096 bytes apart, from its start on. */
  lemma PagesFollow(start: bv64, k: nat)
    ensures PageAt(start, 0) == start && PageAt(start, k + 1) == PageAt(start, k) + 4096
  {
  }

  method NextPage(ghost start: bv64, v: bv64, ghost k: nat) returns (next: bv64)
    requires v == PageAt(start, k)
    ensures next == PageAt(start, k + 1)
  {
    next := v + 0x1000;
  }

  /** `w` lies in one of the first `n` pages of the range. */
  ghost predicate Covers(start: bv64, n: nat, w: bv64) {
    exists k :: 0 <= k < n && SamePage(PageAt(start, k), w)
  }

  /** The first `n` pages of the range hold the source's entries; every other page what it held. */
  ghost predicate Copied(mem: Memory, mem': Memory, src: Frame, dst: Frame, start: bv64, n: nat, flags: bv64) {
    forall w :: CopiedAt(mem, mem', src, dst, start, n, flags, w)
  }

  ghost predicate CopiedAt(mem: Memory, mem': Memory, src: Frame, dst: Frame, start: bv64, n: nat, flags: bv64, w: bv64) {
    Leaf(mem', dst, 4, RouteOf(w)) ==
    if Covers(start, n, w) then CopyEntry(Leaf(mem, src, 4, RouteOf(w)), flags) else Leaf(mem, dst, 4, RouteOf(w))
  }

  ghost predicate PageCopied(mem: Memory, mem': Memory, src: Frame, dst: Frame, v: bv64, flags: bv64) {
    PageWritten(mem, mem', dst, v, CopyEntry(Leaf(mem, src, 4, RouteOf(v)), flags))
  }

  lemma NoneCopied(mem: Memory, src: Frame, dst: Frame, start: bv64, flags: bv64)
    ensures Copied(mem, mem, src, dst, start, 0, flags)
  {
    forall w ensures CopiedAt(mem, mem, src, dst, start, 0, flags, w) {
    }
  }

  lemma CoversMore(start: bv64, n: nat, w: bv64)
    ensures Covers(start, n + 1, w) <==> Covers(start, n, w) || SamePage(PageAt(start, n), w)
  {
    if Covers(start, n + 1, w) {
      var k :| 0 <= k < n + 1 && SamePage(PageAt(start, k), w);
    }
    if Covers(start, n, w) {
      var k :| 0 <= k < n && SamePage(PageAt(start, k), w);
      assert 0 <= k < n + 1;
    }
  }

  lemma CopiedMore(mem: Memory, mem1: Memory, mem2: Memory, src: Frame, dst: Frame, start: bv64, n: nat, flags: bv64)
    requires Copied(mem, mem1, src, dst, start, n, flags) && SameLeaves(mem, mem1, src)
    requires PageCopied(mem1, mem2, src, dst, PageAt(start, n), flags)
    ensures Copied(mem, mem2, src, dst, start, n + 1, flags)
  {
    var v, m := PageAt(start, n), n + 1;
    forall w ensures CopiedAt(mem, mem2, src, dst, start, m, flags, w) {
      CoversMore(start, n, w);
      SameRoute(v, w);
      assert CopiedAt(mem, mem1, src, dst, start, n, flags, w);
      assert WrittenAt(mem1, mem2, dst, v, CopyEntry(Leaf(mem1, src, 4, RouteOf(v)), flags), w);
      assert Leaf(mem1, src, 4, RouteOf(v)) == Leaf(mem, src, 4, RouteOf(v));
    }
  }

  /** `root` has a table under each of its first `i` entries, maps nothing, and holds `i + 1` frames. */
  ghost predicate Blank(mem: Memory, root: Frame, i: nat) {
    && |Tables(mem, root, 4)| == i + 1
    && (forall j | 0 <= j < ENTRIES :: HasChild(mem, root, 4, j) <==> j < i)
    && (forall w :: Leaf(mem, root, 4, w) == 0)
  }

  lemma BlankGrows(mem: Memory, root: Frame, i: nat, f: Frame, mem': Memory)
    requires Tree(mem, root, 4) && Blank(mem, root, i) && i < ENTRIES && f != root && f !in Tables(mem, root, 4)
    requires IsFrame(f.address) && mem' == WithTable(mem, root, i, f)
    ensures Blank(mem', root, i + 1)
  {
    assert !HasChild(mem, root, 4, i);
    AddChild(mem, root, 4, i, f, mem');
    forall j | 0 <= j < ENTRIES ensures HasChild(mem', root, 4, j) <==> j < i + 1 {
      BlankEntry(mem, root, i, f, j);
    }
    forall w ensures Leaf(mem', root, 4, w) == 0 {
      AddChildLeaf(mem, root, 4, i, f, mem', w);
    }
  }

  lemma BlankEntry(mem: Memory, root: Frame, i: nat, f: Frame, j: nat)
    requires root in mem && i < |mem[root]| && f != root && IsFrame(f.address)
    ensures HasChild(WithTable(mem, root, i, f), root, 4, j) <==> j == i || HasChild(mem, root, 4, j)
  {
    WithTableEntry(mem, root, i, f, j);
    TableEntryTarget(f.address);
  }

  class PagingMemory {
    var mem: Memory
    var pool: seq<Frame>

    /** `root` is a tree and the free frames are none of its tables. */
    ghost predicate Ready(root: Frame)
      reads this
    {
      Tree(mem, root, 4) && Unused(pool, Tables(mem, root, 4))
    }

    /** The block that finds the next table on the path, creating it where it is missing. */
    method NextTable(root: Frame, v: Route, k: nat, x: Frame) returns (ok: bool, child: Frame, ghost n: nat)
      requires 1 < k <= 4 && Ready(root) && PathTo(mem, root, 4, v, k) && x == TableAt(mem, root, 4, v, k)
      modifies this
      ensures Ready(root) && Filled(old(mem), old(pool), mem, pool, root, n)
      ensures ok ==> PathTo(mem, root, 4, v, k - 1) && child == TableAt(mem, root, 4, v, k - 1)
      ensures ok ==> old(Missing(mem, x, k, v)) == n + Missing(mem, child, k - 1, v)
      ensures !ok ==> old(Missing(mem, x, k, v)) > 0 && pool == [] && mem == old(mem) && pool == old(pool)
    {
      TableAtIn(mem, root, 4, v, k);
      TookNone(mem, pool, root);
      ok, child, n := true, x, 0;
      if !IsPresent(mem[x][Index(v, k)]) {
        if pool == [] {
          ok := false;
          return;
        }
        var f := pool[0];
        AddTo(root, v, k, x, f);
        n := 1;
      } else {
        PathFurther(mem, root, 4, v, k);
      }
      child := Frame(Target(mem[x][Index(v, k)]));
    }

    method AddTo(root: Frame, v: Route, k: nat, x: Frame, f: Frame)
      requires 1 < k <= 4 && Ready(root) && PathTo(mem, root, 4, v, k) && x == TableAt(mem, root, 4, v, k)
      requires x in mem && |mem[x]| == ENTRIES && x in Tables(mem, root, 4) && !HasChild(mem, x, k, Index(v, k))
      requires |pool| > 0 && f == pool[0]
      modifies this
      ensures Ready(root) && Grown(old(mem), old(pool), mem, pool, root) && SameLeaves(old(mem), mem, root)
      ensures KeepsOpen(old(mem), mem, root)
      ensures PathTo(mem, root, 4, v, k - 1) && TableAt(mem, root, 4, v, k - 1) == f
      ensures x in mem && |mem[x]| == ENTRIES && Child(mem, x, Index(v, k)) == f
      ensures Took(old(mem), old(pool), mem, pool, root, 1) && Missing(mem, f, k - 1, v) == k - 2
    {
      pool := pool[1..];
      mem := WithTable(mem, x, Index(v, k), f);
      AddedGrows(old(mem), old(pool), root, v, k, x, f, mem, pool);
      AddedChild(old(mem), x, Index(v, k), f);
      TookOne(old(mem), old(pool), mem, root);
      MissingBelow(mem, f, k - 1, v);
    }

    /** The same block, on a path already filled in so far since memory was `was`. */
    method Further(root: Frame, v: Route, k: nat, x: Frame, ghost was: Memory, ghost free: seq<Frame>, ghost taken: nat)
      returns (ok: bool, child: Frame, ghost n: nat)
      requires 1 < k <= 4 && Ready(root) && PathTo(mem, root, 4, v, k) && x == TableAt(mem, root, 4, v, k)
      requires Filled(was, free, mem, pool, root, taken)
      modifies this
      ensures Ready(root) && Filled(was, free, mem, pool, root, n)
      ensures ok ==> PathTo(mem, root, 4, v, k - 1) && child == TableAt(mem, root, 4, v, k - 1)
      ensures ok ==> taken + old(Missing(mem, x, k, v)) == n + Missing(mem, child, k - 1, v)
      ensures !ok ==> pool == [] && |free| < taken + old(Missing(mem, x, k, v))
    {
      ok, child, n := NextTable(root, v, k, x);
      FilledTwice(was, free, old(mem), old(pool), taken, mem, pool, n, root);
      n := taken + n;
    }

    /** unsync_get_page_table_entry: the page table of an address, its path filled in with exactly the tables missing. */
    method GetEntry(root: Frame, v: Route) returns (ok: bool, pt: Frame, ghost n: nat)
      requires Ready(root)
      modifies this
      ensures Ready(root) && Filled(old(mem), old(pool), mem, pool, root, n)
      ensures ok ==> PathTo(mem, root, 4, v, 1) && pt == TableAt(mem, root, 4, v, 1) && n == old(Missing(mem, root, 4, v))
      ensures !ok ==> pool == [] && |old(pool)| < old(Missing(mem, root, 4, v))
    {
      ok, pt, n := NextTable(root, v, 4, root);
      if !ok { return; }
      ok, pt, n := Further(root, v, 3, pt, old(mem), old(pool), n);
      if !ok { return; }
      ok, pt, n := Further(root, v, 2, pt, old(mem), old(pool), n);
    }

    /** Writing the entry found. */
    method Store(root: Frame, v: Route, pt: Frame, e: bv64)
      requires Ready(root) && PathTo(mem, root, 4, v, 1) && pt == TableAt(mem, root, 4, v, 1)
      modifies `mem
      ensures Ready(root) && Tables(mem, root, 4) == old(Tables(mem, root, 4))
      ensures Rewritten(old(mem), mem, root, v, e) && SameElsewhere(old(mem), mem, old(Tables(mem, root, 4)))
      ensures KeepsOpen(old(mem), mem, root)
    {
      TableAtIn(mem, root, 4, v, 1);
      mem := SetEntry(mem, pt, v.pt, e);
      ghost var was := old(mem);
      assert LeafWritten(was, root, 4, v, e, pt, mem);
      WriteLeaf(was, root, 4, v, e, pt, mem);
      if Open(was, root, 4) {
        WriteLeafOpen(was, root, 4, v, e, pt, mem);
      }
      LeafRewritten(was, mem, root, v, e, pt);
      SetEntryElsewhere(was, pt, v.pt, e, Tables(was, root, 4));
    }

    /** paging_map: the page of `v` maps to `p` with the flags and the present bit, and no other page changes. */
    method Map(root: Frame, v: bv64, p: bv64, flags: bv16) returns (ok: bool)
      requires Ready(root)
      modifies this
      ensures Ready(root) && Grown(old(mem), old(pool), mem, pool, root) && KeepsOpen(old(mem), mem, root)
      ensures ok ==> PageWritten(old(mem), mem, root, v, MapEntry(p, flags))
      ensures ok && old(Open(mem, root, 4)) ==> (WritablePath(mem, root, 4, RouteOf(v)) <==> flags & 2 != 0)
      ensures ok ==> Took(old(mem), old(pool), mem, pool, root, old(Missing(mem, root, 4, RouteOf(v))))
      ensures !ok ==> pool == [] && SameLeaves(old(mem), mem, root) && |old(pool)| < old(Missing(mem, root, 4, RouteOf(v)))
    {
      var pt;
      ghost var n;
      ok, pt, n := GetEntry(root, RouteOf(v));
      if ok {
        ghost var mem1 := mem;
        Store(root, RouteOf(v), pt, MapEntry(p, flags));
        StoredGrows(old(mem), old(pool), mem1, mem, pool, root);
        OnPage(old(mem), mem1, mem, root, v, MapEntry(p, flags));
        MappedWritable(old(mem), mem, root, v, p, flags);
      }
    }

    /** invalidate_paging_mapping: only the present bit of the page of `v` is cleared. */
    method Invalidate(root: Frame, v: bv64) returns (ok: bool)
      requires Ready(root)
      modifies this
      ensures Ready(root) && Grown(old(mem), old(pool), mem, pool, root) && KeepsOpen(old(mem), mem, root)
      ensures ok ==> PageWritten(old(mem), mem, root, v, Absent(old(Leaf(mem, root, 4, RouteOf(v)))))
      ensures ok ==> Took(old(mem), old(pool), mem, pool, root, old(Missing(mem, root, 4, RouteOf(v))))
      ensures !ok ==> pool == [] && SameLeaves(old(mem), mem, root) && |old(pool)| < old(Missing(mem, root, 4, RouteOf(v)))
    {
      var pt;
      ghost var n;
      ok, pt, n := GetEntry(root, RouteOf(v));
      if ok {
        ghost var mem1 := mem;
        TableAtIn(mem, root, 4, RouteOf(v), 1);
        LeafAtEnd(mem, root, 4, RouteOf(v));
        var e := Absent(mem[pt][RouteOf(v).pt]);
        Store(root, RouteOf(v), pt, e);
        StoredGrows(old(mem), old(pool), mem1, mem, pool, root);
        OnPage(old(mem), mem1, mem, root, v, e);
      }
    }

    /** One step of the read-only walk. */
    method Follow(root: Frame, r: Route, k: nat, t: Frame) returns (ok: bool, child: Frame)
      requires Tree(mem, root, 4) && 1 < k <= 4 && PathTo(mem, root, 4, r, k) && t == TableAt(mem, root, 4, r, k)
      ensures ok ==> PathTo(mem, root, 4, r, k - 1) && child == TableAt(mem, root, 4, r, k - 1)
      ensures !ok ==> Leaf(mem, root, 4, r) == 0
    {
      TableAtIn(mem, root, 4, r, k);
      ok, child := IsPresent(mem[t][Index(r, k)]), Frame(Target(mem[t][Index(r, k)]));
      if ok {
        PathFurther(mem, root, 4, r, k);
      } else {
        LeafBroken(mem, root, 4, r, k);
      }
    }

    /** The whole walk; a missing table reads as an empty entry. */
    method Walk(root: Frame, r: Route) returns (ok: bool, e: bv64)
      requires Tree(mem, root, 4)
      ensures e == Leaf(mem, root, 4, r) && (!ok ==> e == 0)
    {
      var t;
      e := 0;
      ok, t := Follow(root, r, 4, root);
      if !ok { return; }
      ok, t := Follow(root, r, 3, t);
      if !ok { return; }
      ok, t := Follow(root, r, 2, t);
      if !ok { return; }
      TableAtIn(mem, root, 4, r, 1);
      LeafAtEnd(mem, root, 4, r);
      e := mem[t][r.pt];
    }

    /** get_physical_address: the walk reports the flat map's entry, creating nothing. */
    method GetPhysical(root: Frame, v: bv64) returns (s: MapState)
      requires Tree(mem, root, 4)
      ensures s == Translation(mem, root, v)
    {
      var ok, e := Walk(root, RouteOf(v));
      NothingDecodes();
      s := if ok then Decode(e) else MapState(0, 0, false);
    }

    /** count_map_tables_frames: adds the number of table frames to the counter. */
    method CountTables(t: Frame, level: nat, counter: nat) returns (n: nat)
      requires level == 0 || Tree(mem, t, level)
      ensures n == counter + |Tables(mem, t, level)|
      decreases level
    {
      n := counter;
      if level == 0 {
        return;
      }
      var i := 0;
      while i < 512 && level != 1
        invariant 0 <= i <= ENTRIES && n == counter + |Below(mem, t, level, i)|
      {
        if IsPresent(mem[t][i]) {
          assert HasChild(mem, t, level, i);
          n := CountTables(Frame(Target(mem[t][i])), level - 1, n);
        }
        BelowNext(mem, t, level, i);
        i := i + 1;
      }
      NotBelow(mem, t, level);
      NoneBelow(mem, t);
      n := n + 1;
    }

    /** delete_map_table: every table frame is returned to the allocator exactly once. */
    method DeleteTables(t: Frame, level: nat)
      requires level == 0 || Tree(mem, t, level)
      modifies `pool
      ensures multiset(pool) == multiset(old(pool)) + multiset(Tables(mem, t, level))
      decreases level, 2
    {
      if level == 0 {
        return;
      }
      DeleteBelow(t, level);
      NotBelow(mem, t, level);
      AtFront(t, pool);
      pool := [t] + pool;
    }

    /** Its loop over the entries. */
    method DeleteBelow(t: Frame, level: nat)
      requires level > 0 && Tree(mem, t, level)
      modifies `pool
      ensures multiset(pool) == multiset(old(pool)) + multiset(Below(mem, t, level, ENTRIES))
      decreases level, 1
    {
      var i := 0;
      assert Below(mem, t, level, 0) == {};
      while i < 512 && level != 1
        invariant 0 <= i <= ENTRIES && multiset(pool) == multiset(old(pool)) + multiset(Below(mem, t, level, i))
      {
        DeleteUnder(t, level, i);
        BelowNext(mem, t, level, i);
        i := i + 1;
      }
      NoneBelow(mem, t);
    }

    method DeleteUnder(t: Frame, level: nat, i: nat)
      requires level > 1 && Tree(mem, t, level) && i < ENTRIES
      modifies `pool
      ensures multiset(pool) == multiset(old(pool)) + multiset(Under(mem, t, level, i))
      decreases level, 0
    {
      if IsPresent(mem[t][i]) {
        assert HasChild(mem, t, level, i);
        DeleteTables(Frame(Target(mem[t][i])), level - 1);
      }
    }

    /** create_empty_kernel_paging_structure: a root with all 512 second-level tables present that maps nothing,
        out of frames the allocator held; one more frame holds the structure itself. */
    method NewStructure() returns (ok: bool, root: Frame)
      requires Unused(pool, {})
      modifies this
      ensures ok ==> Ready(root) && Open(mem, root, 4) && Blank(mem, root, 512) && |old(pool)| >= 514 && pool == old(pool)[514..]
      ensures ok ==> Tables(mem, root, 4) + Frames(old(pool)[513..]) == Frames(old(pool)) && old(pool)[513] !in Tables(mem, root, 4)
      ensures ok ==> SameElsewhere(old(mem), mem, Frames(old(pool)))
      ensures !ok ==> |old(pool)| < 514
    {
      ok, root := |pool| > 0, Frame(0);
      if !ok { return; }
      root := pool[0];
      DrawnFrom(pool, {});
      pool, mem := pool[1..], mem[root := Cleared()];
      EmptyTable(mem, root, 4);
      ClearedOpen(mem, root, 4);
      var i := 0;
      while i < 512
        invariant 0 <= i <= 512 && Ready(root) && Open(mem, root, 4) && Blank(mem, root, i) && |old(pool)| > i && pool == old(pool)[i + 1..]
        invariant Tables(mem, root, 4) + Frames(pool) == Frames(old(pool))
        invariant SameElsewhere(old(mem), mem, Frames(old(pool)))
      {
        ok := pool != [];
        if !ok { return; }
        ghost var mem1, pool1 := mem, pool;
        NewChild(root, i);
        ElsewhereTwice(old(mem), mem1, mem, Frames(old(pool)));
        i := i + 1;
      }
      ok := pool != [];
      if ok {
        DrawnFrom(pool, Tables(mem, root, 4));
        assert pool[0] in pool;
        pool := pool[1..];
      }
    }

    method NewChild(root: Frame, i: nat)
      requires Ready(root) && Open(mem, root, 4) && Blank(mem, root, i) && i < ENTRIES && pool != []
      modifies this
      ensures Ready(root) && Open(mem, root, 4) && Blank(mem, root, i + 1) && pool == old(pool[1..])
      ensures Grown(old(mem), old(pool), mem, pool, root)
    {
      var f := pool[0];
      DrawnFrom(pool, Tables(mem, root, 4));
      assert root in Tables(mem, root, 4);
      pool, mem := pool[1..], WithTable(mem, root, i, f);
      AddChild(old(mem), root, 4, i, f, mem);
      AddChildOpen(old(mem), root, 4, i, f, mem);
      WithTableElsewhere(old(mem), root, i, f, Tables(old(mem), root, 4) + Frames(old(pool)));
      BlankGrows(old(mem), root, i, f, mem);
    }

    /** Two trees that share no table. */
    ghost predicate Apart(src: Frame, dst: Frame)
      reads this
    {
      Ready(src) && Ready(dst) && Tables(mem, src, 4) !! Tables(mem, dst, 4)
    }

    /** Both entries of a page, each path filled in with exactly the tables missing. */
    method GetBoth(src: Frame, dst: Frame, r: Route) returns (ok: bool, s: Frame, d: Frame)
      requires Apart(src, dst)
      modifies this
      ensures Apart(src, dst) && SameLeaves(old(mem), mem, src) && SameLeaves(old(mem), mem, dst)
      ensures KeepsOpen(old(mem), mem, src) && KeepsOpen(old(mem), mem, dst)
      ensures ok ==> s in mem && |mem[s]| == ENTRIES && mem[s][r.pt] == Leaf(mem, src, 4, r)
      ensures ok ==> PathTo(mem, dst, 4, r, 1) && d == TableAt(mem, dst, 4, r, 1)
      ensures ok ==> TookBoth(old(mem), old(pool), mem, pool, src, dst, old(Missing(mem, src, 4, r)), old(Missing(mem, dst, 4, r)))
      ensures !ok ==> pool == [] && |old(pool)| < old(Missing(mem, src, 4, r)) + old(Missing(mem, dst, 4, r))
    {
      d := dst;
      ghost var ns, nd;
      ok, s, ns := GetEntry(src, r);
      GrownOther(old(mem), old(pool), mem, pool, src, dst);
      if !ok { return; }
      ghost var mem1, pool1 := mem, pool;
      GrownOtherMissing(old(mem), old(pool), mem, pool, src, dst, r);
      ok, d, nd := GetEntry(dst, r);
      GrownOther(mem1, pool1, mem, pool, dst, src);
      EntryKept(mem1, mem, Tables(mem1, dst, 4) + Frames(pool1), src, r, s);
      TookInTurn(old(mem), old(pool), mem1, pool1, mem, pool, src, dst, ns, nd);
    }

    /** Writing the copied entry, the paths filled in since memory was `was`. */
    method StoreCopy(src: Frame, dst: Frame, v: bv64, s: Frame, d: Frame, flags: bv64,
                     ghost was: Memory, ghost free: seq<Frame>, ghost ns: nat, ghost nd: nat)
      requires TookBoth(was, free, mem, pool, src, dst, ns, nd)
      requires Apart(src, dst) && SameLeaves(was, mem, src) && SameLeaves(was, mem, dst)
      requires s in mem && |mem[s]| == ENTRIES && mem[s][RouteOf(v).pt] == Leaf(mem, src, 4, RouteOf(v))
      requires PathTo(mem, dst, 4, RouteOf(v), 1) && d == TableAt(mem, dst, 4, RouteOf(v), 1)
      modifies `mem
      ensures Apart(src, dst) && SameLeaves(was, mem, src) && PageCopied(was, mem, src, dst, v, flags)
      ensures TookBoth(was, free, mem, pool, src, dst, ns, nd)
      ensures KeepsOpen(old(mem), mem, src) && KeepsOpen(old(mem), mem, dst)
    {
      ghost var mem1 := mem;
      var e := CopyEntry(mem[s][RouteOf(v).pt], flags);
      Store(dst, RouteOf(v), d, e);
      Untouched(mem1, mem, Tables(mem1, dst, 4), src);
      OnPage(was, mem1, mem, dst, v, e);
      TookStill(was, free, mem1, mem, pool, src, dst, ns, nd);
    }

    /** What every round of the copy keeps of the two structures. */
    ghost predicate Intact(was: Memory, src: Frame, dst: Frame)
      reads this
    {
      Apart(src, dst) && SameLeaves(was, mem, src) && KeepsOpen(was, mem, src) && KeepsOpen(was, mem, dst)
    }

    /** One round of the copy. */
    method CopyPage(src: Frame, dst: Frame, v: bv64, flags: bv64) returns (ok: bool)
      requires Apart(src, dst)
      modifies this
      ensures Intact(old(mem), src, dst)
      ensures ok ==> PageCopied(old(mem), mem, src, dst, v, flags)
      ensures ok ==> TookBoth(old(mem), old(pool), mem, pool, src, dst, Lacks(old(mem), src, v), Lacks(old(mem), dst, v))
      ensures !ok ==> pool == [] && SameLeaves(old(mem), mem, dst)
      ensures !ok ==> |old(pool)| < Lacks(old(mem), src, v) + Lacks(old(mem), dst, v)
    {
      var s, d;
      ghost var ns, nd := Lacks(mem, src, v), Lacks(mem, dst, v);
      ok, s, d := GetBoth(src, dst, RouteOf(v));
      if ok {
        StoreCopy(src, dst, v, s, d, flags, old(mem), old(pool), ns, nd);
      }
    }

    method CopyNext(src: Frame, dst: Frame, start: bv64, v: bv64, flags: bv64, ghost k: nat, ghost was: Memory) returns (ok: bool)
      requires Intact(was, src, dst) && Copied(was, mem, src, dst, start, k, flags) && v == PageAt(start, k)
      modifies this
      ensures Intact(was, src, dst)
      ensures if ok then Copied(was, mem, src, dst, start, k + 1, flags) else pool == []
    {
      ok := CopyPage(src, dst, v, flags);
      if ok {
        CopiedMore(was, old(mem), mem, src, dst, start, k, flags);
      }
    }

    method CopyRange(src: Frame, dst: Frame, start: bv64, bytes: nat, flags: bv64) returns (ok: bool, ghost k: nat)
      requires Apart(src, dst)
      modifies this
      ensures Intact(old(mem), src, dst)
      ensures if ok then bytes <= 4096 * k < bytes + 4096 && Copied(old(mem), mem, src, dst, start, k, flags) else pool == []
    {
      var vaddr := start;
      var i: nat := 0;
      k := 0;
      ok := true;
      NoneCopied(mem, src, dst, start, flags);
      while i < bytes
        invariant i == 4096 * k && i < bytes + 4096 && vaddr == PageAt(start, k)
        invariant Intact(old(mem), src, dst) && Copied(old(mem), mem, src, dst, start, k, flags)
      {
        ok := CopyNext(src, dst, start, vaddr, flags, k, old(mem));
        if !ok { return; }
        vaddr := NextPage(start, vaddr, k);
        i, k := i + 4096, k + 1;
      }
    }

    /** copy_paging_structure_mapping_no_page_invalidation: the pages of the range take the source's entries,
        with the new flags if there are any, and no other page of either structure changes. */
    method CopyMapping(src: Frame, dst: Frame, start: bv64, bytes: nat, flags: bv16) returns (ok: bool)
      requires Apart(src, dst)
      modifies this
      ensures Intact(old(mem), src, dst)
      ensures ok ==> Copied(old(mem), mem, src, dst, start, PagesIn(bytes), flags as bv64)
      ensures !ok ==> pool == []
    {
      ghost var k;
      ok, k := CopyRange(src, dst, start, bytes, flags as bv64);
      PageCount(bytes, k);
    }
  }
}

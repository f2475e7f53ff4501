/** The flat map as the processor walks it, and which pages can be written to: the processor refuses a write as soon
    as one entry on the path of the address is not writable (section 4.6 of the Intel SDM volume 3A), so every table
    above the page must hang under a writable entry (kernel/HAL/x86-64/x64-memory.c). */
module TableAccess {
  import opened Basics
  import opened PageTables

  /** One step of a walk: the table an entry leads to, if it is present. */
  function Led(e: bv64): Option<Frame> {
    if e & 1 == 0 then None else Some(Frame(e & 0x0000_ffff_ffff_f000))
  }

  /** The entry a walk from `t` with these indices ends at; an entry that is not present on the way ends it with
      nothing. */
  function WalkedBy(mem: Memory, t: Frame, indices: seq<nat>): bv64
    requires indices != []
    decreases |indices|
  {
    var e := Entry(mem, t, indices[0]);
    if |indices| == 1 then e
    else match Led(e)
      case None => 0
      case Some(u) => WalkedBy(mem, u, indices[1..])
  }

  /** The processor's walk of an address: bits 47 to 39 select an entry of the root, bits 38 to 30 one of the table it
      leads to, bits 29 to 21 and 20 to 12 one of each of the next two. */
  function Walked(mem: Memory, root: Frame, v: bv64): bv64 {
    WalkedBy(mem, root, [((v >> 39) & 0x1ff) as bv9 as nat, ((v >> 30) & 0x1ff) as bv9 as nat,
                         ((v >> 21) & 0x1ff) as bv9 as nat, ((v >> 12) & 0x1ff) as bv9 as nat])
  }

  lemma LedToChild(mem: Memory, t: Frame, level: nat, i: nat)
    requires level > 1
    ensures Led(Entry(mem, t, i)) == if HasChild(mem, t, level, i) then Some(Child(mem, t, i)) else None
  {
  }

  lemma {:induction false} WalkedByRoute(mem: Memory, t: Frame, level: nat, r: Route)
    requires 1 <= level <= 4
    ensures WalkedBy(mem, t, [r.pml4, r.pdpt, r.pdt, r.pt][4 - level..]) == Leaf(mem, t, level, r)
    decreases level
  {
    var indices := [r.pml4, r.pdpt, r.pdt, r.pt][4 - level..];
    assert indices[0] == Index(r, level);
    if level > 1 {
      LedToChild(mem, t, level, indices[0]);
      assert indices[1..] == [r.pml4, r.pdpt, r.pdt, r.pt][4 - (level - 1)..];
      if HasChild(mem, t, level, indices[0]) {
        WalkedByRoute(mem, Child(mem, t, indices[0]), level - 1, r);
      }
    }
  }

  /** The flat map is what the processor sees. */
  lemma WalkIsLeaf(mem: Memory, root: Frame, v: bv64)
    ensures Walked(mem, root, v) == Leaf(mem, root, 4, RouteOf(v))
  {
    var r := RouteOf(v);
    assert [r.pml4, r.pdpt, r.pdt, r.pt][0..] == [r.pml4, r.pdpt, r.pdt, r.pt];
    WalkedByRoute(mem, root, 4, r);
  }

  predicate IsWritable(e: bv64) {
    e & 2 != 0
  }

  /** Every table below `t` hangs under a writable entry. */
  ghost predicate Open(mem: Memory, t: Frame, level: nat)
    decreases level
  {
    forall i | 0 <= i < ENTRIES && HasChild(mem, t, level, i) ::
      IsWritable(Entry(mem, t, i)) && Open(mem, Child(mem, t, i), level - 1)
  }

  /** Every entry on the path of `v`, the leaf's included, is present and writable. */
  predicate WritablePath(mem: Memory, t: Frame, level: nat, v: Route)
    requires 1 <= level <= 4
    decreases level
  {
    var e := Entry(mem, t, Index(v, level));
    e & 3 == 3 && (level > 1 ==> WritablePath(mem, Frame(e & 0x0000_ffff_ffff_f000), level - 1, v))
  }

  lemma BothBits(e: bv64)
    ensures e & 3 == 3 <==> e & 1 != 0 && e & 2 != 0
  {
  }

  /** In such a structure a path is writable exactly when its leaf is present and writable. */
  lemma {:induction false} OpenPath(mem: Memory, t: Frame, level: nat, v: Route)
    requires 1 <= level <= 4 && Open(mem, t, level)
    ensures WritablePath(mem, t, level, v) <==> Leaf(mem, t, level, v) & 3 == 3
    decreases level
  {
    BothBits(Entry(mem, t, Index(v, level)));
    if HasChild(mem, t, level, Index(v, level)) {
      OpenPath(mem, Child(mem, t, Index(v, level)), level - 1, v);
    }
  }

  /** It depends on its own tables only. */
  lemma {:induction false} FrameOpen(mem: Memory, mem': Memory, t: Frame, level: nat)
    requires Agree(mem, mem', Tables(mem, t, level)) && Open(mem, t, level)
    ensures Open(mem', t, level)
    decreases level
  {
    if level > 0 {
      forall i | 0 <= i < ENTRIES
        ensures Entry(mem', t, i) == Entry(mem, t, i)
        ensures HasChild(mem, t, level, i) ==> Open(mem', Child(mem, t, i), level - 1)
      {
        AgreeEntry(mem, mem', t, level, i);
        if HasChild(mem, t, level, i) {
          AgreeChild(mem, mem', t, level, i);
          FrameOpen(mem, mem', Child(mem, t, i), level - 1);
        }
      }
    }
  }

  /** A change confined to the subtree under entry `i`. */
  lemma OpenWithin(mem: Memory, mem': Memory, t: Frame, level: nat, i: nat, x: Frame)
    requires 1 < level <= 4 && Tree(mem, t, level) && Open(mem, t, level) && i < ENTRIES && HasChild(mem, t, level, i)
    requires x in Tables(mem, Child(mem, t, i), level - 1) && AgreeBut(mem, mem', Tables(mem, t, level), x)
    requires Open(mem', Child(mem, t, i), level - 1)
    ensures Open(mem', t, level)
  {
    forall j | 0 <= j < ENTRIES
      ensures Entry(mem', t, j) == Entry(mem, t, j)
      ensures HasChild(mem, t, level, j) ==> Open(mem', Child(mem, t, j), level - 1)
    {
      EntryBut(mem, mem', t, level, i, x, j);
      if j != i && HasChild(mem, t, level, j) {
        SiblingsAgree(mem, mem', t, level, i, x, j);
        FrameOpen(mem, mem', Child(mem, t, j), level - 1);
      }
    }
  }

  /** Writing a leaf entry closes nothing. */
  lemma {:induction false} WriteLeafOpen(mem: Memory, t: Frame, level: nat, v: Route, e: bv64, x: Frame, mem': Memory)
    requires 1 <= level <= 4 && Tree(mem, t, level) && Open(mem, t, level) && LeafWritten(mem, t, level, v, e, x, mem')
    ensures Open(mem', t, level)
    decreases level
  {
    if level > 1 {
      LeafWrittenBelow(mem, t, level, v, e, x, mem');
      WriteLeafOpen(mem, Child(mem, t, Index(v, level)), level - 1, v, e, x, mem');
      OpenWithin(mem, mem', t, level, Index(v, level), x);
    }
  }

  /** A cleared table has nothing below it. */
  lemma ClearedOpen(mem: Memory, f: Frame, level: nat)
    requires f in mem && mem[f] == Cleared()
    ensures Open(mem, f, level)
  {
    forall i | 0 <= i < ENTRIES ensures Entry(mem, f, i) == 0 {
    }
  }

  lemma AddChildOpen(mem: Memory, t: Frame, level: nat, i: nat, f: Frame, mem': Memory)
    requires 1 < level <= 4 && Tree(mem, t, level) && Open(mem, t, level) && i < ENTRIES && !HasChild(mem, t, level, i)
    requires IsFrame(f.address) && f !in Tables(mem, t, level) && f != t && mem' == WithTable(mem, t, i, f)
    ensures Open(mem', t, level)
  {
    forall j | 0 <= j < ENTRIES && HasChild(mem', t, level, j)
      ensures IsWritable(Entry(mem', t, j)) && Open(mem', Child(mem', t, j), level - 1)
    {
      WithTableEntry(mem, t, i, f, j);
      if j == i {
        TableEntryTarget(f.address);
        ClearedOpen(mem', f, level - 1);
      } else {
        AddChildEach(mem, t, level, i, f, mem', j);
        FrameOpen(mem, mem', Child(mem, t, j), level - 1);
      }
    }
  }

  /** Nor does creating a missing table. */
  lemma {:induction false} AddTableOpen(mem: Memory, t: Frame, level: nat, v: Route, k: nat, x: Frame, f: Frame, mem': Memory)
    requires 1 < k <= level <= 4 && Tree(mem, t, level) && Open(mem, t, level)
    requires TableAdded(mem, t, level, v, k, x, f, mem')
    ensures Open(mem', t, level)
    decreases level
  {
    if k == level {
      AddChildOpen(mem, t, level, Index(v, level), f, mem');
    } else {
      TableAddedBelow(mem, t, level, v, k, x, f, mem');
      AddTableOpen(mem, Child(mem, t, Index(v, level)), level - 1, v, k, x, f, mem');
      OpenWithin(mem, mem', t, level, Index(v, level), x);
    }
  }

  /** What an operation on the structure at `root` keeps. */
  ghost predicate KeepsOpen(mem: Memory, mem': Memory, root: Frame) {
    Open(mem, root, 4) ==> Open(mem', root, 4)
  }
}

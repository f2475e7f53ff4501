/** Four-level page tables as a value: a radix tree of 512-entry tables standing for a flat map
    from page to entry (kernel/HAL/x86-64/x64-memory.c; section 4.5 of the Intel SDM volume 3A). */
module PageTables {

  /** A page frame that holds a table, by its physical address. */
  datatype Frame = Frame(address: bv64)

  type Table = seq<bv64>
  type Memory = map<Frame, Table>     // the tables, by their frame

  const ENTRIES: nat := 512

  /** A table filled with zeros. */
  function Cleared(): (t: Table)
    ensures |t| == 512 && forall i | 0 <= i < 512 :: t[i] == 0
  {
    seq(ENTRIES, _ => 0)
  }

  // ----------------------------------------------------------- entries

  // PAGE_PRESENT is 1, PAGE_WRITABLE is 2; bits 47 to 12 hold the physical address.

  predicate IsPresent(e: bv64) {
    e & 1 != 0
  }

  /** The table or frame an entry points to. */
  function Target(e: bv64): bv64 {
    e & 0x0000_ffff_ffff_f000
  }

  /** The entry written for a new table. */
  function TableEntry(frame: bv64): bv64 {
    frame | 1 | 2
  }

  predicate IsFrame(f: bv64) {
    f & 0x0000_ffff_ffff_f000 == f
  }

  /** It leads to the table, and of the twelve flag bits the present and the writable one are set. */
  lemma TableEntryTarget(f: bv64)
    requires IsFrame(f)
    ensures IsPresent(TableEntry(f)) && Target(TableEntry(f)) == f
    ensures TableEntry(f) & 0xfff == 3 && TableEntry(f) & 2 != 0
  {
  }

  type Slot = i: int | 0 <= i < 512

  /** The entry an address selects at each level: PML4, PDPT, PDT and page table. */
  datatype Route = Route(pml4: Slot, pdpt: Slot, pdt: Slot, pt: Slot)

  function Low(b: bv64): Slot {
    (b & 0x1ff) as bv9 as nat
  }

  function RouteOf(v: bv64): Route {
    Route(Low(v >> 39), Low(v >> 30), Low(v >> 21), Low(v >> 12))
  }

  /** Level 4 is the PML4, level 1 the page table. */
  function Index(v: Route, level: nat): Slot
    requires 1 <= level <= 4
  {
    if level == 4 then v.pml4 else if level == 3 then v.pdpt else if level == 2 then v.pdt else v.pt
  }

  /** The two routes agree from `level` down. */
  ghost predicate SamePath(v: Route, w: Route, level: nat)
    requires level <= 4
  {
    forall k | 1 <= k <= level :: Index(v, k) == Index(w, k)
  }

  /** The addresses agree in bits 47 to 12. */
  predicate SamePage(v: bv64, w: bv64) {
    v & 0x0000_ffff_ffff_f000 == w & 0x0000_ffff_ffff_f000
  }

  lemma BitsSamePage(v: bv64, w: bv64)
    ensures v & 0x0000_ffff_ffff_f000 == w & 0x0000_ffff_ffff_f000 <==>
            && (v >> 39) & 0x1ff == (w >> 39) & 0x1ff && (v >> 30) & 0x1ff == (w >> 30) & 0x1ff
            && (v >> 21) & 0x1ff == (w >> 21) & 0x1ff && (v >> 12) & 0x1ff == (w >> 12) & 0x1ff
  {
  }

  lemma SameSlot(a: bv64, b: bv64)
    ensures Low(a) == Low(b) <==> a & 0x1ff == b & 0x1ff
  {
    var x, y := (a & 0x1ff) as bv9, (b & 0x1ff) as bv9;
    assert x == y <==> a & 0x1ff == b & 0x1ff;
  }

  lemma SameSlots(a: bv64, b: bv64, c: bv64, d: bv64, a': bv64, b': bv64, c': bv64, d': bv64)
    ensures (&& Low(a) == Low(a') && Low(b) == Low(b') && Low(c) == Low(c') && Low(d) == Low(d')) <==>
            (&& a & 0x1ff == a' & 0x1ff && b & 0x1ff == b' & 0x1ff && c & 0x1ff == c' & 0x1ff && d & 0x1ff == d' & 0x1ff)
  {
    SameSlot(a, a');
    SameSlot(b, b');
    SameSlot(c, c');
    SameSlot(d, d');
  }

  /** Two addresses take the same route exactly when they lie in one page. */
  lemma SameRoute(v: bv64, w: bv64)
    ensures RouteOf(v) == RouteOf(w) <==> SamePage(v, w)
  {
    BitsSamePage(v, w);
    SameSlots(v >> 39, v >> 30, v >> 21, v >> 12, w >> 39, w >> 30, w >> 21, w >> 12);
  }

  lemma WholePath(v: Route, w: Route)
    ensures SamePath(v, w, 4) <==> v == w
  {
    assert SamePath(v, w, 4) <==>
      Index(v, 4) == Index(w, 4) && Index(v, 3) == Index(w, 3) && Index(v, 2) == Index(w, 2) && Index(v, 1) == Index(w, 1);
  }

  // ----------------------------------------------------------- trees

  function Entry(mem: Memory, t: Frame, i: nat): bv64 {
    if t in mem && i < |mem[t]| then mem[t][i] else 0
  }

  /** Entry `i` of a table at `level` leads to another table. */
  predicate HasChild(mem: Memory, t: Frame, level: nat, i: nat) {
    level > 1 && IsPresent(Entry(mem, t, i))
  }

  function Child(mem: Memory, t: Frame, i: nat): Frame {
    Frame(Target(Entry(mem, t, i)))
  }

  /** The frames of all tables from `t` at `level` down. */
  ghost function Tables(mem: Memory, t: Frame, level: nat): set<Frame>
    decreases level, 2
  {
    if level == 0 then {} else {t} + Below(mem, t, level, ENTRIES)
  }

  /** Those under the first `n` entries of `t`. */
  ghost function Below(mem: Memory, t: Frame, level: nat, n: nat): set<Frame>
    requires level > 0
    decreases level, 1
  {
    set i, x | 0 <= i < n && x in Under(mem, t, level, i) :: x
  }

  /** Those under entry `i` of `t`. */
  ghost function Under(mem: Memory, t: Frame, level: nat, i: nat): set<Frame>
    requires level > 0
    decreases level, 0
  {
    if HasChild(mem, t, level, i) then Tables(mem, Child(mem, t, i), level - 1) else {}
  }

  /** Tables are complete and no frame serves as two of them. */
  ghost predicate Tree(mem: Memory, t: Frame, level: nat)
    requires level > 0
    decreases level, 0
  {
    && t in mem && |mem[t]| == ENTRIES
    && (forall i | 0 <= i < ENTRIES && HasChild(mem, t, level, i) :: Tree(mem, Child(mem, t, i), level - 1))
    && (forall i | 0 <= i < ENTRIES :: t !in Under(mem, t, level, i))
    && (forall i, j | 0 <= i < j < ENTRIES :: Under(mem, t, level, i) !! Under(mem, t, level, j))
  }

  /** The entry the walk from `t` ends at, zero where a table is missing: the flat map. */
  function Leaf(mem: Memory, t: Frame, level: nat, v: Route): bv64
    requires 1 <= level <= 4
    decreases level, 0
  {
    if level == 1 then Entry(mem, t, Index(v, 1))
    else if HasChild(mem, t, level, Index(v, level)) then Leaf(mem, Child(mem, t, Index(v, level)), level - 1, v)
    else 0
  }

  /** How many tables are missing on the path of `v` below `t`. */
  function Missing(mem: Memory, t: Frame, level: nat, v: Route): nat
    requires 1 <= level <= 4
    decreases level, 0
  {
    if level == 1 then 0
    else if HasChild(mem, t, level, Index(v, level)) then Missing(mem, Child(mem, t, Index(v, level)), level - 1, v)
    else level - 1
  }

  /** None is where the walk ends at an entry that is not zero. */
  lemma {:induction false} NoneMissing(mem: Memory, t: Frame, level: nat, v: Route)
    requires 1 <= level <= 4 && Leaf(mem, t, level, v) != 0
    ensures Missing(mem, t, level, v) == 0
    decreases level, 0
  {
    if level > 1 {
      NoneMissing(mem, Child(mem, t, Index(v, level)), level - 1, v);
    }
  }

  lemma BelowMember(mem: Memory, t: Frame, level: nat, n: nat, i: nat)
    requires level > 0 && i < n && HasChild(mem, t, level, i)
    ensures Tables(mem, Child(mem, t, i), level - 1) <= Below(mem, t, level, n)
  {
    assert Under(mem, t, level, i) <= Below(mem, t, level, n);
  }

  lemma BelowSource(mem: Memory, t: Frame, level: nat, n: nat, x: Frame) returns (i: nat)
    requires level > 0 && x in Below(mem, t, level, n)
    ensures i < n && x in Under(mem, t, level, i)
  {
    i :| 0 <= i < n && x in Under(mem, t, level, i);
  }

  lemma BelowWithin(mem: Memory, mem': Memory, t: Frame, level: nat, n: nat)
    requires level > 0 && forall i | 0 <= i < n :: Under(mem, t, level, i) <= Under(mem', t, level, i)
    ensures Below(mem, t, level, n) <= Below(mem', t, level, n)
  {
    forall x | x in Below(mem, t, level, n) ensures x in Below(mem', t, level, n) {
      var i := BelowSource(mem, t, level, n, x);
      assert x in Under(mem', t, level, i);
    }
  }

  predicate Same(mem: Memory, mem': Memory, x: Frame) {
    (x in mem <==> x in mem') && (x in mem ==> mem'[x] == mem[x])
  }

  /** `mem'` has the same tables as `mem` at every frame of the set. */
  ghost predicate Agree(mem: Memory, mem': Memory, frames: set<Frame>) {
    forall x {:trigger Same(mem, mem', x)} | x in frames :: Same(mem, mem', x)
  }

  /** And here at every frame of the set but `x`. */
  ghost predicate AgreeBut(mem: Memory, mem': Memory, frames: set<Frame>, x: Frame) {
    forall y {:trigger Same(mem, mem', y)} | y in frames && y != x :: Same(mem, mem', y)
  }

  lemma AgreeEntry(mem: Memory, mem': Memory, t: Frame, level: nat, i: nat)
    requires level > 0 && Agree(mem, mem', Tables(mem, t, level))
    ensures Entry(mem', t, i) == Entry(mem, t, i)
  {
    assert t in Tables(mem, t, level);
    assert Same(mem, mem', t);
  }

  lemma AgreeChild(mem: Memory, mem': Memory, t: Frame, level: nat, i: nat)
    requires level > 0 && Agree(mem, mem', Tables(mem, t, level)) && i < ENTRIES && HasChild(mem, t, level, i)
    ensures Agree(mem, mem', Tables(mem, Child(mem, t, i), level - 1))
  {
    BelowMember(mem, t, level, ENTRIES, i);
  }

  /** A change at a table `x` under entry `i` is not seen in `t` itself. */
  lemma EntryBut(mem: Memory, mem': Memory, t: Frame, level: nat, i: nat, x: Frame, j: nat)
    requires level > 0 && Tree(mem, t, level) && i < ENTRIES && HasChild(mem, t, level, i)
    requires x in Tables(mem, Child(mem, t, i), level - 1) && AgreeBut(mem, mem', Tables(mem, t, level), x)
    ensures Entry(mem', t, j) == Entry(mem, t, j)
  {
    assert x in Under(mem, t, level, i);
    assert t in Tables(mem, t, level);
    assert Same(mem, mem', t);
  }

  lemma ChildBut(mem: Memory, mem': Memory, t: Frame, level: nat, i: nat, x: Frame)
    requires level > 0 && i < ENTRIES && HasChild(mem, t, level, i) && AgreeBut(mem, mem', Tables(mem, t, level), x)
    ensures AgreeBut(mem, mem', Tables(mem, Child(mem, t, i), level - 1), x)
  {
    BelowMember(mem, t, level, ENTRIES, i);
  }

  /** A subtree depends on its own tables only. */
  lemma {:induction false} FrameTables(mem: Memory, mem': Memory, t: Frame, level: nat)
    requires Agree(mem, mem', Tables(mem, t, level))
    ensures Tables(mem', t, level) == Tables(mem, t, level)
    decreases level, 0
  {
    if level > 0 {
      forall i | 0 <= i < ENTRIES ensures Under(mem', t, level, i) == Under(mem, t, level, i) {
        AgreeEntry(mem, mem', t, level, i);
        if HasChild(mem, t, level, i) {
          AgreeChild(mem, mem', t, level, i);
          FrameTables(mem, mem', Child(mem, t, i), level - 1);
        }
      }
      BelowWithin(mem, mem', t, level, ENTRIES);
      BelowWithin(mem', mem, t, level, ENTRIES);
    }
  }

  lemma {:induction false} FrameLeaf(mem: Memory, mem': Memory, t: Frame, level: nat, v: Route)
    requires 1 <= level <= 4 && Agree(mem, mem', Tables(mem, t, level))
    ensures Leaf(mem', t, level, v) == Leaf(mem, t, level, v)
    decreases level, 0
  {
    var i := Index(v, level);
    AgreeEntry(mem, mem', t, level, i);
    if HasChild(mem, t, level, i) {
      AgreeChild(mem, mem', t, level, i);
      FrameLeaf(mem, mem', Child(mem, t, i), level - 1, v);
    }
  }

  lemma {:induction false} FrameMissing(mem: Memory, mem': Memory, t: Frame, level: nat, v: Route)
    requires 1 <= level <= 4 && Agree(mem, mem', Tables(mem, t, level))
    ensures Missing(mem', t, level, v) == Missing(mem, t, level, v)
    decreases level, 0
  {
    var i := Index(v, level);
    AgreeEntry(mem, mem', t, level, i);
    if HasChild(mem, t, level, i) {
      AgreeChild(mem, mem', t, level, i);
      FrameMissing(mem, mem', Child(mem, t, i), level - 1, v);
    }
  }

  lemma {:induction false} FrameTree(mem: Memory, mem': Memory, t: Frame, level: nat)
    requires 1 <= level && Agree(mem, mem', Tables(mem, t, level)) && Tree(mem, t, level)
    ensures Tree(mem', t, level)
    decreases level, 0
  {
    assert Same(mem, mem', t) by {
      assert t in Tables(mem, t, level);
    }
    forall i | 0 <= i < ENTRIES
      ensures Entry(mem', t, i) == Entry(mem, t, i)
      ensures Under(mem', t, level, i) == Under(mem, t, level, i)
      ensures HasChild(mem, t, level, i) ==> Tree(mem', Child(mem, t, i), level - 1)
    {
      AgreeEntry(mem, mem', t, level, i);
      if HasChild(mem, t, level, i) {
        AgreeChild(mem, mem', t, level, i);
        FrameTables(mem, mem', Child(mem, t, i), level - 1);
        FrameTree(mem, mem', Child(mem, t, i), level - 1);
      }
    }
  }

  // ----------------------------------------------------------- writing entries

  function SetEntry(mem: Memory, t: Frame, i: nat, e: bv64): Memory
    requires t in mem && i < |mem[t]|
  {
    mem[t := mem[t][i := e]]
  }

  lemma SetEntryAgrees(mem: Memory, t: Frame, i: nat, e: bv64, frames: set<Frame>)
    requires t in mem && i < |mem[t]|
    ensures AgreeBut(mem, SetEntry(mem, t, i, e), frames, t)
  {
  }

  lemma EntryWritten(mem: Memory, t: Frame, i: nat, e: bv64, j: nat)
    requires t in mem && i < |mem[t]|
    ensures Entry(SetEntry(mem, t, i, e), t, j) == if i == j then e else Entry(mem, t, j)
  {
  }

  /** The table at level `k` on the path of `v`; the path must be there. */
  function TableAt(mem: Memory, t: Frame, level: nat, v: Route, k: nat): Frame
    requires 1 <= k <= level <= 4
    decreases level, 0
  {
    if k == level then t else TableAt(mem, Child(mem, t, Index(v, level)), level - 1, v, k)
  }

  /** Every table on the path of `v` from `level` down to `k` exists. */
  predicate PathTo(mem: Memory, t: Frame, level: nat, v: Route, k: nat)
    requires 1 <= k <= level <= 4
    decreases level, 0
  {
    k == level ||
    (HasChild(mem, t, level, Index(v, level)) && PathTo(mem, Child(mem, t, Index(v, level)), level - 1, v, k))
  }

  lemma PathStep(mem: Memory, t: Frame, level: nat, v: Route, k: nat)
    requires 1 <= k < level <= 4 && HasChild(mem, t, level, Index(v, level))
    ensures var c := Child(mem, t, Index(v, level));
      && PathTo(mem, t, level, v, k) == PathTo(mem, c, level - 1, v, k)
      && TableAt(mem, t, level, v, k) == TableAt(mem, c, level - 1, v, k)
  {
  }

  lemma {:induction false} TableAtIn(mem: Memory, t: Frame, level: nat, v: Route, k: nat)
    requires 1 <= k <= level <= 4 && Tree(mem, t, level) && PathTo(mem, t, level, v, k)
    ensures TableAt(mem, t, level, v, k) in Tables(mem, t, level)
    ensures Tree(mem, TableAt(mem, t, level, v, k), k)
    decreases level, 0
  {
    if k < level {
      BelowMember(mem, t, level, ENTRIES, Index(v, level));
      TableAtIn(mem, Child(mem, t, Index(v, level)), level - 1, v, k);
    }
  }

  lemma PathDown(mem: Memory, t: Frame, level: nat, v: Route, k: nat)
    requires 1 <= k < level <= 4 && Tree(mem, t, level) && PathTo(mem, t, level, v, k)
    ensures HasChild(mem, t, level, Index(v, level))
    ensures var c := Child(mem, t, Index(v, level));
      && Tree(mem, c, level - 1) && PathTo(mem, c, level - 1, v, k)
      && TableAt(mem, t, level, v, k) == TableAt(mem, c, level - 1, v, k)
      && TableAt(mem, c, level - 1, v, k) in Tables(mem, c, level - 1)
  {
    TableAtIn(mem, Child(mem, t, Index(v, level)), level - 1, v, k);
  }

  /** Writing table `x` of the subtree under entry `i` leaves the subtrees of the others alone. */
  lemma SiblingsAgree(mem: Memory, mem': Memory, t: Frame, level: nat, i: nat, x: Frame, j: nat)
    requires level > 1 && Tree(mem, t, level) && i < ENTRIES && j < ENTRIES && i != j
    requires HasChild(mem, t, level, i) && HasChild(mem, t, level, j)
    requires x in Tables(mem, Child(mem, t, i), level - 1)
    requires AgreeBut(mem, mem', Tables(mem, t, level), x)
    ensures Agree(mem, mem', Tables(mem, Child(mem, t, j), level - 1))
  {
    BelowMember(mem, t, level, ENTRIES, j);
    if i < j {
      assert Under(mem, t, level, i) !! Under(mem, t, level, j);
    } else {
      assert Under(mem, t, level, j) !! Under(mem, t, level, i);
    }
  }

  lemma BelowGrows(mem: Memory, mem': Memory, t: Frame, level: nat, i: nat, extra: set<Frame>)
    requires level > 0 && i < ENTRIES
    requires forall j | 0 <= j < ENTRIES && j != i :: Under(mem', t, level, j) == Under(mem, t, level, j)
    requires Under(mem', t, level, i) == Under(mem, t, level, i) + extra
    ensures Below(mem', t, level, ENTRIES) == Below(mem, t, level, ENTRIES) + extra
  {
    assert extra <= Under(mem', t, level, i) <= Below(mem', t, level, ENTRIES);
    forall x | x in Below(mem', t, level, ENTRIES) ensures x in Below(mem, t, level, ENTRIES) + extra {
      var j := BelowSource(mem', t, level, ENTRIES, x);
      assert x in Under(mem, t, level, j) + extra;
    }
    BelowWithin(mem, mem', t, level, ENTRIES);
  }

  /** What a change confined to the subtree under entry `i` does to entry `j`. */
  lemma ChangeUnderEach(mem: Memory, mem': Memory, t: Frame, level: nat, i: nat, x: Frame, j: nat)
    requires 1 < level <= 4 && Tree(mem, t, level) && i < ENTRIES && HasChild(mem, t, level, i)
    requires x in Tables(mem, Child(mem, t, i), level - 1)
    requires AgreeBut(mem, mem', Tables(mem, t, level), x)
    requires Tree(mem', Child(mem, t, i), level - 1) && j < ENTRIES
    ensures Entry(mem', t, j) == Entry(mem, t, j)
    ensures j != i ==> Under(mem', t, level, j) == Under(mem, t, level, j)
    ensures HasChild(mem, t, level, j) ==> Tree(mem', Child(mem, t, j), level - 1)
    ensures Under(mem, t, level, j) <= Tables(mem, t, level)
  {
    EntryBut(mem, mem', t, level, i, x, j);
    if HasChild(mem, t, level, j) {
      BelowMember(mem, t, level, ENTRIES, j);
      if j != i {
        SiblingsAgree(mem, mem', t, level, i, x, j);
        FrameTables(mem, mem', Child(mem, t, j), level - 1);
        FrameTree(mem, mem', Child(mem, t, j), level - 1);
      }
    }
  }

  /** A change confined to the subtree under entry `i`, which may have gained the tables `extra`. */
  lemma ChangeUnder(mem: Memory, mem': Memory, t: Frame, level: nat, i: nat, x: Frame, extra: set<Frame>)
    requires 1 < level <= 4 && Tree(mem, t, level) && i < ENTRIES && HasChild(mem, t, level, i)
    requires x in Tables(mem, Child(mem, t, i), level - 1)
    requires AgreeBut(mem, mem', Tables(mem, t, level), x)
    requires Tree(mem', Child(mem, t, i), level - 1) && extra !! Tables(mem, t, level)
    requires Tables(mem', Child(mem, t, i), level - 1) == Tables(mem, Child(mem, t, i), level - 1) + extra
    ensures Tree(mem', t, level) && Tables(mem', t, level) == Tables(mem, t, level) + extra
    ensures forall j | 0 <= j < ENTRIES :: Entry(mem', t, j) == Entry(mem, t, j)
  {
    assert Same(mem, mem', t) by {
      assert x in Under(mem, t, level, i);
      assert t in Tables(mem, t, level);
    }
    forall j | 0 <= j < ENTRIES
      ensures Entry(mem', t, j) == Entry(mem, t, j)
      ensures Under(mem', t, level, j) == Under(mem, t, level, j) + if j == i then extra else {}
      ensures HasChild(mem, t, level, j) ==> Tree(mem', Child(mem, t, j), level - 1)
      ensures Under(mem, t, level, j) <= Tables(mem, t, level)
    {
      ChangeUnderEach(mem, mem', t, level, i, x, j);
    }
    BelowGrows(mem, mem', t, level, i, extra);
    TreeGrows(mem, mem', t, level, i, extra);
  }

  /** A change under entry `i` that moves no table. */
  lemma ChangeWithin(mem: Memory, mem': Memory, t: Frame, level: nat, i: nat, x: Frame)
    requires 1 < level <= 4 && Tree(mem, t, level) && i < ENTRIES && HasChild(mem, t, level, i)
    requires x in Tables(mem, Child(mem, t, i), level - 1)
    requires AgreeBut(mem, mem', Tables(mem, t, level), x)
    requires Tree(mem', Child(mem, t, i), level - 1)
    requires Tables(mem', Child(mem, t, i), level - 1) == Tables(mem, Child(mem, t, i), level - 1)
    ensures Tree(mem', t, level) && Tables(mem', t, level) == Tables(mem, t, level)
  {
    var none: set<Frame> := {};
    assert Tables(mem, Child(mem, t, i), level - 1) + none == Tables(mem, Child(mem, t, i), level - 1);
    assert Tables(mem, t, level) + none == Tables(mem, t, level);
    ChangeUnder(mem, mem', t, level, i, x, none);
  }

  /** A change under entry `i` that adds the table `f`. */
  lemma AddWithin(mem: Memory, mem': Memory, t: Frame, level: nat, i: nat, x: Frame, f: Frame)
    requires 1 < level <= 4 && Tree(mem, t, level) && i < ENTRIES && HasChild(mem, t, level, i)
    requires x in Tables(mem, Child(mem, t, i), level - 1)
    requires AgreeBut(mem, mem', Tables(mem, t, level), x)
    requires Tree(mem', Child(mem, t, i), level - 1) && f !in Tables(mem, t, level)
    requires Tables(mem', Child(mem, t, i), level - 1) == Tables(mem, Child(mem, t, i), level - 1) + {f}
    ensures Tree(mem', t, level) && Tables(mem', t, level) == Tables(mem, t, level) + {f}
  {
    ChangeUnder(mem, mem', t, level, i, x, {f});
  }

  lemma TreeGrows(mem: Memory, mem': Memory, t: Frame, level: nat, i: nat, extra: set<Frame>)
    requires level > 0 && Tree(mem, t, level) && i < ENTRIES && extra !! Tables(mem, t, level)
    requires t in mem' && |mem'[t]| == ENTRIES
    requires forall j | 0 <= j < ENTRIES :: HasChild(mem', t, level, j) ==> Tree(mem', Child(mem', t, j), level - 1)
    requires forall j | 0 <= j < ENTRIES ::
               && Under(mem', t, level, j) == Under(mem, t, level, j) + (if j == i then extra else {})
               && Under(mem, t, level, j) <= Tables(mem, t, level)
    ensures Tree(mem', t, level)
  {
    assert t in Tables(mem, t, level);
    forall j, k | 0 <= j < k < ENTRIES ensures Under(mem', t, level, j) !! Under(mem', t, level, k) {
      assert Under(mem, t, level, j) !! Under(mem, t, level, k);
    }
  }

  lemma ChangeUnderLeaf(mem: Memory, mem': Memory, t: Frame, level: nat, i: nat, x: Frame, w: Route)
    requires 1 < level <= 4 && Tree(mem, t, level) && i < ENTRIES && HasChild(mem, t, level, i)
    requires x in Tables(mem, Child(mem, t, i), level - 1)
    requires AgreeBut(mem, mem', Tables(mem, t, level), x)
    ensures Leaf(mem', t, level, w) ==
            if Index(w, level) == i then Leaf(mem', Child(mem, t, i), level - 1, w) else Leaf(mem, t, level, w)
  {
    var j := Index(w, level);
    EntryBut(mem, mem', t, level, i, x, j);
    if j != i && HasChild(mem, t, level, j) {
      SiblingsAgree(mem, mem', t, level, i, x, j);
      FrameLeaf(mem, mem', Child(mem, t, j), level - 1, w);
    }
  }

  // ----------------------------------------------------------- the two kinds of write

  lemma LeafTable(mem: Memory, t: Frame)
    ensures Tables(mem, t, 1) == {t}
    ensures Tree(mem, t, 1) <==> t in mem && |mem[t]| == ENTRIES
  {
  }

  /** `mem'` is `mem` with the leaf entry of `v`, in table `x`, set to `e`. */
  ghost predicate LeafWritten(mem: Memory, t: Frame, level: nat, v: Route, e: bv64, x: Frame, mem': Memory)
    requires 1 <= level <= 4
  {
    && PathTo(mem, t, level, v, 1) && x == TableAt(mem, t, level, v, 1)
    && x in mem && |mem[x]| == ENTRIES && mem' == SetEntry(mem, x, Index(v, 1), e)
  }

  lemma LeafWrittenBelow(mem: Memory, t: Frame, level: nat, v: Route, e: bv64, x: Frame, mem': Memory)
    requires 1 < level <= 4 && Tree(mem, t, level) && LeafWritten(mem, t, level, v, e, x, mem')
    ensures var i := Index(v, level);
      var c := Child(mem, t, i);
      && HasChild(mem, t, level, i) && Tree(mem, c, level - 1)
      && LeafWritten(mem, c, level - 1, v, e, x, mem')
      && x in Tables(mem, c, level - 1)
      && AgreeBut(mem, mem', Tables(mem, t, level), x)
  {
    TableAtIn(mem, Child(mem, t, Index(v, level)), level - 1, v, 1);
    SetEntryAgrees(mem, x, Index(v, 1), e, Tables(mem, t, level));
  }

  /** Writing the leaf entry of `v` keeps the tree and its tables. */
  lemma {:induction false} WriteLeaf(mem: Memory, t: Frame, level: nat, v: Route, e: bv64, x: Frame, mem': Memory)
    requires 1 <= level <= 4 && Tree(mem, t, level) && LeafWritten(mem, t, level, v, e, x, mem')
    ensures Tree(mem', t, level) && Tables(mem', t, level) == Tables(mem, t, level)
    decreases level, 0
  {
    if level == 1 {
      LeafTable(mem, t);
      LeafTable(mem', t);
    } else {
      LeafWrittenBelow(mem, t, level, v, e, x, mem');
      WriteLeaf(mem, Child(mem, t, Index(v, level)), level - 1, v, e, x, mem');
      ChangeWithin(mem, mem', t, level, Index(v, level), x);
    }
  }

  /** And it changes the flat map at the page of `v` only. */
  lemma {:induction false} WriteLeafAt(mem: Memory, t: Frame, level: nat, v: Route, e: bv64, x: Frame, mem': Memory, w: Route)
    requires 1 <= level <= 4 && Tree(mem, t, level) && LeafWritten(mem, t, level, v, e, x, mem')
    ensures Leaf(mem', t, level, w) == if SamePath(v, w, level) then e else Leaf(mem, t, level, w)
    decreases level, 0
  {
    if level == 1 {
      EntryWritten(mem, t, Index(v, 1), e, Index(w, 1));
    } else {
      LeafWrittenBelow(mem, t, level, v, e, x, mem');
      WriteLeafAt(mem, Child(mem, t, Index(v, level)), level - 1, v, e, x, mem', w);
      ChangeUnderLeaf(mem, mem', t, level, Index(v, level), x, w);
      SamePathStep(v, w, level);
    }
  }

  lemma SamePathStep(v: Route, w: Route, level: nat)
    requires 1 < level <= 4
    ensures SamePath(v, w, level) <==> Index(v, level) == Index(w, level) && SamePath(v, w, level - 1)
  {
  }

  // ----------------------------------------------------------- new tables

  /** A cleared frame is a tree of one table that maps nothing. */
  lemma EmptyTable(mem: Memory, f: Frame, level: nat)
    requires 1 <= level <= 4 && f in mem && mem[f] == Cleared()
    ensures Tables(mem, f, level) == {f} && Tree(mem, f, level)
    ensures forall i: nat :: Entry(mem, f, i) == 0
    ensures forall w :: Leaf(mem, f, level, w) == 0
  {
    forall i: nat ensures Entry(mem, f, i) == 0 && Under(mem, f, level, i) == {} {
    }
    assert Below(mem, f, level, ENTRIES) == {};
  }

  /** Memory after a cleared frame `f` is hung under entry `i` of `t`. */
  function WithTable(mem: Memory, t: Frame, i: nat, f: Frame): Memory
    requires t in mem && i < |mem[t]| && f != t
  {
    SetEntry(mem[f := Cleared()], t, i, TableEntry(f.address))
  }

  lemma WithTableAgrees(mem: Memory, t: Frame, i: nat, f: Frame, frames: set<Frame>)
    requires t in mem && i < |mem[t]| && f != t && f !in frames
    ensures AgreeBut(mem, WithTable(mem, t, i, f), frames, t)
  {
  }

  lemma WithTableEntry(mem: Memory, t: Frame, i: nat, f: Frame, j: nat)
    requires t in mem && i < |mem[t]| && f != t
    ensures Entry(WithTable(mem, t, i, f), t, j) == if i == j then TableEntry(f.address) else Entry(mem, t, j)
  {
  }

  /** What hanging `f` under entry `i` does to entry `j`. */
  lemma AddChildEach(mem: Memory, t: Frame, level: nat, i: nat, f: Frame, mem': Memory, j: nat)
    requires 1 < level <= 4 && Tree(mem, t, level) && i < ENTRIES && !HasChild(mem, t, level, i)
    requires IsFrame(f.address) && f !in Tables(mem, t, level) && f != t && mem' == WithTable(mem, t, i, f)
    requires j < ENTRIES
    ensures Under(mem', t, level, j) == Under(mem, t, level, j) + if j == i then {f} else {}
    ensures HasChild(mem', t, level, j) ==> Tree(mem', Child(mem', t, j), level - 1)
    ensures Under(mem, t, level, j) <= Tables(mem, t, level)
    ensures j != i ==> Entry(mem', t, j) == Entry(mem, t, j)
    ensures HasChild(mem, t, level, j) ==> Agree(mem, mem', Tables(mem, Child(mem, t, j), level - 1))
  {
    WithTableEntry(mem, t, i, f, j);
    if j == i {
      TableEntryTarget(f.address);
      EmptyTable(mem', f, level - 1);
    } else if HasChild(mem, t, level, j) {
      var c := Child(mem, t, j);
      BelowMember(mem, t, level, ENTRIES, j);
      WithTableAgrees(mem, t, i, f, Tables(mem, c, level - 1));
      assert t !in Under(mem, t, level, j);
      FrameTables(mem, mem', c, level - 1);
      FrameTree(mem, mem', c, level - 1);
    }
  }

  /** Hanging a fresh cleared frame under an absent entry keeps the tree and adds that one frame. */
  lemma AddChild(mem: Memory, t: Frame, level: nat, i: nat, f: Frame, mem': Memory)
    requires 1 < level <= 4 && Tree(mem, t, level) && i < ENTRIES && !HasChild(mem, t, level, i)
    requires IsFrame(f.address) && f !in Tables(mem, t, level) && f != t && mem' == WithTable(mem, t, i, f)
    ensures Tree(mem', t, level) && Tables(mem', t, level) == Tables(mem, t, level) + {f}
    ensures HasChild(mem', t, level, i) && Child(mem', t, i) == f
  {
    forall j | 0 <= j < ENTRIES
      ensures Under(mem', t, level, j) == Under(mem, t, level, j) + if j == i then {f} else {}
      ensures HasChild(mem', t, level, j) ==> Tree(mem', Child(mem', t, j), level - 1)
      ensures Under(mem, t, level, j) <= Tables(mem, t, level)
    {
      AddChildEach(mem, t, level, i, f, mem', j);
    }
    BelowGrows(mem, mem', t, level, i, {f});
    TreeGrows(mem, mem', t, level, i, {f});
    WithTableEntry(mem, t, i, f, i);
    TableEntryTarget(f.address);
  }

  /** And translates every address as before. */
  lemma AddChildLeaf(mem: Memory, t: Frame, level: nat, i: nat, f: Frame, mem': Memory, w: Route)
    requires 1 < level <= 4 && Tree(mem, t, level) && i < ENTRIES && !HasChild(mem, t, level, i)
    requires IsFrame(f.address) && f !in Tables(mem, t, level) && f != t && mem' == WithTable(mem, t, i, f)
    ensures Leaf(mem', t, level, w) == Leaf(mem, t, level, w)
  {
    var j := Index(w, level);
    WithTableEntry(mem, t, i, f, j);
    if j == i {
      TableEntryTarget(f.address);
      EmptyTable(mem', f, level - 1);
    } else {
      AddChildEach(mem, t, level, i, f, mem', j);
      if HasChild(mem, t, level, j) {
        FrameLeaf(mem, mem', Child(mem, t, j), level - 1, w);
      }
    }
  }

  /** `mem'` is `mem` with a table `f` hung under `x`, the table at level `k` of the path of `v`,
      where there was none. */
  ghost predicate TableAdded(mem: Memory, t: Frame, level: nat, v: Route, k: nat, x: Frame, f: Frame, mem': Memory)
    requires 1 < k <= level <= 4
  {
    && PathTo(mem, t, level, v, k) && x == TableAt(mem, t, level, v, k) && x in mem && |mem[x]| == ENTRIES
    && !HasChild(mem, x, k, Index(v, k))
    && IsFrame(f.address) && f !in Tables(mem, t, level) && f != x && mem' == WithTable(mem, x, Index(v, k), f)
  }

  lemma TableAddedBelow(mem: Memory, t: Frame, level: nat, v: Route, k: nat, x: Frame, f: Frame, mem': Memory)
    requires 1 < k < level <= 4 && Tree(mem, t, level) && TableAdded(mem, t, level, v, k, x, f, mem')
    ensures var i := Index(v, level);
      var c := Child(mem, t, i);
      && HasChild(mem, t, level, i) && Tree(mem, c, level - 1)
      && TableAdded(mem, c, level - 1, v, k, x, f, mem')
      && x in Tables(mem, c, level - 1)
      && AgreeBut(mem, mem', Tables(mem, t, level), x)
  {
    var i := Index(v, level);
    TableAtIn(mem, Child(mem, t, i), level - 1, v, k);
    BelowMember(mem, t, level, ENTRIES, i);
    WithTableAgrees(mem, x, Index(v, k), f, Tables(mem, t, level));
  }

  /** Creating a missing table on the path of `v` keeps the tree and adds one frame. */
  lemma {:induction false} AddTable(mem: Memory, t: Frame, level: nat, v: Route, k: nat, x: Frame, f: Frame, mem': Memory)
    requires 1 < k <= level <= 4 && Tree(mem, t, level) && TableAdded(mem, t, level, v, k, x, f, mem')
    ensures Tree(mem', t, level) && Tables(mem', t, level) == Tables(mem, t, level) + {f}
    decreases level, 0
  {
    if k == level {
      AddChild(mem, t, level, Index(v, level), f, mem');
    } else {
      TableAddedBelow(mem, t, level, v, k, x, f, mem');
      AddTable(mem, Child(mem, t, Index(v, level)), level - 1, v, k, x, f, mem');
      AddWithin(mem, mem', t, level, Index(v, level), x, f);
    }
  }

  /** A change outside `t` leaves the first step of the path where it was. */
  lemma PathAbove(mem: Memory, mem': Memory, t: Frame, level: nat, v: Route, k: nat, x: Frame)
    requires 1 <= k < level <= 4 && Tree(mem, t, level) && HasChild(mem, t, level, Index(v, level))
    requires x in Tables(mem, Child(mem, t, Index(v, level)), level - 1) && AgreeBut(mem, mem', Tables(mem, t, level), x)
    ensures var c := Child(mem, t, Index(v, level));
      && PathTo(mem', t, level, v, k) == PathTo(mem', c, level - 1, v, k)
      && TableAt(mem', t, level, v, k) == TableAt(mem', c, level - 1, v, k)
  {
    EntryBut(mem, mem', t, level, Index(v, level), x, Index(v, level));
    PathStep(mem', t, level, v, k);
  }

  lemma PathLongerHere(mem: Memory, t: Frame, level: nat, v: Route)
    requires 1 < level <= 4 && HasChild(mem, t, level, Index(v, level))
    ensures PathTo(mem, t, level, v, level - 1) && TableAt(mem, t, level, v, level - 1) == Child(mem, t, Index(v, level))
  {
  }

  /** A path whose last table `x` gains the next entry goes one level further. */
  lemma {:induction false} PathLonger(mem: Memory, mem': Memory, t: Frame, level: nat, v: Route, k: nat, x: Frame)
    requires 1 < k < level <= 4 && Tree(mem, t, level) && PathTo(mem, t, level, v, k) && x == TableAt(mem, t, level, v, k)
    requires AgreeBut(mem, mem', Tables(mem, t, level), x) && HasChild(mem', x, k, Index(v, k))
    ensures PathTo(mem', t, level, v, k - 1) && TableAt(mem', t, level, v, k - 1) == Child(mem', x, Index(v, k))
    decreases level, 0
  {
    PathDown(mem, t, level, v, k);
    ChildBut(mem, mem', t, level, Index(v, level), x);
    var c := Child(mem, t, Index(v, level));
    if k < level - 1 {
      PathLonger(mem, mem', c, level - 1, v, k, x);
    } else {
      PathLongerHere(mem', c, k, v);
    }
    PathAbove(mem, mem', t, level, v, k - 1, x);
  }

  /** And lengthens the path. */
  lemma AddTablePath(mem: Memory, t: Frame, level: nat, v: Route, k: nat, x: Frame, f: Frame, mem': Memory)
    requires 1 < k <= level <= 4 && Tree(mem, t, level) && TableAdded(mem, t, level, v, k, x, f, mem')
    ensures PathTo(mem', t, level, v, k - 1) && TableAt(mem', t, level, v, k - 1) == f
  {
    WithTableAgrees(mem, x, Index(v, k), f, Tables(mem, t, level));
    WithTableEntry(mem, x, Index(v, k), f, Index(v, k));
    TableEntryTarget(f.address);
    if k == level {
      PathLongerHere(mem', t, level, v);
    } else {
      PathLonger(mem, mem', t, level, v, k, x);
    }
  }

  /** Creating a missing table changes no translation. */
  lemma {:induction false} AddTableLeaf(mem: Memory, t: Frame, level: nat, v: Route, k: nat, x: Frame, f: Frame, mem': Memory, w: Route)
    requires 1 < k <= level <= 4 && Tree(mem, t, level) && TableAdded(mem, t, level, v, k, x, f, mem')
    ensures Leaf(mem', t, level, w) == Leaf(mem, t, level, w)
    decreases level, 0
  {
    if k == level {
      AddChildLeaf(mem, t, level, Index(v, level), f, mem', w);
    } else {
      TableAddedBelow(mem, t, level, v, k, x, f, mem');
      var c := Child(mem, t, Index(v, level));
      AddTableLeaf(mem, c, level - 1, v, k, x, f, mem', w);
      ChangeUnderLeaf(mem, mem', t, level, Index(v, level), x, w);
    }
  }
}

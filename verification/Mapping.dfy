/** Pages of the kernel's paging structure written one by one, with the frames for data and for missing tables
    drawn from the frame allocator (kernel/HAL/x86-64/x64-memory.c, kernel/mem/frame_allocator.c). */
module Mapping {
  import opened Basics
  import opened PageTables
  import opened TableAccess
  import opened Paging
  import opened Words
  import F = FrameModel
  import FrameRuns
  import V = VmmRuns

  // ----------------------------------------------------------- drawing frames

  /** All memory lies below 2^47, so that every frame fits an entry. */
  ghost predicate Allocator(f: F.State) {
    F.Inv(f) && forall x: nat | FrameRuns.Owned(f, x) :: x < BITS_47
  }

  lemma AllocKeeps(f: F.State)
    requires Allocator(f)
    ensures F.Alloc(f).Granted? ==>
              var x, g := F.Alloc(f).frame, F.Alloc(f).state;
              Allocator(g) && LowFrame(x) && x !in f.live && g.live == f.live + {x}
  {
    FrameRuns.AllocEffect(f);
    var r := F.Alloc(f);
    if r.Granted? {
      forall x: nat | FrameRuns.Owned(r.state, x) ensures x < BITS_47 {
        FrameRuns.TakeKeepsOwned(f, x);
      }
      assert FrameRuns.Owned(r.state, r.frame);
      assert F.Apart(r.state, r.frame);
    }
  }

  lemma DeallocKeeps(f: F.State, x: nat)
    requires Allocator(f) && x in f.live
    ensures F.Dealloc(f, x).Freed? && Allocator(F.Dealloc(f, x).state) && F.Dealloc(f, x).state.live == f.live - {x}
  {
    FrameRuns.DeallocEffect(f, x);
    var g := F.Dealloc(f, x).state;
    forall y: nat | FrameRuns.Owned(g, y) ensures y < BITS_47 {
      assert FrameRuns.Owned(f, y);
    }
  }

  datatype Drawn = Drawn(taken: seq<nat>, frames: F.State) | Exhausted

  /** `n` calls of alloc_frame; one that finds no frame is a panic. */
  function Draw(f: F.State, n: nat): Drawn
    requires F.Inv(f)
    decreases n
  {
    if n == 0 then Drawn([], f)
    else
      FrameRuns.AllocEffect(f);
      match F.Alloc(f)
      case Panic => Exhausted
      case Granted(x, g) =>
        match Draw(g, n - 1)
        case Exhausted => Exhausted
        case Drawn(xs, h) => Drawn([x] + xs, h)
  }

  ghost predicate Distinct(xs: seq<nat>) {
    forall i, j | 0 <= i < j < |xs| :: xs[i] != xs[j]
  }

  function Set(xs: seq<nat>): set<nat> {
    set x | x in xs
  }

  lemma Prepend(x: nat, xs: seq<nat>)
    requires Distinct(xs) && x !in Set(xs)
    ensures Distinct([x] + xs) && Set([x] + xs) == {x} + Set(xs)
  {
    forall i, j | 0 <= i < j < |[x] + xs| ensures ([x] + xs)[i] != ([x] + xs)[j] {
      assert ([x] + xs)[j] == xs[j - 1] && xs[j - 1] in Set(xs);
    }
  }

  /** Frames drawn are as many as asked for, distinct, fit for an entry, and held by nobody before. */
  ghost predicate WellDrawn(live: set<nat>, n: nat, taken: seq<nat>, after: set<nat>) {
    && |taken| == n && Distinct(taken) && Set(taken) !! live && after == live + Set(taken)
    && forall x | x in taken :: LowFrame(x)
  }

  lemma DrawnOneMore(live: set<nat>, x: nat, n: nat, xs: seq<nat>, after: set<nat>)
    requires x !in live && LowFrame(x) && WellDrawn(live + {x}, n, xs, after)
    ensures WellDrawn(live, n + 1, [x] + xs, after)
  {
    assert x !in Set(xs);
    Prepend(x, xs);
  }

  lemma {:induction false} DrawEffect(f: F.State, n: nat)
    requires Allocator(f)
    ensures Draw(f, n).Drawn? ==>
              Allocator(Draw(f, n).frames) && WellDrawn(f.live, n, Draw(f, n).taken, Draw(f, n).frames.live)
    decreases n
  {
    if n > 0 {
      AllocKeeps(f);
      var r := F.Alloc(f);
      if r.Granted? {
        DrawEffect(r.state, n - 1);
        var d := Draw(r.state, n - 1);
        if d.Drawn? {
          DrawnOneMore(f.live, r.frame, n - 1, d.taken, d.frames.live);
          assert Draw(f, n) == Drawn([r.frame] + d.taken, d.frames);
        }
      }
    }
  }

  // ----------------------------------------------------------- the account

  /** The frame allocator and the tables; of the frames held, which serve as tables and which are held by others
      than the manager. */
  datatype Paged = Paged(frames: F.State, mem: Memory, tables: set<nat>, others: set<nat>)

  /** The table frames at these addresses. */
  ghost function Framed(fs: set<nat>): set<Frame> {
    set f | f in fs :: Frame(Word(f))
  }

  /** Every frame held is a data frame, a table of the kernel's structure or somebody else's, and one of these only;
      every table hangs under a writable entry. */
  ghost predicate Account(p: Paged, root: Frame, data: set<nat>) {
    && Allocator(p.frames)
    && Tree(p.mem, root, 4) && Open(p.mem, root, 4) && Tables(p.mem, root, 4) == Framed(p.tables)
    && Shares(p.frames.live, p.others, data, p.tables)
  }

  ghost predicate Shares(live: set<nat>, others: set<nat>, data: set<nat>, tables: set<nat>) {
    live == others + data + tables && others !! data && others !! tables && data !! tables
  }

  lemma TablesGrow(live: set<nat>, others: set<nat>, data: set<nat>, tables: set<nat>, n: nat, taken: seq<nat>, after: set<nat>)
    requires Shares(live, others, data, tables) && WellDrawn(live, n, taken, after)
    ensures Shares(after, others, data, tables + Set(taken)) && Shares(after, others + Set(taken), data, tables)
  {
  }

  lemma FramedSum(a: set<nat>, b: set<nat>)
    ensures Framed(a + b) == Framed(a) + Framed(b)
  {
  }

  /** Entry `e` is written for page `v`; the tables missing on its path are drawn first. */
  ghost predicate Wrote(p: Paged, q: Paged, root: Frame, v: nat, e: bv64) {
    && F.Inv(p.frames)
    && var d := Draw(p.frames, Missing(p.mem, root, 4, RouteOf(Word(v))));
    && d.Drawn? && q.frames == d.frames && q.tables == p.tables + Set(d.taken) && q.others == p.others
    && Tree(q.mem, root, 4) && Tables(q.mem, root, 4) == Tables(p.mem, root, 4) + Framed(Set(d.taken))
    && PageWritten(p.mem, q.mem, root, Word(v), e) && KeepsOpen(p.mem, q.mem, root)
  }

  lemma WroteKeepsAccount(p: Paged, q: Paged, root: Frame, v: nat, e: bv64, data: set<nat>)
    requires Account(p, root, data) && Wrote(p, q, root, v, e)
    ensures Account(q, root, data)
  {
    var n := Missing(p.mem, root, 4, RouteOf(Word(v)));
    DrawEffect(p.frames, n);
    var d := Draw(p.frames, n);
    FramedSum(p.tables, Set(d.taken));
    TablesGrow(p.frames.live, p.others, data, p.tables, n, d.taken, d.frames.live);
  }

  function EntryOf(mem: Memory, root: Frame, v: nat): bv64 {
    Leaf(mem, root, 4, RouteOf(Word(v)))
  }

  lemma WroteEntries(p: Paged, q: Paged, root: Frame, v: nat, e: bv64, w: nat)
    requires Wrote(p, q, root, v, e) && CanonicalPage(v) && CanonicalPage(w)
    ensures EntryOf(q.mem, root, w) == if v == w then e else EntryOf(p.mem, root, w)
  {
    assert WrittenAt(p.mem, q.mem, root, Word(v), e, Word(w));
    if v != w && SamePage(Word(v), Word(w)) {
      PagesDiffer(v, w);
    }
  }

  // ----------------------------------------------------------- what the tables show

  // PAGE_PRESENT | PAGE_WRITABLE
  const WRITABLE: bv16 := 3

  /** The entry is present exactly if the page is mapped, and leads to what it is mapped to; that of an owned page
      is writable. */
  predicate Shows(e: bv64, pages: map<nat, nat>, owned: map<nat, nat>, v: nat) {
    && (v in pages <==> IsPresent(e))
    && (v in pages ==> Target(e) == Target(Word(pages[v])))
    && (v in owned ==> e == MapEntry(Word(owned[v]), WRITABLE))
  }

  ghost predicate Shown(mem: Memory, root: Frame, pages: map<nat, nat>, owned: map<nat, nat>, v: nat) {
    Shows(EntryOf(mem, root, v), pages, owned, v)
  }

  /** The tables map exactly `pages`; the data frames are those of `owned`, a page each. */
  ghost predicate Backed(p: Paged, root: Frame, pages: map<nat, nat>, owned: map<nat, nat>) {
    && Account(p, root, owned.Values) && V.Injective(owned)
    && forall v: nat | CanonicalPage(v) :: Shown(p.mem, root, pages, owned, v)
  }

  predicate SameAt(m: map<nat, nat>, m': map<nat, nat>, w: nat) {
    (w in m' <==> w in m) && (w in m ==> m'[w] == m[w])
  }

  ghost predicate SameBut(m: map<nat, nat>, m': map<nat, nat>, v: nat) {
    forall w | w != v :: SameAt(m, m', w)
  }

  lemma ChangedAt(m: map<nat, nat>, v: nat, x: nat)
    ensures SameBut(m, m[v := x], v) && SameBut(m, m - {v}, v) && SameBut(m, m, v)
  {
  }

  /** A page written shows what was written; the others what they did. */
  lemma WroteShows(p: Paged, q: Paged, root: Frame, v: nat, e: bv64, pages: map<nat, nat>, owned: map<nat, nat>,
                   pages': map<nat, nat>, owned': map<nat, nat>)
    requires CanonicalPage(v) && Wrote(p, q, root, v, e) && Shows(e, pages', owned', v)
    requires forall w: nat | CanonicalPage(w) :: Shown(p.mem, root, pages, owned, w)
    requires SameBut(pages, pages', v) && SameBut(owned, owned', v)
    ensures forall w: nat | CanonicalPage(w) :: Shown(q.mem, root, pages', owned', w)
  {
    forall w: nat | CanonicalPage(w) ensures Shown(q.mem, root, pages', owned', w) {
      WroteEntries(p, q, root, v, e, w);
      if w != v {
        assert Shown(p.mem, root, pages, owned, w);
        assert SameAt(pages, pages', w) && SameAt(owned, owned', w);
      }
    }
  }

  // ----------------------------------------------------------- the loops' rounds

  /** One round: a page mapped on a new frame, given an entry, given a copied entry after `missing` tables of the
      source were created, unmapped with its frame given back, or unmapped. */
  datatype Act =
    | Fresh(v: nat) | Write(v: nat, e: bv64) | Copy(v: nat, e: bv64, missing: nat) | Release(v: nat) | Drop(v: nat)

  ghost predicate Round(p: Paged, a: Act, q: Paged, root: Frame) {
    F.Inv(p.frames) &&
    match a
    case Fresh(v) =>
      var r := F.Alloc(p.frames);
      r.Granted? && Wrote(p.(frames := r.state), q, root, v, MapEntry(Word(r.frame), WRITABLE))
    case Write(v, e) => Wrote(p, q, root, v, e)
    case Copy(v, e, n) =>
      var d := Draw(p.frames, n);
      d.Drawn? && Wrote(p.(frames := d.frames, others := p.others + Set(d.taken)), q, root, v, e)
    case Release(v) =>
      var s := Translation(p.mem, root, Word(v));
      if !s.present then Wrote(p, q, root, v, Absent(EntryOf(p.mem, root, v)))
      else
        var r := F.Dealloc(p.frames, Number(s.paddr));
        r.Freed? && Wrote(p.(frames := r.state), q, root, v, Absent(EntryOf(p.mem, root, v)))
    case Drop(v) => Wrote(p, q, root, v, Absent(EntryOf(p.mem, root, v)))
  }

  lemma HeldIsLow(f: F.State, x: nat)
    requires Allocator(f) && x in f.live
    ensures LowFrame(x)
  {
    assert FrameRuns.Owned(f, x);
    assert F.Apart(f, x);
  }

  lemma MapShows(f: nat, pages: map<nat, nat>, owned: map<nat, nat>, v: nat)
    ensures Shows(MapEntry(Word(f), WRITABLE), pages[v := f], owned[v := f], v)
  {
    MapTarget(Word(f), WRITABLE);
  }

  lemma MapTarget(p: bv64, flags: bv16)
    ensures IsPresent(MapEntry(p, flags)) && Target(MapEntry(p, flags)) == Target(p)
  {
    FlagBits(flags);
    EntryParts(p, ((flags | 1) & 0xfff) as bv64);
  }

  lemma OneMoreValue(owned: map<nat, nat>, v: nat, f: nat)
    requires v !in owned && f !in owned.Values && V.Injective(owned)
    ensures owned[v := f].Values == owned.Values + {f} && V.Injective(owned[v := f])
  {
    var m := owned[v := f];
    assert m[v] == f;
    forall x | x in owned.Values ensures x in m.Values {
      var w :| w in owned && owned[w] == x;
      assert m[w] == x;
    }
    forall w | w in owned ensures owned[w] != f {
      assert owned[w] in owned.Values;
    }
  }

  lemma OneLessValue(owned: map<nat, nat>, v: nat)
    requires v in owned && V.Injective(owned)
    ensures (owned - {v}).Values == owned.Values - {owned[v]} && V.Injective(owned - {v})
  {
    var m := owned - {v};
    forall x | x in owned.Values && x != owned[v] ensures x in m.Values {
      var w :| w in owned && owned[w] == x;
      assert m[w] == x;
    }
    forall x | x in m.Values ensures x != owned[v] {
      var w :| w in m && m[w] == x;
      assert owned[w] != owned[v];
    }
  }

  lemma WroteBacked(p: Paged, q: Paged, root: Frame, v: nat, e: bv64, pages: map<nat, nat>, owned: map<nat, nat>,
                    pages': map<nat, nat>, owned': map<nat, nat>)
    requires CanonicalPage(v) && Wrote(p, q, root, v, e) && Shows(e, pages', owned', v)
    requires Account(p, root, owned'.Values) && V.Injective(owned')
    requires forall w: nat | CanonicalPage(w) :: Shown(p.mem, root, pages, owned, w)
    requires SameBut(pages, pages', v) && SameBut(owned, owned', v)
    ensures Backed(q, root, pages', owned')
  {
    WroteKeepsAccount(p, q, root, v, e, owned'.Values);
    WroteShows(p, q, root, v, e, pages, owned, pages', owned');
  }

  lemma AllocAccount(p: Paged, root: Frame, data: set<nat>)
    requires Account(p, root, data) && F.Alloc(p.frames).Granted?
    ensures var f := F.Alloc(p.frames).frame;
      f !in p.frames.live && Account(p.(frames := F.Alloc(p.frames).state), root, data + {f})
  {
    AllocKeeps(p.frames);
  }

  /** A page mapped on a new frame. */
  lemma FreshEffect(p: Paged, v: nat, q: Paged, root: Frame, pages: map<nat, nat>, owned: map<nat, nat>)
    requires Backed(p, root, pages, owned) && CanonicalPage(v) && v !in owned && Round(p, Fresh(v), q, root)
    ensures var f := F.Alloc(p.frames).frame;
      f !in p.frames.live && Backed(q, root, pages[v := f], owned[v := f])
  {
    var r := F.Alloc(p.frames);
    AllocAccount(p, root, owned.Values);
    OneMoreValue(owned, v, r.frame);
    MapShows(r.frame, pages, owned, v);
    ChangedAt(pages, v, r.frame);
    ChangedAt(owned, v, r.frame);
    WroteBacked(p.(frames := r.state), q, root, v, MapEntry(Word(r.frame), WRITABLE),
                pages, owned, pages[v := r.frame], owned[v := r.frame]);
  }

  /** The frames held by others and the tables only grow. */
  lemma RoundGrows(p: Paged, a: Act, q: Paged, root: Frame)
    requires Round(p, a, q, root)
    ensures p.tables <= q.tables && p.others <= q.others && (!a.Copy? ==> q.others == p.others)
  {
  }

  /** A page given an entry that leads to `x`, or none. */
  lemma WriteEffect(p: Paged, v: nat, e: bv64, q: Paged, root: Frame, pages: map<nat, nat>, owned: map<nat, nat>, x: nat)
    requires Backed(p, root, pages, owned) && CanonicalPage(v) && v !in owned && Wrote(p, q, root, v, e)
    requires Target(e) == Target(Word(x))
    ensures Backed(q, root, if IsPresent(e) then pages[v := x] else pages - {v}, owned)
  {
    ChangedAt(pages, v, x);
    ChangedAt(owned, v, x);
    WroteBacked(p, q, root, v, e, pages, owned, if IsPresent(e) then pages[v := x] else pages - {v}, owned);
  }

  lemma AbsentIs(e: bv64)
    ensures !IsPresent(Absent(e)) && Target(Absent(e)) == Target(e)
  {
    AbsentBits(e);
  }

  lemma DropEffect(p: Paged, v: nat, q: Paged, root: Frame, pages: map<nat, nat>, owned: map<nat, nat>)
    requires Backed(p, root, pages, owned) && CanonicalPage(v) && v !in owned && Round(p, Drop(v), q, root)
    ensures Backed(q, root, pages - {v}, owned)
  {
    var e := Absent(EntryOf(p.mem, root, v));
    AbsentIs(EntryOf(p.mem, root, v));
    ChangedAt(pages, v, 0);
    ChangedAt(owned, v, 0);
    WroteBacked(p, q, root, v, e, pages, owned, pages - {v}, owned);
  }

  lemma DrawAccount(p: Paged, root: Frame, data: set<nat>, n: nat)
    requires Account(p, root, data) && Draw(p.frames, n).Drawn?
    ensures var d := Draw(p.frames, n); Account(p.(frames := d.frames, others := p.others + Set(d.taken)), root, data)
  {
    DrawEffect(p.frames, n);
    var d := Draw(p.frames, n);
    TablesGrow(p.frames.live, p.others, data, p.tables, n, d.taken, d.frames.live);
  }

  lemma CopyEffect(p: Paged, v: nat, e: bv64, n: nat, q: Paged, root: Frame, pages: map<nat, nat>, owned: map<nat, nat>, x: nat)
    requires Backed(p, root, pages, owned) && CanonicalPage(v) && v !in owned && Round(p, Copy(v, e, n), q, root)
    requires Target(e) == Target(Word(x))
    ensures Backed(q, root, if IsPresent(e) then pages[v := x] else pages - {v}, owned)
  {
    DrawAccount(p, root, owned.Values, n);
    var d := Draw(p.frames, n);
    WriteEffect(p.(frames := d.frames, others := p.others + Set(d.taken)), v, e, q, root, pages, owned, x);
  }

  lemma DeallocAccount(p: Paged, root: Frame, data: set<nat>, f: nat)
    requires Account(p, root, data) && f in data
    ensures var r := F.Dealloc(p.frames, f); r.Freed? && Account(p.(frames := r.state), root, data - {f})
  {
    DeallocKeeps(p.frames, f);
  }

  /** What get_physical_address reports of an owned page, and that no table is missing there. */
  lemma OwnedPage(p: Paged, v: nat, root: Frame, pages: map<nat, nat>, owned: map<nat, nat>)
    requires Backed(p, root, pages, owned) && CanonicalPage(v) && v in owned
    ensures LowFrame(owned[v]) && Translation(p.mem, root, Word(v)) == MapState(Word(owned[v]), 3, true)
    ensures Number(Word(owned[v])) == owned[v] && Missing(p.mem, root, 4, RouteOf(Word(v))) == 0
  {
    assert owned[v] in owned.Values;
    HeldIsLow(p.frames, owned[v]);
    assert Shown(p.mem, root, pages, owned, v);
    FrameRound(owned[v], WRITABLE);
    MapTarget(Word(owned[v]), WRITABLE);
    NoneMissing(p.mem, root, 4, RouteOf(Word(v)));
  }

  /** The round gives back the frame of the page, with no table drawn. */
  lemma ReleaseIs(p: Paged, v: nat, q: Paged, root: Frame, pages: map<nat, nat>, owned: map<nat, nat>)
    requires Backed(p, root, pages, owned) && CanonicalPage(v) && v in owned && Round(p, Release(v), q, root)
    ensures var r := F.Dealloc(p.frames, owned[v]);
      && r.Freed? && q.frames == r.state && q.tables == p.tables
      && Wrote(p.(frames := r.state), q, root, v, Absent(EntryOf(p.mem, root, v)))
  {
    OwnedPage(p, v, root, pages, owned);
    assert Set([]) == {};
  }

  lemma GivenBack(p: Paged, v: nat, root: Frame, owned: map<nat, nat>)
    requires Account(p, root, owned.Values) && V.Injective(owned) && v in owned && F.Dealloc(p.frames, owned[v]).Freed?
    ensures Account(p.(frames := F.Dealloc(p.frames, owned[v]).state), root, (owned - {v}).Values) && V.Injective(owned - {v})
  {
    assert owned[v] in owned.Values;
    DeallocAccount(p, root, owned.Values, owned[v]);
    OneLessValue(owned, v);
  }

  /** An owned page unmapped: exactly its frame goes back, and no table is created. */
  lemma ReleaseEffect(p: Paged, v: nat, q: Paged, root: Frame, pages: map<nat, nat>, owned: map<nat, nat>)
    requires Backed(p, root, pages, owned) && CanonicalPage(v) && v in owned && Round(p, Release(v), q, root)
    ensures Backed(q, root, pages - {v}, owned - {v}) && q.tables == p.tables
    ensures F.Dealloc(p.frames, owned[v]) == F.Freed(q.frames)
  {
    ReleaseIs(p, v, q, root, pages, owned);
    GivenBack(p, v, root, owned);
    AbsentIs(EntryOf(p.mem, root, v));
    ChangedAt(pages, v, 0);
    ChangedAt(owned, v, 0);
    var p1 := p.(frames := F.Dealloc(p.frames, owned[v]).state);
    WroteBacked(p1, q, root, v, Absent(EntryOf(p.mem, root, v)), pages, owned, pages - {v}, owned - {v});
  }

  // ----------------------------------------------------------- whole loops

  /** The page `v` of `m` as `m2` has it. */
  function Put(m: map<nat, nat>, m2: map<nat, nat>, v: nat): map<nat, nat> {
    if v in m2 then m[v := m2[v]] else m - {v}
  }

  /** The first `n` pages from `w` on as `m2` has them. */
  function Mixed(m: map<nat, nat>, m2: map<nat, nat>, w: nat, n: nat): map<nat, nat> {
    V.Outside(m, w, w + n * PAGE) + V.Within(m2, w, w + n * PAGE)
  }

  ghost predicate PageKeys(m: map<nat, nat>) {
    forall v | v in m :: v % PAGE == 0
  }

  lemma NextPageOf(w: nat, n: nat, v: nat)
    requires w % PAGE == 0 && v % PAGE == 0
    ensures (w + n * PAGE) % PAGE == 0
    ensures w <= v < w + (n + 1) * PAGE <==> w <= v < w + n * PAGE || v == w + n * PAGE
  {
    WholePages(w, n * PAGE);
    PageGap(v, w + (n + 1) * PAGE);
    PageGap(w + n * PAGE, v);
  }

  lemma MixedNext(m: map<nat, nat>, m2: map<nat, nat>, w: nat, n: nat)
    requires PageKeys(m) && w % PAGE == 0
    ensures Mixed(m, m2, w, n + 1) == Put(Mixed(m, m2, w, n), m2, w + n * PAGE)
  {
    var a, b := Mixed(m, m2, w, n + 1), Put(Mixed(m, m2, w, n), m2, w + n * PAGE);
    forall v: nat ensures SameAt(a, b, v) {
      MixedNextAt(m, m2, w, n, v);
    }
    MapsEqual(a, b);
  }

  lemma MixedNextAt(m: map<nat, nat>, m2: map<nat, nat>, w: nat, n: nat, v: nat)
    requires PageKeys(m) && w % PAGE == 0
    ensures SameAt(Mixed(m, m2, w, n + 1), Put(Mixed(m, m2, w, n), m2, w + n * PAGE), v)
  {
    NextPageOf(w, n, w + n * PAGE);
    if v % PAGE == 0 {
      NextPageOf(w, n, v);
    }
  }

  lemma MapsEqual(a: map<nat, nat>, b: map<nat, nat>)
    requires forall v: nat :: SameAt(a, b, v)
    ensures a == b
  {
    forall v: nat ensures v in a <==> v in b
             ensures v in a ==> a[v] == b[v]
    {
      assert SameAt(a, b, v);
    }
  }

  /** The frame a round maps its page on. */
  function FrameTaken(p: Paged): nat {
    if p.frames.cached < |p.frames.ranges| && F.Alloc(p.frames).Granted? then F.Alloc(p.frames).frame else 0
  }

  /** The round leaves its page as `pages2` and `owned2` have it. */
  ghost predicate Fits(a: Act, p: Paged, owned: map<nat, nat>, pages2: map<nat, nat>, owned2: map<nat, nat>) {
    match a
    case Fresh(v) =>
      && v !in owned && v in pages2 && v in owned2 && pages2[v] == owned2[v] == FrameTaken(p)
    case Write(v, e) =>
      && v !in owned && v !in owned2 && v in pages2 && IsPresent(e) && Target(e) == Target(Word(pages2[v]))
    case Copy(v, e, _) =>
      && v !in owned && v !in owned2 && (v in pages2 <==> IsPresent(e))
      && (v in pages2 ==> Target(e) == Target(Word(pages2[v])))
    case Release(v) => v in owned && v !in pages2 && v !in owned2
    case Drop(v) => v !in owned && v !in pages2 && v !in owned2
  }

  lemma NotOwned(owned: map<nat, nat>, owned2: map<nat, nat>, v: nat)
    requires v !in owned && v !in owned2
    ensures Put(owned, owned2, v) == owned
  {
  }

  lemma CopyFits(p: Paged, v: nat, e: bv64, n: nat, q: Paged, root: Frame, pages: map<nat, nat>, owned: map<nat, nat>,
                 pages2: map<nat, nat>)
    requires Backed(p, root, pages, owned) && CanonicalPage(v) && v !in owned && Round(p, Copy(v, e, n), q, root)
    requires (v in pages2 <==> IsPresent(e)) && (v in pages2 ==> Target(e) == Target(Word(pages2[v])))
    ensures Backed(q, root, Put(pages, pages2, v), owned)
  {
    if v in pages2 {
      CopyEffect(p, v, e, n, q, root, pages, owned, pages2[v]);
    } else {
      TargetFrame(e);
      TargetRound(Target(e));
      CopyEffect(p, v, e, n, q, root, pages, owned, Number(Target(e)));
    }
  }

  lemma TargetFrame(e: bv64)
    ensures IsFrame(Target(e))
  {
  }

  lemma RoundEffect(p: Paged, a: Act, q: Paged, root: Frame, pages: map<nat, nat>, owned: map<nat, nat>,
                    pages2: map<nat, nat>, owned2: map<nat, nat>)
    requires Backed(p, root, pages, owned) && CanonicalPage(a.v) && Fits(a, p, owned, pages2, owned2) && Round(p, a, q, root)
    ensures Backed(q, root, Put(pages, pages2, a.v), Put(owned, owned2, a.v))
  {
    match a
    case Fresh(v) => FreshEffect(p, v, q, root, pages, owned);
    case Write(v, e) =>
      NotOwned(owned, owned2, v);
      WriteEffect(p, v, e, q, root, pages, owned, pages2[v]);
    case Copy(v, e, n) =>
      NotOwned(owned, owned2, v);
      CopyFits(p, v, e, n, q, root, pages, owned, pages2);
    case Release(v) => ReleaseEffect(p, v, q, root, pages, owned);
    case Drop(v) =>
      NotOwned(owned, owned2, v);
      DropEffect(p, v, q, root, pages, owned);
  }

  ghost predicate Rounds(ps: seq<Paged>, acts: seq<Act>, root: Frame) {
    |ps| == |acts| + 1 && forall i | 0 <= i < |acts| :: Round(ps[i], acts[i], ps[i + 1], root)
  }

  /** The rounds go over consecutive pages of one half of the address space. */
  ghost predicate Sweeps(acts: seq<Act>, w: nat) {
    forall i | 0 <= i < |acts| :: acts[i].v == w + i * PAGE && CanonicalPage(acts[i].v)
  }

  ghost predicate AllFit(ps: seq<Paged>, acts: seq<Act>, owned: map<nat, nat>, pages2: map<nat, nat>, owned2: map<nat, nat>) {
    |acts| <= |ps| && forall i | 0 <= i < |acts| :: Fits(acts[i], ps[i], owned, pages2, owned2)
  }

  /** The first `n` pages from `w` on put one by one. */
  function Puts(m: map<nat, nat>, m2: map<nat, nat>, w: nat, n: nat): map<nat, nat> {
    if n == 0 then m else Put(Puts(m, m2, w, n - 1), m2, w + (n - 1) * PAGE)
  }

  lemma PutsNext(m: map<nat, nat>, m2: map<nat, nat>, w: nat, i: nat, n: nat, v: nat)
    requires n == i + 1 && v == w + i * PAGE
    ensures Puts(m, m2, w, n) == Put(Puts(m, m2, w, i), m2, v)
  {
  }

  lemma MixedNone(m: map<nat, nat>, m2: map<nat, nat>, w: nat)
    ensures Mixed(m, m2, w, 0) == m
  {
  }

  lemma {:induction false} PutsIsMixed(m: map<nat, nat>, m2: map<nat, nat>, w: nat, n: nat)
    requires PageKeys(m) && w % PAGE == 0
    ensures Puts(m, m2, w, n) == Mixed(m, m2, w, n)
  {
    if n == 0 {
      MixedNone(m, m2, w);
    } else {
      var i := n - 1;
      PutsIsMixed(m, m2, w, i);
      PutsNext(m, m2, w, i, n, w + i * PAGE);
      MixedNext(m, m2, w, i);
    }
  }

  lemma {:induction false} NotYetPut(m: map<nat, nat>, m2: map<nat, nat>, w: nat, n: nat, v: nat)
    requires w + n * PAGE <= v
    ensures v in Puts(m, m2, w, n) <==> v in m
  {
    if n > 0 {
      NotYetPut(m, m2, w, n - 1, v);
    }
  }

  lemma StillFits(a: Act, p: Paged, owned: map<nat, nat>, now: map<nat, nat>, pages2: map<nat, nat>, owned2: map<nat, nat>)
    requires Fits(a, p, owned, pages2, owned2) && (a.v in now <==> a.v in owned)
    ensures Fits(a, p, now, pages2, owned2)
  {
  }

  lemma NextPut(p: Paged, a: Act, q: Paged, root: Frame, owned: map<nat, nat>, pages2: map<nat, nat>, owned2: map<nat, nat>,
                mp: map<nat, nat>, mo: map<nat, nat>, mp': map<nat, nat>, mo': map<nat, nat>)
    requires Round(p, a, q, root) && Fits(a, p, owned, pages2, owned2) && CanonicalPage(a.v)
    requires Backed(p, root, mp, mo) && (a.v in mo <==> a.v in owned)
    requires mp' == Put(mp, pages2, a.v) && mo' == Put(mo, owned2, a.v)
    ensures Backed(q, root, mp', mo')
  {
    StillFits(a, p, owned, mo, pages2, owned2);
    RoundEffect(p, a, q, root, mp, mo, pages2, owned2);
  }

  lemma {:induction false} LoopPuts(ps: seq<Paged>, acts: seq<Act>, root: Frame, w: nat, n: nat, pages: map<nat, nat>,
                                    owned: map<nat, nat>, pages2: map<nat, nat>, owned2: map<nat, nat>)
    requires Rounds(ps, acts, root) && Sweeps(acts, w) && AllFit(ps, acts, owned, pages2, owned2) && n <= |acts|
    requires Backed(ps[0], root, pages, owned)
    ensures Backed(ps[n], root, Puts(pages, pages2, w, n), Puts(owned, owned2, w, n))
    decreases n
  {
    if n > 0 {
      var i := n - 1;
      LoopPuts(ps, acts, root, w, i, pages, owned, pages2, owned2);
      assert Round(ps[i], acts[i], ps[n], root) && Fits(acts[i], ps[i], owned, pages2, owned2);
      NotYetPut(owned, owned2, w, i, acts[i].v);
      PutsNext(pages, pages2, w, i, n, acts[i].v);
      PutsNext(owned, owned2, w, i, n, acts[i].v);
      NextPut(ps[i], acts[i], ps[n], root, owned, pages2, owned2, Puts(pages, pages2, w, i), Puts(owned, owned2, w, i),
              Puts(pages, pages2, w, n), Puts(owned, owned2, w, n));
    }
  }

  /** After a loop over a window the tables map its pages as each round says, and every other page as before. */
  lemma LoopEffect(ps: seq<Paged>, acts: seq<Act>, root: Frame, w: nat, pages: map<nat, nat>, owned: map<nat, nat>,
                   pages2: map<nat, nat>, owned2: map<nat, nat>)
    requires Rounds(ps, acts, root) && Sweeps(acts, w) && w % PAGE == 0 && AllFit(ps, acts, owned, pages2, owned2)
    requires Backed(ps[0], root, pages, owned) && PageKeys(pages) && PageKeys(owned)
    ensures Backed(ps[|acts|], root, Mixed(pages, pages2, w, |acts|), Mixed(owned, owned2, w, |acts|))
  {
    LoopPuts(ps, acts, root, w, |acts|, pages, owned, pages2, owned2);
    PutsIsMixed(pages, pages2, w, |acts|);
    PutsIsMixed(owned, owned2, w, |acts|);
  }

  /** A loop that gives back owned pages creates no table. */
  lemma {:induction false} ReleaseKeepsTables(ps: seq<Paged>, acts: seq<Act>, root: Frame, w: nat, n: nat, pages: map<nat, nat>,
                                              owned: map<nat, nat>)
    requires Rounds(ps, acts, root) && Sweeps(acts, w) && AllFit(ps, acts, owned, map[], map[]) && n <= |acts|
    requires Backed(ps[0], root, pages, owned) && forall i | 0 <= i < |acts| :: acts[i].Release?
    ensures ps[n].tables == ps[0].tables && ps[n].others == ps[0].others
    decreases n
  {
    if n > 0 {
      var i := n - 1;
      ReleaseKeepsTables(ps, acts, root, w, i, pages, owned);
      LoopPuts(ps, acts, root, w, i, pages, owned, map[], map[]);
      assert Round(ps[i], acts[i], ps[n], root) && Fits(acts[i], ps[i], owned, map[], map[]);
      NotYetPut(owned, map[], w, i, acts[i].v);
      ReleaseEffect(ps[i], acts[i].v, ps[n], root, Puts(pages, map[], w, i), Puts(owned, map[], w, i));
      RoundGrows(ps[i], acts[i], ps[n], root);
    }
  }

  lemma {:induction false} LoopGrows(ps: seq<Paged>, acts: seq<Act>, root: Frame)
    requires Rounds(ps, acts, root)
    ensures ps[0].tables <= ps[|acts|].tables && ps[0].others <= ps[|acts|].others
    ensures (forall i | 0 <= i < |acts| :: !acts[i].Copy?) ==> ps[|acts|].others == ps[0].others
    decreases |acts|
  {
    if acts != [] {
      var n := |acts| - 1;
      LoopGrows(ps[..n + 1], acts[..n], root);
      assert Round(ps[n], acts[n], ps[n + 1], root);
      RoundGrows(ps[n], acts[n], ps[n + 1], root);
    }
  }

  /** A round writes its own page only. */
  lemma RoundElsewhere(p: Paged, a: Act, q: Paged, root: Frame, w: nat)
    requires Round(p, a, q, root) && CanonicalPage(a.v) && CanonicalPage(w) && w != a.v
    ensures EntryOf(q.mem, root, w) == EntryOf(p.mem, root, w)
  {
    match a
    case Fresh(v) =>
      var r := F.Alloc(p.frames);
      WroteEntries(p.(frames := r.state), q, root, v, MapEntry(Word(r.frame), WRITABLE), w);
    case Write(v, e) => WroteEntries(p, q, root, v, e, w);
    case Copy(v, e, n) =>
      var d := Draw(p.frames, n);
      WroteEntries(p.(frames := d.frames, others := p.others + Set(d.taken)), q, root, v, e, w);
    case Release(v) => ReleaseElsewhere(p, v, q, root, w);
    case Drop(v) => WroteEntries(p, q, root, v, Absent(EntryOf(p.mem, root, v)), w);
  }

  lemma ReleaseElsewhere(p: Paged, v: nat, q: Paged, root: Frame, w: nat)
    requires Round(p, Release(v), q, root) && CanonicalPage(v) && CanonicalPage(w) && w != v
    ensures EntryOf(q.mem, root, w) == EntryOf(p.mem, root, w)
  {
    var s, e := Translation(p.mem, root, Word(v)), Absent(EntryOf(p.mem, root, v));
    if s.present {
      WroteEntries(p.(frames := F.Dealloc(p.frames, Number(s.paddr)).state), q, root, v, e, w);
    } else {
      WroteEntries(p, q, root, v, e, w);
    }
  }

  predicate Writes(a: Act, v: nat, e: bv64) {
    a.v == v && (a.Write? || a.Copy?) && a.e == e
  }

  /** Page `v` holds entry `e`. */
  ghost predicate HasEntry(p: Paged, root: Frame, v: nat, e: bv64) {
    EntryOf(p.mem, root, v) == e
  }

  lemma RoundWrites(p: Paged, a: Act, q: Paged, root: Frame, v: nat, e: bv64)
    requires Round(p, a, q, root) && Writes(a, v, e) && CanonicalPage(v)
    ensures HasEntry(q, root, v, e)
  {
    if a.Write? {
      WroteEntries(p, q, root, v, e, v);
    } else {
      var d := Draw(p.frames, a.missing);
      WroteEntries(p.(frames := d.frames, others := p.others + Set(d.taken)), q, root, v, e, v);
    }
  }

  lemma RoundKeepsEntry(p: Paged, a: Act, q: Paged, root: Frame, v: nat, e: bv64)
    requires Round(p, a, q, root) && CanonicalPage(a.v) && CanonicalPage(v) && v != a.v && HasEntry(p, root, v, e)
    ensures HasEntry(q, root, v, e)
  {
    RoundElsewhere(p, a, q, root, v);
  }

  lemma OtherPage(acts: seq<Act>, w: nat, i: nat, j: nat)
    requires Sweeps(acts, w) && i < j < |acts|
    ensures acts[j].v != acts[i].v && CanonicalPage(acts[i].v) && CanonicalPage(acts[j].v)
  {
  }

  lemma NextRound(ps: seq<Paged>, acts: seq<Act>, root: Frame, i: nat, n: nat)
    requires Rounds(ps, acts, root) && i < |acts| && n == i + 1
    ensures n < |ps| && Round(ps[i], acts[i], ps[n], root)
  {
  }

  lemma LoopEnds(ps: seq<Paged>, acts: seq<Act>, root: Frame, q: Paged, n: nat)
    requires Rounds(ps, acts, root) && q == ps[|ps| - 1] && n == |acts|
    ensures |ps| == n + 1 && q == ps[n]
  {
  }

  /** The entry a round writes is there when the loop has ended. */
  lemma {:induction false} LoopEntry(ps: seq<Paged>, acts: seq<Act>, root: Frame, w: nat, i: nat, n: nat, v: nat, e: bv64)
    requires Rounds(ps, acts, root) && Sweeps(acts, w) && i < n <= |acts|
    requires Writes(acts[i], v, e)
    ensures HasEntry(ps[n], root, v, e)
    decreases n
  {
    var j := n - 1;
    NextRound(ps, acts, root, j, n);
    if j == i {
      RoundWrites(ps[j], acts[j], ps[n], root, v, e);
    } else {
      LoopEntry(ps, acts, root, w, i, j, v, e);
      OtherPage(acts, w, i, j);
      RoundKeepsEntry(ps[j], acts[j], ps[n], root, v, e);
    }
  }

  // ----------------------------------------------------------- the loops of the manager

  /** `n` pages from `w` on, in one half of the address space. */
  predicate Window(w: nat, n: nat) {
    w % PAGE == 0 && (w + n * PAGE <= BITS_47 || (TWO64 - BITS_47 <= w && w + n * PAGE <= TWO64))
  }

  ghost predicate Unowned(owned: map<nat, nat>, w: nat, n: nat) {
    forall i | 0 <= i < n :: w + i * PAGE !in owned
  }

  /** All the pages are owned, or none. */
  ghost predicate OwnedOrNot(owned: map<nat, nat>, w: nat, n: nat, all: bool) {
    forall i | 0 <= i < n :: (w + i * PAGE in owned) == all
  }

  lemma WindowPage(w: nat, n: nat, i: nat)
    requires Window(w, n) && i < n
    ensures CanonicalPage(w + i * PAGE)
  {
    WholePages(w, i * PAGE);
  }

  lemma InRange(w: nat, fs: seq<nat>, i: nat)
    requires w % PAGE == 0 && i < |fs|
    ensures w + i * PAGE in V.Range(w, fs) && V.Range(w, fs)[w + i * PAGE] == fs[i]
  {
    assert (w + i * PAGE - w) / PAGE == i;
  }

  lemma MixedRange(m: map<nat, nat>, w: nat, fs: seq<nat>)
    requires PageKeys(m) && w % PAGE == 0
    ensures Mixed(m, V.Range(w, fs), w, |fs|) == m + V.Range(w, fs)
  {
    var a, b := Mixed(m, V.Range(w, fs), w, |fs|), m + V.Range(w, fs);
    forall v: nat ensures SameAt(a, b, v) {
    }
    MapsEqual(a, b);
  }

  lemma MixedGone(m: map<nat, nat>, w: nat, n: nat)
    ensures Mixed(m, map[], w, n) == V.Outside(m, w, w + n * PAGE)
  {
  }

  lemma PageIndex(w: nat, n: nat, v: nat) returns (i: nat)
    requires w % PAGE == 0 && v % PAGE == 0 && w <= v < w + n * PAGE
    ensures i < n && v == w + i * PAGE
  {
    i := (v - w) / PAGE;
    WholePages(v, w);
  }

  lemma MixedUnowned(m: map<nat, nat>, w: nat, n: nat)
    requires PageKeys(m) && w % PAGE == 0 && Unowned(m, w, n)
    ensures Mixed(m, map[], w, n) == m
  {
    MixedGone(m, w, n);
    forall v | v in m ensures !(w <= v < w + n * PAGE) {
      if w <= v < w + n * PAGE {
        var i := PageIndex(w, n, v);
      }
    }
  }

  function FreshActs(w: nat, n: nat): seq<Act> {
    seq(n, i requires 0 <= i => Fresh(w + i * PAGE))
  }

  /** The frames the rounds took. */
  function FramesTaken(ps: seq<Paged>, n: nat): (fs: seq<nat>)
    requires n <= |ps|
    ensures |fs| == n
  {
    seq(n, i requires 0 <= i < n => FrameTaken(ps[i]))
  }

  lemma FreshSweeps(w: nat, n: nat)
    requires Window(w, n)
    ensures |FreshActs(w, n)| == n && Sweeps(FreshActs(w, n), w)
  {
    var acts := FreshActs(w, n);
    forall i | 0 <= i < |acts| ensures acts[i].v == w + i * PAGE && CanonicalPage(acts[i].v) {
      WindowPage(w, n, i);
    }
  }

  lemma FreshFits(ps: seq<Paged>, w: nat, n: nat, owned: map<nat, nat>)
    requires n < |ps| && w % PAGE == 0 && Unowned(owned, w, n)
    ensures var r := V.Range(w, FramesTaken(ps, n)); AllFit(ps, FreshActs(w, n), owned, r, r)
  {
    var fs := FramesTaken(ps, n);
    var r := V.Range(w, fs);
    forall i | 0 <= i < n ensures Fits(FreshActs(w, n)[i], ps[i], owned, r, r) {
      InRange(w, fs, i);
    }
  }

  lemma InjectiveIsFresh(owned: map<nat, nat>, w: nat, fs: seq<nat>)
    requires w % PAGE == 0 && Unowned(owned, w, |fs|) && V.Injective(owned + V.Range(w, fs)) && PageKeys(owned)
    ensures V.Fresh(owned, fs)
  {
    var m := owned + V.Range(w, fs);
    forall i, j | 0 <= i < j < |fs| ensures fs[i] != fs[j] {
      InRange(w, fs, i);
      InRange(w, fs, j);
      assert m[w + i * PAGE] != m[w + j * PAGE];
    }
    forall i, v | 0 <= i < |fs| && v in owned ensures owned[v] != fs[i] {
      InRange(w, fs, i);
      if v in V.Range(w, fs) {
        var j := PageIndex(w, |fs|, v);
      }
      assert m[v] != m[w + i * PAGE];
    }
  }

  /** A window mapped page by page on new frames. */
  lemma FreshLoop(ps: seq<Paged>, root: Frame, w: nat, n: nat, pages: map<nat, nat>, owned: map<nat, nat>)
    requires Rounds(ps, FreshActs(w, n), root) && Window(w, n) && Unowned(owned, w, n)
    requires Backed(ps[0], root, pages, owned) && PageKeys(pages) && PageKeys(owned)
    ensures var fs := FramesTaken(ps, n);
      V.Fresh(owned, fs) && Backed(ps[n], root, pages + V.Range(w, fs), owned + V.Range(w, fs))
  {
    var fs := FramesTaken(ps, n);
    FreshFits(ps, w, n, owned);
    FreshSweeps(w, n);
    LoopEffect(ps, FreshActs(w, n), root, w, pages, owned, V.Range(w, fs), V.Range(w, fs));
    MixedRange(pages, w, fs);
    MixedRange(owned, w, fs);
    InjectiveIsFresh(owned, w, fs);
  }

  function WriteActs(w: nat, ps: seq<nat>, flags: bv16): seq<Act> {
    seq(|ps|, i requires 0 <= i < |ps| => Write(w + i * PAGE, MapEntry(Word(ps[i]), flags)))
  }

  lemma WriteSweeps(w: nat, xs: seq<nat>, flags: bv16)
    requires Window(w, |xs|)
    ensures |WriteActs(w, xs, flags)| == |xs| && Sweeps(WriteActs(w, xs, flags), w)
  {
    var acts := WriteActs(w, xs, flags);
    forall i | 0 <= i < |acts| ensures acts[i].v == w + i * PAGE && CanonicalPage(acts[i].v) {
      WindowPage(w, |acts|, i);
    }
  }

  lemma WriteFits(qs: seq<Paged>, w: nat, xs: seq<nat>, flags: bv16, owned: map<nat, nat>)
    requires |xs| < |qs| && w % PAGE == 0 && Unowned(owned, w, |xs|)
    ensures AllFit(qs, WriteActs(w, xs, flags), owned, V.Range(w, xs), map[])
  {
    forall i | 0 <= i < |xs| ensures Fits(WriteActs(w, xs, flags)[i], qs[i], owned, V.Range(w, xs), map[]) {
      InRange(w, xs, i);
      MapTarget(Word(xs[i]), flags);
    }
  }

  lemma MappedLoop(ps: seq<Paged>, acts: seq<Act>, root: Frame, w: nat, xs: seq<nat>, pages: map<nat, nat>, owned: map<nat, nat>)
    requires Rounds(ps, acts, root) && Sweeps(acts, w) && w % PAGE == 0 && |acts| == |xs| && Unowned(owned, w, |xs|)
    requires AllFit(ps, acts, owned, V.Range(w, xs), map[])
    requires Backed(ps[0], root, pages, owned) && PageKeys(pages) && PageKeys(owned)
    ensures Backed(ps[|xs|], root, pages + V.Range(w, xs), owned)
  {
    LoopEffect(ps, acts, root, w, pages, owned, V.Range(w, xs), map[]);
    MixedRange(pages, w, xs);
    MixedUnowned(owned, w, |xs|);
  }

  /** A window mapped page by page to given addresses. */
  lemma WriteLoop(ps: seq<Paged>, root: Frame, w: nat, xs: seq<nat>, flags: bv16, pages: map<nat, nat>, owned: map<nat, nat>)
    requires Rounds(ps, WriteActs(w, xs, flags), root) && Window(w, |xs|) && Unowned(owned, w, |xs|)
    requires Backed(ps[0], root, pages, owned) && PageKeys(pages) && PageKeys(owned)
    ensures Backed(ps[|xs|], root, pages + V.Range(w, xs), owned)
  {
    WriteFits(ps, w, xs, flags, owned);
    WriteSweeps(w, xs, flags);
    MappedLoop(ps, WriteActs(w, xs, flags), root, w, xs, pages, owned);
  }

  lemma WriteLoopEntry(ps: seq<Paged>, q: Paged, root: Frame, w: nat, xs: seq<nat>, flags: bv16, i: nat, v: nat, e: bv64)
    requires Rounds(ps, WriteActs(w, xs, flags), root) && q == ps[|ps| - 1] && Window(w, |xs|) && i < |xs|
    requires v == w + i * PAGE && e == MapEntry(Word(xs[i]), flags)
    ensures HasEntry(q, root, v, e)
  {
    WriteSweeps(w, xs, flags);
    LoopEnds(ps, WriteActs(w, xs, flags), root, q, |xs|);
    LoopEntry(ps, WriteActs(w, xs, flags), root, w, i, |xs|, v, e);
  }

  /** What a range copy writes, given the source's entries (zero where the source has none). */
  function Copied(entries: map<nat, bv64>, flags: bv16, v: nat): bv64 {
    CopyEntry(if v in entries then entries[v] else 0, flags as bv64)
  }

  function CopyActs(w: nat, n: nat, entries: map<nat, bv64>, flags: bv16, missing: map<nat, nat>): seq<Act> {
    seq(n, i requires 0 <= i =>
      var v := w + i * PAGE;
      Copy(v, Copied(entries, flags, v), if v in missing then missing[v] else 0))
  }

  /** The mappings the copied entries stand for. */
  function Source(w: nat, n: nat, entries: map<nat, bv64>, flags: bv16): map<nat, nat> {
    map v | w <= v < w + n * PAGE && v % PAGE == 0 && IsPresent(Copied(entries, flags, v)) ::
      Number(Target(Copied(entries, flags, v)))
  }

  lemma CopySweeps(w: nat, n: nat, entries: map<nat, bv64>, flags: bv16, missing: map<nat, nat>)
    requires Window(w, n)
    ensures |CopyActs(w, n, entries, flags, missing)| == n && Sweeps(CopyActs(w, n, entries, flags, missing), w)
  {
    var acts := CopyActs(w, n, entries, flags, missing);
    forall i | 0 <= i < |acts| ensures acts[i].v == w + i * PAGE && CanonicalPage(acts[i].v) {
      WindowPage(w, n, i);
    }
  }

  lemma CopyFitsAll(ps: seq<Paged>, w: nat, n: nat, entries: map<nat, bv64>, flags: bv16, missing: map<nat, nat>, owned: map<nat, nat>)
    requires n < |ps| && w % PAGE == 0 && Unowned(owned, w, n)
    ensures AllFit(ps, CopyActs(w, n, entries, flags, missing), owned, Source(w, n, entries, flags), map[])
  {
    var src := Source(w, n, entries, flags);
    forall i | 0 <= i < n ensures Fits(CopyActs(w, n, entries, flags, missing)[i], ps[i], owned, src, map[]) {
      SourceAt(w, n, entries, flags, i);
    }
  }

  lemma SourceAt(w: nat, n: nat, entries: map<nat, bv64>, flags: bv16, i: nat)
    requires w % PAGE == 0 && i < n
    ensures var src, v, e := Source(w, n, entries, flags), w + i * PAGE, Copied(entries, flags, w + i * PAGE);
      (v in src <==> IsPresent(e)) && (v in src ==> Target(e) == Target(Word(src[v])))
  {
    WholePages(w, i * PAGE);
    TargetFrame(Copied(entries, flags, w + i * PAGE));
    TargetRound(Target(Copied(entries, flags, w + i * PAGE)));
  }

  /** A window given the entries of another structure. */
  lemma CopyLoop(ps: seq<Paged>, root: Frame, w: nat, n: nat, entries: map<nat, bv64>, flags: bv16, missing: map<nat, nat>,
                 pages: map<nat, nat>, owned: map<nat, nat>)
    requires Rounds(ps, CopyActs(w, n, entries, flags, missing), root) && Window(w, n) && Unowned(owned, w, n)
    requires Backed(ps[0], root, pages, owned) && PageKeys(pages) && PageKeys(owned)
    ensures Backed(ps[n], root, Mixed(pages, Source(w, n, entries, flags), w, n), owned)
  {
    CopyFitsAll(ps, w, n, entries, flags, missing, owned);
    CopySweeps(w, n, entries, flags, missing);
    LoopEffect(ps, CopyActs(w, n, entries, flags, missing), root, w, pages, owned, Source(w, n, entries, flags), map[]);
    MixedUnowned(owned, w, n);
  }

  lemma CopyLoopEntry(ps: seq<Paged>, q: Paged, root: Frame, w: nat, n: nat, entries: map<nat, bv64>, flags: bv16,
                      missing: map<nat, nat>, i: nat, v: nat, e: bv64)
    requires Rounds(ps, CopyActs(w, n, entries, flags, missing), root) && q == ps[|ps| - 1] && Window(w, n) && i < n
    requires v == w + i * PAGE && e == Copied(entries, flags, v)
    ensures HasEntry(q, root, v, e)
  {
    CopySweeps(w, n, entries, flags, missing);
    LoopEnds(ps, CopyActs(w, n, entries, flags, missing), root, q, n);
    LoopEntry(ps, CopyActs(w, n, entries, flags, missing), root, w, i, n, v, e);
  }

  /** The rounds of a deallocation; frames go back only where they are the region's own. */
  function UnmapActs(w: nat, n: nat, release: bool): seq<Act> {
    seq(n, i requires 0 <= i => if release then Release(w + i * PAGE) else Drop(w + i * PAGE))
  }

  lemma UnmapSweeps(w: nat, n: nat, release: bool)
    requires Window(w, n)
    ensures |UnmapActs(w, n, release)| == n && Sweeps(UnmapActs(w, n, release), w)
  {
    var acts := UnmapActs(w, n, release);
    forall i | 0 <= i < |acts| ensures acts[i].v == w + i * PAGE && CanonicalPage(acts[i].v) {
      WindowPage(w, n, i);
    }
  }

  lemma UnmapFits(ps: seq<Paged>, w: nat, n: nat, release: bool, owned: map<nat, nat>)
    requires n < |ps| && OwnedOrNot(owned, w, n, release)
    ensures AllFit(ps, UnmapActs(w, n, release), owned, map[], map[])
  {
  }

  /** A window unmapped page by page: owned pages lose their frames, and nothing else changes. */
  lemma UnmapLoop(ps: seq<Paged>, root: Frame, w: nat, n: nat, release: bool, pages: map<nat, nat>, owned: map<nat, nat>)
    requires Rounds(ps, UnmapActs(w, n, release), root) && Window(w, n)
    requires OwnedOrNot(owned, w, n, release)
    requires Backed(ps[0], root, pages, owned) && PageKeys(pages) && PageKeys(owned)
    ensures Backed(ps[n], root, V.Outside(pages, w, w + n * PAGE), V.Outside(owned, w, w + n * PAGE))
  {
    UnmapFits(ps, w, n, release, owned);
    UnmapSweeps(w, n, release);
    LoopEffect(ps, UnmapActs(w, n, release), root, w, pages, owned, map[], map[]);
    MixedGone(pages, w, n);
    MixedGone(owned, w, n);
  }

  lemma UnmapTables(ps: seq<Paged>, q: Paged, root: Frame, w: nat, n: nat, pages: map<nat, nat>, owned: map<nat, nat>)
    requires Rounds(ps, UnmapActs(w, n, true), root) && q == ps[|ps| - 1] && Window(w, n) && OwnedOrNot(owned, w, n, true)
    requires Backed(ps[0], root, pages, owned)
    ensures q.tables == ps[0].tables && q.others == ps[0].others
  {
    UnmapSweeps(w, n, true);
    UnmapFits(ps, w, n, true, owned);
    LoopEnds(ps, UnmapActs(w, n, true), root, q, n);
    ReleaseKeepsTables(ps, UnmapActs(w, n, true), root, w, n, pages, owned);
  }
}

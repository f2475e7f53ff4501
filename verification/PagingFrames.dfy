/** The paging operations on tables updated in place, with their frames from the frame allocator: each takes the
    round `Mapping` says, and a new structure is one the manager can boot on (kernel/HAL/x86-64/x64-memory.c). */
module PagingFrames {
  import opened PageTables
  import opened Paging
  import opened Words
  import opened Mapping
  import VmmRuns
  import VF = VmmFrames

  /** The allocator cannot give that many frames. */
  ghost predicate Short(f: F.State, n: nat) {
    F.Inv(f) && Draw(f, n).Exhausted?
  }

  /** The frames as the tables name them. */
  function FrameSeq(xs: seq<nat>): (fs: seq<Frame>)
    ensures |fs| == |xs|
  {
    seq(|xs|, i requires 0 <= i < |xs| => Frame(Word(xs[i])))
  }

  lemma WordsDiffer(x: nat, y: nat)
    requires LowFrame(x) && LowFrame(y) && Word(x) == Word(y)
    ensures x == y
  {
    NumberOfWord(x);
    NumberOfWord(y);
  }

  lemma FrameSeqSet(xs: seq<nat>)
    ensures Frames(FrameSeq(xs)) == Framed(Set(xs))
  {
    var fs := FrameSeq(xs);
    forall f | f in Frames(fs) ensures f in Framed(Set(xs)) {
      var i :| 0 <= i < |fs| && fs[i] == f;
      assert xs[i] in Set(xs);
    }
    forall f | f in Framed(Set(xs)) ensures f in Frames(fs) {
      var x :| x in Set(xs) && f == Frame(Word(x));
      var i :| 0 <= i < |xs| && xs[i] == x;
      assert fs[i] == f;
    }
  }

  /** Frames just drawn are none of the tables. */
  lemma DrawnUnused(tables: set<nat>, xs: seq<nat>)
    requires Distinct(xs) && Set(xs) !! tables
    requires (forall x | x in xs :: LowFrame(x)) && (forall x | x in tables :: LowFrame(x))
    ensures Unused(FrameSeq(xs), Framed(tables))
  {
    var fs := FrameSeq(xs);
    forall f | f in fs ensures IsFrame(f.address) && f !in Framed(tables) {
      var i :| 0 <= i < |fs| && fs[i] == f;
      FrameRound(xs[i], WRITABLE);
      assert xs[i] in Set(xs);
      if f in Framed(tables) {
        var x :| x in tables && f == Frame(Word(x));
        WordsDiffer(x, xs[i]);
      }
    }
    forall i, j | 0 <= i < j < |fs| ensures fs[i] != fs[j] {
      if fs[i] == fs[j] {
        WordsDiffer(xs[i], xs[j]);
      }
    }
  }

  lemma HeldAreLow(p: Paged, root: Frame, data: set<nat>)
    requires Account(p, root, data)
    ensures forall x | x in p.tables :: LowFrame(x)
  {
    forall x | x in p.tables ensures LowFrame(x) {
      HeldIsLow(p.frames, x);
    }
  }

  /** The frames a write of page `v` draws, ready to be handed out. */
  method DrawMissing(m: PagingMemory, root: Frame, v: nat, frames: F.State, ghost p: Paged, ghost data: set<nat>)
    returns (ok: bool, d: Drawn)
    requires Account(p, root, data) && p.mem == m.mem && p.frames == frames
    modifies m`pool
    ensures d == Draw(frames, Missing(m.mem, root, 4, RouteOf(Word(v)))) && ok == d.Drawn?
    ensures ok ==> m.Ready(root) && m.pool == FrameSeq(d.taken) && |d.taken| == Missing(m.mem, root, 4, RouteOf(Word(v)))
  {
    var n := Missing(m.mem, root, 4, RouteOf(Word(v)));
    d := Draw(frames, n);
    ok := d.Drawn?;
    if ok {
      DrawEffect(frames, n);
      HeldAreLow(p, root, data);
      DrawnUnused(p.tables, d.taken);
      m.pool := FrameSeq(d.taken);
    }
  }

  lemma TookIsWrote(mem: Memory, pool: seq<Frame>, mem': Memory, pool': seq<Frame>, root: Frame, taken: seq<nat>)
    requires pool == FrameSeq(taken) && Took(mem, pool, mem', pool', root, |taken|)
    ensures Tables(mem', root, 4) == Tables(mem, root, 4) + Framed(Set(taken))
  {
    assert pool[..|taken|] == pool;
    FrameSeqSet(taken);
  }

  /** paging_map with alloc_frame behind it: exactly the tables missing are drawn and exactly one page is written. */
  method MapPage(m: PagingMemory, root: Frame, v: nat, x: nat, flags: bv16, frames: F.State, ghost p: Paged, ghost data: set<nat>)
    returns (ok: bool, after: F.State, ghost q: Paged)
    requires Account(p, root, data) && p.mem == m.mem && p.frames == frames
    modifies m
    ensures ok ==> q.mem == m.mem && q.frames == after && Wrote(p, q, root, v, MapEntry(Word(x), flags))
    ensures !ok ==> Short(frames, Missing(p.mem, root, 4, RouteOf(Word(v))))
  {
    var d;
    q, after := p, frames;
    ok, d := DrawMissing(m, root, v, frames, p, data);
    if ok {
      ghost var pool := m.pool;
      ok := m.Map(root, Word(v), Word(x), flags);
      TookIsWrote(p.mem, pool, m.mem, m.pool, root, d.taken);
      after := d.frames;
      q := Paged(d.frames, m.mem, p.tables + Set(d.taken), p.others);
    }
  }

  /** invalidate_paging_mapping likewise. */
  method DropPage(m: PagingMemory, root: Frame, v: nat, frames: F.State, ghost p: Paged, ghost data: set<nat>)
    returns (ok: bool, after: F.State, ghost q: Paged)
    requires Account(p, root, data) && p.mem == m.mem && p.frames == frames
    modifies m
    ensures ok ==> q.mem == m.mem && q.frames == after && Wrote(p, q, root, v, Absent(EntryOf(p.mem, root, v)))
    ensures !ok ==> Short(frames, Missing(p.mem, root, 4, RouteOf(Word(v))))
  {
    var d;
    q, after := p, frames;
    ok, d := DrawMissing(m, root, v, frames, p, data);
    if ok {
      ghost var pool := m.pool;
      ok := m.Invalidate(root, Word(v));
      TookIsWrote(p.mem, pool, m.mem, m.pool, root, d.taken);
      after := d.frames;
      q := Paged(d.frames, m.mem, p.tables + Set(d.taken), p.others);
    }
  }

  /** A round of allocation or expansion: alloc_frame, then paging_map. */
  method FreshPage(m: PagingMemory, root: Frame, v: nat, frames: F.State, ghost p: Paged, ghost data: set<nat>)
    returns (ok: bool, after: F.State, ghost q: Paged)
    requires Account(p, root, data) && p.mem == m.mem && p.frames == frames
    modifies m
    ensures ok ==> q.mem == m.mem && q.frames == after && Round(p, Fresh(v), q, root)
    ensures !ok ==> F.Alloc(frames).Panic? || Short(F.Alloc(frames).state, Missing(p.mem, root, 4, RouteOf(Word(v))))
  {
    var r := F.Alloc(frames);
    ok, after, q := false, frames, p;
    if r.Granted? {
      AllocAccount(p, root, data);
      ok, after, q := MapPage(m, root, v, r.frame, WRITABLE, r.state, p.(frames := r.state), data + {r.frame});
    }
  }

  /** A round of deallocation: get_physical_address, dealloc_frame, then invalidate_paging_mapping. */
  method ReleasePage(m: PagingMemory, root: Frame, v: nat, frames: F.State, ghost p: Paged,
                     ghost pages: map<nat, nat>, ghost owned: map<nat, nat>)
    returns (ok: bool, after: F.State, ghost q: Paged)
    requires Backed(p, root, pages, owned) && p.mem == m.mem && p.frames == frames && CanonicalPage(v) && v in owned
    modifies m
    ensures ok && q.mem == m.mem && q.frames == after && Round(p, Release(v), q, root)
  {
    var s := m.GetPhysical(root, Word(v));
    OwnedPage(p, v, root, pages, owned);
    assert owned[v] in owned.Values;
    DeallocAccount(p, root, owned.Values, owned[v]);
    var r := F.Dealloc(frames, Number(s.paddr));
    ok, after, q := DropPage(m, root, v, r.state, p.(frames := r.state), owned.Values - {owned[v]});
  }

  /** The tables of another structure: frames that are held, or none of the allocator's. */
  ghost predicate Foreign(p: Paged, src: Frame, tables: set<nat>) {
    && Tree(p.mem, src, 4) && Tables(p.mem, src, 4) == Framed(tables) && tables !! p.tables
    && forall x | x in tables :: LowFrame(x) && (x in p.frames.live || !FrameRuns.Owned(p.frames, x))
  }

  lemma FramedApart(a: set<nat>, b: set<nat>)
    requires a !! b && (forall x | x in a :: LowFrame(x)) && (forall x | x in b :: LowFrame(x))
    ensures Framed(a) !! Framed(b)
  {
    forall f | f in Framed(a) && f in Framed(b) ensures false {
      var x :| x in a && f == Frame(Word(x));
      var y :| y in b && f == Frame(Word(y));
      WordsDiffer(x, y);
    }
  }

  /** Whatever the allocator hands out was its own. */
  lemma {:induction false} DrawnWereOwned(f: F.State, n: nat, x: nat)
    requires Allocator(f) && Draw(f, n).Drawn? && x in Draw(f, n).taken
    ensures FrameRuns.Owned(f, x)
    decreases n
  {
    AllocKeeps(f);
    FrameRuns.AllocEffect(f);
    var r := F.Alloc(f);
    if x != r.frame {
      DrawnWereOwned(r.state, n - 1, x);
      FrameRuns.TakeKeepsOwned(f, x);
    }
  }

  lemma DrawStep(f: F.State, n: nat) returns (g: F.State)
    requires Allocator(f) && n > 0 && Draw(f, n).Drawn?
    ensures F.Alloc(f).Granted? && g == F.Alloc(f).state && Allocator(g)
    ensures Draw(g, n - 1).Drawn? && Draw(f, n).frames == Draw(g, n - 1).frames
  {
    AllocKeeps(f);
    g := F.Alloc(f).state;
  }

  lemma {:induction false} DrawKeepsOwned(f: F.State, n: nat, x: nat)
    requires Allocator(f) && Draw(f, n).Drawn?
    ensures FrameRuns.Owned(Draw(f, n).frames, x) <==> FrameRuns.Owned(f, x)
    decreases n
  {
    if n > 0 {
      var g := DrawStep(f, n);
      FrameRuns.TakeKeepsOwned(f, x);
      DrawKeepsOwned(g, n - 1, x);
    }
  }

  /** Frames drawn twice over are as if drawn at once. */
  lemma DrawnJoin(live: set<nat>, a: nat, xs: seq<nat>, mid: set<nat>, b: nat, ys: seq<nat>, after: set<nat>)
    requires WellDrawn(live, a, xs, mid) && WellDrawn(mid, b, ys, after)
    ensures WellDrawn(live, a + b, xs + ys, after)
  {
    assert Set(xs + ys) == Set(xs) + Set(ys);
    forall i, j | 0 <= i < j < |xs + ys| ensures (xs + ys)[i] != (xs + ys)[j] {
      assert i < a ==> xs[i] in Set(xs);
      assert j >= a ==> ys[j - a] in Set(ys);
    }
  }

  /** No frame drawn, now or after `n` others, is one of the other structure's. */
  lemma NotForeign(p: Paged, src: Frame, tables: set<nat>, n: nat, x: nat)
    requires Allocator(p.frames) && Foreign(p, src, tables) && Draw(p.frames, n).Drawn?
    requires x !in p.frames.live && FrameRuns.Owned(Draw(p.frames, n).frames, x)
    ensures x !in tables
  {
    DrawKeepsOwned(p.frames, n, x);
  }

  lemma BothForeign(p: Paged, src: Frame, tables: set<nat>, a: nat, b: nat)
    requires Allocator(p.frames) && Foreign(p, src, tables)
    requires Draw(p.frames, a).Drawn? && F.Inv(Draw(p.frames, a).frames) && Draw(Draw(p.frames, a).frames, b).Drawn?
    ensures Set(Draw(p.frames, a).taken + Draw(Draw(p.frames, a).frames, b).taken) !! tables
  {
    var xs, mid := Draw(p.frames, a).taken, Draw(p.frames, a).frames;
    DrawEffect(p.frames, a);
    DrawEffect(mid, b);
    var ys := Draw(mid, b).taken;
    forall x | x in xs ensures x !in tables {
      assert x in Set(xs);
      DrawnWereOwned(p.frames, a, x);
    }
    forall y | y in ys ensures y !in tables {
      assert y in Set(ys);
      DrawnWereOwned(mid, b, y);
      NotForeign(p, src, tables, a, y);
    }
  }

  /** The frames drawn for both structures can be handed out for either. */
  lemma BothUnused(p: Paged, root: Frame, data: set<nat>, src: Frame, tables: set<nat>, a: nat, b: nat)
    requires Account(p, root, data) && Foreign(p, src, tables)
    requires Draw(p.frames, a).Drawn? && F.Inv(Draw(p.frames, a).frames) && Draw(Draw(p.frames, a).frames, b).Drawn?
    ensures var xs, ys := Draw(p.frames, a).taken, Draw(Draw(p.frames, a).frames, b).taken;
      && |xs| == a && |ys| == b
      && Unused(FrameSeq(xs + ys), Framed(p.tables)) && Unused(FrameSeq(xs + ys), Framed(tables)) && Framed(tables) !! Framed(p.tables)
  {
    DrawEffect(p.frames, a);
    var d := Draw(p.frames, a);
    DrawEffect(d.frames, b);
    var e := Draw(d.frames, b);
    DrawnJoin(p.frames.live, a, d.taken, d.frames.live, b, e.taken, e.frames.live);
    BothForeign(p, src, tables, a, b);
    HeldAreLow(p, root, data);
    DrawnUnused(p.tables, d.taken + e.taken);
    DrawnUnused(tables, d.taken + e.taken);
    FramedApart(tables, p.tables);
  }

  lemma FrameSeqSplits(xs: seq<nat>, ys: seq<nat>)
    ensures FrameSeq(xs + ys)[|xs|..|xs| + |ys|] == FrameSeq(ys)
  {
  }

  lemma BothIsWrote(mem: Memory, pool: seq<Frame>, mem': Memory, pool': seq<Frame>, src: Frame, root: Frame, xs: seq<nat>, ys: seq<nat>)
    requires pool == FrameSeq(xs + ys) && TookBoth(mem, pool, mem', pool', src, root, |xs|, |ys|)
    ensures Tables(mem', root, 4) == Tables(mem, root, 4) + Framed(Set(ys))
  {
    FrameSeqSplits(xs, ys);
    FrameSeqSet(ys);
  }

  /** The frames drawn for both structures at a page, the source's first. */
  method DrawBoth(m: PagingMemory, src: Frame, root: Frame, ns: nat, nd: nat, frames: F.State,
                  ghost p: Paged, ghost data: set<nat>, ghost tables: set<nat>)
    returns (ok: bool, xs: Drawn, ys: Drawn)
    requires Account(p, root, data) && p.mem == m.mem && p.frames == frames && Foreign(p, src, tables)
    modifies m`pool
    ensures ok ==> xs == Draw(frames, ns) && xs.Drawn? && F.Inv(xs.frames) && ys == Draw(xs.frames, nd) && ys.Drawn?
    ensures ok ==> |xs.taken| == ns && |ys.taken| == nd && m.pool == FrameSeq(xs.taken + ys.taken) && m.Apart(src, root)
    ensures !ok ==> xs == Draw(frames, ns) && (xs.Exhausted? || Short(xs.frames, nd))
  {
    xs := Draw(frames, ns);
    ok, ys := false, Exhausted;
    if xs.Drawn? {
      DrawEffect(frames, ns);
      ys := Draw(xs.frames, nd);
      if ys.Drawn? {
        ok := true;
        BothUnused(p, root, data, src, tables, ns, nd);
        m.pool := FrameSeq(xs.taken + ys.taken);
      }
    }
  }

  /** A round of the mapping copy: both structures are given the tables they lack, and one page is copied. */
  method CopyRound(m: PagingMemory, src: Frame, root: Frame, v: nat, flags: bv16, frames: F.State,
                   ghost p: Paged, ghost data: set<nat>, ghost tables: set<nat>)
    returns (ok: bool, after: F.State, ghost q: Paged)
    requires Account(p, root, data) && p.mem == m.mem && p.frames == frames && Foreign(p, src, tables)
    modifies m
    ensures ok ==> q.mem == m.mem && q.frames == after
    ensures !ok ==> var d := Draw(frames, Missing(p.mem, src, 4, RouteOf(Word(v))));
              d.Exhausted? || Short(d.frames, Missing(p.mem, root, 4, RouteOf(Word(v))))
    ensures ok ==> Round(p, Copy(v, CopyEntry(EntryOf(p.mem, src, v), flags as bv64), Missing(p.mem, src, 4, RouteOf(Word(v)))), q, root)
  {
    var ns, nd := Missing(m.mem, src, 4, RouteOf(Word(v))), Missing(m.mem, root, 4, RouteOf(Word(v)));
    var xs, ys;
    q, after := p, frames;
    ok, xs, ys := DrawBoth(m, src, root, ns, nd, frames, p, data, tables);
    if ok {
      ghost var pool := m.pool;
      ok := m.CopyPage(src, root, Word(v), flags as bv64);
      BothIsWrote(p.mem, pool, m.mem, m.pool, src, root, xs.taken, ys.taken);
      after := ys.frames;
      q := Paged(ys.frames, m.mem, p.tables + Set(ys.taken), p.others + Set(xs.taken));
    }
  }

  // ----------------------------------------------------------- boot

  lemma FirstFrames(xs: seq<nat>, tables: set<Frame>)
    requires |xs| >= 514 && Unused(FrameSeq(xs), {}) && Unused(FrameSeq(xs)[514..], tables)
    requires tables + Frames(FrameSeq(xs)[513..]) == Frames(FrameSeq(xs)) && FrameSeq(xs)[513] !in tables
    ensures tables == Framed(Set(xs[..513]))
  {
    var fs := FrameSeq(xs);
    assert fs == fs[..513] + fs[513..] && fs[513..] == [fs[513]] + fs[514..];
    forall f | f in fs[..513] ensures f !in fs[513..] {
    }
    assert tables == Frames(fs[..513]);
    assert FrameSeq(xs[..513]) == fs[..513];
    FrameSeqSet(xs[..513]);
  }

  lemma BootShares(live: set<nat>, xs: seq<nat>, after: set<nat>)
    requires |xs| == 514 && WellDrawn(live, 514, xs, after)
    ensures Shares(after, live + {xs[513]}, {}, Set(xs[..513]))
  {
    assert xs == xs[..513] + [xs[513]];
    assert xs[513] in Set(xs);
  }

  /** create_empty_kernel_paging_structure on any allocator with 514 frames to give: a machine the manager boots on. */
  method Start(m: PagingMemory, frames: F.State) returns (ok: bool, b: VF.Machine)
    requires Allocator(frames)
    modifies m
    ensures ok == Draw(frames, 514).Drawn?
    ensures ok ==> VF.Boot(b) && b.paged.mem == m.mem && frames.live < b.paged.others
  {
    b := VF.Machine(VmmRuns.START, Paged(frames, m.mem, {}, {}), Frame(0));
    var d := Draw(frames, 514);
    ok := d.Drawn?;
    if ok {
      DrawEffect(frames, 514);
      DrawnUnused({}, d.taken);
      m.pool := FrameSeq(d.taken);
      var root;
      ok, root := m.NewStructure();
      FirstFrames(d.taken, Tables(m.mem, root, 4));
      BootShares(frames.live, d.taken, d.frames.live);
      b := VF.Machine(VmmRuns.START, Paged(d.frames, m.mem, Set(d.taken[..513]), frames.live + {d.taken[513]}), root);
    }
  }
}

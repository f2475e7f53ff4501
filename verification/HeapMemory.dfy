/** How the heap's state lies in memory: boundary tags around every chunk and, inside
    every free payload, the two links of its bucket list (kernel/mem/heap.h). */
module HeapMemory {
  import opened Basics
  import opened HeapModel
  import opened HeapProofs

  type Word = x: nat | x < TWO64

  /** A header word: the payload size in bytes, the free and wilderness flags below it. */
  function Header(c: Chunk, wild: bool): nat {
    8 * c.n + (if c.free then 1 else 0) + (if wild then 2 else 0)
  }

  function SizeOf(w: Word): nat {
    w / 8
  }

  predicate FreeBit(w: Word) {
    w % 2 == 1
  }

  predicate WildBit(w: Word) {
    w / 2 % 2 == 1
  }

  /** A header word decoded. */
  lemma HeaderBits(c: Chunk, wild: bool, w: Word)
    requires w == Header(c, wild)
    ensures SizeOf(w) == c.n && FreeBit(w) == c.free && WildBit(w) == wild
  {
  }

  /** The plain header is the size in bytes; the free flag is bit 0, that of the wilderness bit 1. */
  lemma HeaderFlags(n: nat, free: bool, wild: bool)
    ensures Header(Chunk(n, false), false) == 8 * n
    ensures Header(Chunk(n, true), wild) == Header(Chunk(n, false), wild) + 1
    ensures Header(Chunk(n, free), true) == Header(Chunk(n, free), false) + 2
  {
  }

  ghost predicate Tagged(m: seq<Word>, c: Chunks, wild: nat, a: nat)
    requires a in c
  {
    && Next(c, a) <= |m|
    && m[a] == Header(c[a], a == wild)
    && m[Next(c, a) - 1] == 8 * c[a].n
  }

  ghost predicate Tags(m: seq<Word>, c: Chunks, wild: nat) {
    forall a {:trigger Tagged(m, c, wild, a)} | a in c :: Tagged(m, c, wild, a)
  }

  function Head(l: seq<nat>): nat {
    if l == [] then 0 else l[0]
  }

  function After(l: seq<nat>, k: nat): nat {
    if k + 1 < |l| then l[k + 1] else 0
  }

  function Before(l: seq<nat>, k: nat): nat
    requires k < |l|
  {
    if k > 0 then l[k - 1] else 0
  }

  ghost predicate LinkedAt(m: seq<Word>, l: seq<nat>, k: nat)
    requires k < |l|
  {
    && l[k] + 2 < |m|
    && m[l[k] + 1] == After(l, k)
    && m[l[k] + 2] == Before(l, k)
  }

  ghost predicate Chained(m: seq<Word>, l: seq<nat>) {
    forall k | 0 <= k < |l| :: LinkedAt(m, l, k)
  }

  ghost predicate Linked(m: seq<Word>, heads: seq<Word>, lists: Lists) {
    && |heads| == |lists| == BUCKETS
    && (forall b | 0 <= b < BUCKETS :: heads[b] == Head(lists[b]))
    && (forall b | 0 <= b < BUCKETS :: Chained(m, lists[b]))
  }

  ghost function FreeSet(c: Chunks): set<nat> {
    set a | a in c && c[a].free
  }

  /** Only link words of the given chunks may differ. */
  ghost predicate SameButLinks(m: seq<Word>, m': seq<Word>, nodes: set<nat>) {
    && |m'| == |m|
    && forall w: nat | w < |m| && (w < 1 || w - 1 !in nodes) && (w < 2 || w - 2 !in nodes) :: m'[w] == m[w]
  }

  /** Only words of [lo, hi) may differ. */
  ghost predicate SameOutside(m: seq<Word>, m': seq<Word>, lo: nat, hi: nat) {
    && |m'| == |m|
    && forall w: nat | w < |m| && !(lo <= w < hi) :: m'[w] == m[w]
  }

  ghost predicate PayloadKept(m: seq<Word>, m': seq<Word>, c: Chunks, a: nat)
    requires |m'| == |m| && a in c
  {
    forall w: nat | a < w < Next(c, a) - 1 && w < |m| :: m'[w] == m[w]
  }

  /** No word of an allocated payload differs. */
  ghost predicate PayloadsKept(m: seq<Word>, m': seq<Word>, c: Chunks) {
    && |m'| == |m|
    && forall a {:trigger PayloadKept(m, m', c, a)} | a in c && !c[a].free :: PayloadKept(m, m', c, a)
  }

  ghost predicate Spaced(nodes: set<nat>) {
    && (forall x | x in nodes :: 0 < x)
    && (forall x, y | x in nodes && y in nodes && x < y :: x + 4 <= y)
  }

  /** The lists are chains of distinct nodes, none of them on two lists. */
  ghost predicate Separate(lists: Lists, nodes: set<nat>) {
    && |lists| == BUCKETS
    && (forall b, x | 0 <= b < BUCKETS && x in lists[b] :: x in nodes)
    && (forall b | 0 <= b < BUCKETS :: NoDup(lists[b]))
    && (forall b, b', x | 0 <= b < BUCKETS && 0 <= b' < BUCKETS && x in lists[b] && x in lists[b'] :: b == b')
  }

  // ----------------------------------------------------------- frames

  lemma TiledSpaced(c: Chunks, lo: nat, hi: nat, wild: nat)
    requires Tiled(c, lo, hi, wild)
    ensures Spaced(FreeSet(c))
  {
    forall x, y | x in FreeSet(c) && y in FreeSet(c) && x < y ensures x + 4 <= y {
      InOrder(c, lo, hi, wild, x, y);
    }
  }

  lemma IndexedSeparate(lists: Lists, c: Chunks, wild: nat, loose: set<nat>)
    requires Indexed(lists, c, wild, loose)
    ensures Separate(lists, FreeSet(c) - loose)
  {
    forall b, b', x | 0 <= b < BUCKETS && 0 <= b' < BUCKETS && x in lists[b] && x in lists[b']
      ensures b == b'
    {
      assert Belongs(c, wild, loose, x, b) && Belongs(c, wild, loose, x, b');
    }
    forall b, x | 0 <= b < BUCKETS && x in lists[b] ensures x in FreeSet(c) - loose {
      assert Belongs(c, wild, loose, x, b);
    }
  }

  /** No link word of a free chunk is a tag, or inside another chunk. */
  lemma LinksApart(c: Chunks, lo: nat, hi: nat, wild: nat, x: nat, a: nat)
    requires Tiled(c, lo, hi, wild) && x in FreeSet(c) && a in c
    ensures x != a ==> x + 2 < a || Next(c, a) <= x
    ensures x == a ==> x + 2 < Next(c, a) - 1
  {
    if x != a {
      InOrder(c, lo, hi, wild, x, a);
    }
  }

  lemma LinksKeepTags(m: seq<Word>, m': seq<Word>, c: Chunks, lo: nat, hi: nat, wild: nat, nodes: set<nat>)
    requires Tiled(c, lo, hi, wild) && Tags(m, c, wild) && SameButLinks(m, m', nodes) && nodes <= FreeSet(c)
    ensures Tags(m', c, wild) && PayloadsKept(m, m', c)
  {
    forall a {:trigger Tagged(m', c, wild, a)} | a in c
      ensures Tagged(m', c, wild, a)
    {
      assert Tagged(m, c, wild, a);
      forall x | x in nodes
        ensures x + 1 != a && x + 2 != a && x + 1 != Next(c, a) - 1 && x + 2 != Next(c, a) - 1
      {
        LinksApart(c, lo, hi, wild, x, a);
      }
    }
    forall a {:trigger PayloadKept(m, m', c, a)} | a in c && !c[a].free
      ensures PayloadKept(m, m', c, a)
    {
      forall x | x in nodes ensures x + 2 < a || Next(c, a) <= x {
        LinksApart(c, lo, hi, wild, x, a);
      }
    }
  }

  /** Writing inside the extent of `a` leaves the chains of the other chunks alone. */
  lemma TagWritesKeepLinks(m: seq<Word>, m': seq<Word>, heads: seq<Word>, lists: Lists, lo: nat, hi: nat)
    requires Linked(m, heads, lists) && SameOutside(m, m', lo, hi)
    requires forall b, x | 0 <= b < BUCKETS && x in lists[b] :: x + 2 < lo || hi <= x
    ensures Linked(m', heads, lists)
  {
    forall b | 0 <= b < BUCKETS ensures Chained(m', lists[b]) {
      forall k | 0 <= k < |lists[b]| ensures LinkedAt(m', lists[b], k) {
        assert lists[b][k] in lists[b];
        assert LinkedAt(m, lists[b], k);
      }
    }
  }

  // ----------------------------------------------------------- unlinking

  lemma {:induction false} WithoutAt(l: seq<nat>, k: nat)
    requires k < |l| && NoDup(l)
    ensures Without(l, l[k]) == l[..k] + l[k + 1..]
  {
    if k > 0 {
      assert l[1..][k - 1] == l[k] && l[0] != l[k];
      assert NoDup(l[1..]);
      WithoutAt(l[1..], k - 1);
      assert l[1..][..k - 1] == l[1..k] && l[1..][k..] == l[k + 1..];
      assert [l[0]] + l[1..k] == l[..k];
    }
  }

  lemma {:induction false} WithoutAbsent(l: seq<nat>, a: nat)
    requires a !in l
    ensures Without(l, a) == l
  {
    if l != [] {
      assert a !in l[1..];
      WithoutAbsent(l[1..], a);
    }
  }

  /** The words after unlinking the node between `p` and `n`. */
  ghost function Unlinked(m: seq<Word>, a: nat, p: nat, n: nat): seq<Word>
    requires a + 2 < |m| && p + 2 < |m| && n + 2 < |m| && p < TWO64 && n < TWO64
  {
    var m1 := if p != 0 then m[p + 1 := n] else m;
    var m2 := if n != 0 then m1[n + 2 := p] else m1;
    m2[a + 1 := 0][a + 2 := 0]
  }

  lemma UnlinkChain(m: seq<Word>, l: seq<nat>, nodes: set<nat>, k: nat)
    requires Spaced(nodes) && NoDup(l) && (forall x | x in l :: x in nodes) && Chained(m, l) && k < |l|
    requires |m| < TWO63
    ensures l[k] + 2 < |m| && After(l, k) + 2 < |m| && Before(l, k) + 2 < |m|
    ensures Chained(Unlinked(m, l[k], Before(l, k), After(l, k)), l[..k] + l[k + 1..])
  {
    assert LinkedAt(m, l, k);
    assert k > 0 ==> LinkedAt(m, l, k - 1);
    assert k + 1 < |l| ==> LinkedAt(m, l, k + 1);
    var m' := Unlinked(m, l[k], Before(l, k), After(l, k));
    var l' := l[..k] + l[k + 1..];
    forall j | 0 <= j < |l'| ensures LinkedAt(m', l', j) {
      var i := if j < k then j else j + 1;
      assert l'[j] == l[i] && l[i] in l && l[k] in l;
      assert LinkedAt(m, l, i);
      UnlinkAt(m, l, nodes, k, i);
    }
  }

  /** What unlinking position `k` leaves at position `i`. */
  lemma UnlinkAt(m: seq<Word>, l: seq<nat>, nodes: set<nat>, k: nat, i: nat)
    requires Spaced(nodes) && NoDup(l) && (forall x | x in l :: x in nodes) && Chained(m, l)
    requires k < |l| && i < |l| && i != k && |m| < TWO63
    requires l[k] + 2 < |m| && After(l, k) + 2 < |m| && Before(l, k) + 2 < |m|
    ensures l[i] + 2 < |m|
    ensures var m' := Unlinked(m, l[k], Before(l, k), After(l, k));
      && m'[l[i] + 1] == (if i + 1 == k then After(l, k) else After(l, i))
      && m'[l[i] + 2] == (if i == k + 1 then Before(l, k) else Before(l, i))
  {
    assert LinkedAt(m, l, i);
    assert l[i] in l && l[k] in l;
    assert k > 0 ==> l[k - 1] in l;
    assert k + 1 < |l| ==> l[k + 1] in l;
  }

  lemma UnlinkOther(m: seq<Word>, l: seq<nat>, nodes: set<nat>, a: nat, p: nat, n: nat)
    requires Spaced(nodes) && (forall x | x in l :: x in nodes) && Chained(m, l)
    requires a in nodes && a !in l
    requires p != 0 ==> p in nodes && p !in l
    requires n != 0 ==> n in nodes && n !in l
    requires |m| < TWO63 && a + 2 < |m| && p + 2 < |m| && n + 2 < |m|
    ensures Chained(Unlinked(m, a, p, n), l)
  {
    forall j | 0 <= j < |l| ensures LinkedAt(Unlinked(m, a, p, n), l, j) {
      assert l[j] in l;
      assert LinkedAt(m, l, j);
    }
  }

  lemma UnlinkSame(m: seq<Word>, nodes: set<nat>, a: nat, p: nat, n: nat)
    requires a in nodes && (p != 0 ==> p in nodes) && (n != 0 ==> n in nodes)
    requires |m| < TWO63 && a + 2 < |m| && p + 2 < |m| && n + 2 < |m|
    ensures SameButLinks(m, Unlinked(m, a, p, n), nodes)
  {
  }

  lemma UnlinkChains(m: seq<Word>, lists: Lists, nodes: set<nat>, b: nat, k: nat, j: nat, m': seq<Word>)
    requires Spaced(nodes) && Separate(lists, nodes) && b < BUCKETS && j < BUCKETS && k < |lists[b]| && |m| < TWO63
    requires Chained(m, lists[b]) && Chained(m, lists[j])
    requires var l := lists[b];
      && l[k] + 2 < |m| && After(l, k) + 2 < |m| && Before(l, k) + 2 < |m|
      && m' == Unlinked(m, l[k], Before(l, k), After(l, k))
    ensures Chained(m', Unlist(lists, b, lists[b][k])[j])
  {
    var l := lists[b];
    assert l[k] in l && (k > 0 ==> l[k - 1] in l) && (k + 1 < |l| ==> l[k + 1] in l);
    if j == b {
      UnlinkChain(m, l, nodes, k);
      WithoutAt(l, k);
    } else {
      UnlinkOther(m, lists[j], nodes, l[k], Before(l, k), After(l, k));
    }
  }

  lemma UnlinkHead(heads: seq<Word>, lists: Lists, b: nat, k: nat, j: nat)
    requires |lists| == BUCKETS == |heads| && b < BUCKETS && j < BUCKETS && k < |lists[b]| && NoDup(lists[b])
    requires (forall i | 0 <= i < BUCKETS :: heads[i] == Head(lists[i])) && After(lists[b], k) < TWO64
    ensures (if k == 0 then heads[b := After(lists[b], k)] else heads)[j] == Head(Unlist(lists, b, lists[b][k])[j])
  {
    WithoutAt(lists[b], k);
  }

  /** Unlinking the node at position `k` of bucket `b` leaves every chain in order. */
  lemma UnlinkLinked(m: seq<Word>, heads: seq<Word>, lists: Lists, nodes: set<nat>, b: nat, k: nat)
    requires Spaced(nodes) && Separate(lists, nodes) && Linked(m, heads, lists) && |m| < TWO63
    requires b < BUCKETS && k < |lists[b]|
    ensures var l := lists[b];
      l[k] + 2 < |m| && After(l, k) + 2 < |m| && Before(l, k) + 2 < |m|
    ensures var l := lists[b];
      var m' := Unlinked(m, l[k], Before(l, k), After(l, k));
      && SameButLinks(m, m', nodes)
      && Linked(m', if k == 0 then heads[b := After(l, k)] else heads, Unlist(lists, b, l[k]))
  {
    var l := lists[b];
    assert Chained(m, l);
    UnlinkChain(m, l, nodes, k);
    assert l[k] in l && (k > 0 ==> l[k - 1] in l) && (k + 1 < |l| ==> l[k + 1] in l);
    UnlinkSame(m, nodes, l[k], Before(l, k), After(l, k));
    forall j | 0 <= j < BUCKETS
      ensures Chained(Unlinked(m, l[k], Before(l, k), After(l, k)), Unlist(lists, b, l[k])[j])
      ensures (if k == 0 then heads[b := After(l, k)] else heads)[j] == Head(Unlist(lists, b, l[k])[j])
    {
      assert Chained(m, lists[j]);
      UnlinkChains(m, lists, nodes, b, k, j, Unlinked(m, l[k], Before(l, k), After(l, k)));
      UnlinkHead(heads, lists, b, k, j);
    }
  }

  /** The words after putting `a` in front of the chain that starts at `h`. */
  ghost function Pushed(m: seq<Word>, a: nat, h: nat): seq<Word>
    requires a + 2 < |m| && h + 2 < |m| && a < TWO64 && h < TWO64
  {
    var m1 := m[a + 2 := 0][a + 1 := h];
    if h != 0 then m1[h + 2 := a] else m1
  }

  lemma PushChain(m: seq<Word>, l: seq<nat>, nodes: set<nat>, a: nat)
    requires Spaced(nodes) && NoDup(l) && (forall x | x in l :: x in nodes) && Chained(m, l)
    requires a in nodes && a !in l && a + 2 < |m| < TWO63
    ensures Head(l) + 2 < |m|
    ensures Chained(Pushed(m, a, Head(l)), [a] + l)
  {
    if l != [] {
      assert LinkedAt(m, l, 0) && l[0] in l;
    }
    var m' := Pushed(m, a, Head(l));
    var l' := [a] + l;
    forall j | 0 <= j < |l'| ensures LinkedAt(m', l', j) {
      if j > 0 {
        assert LinkedAt(m, l, j - 1) && l[j - 1] in l;
        assert l'[j] == l[j - 1];
      }
    }
  }

  lemma PushOther(m: seq<Word>, l: seq<nat>, nodes: set<nat>, a: nat, h: nat)
    requires Spaced(nodes) && (forall x | x in l :: x in nodes) && Chained(m, l)
    requires a in nodes && a !in l && (h != 0 ==> h in nodes && h !in l)
    requires |m| < TWO63 && a + 2 < |m| && h + 2 < |m|
    ensures Chained(Pushed(m, a, h), l)
  {
    forall j | 0 <= j < |l| ensures LinkedAt(Pushed(m, a, h), l, j) {
      assert l[j] in l;
      assert LinkedAt(m, l, j);
    }
  }

  lemma PushLinked(m: seq<Word>, heads: seq<Word>, lists: Lists, nodes: set<nat>, b: nat, a: nat)
    requires Spaced(nodes) && Separate(lists, nodes) && Linked(m, heads, lists)
    requires b < BUCKETS && a in nodes && a + 2 < |m| < TWO63
    requires forall j | 0 <= j < BUCKETS :: a !in lists[j]
    ensures heads[b] + 2 < |m|
    ensures SameButLinks(m, Pushed(m, a, heads[b]), nodes)
    ensures Linked(Pushed(m, a, heads[b]), heads[b := a], PushFront(lists, b, a))
  {
    var l := lists[b];
    assert Chained(m, l);
    PushChain(m, l, nodes, a);
    assert l != [] ==> l[0] in l;
    var m' := Pushed(m, a, heads[b]);
    var lists' := PushFront(lists, b, a);
    forall j | 0 <= j < BUCKETS ensures Chained(m', lists'[j]) {
      if j != b {
        assert Chained(m, lists[j]);
        PushOther(m, lists[j], nodes, a, heads[b]);
      }
    }
  }

  // ----------------------------------------------------------- tag writes

  /** Writing inside the extent of free chunks touches no allocated payload. */
  lemma FreeExtentKept(m: seq<Word>, m': seq<Word>, c: Chunks, lo: nat, hi: nat, wild: nat, a: nat, end: nat)
    requires Tiled(c, lo, hi, wild) && a in c && a < end
    requires SameOutside(m, m', a, end)
    requires forall x | x in c && !c[x].free :: x < a || end <= x
    ensures PayloadsKept(m, m', c)
  {
    forall x {:trigger PayloadKept(m, m', c, x)} | x in c && !c[x].free
      ensures PayloadKept(m, m', c, x)
    {
      InOrder(c, lo, hi, wild, x, a);
    }
  }

  lemma CarveTags(m: seq<Word>, m': seq<Word>, c: Chunks, lo: nat, hi: nat, wild: nat, a: nat, n: nat)
    requires Tiled(c, lo, hi, wild) && Tags(m, c, wild) && a in c && c[a].free
    requires n >= MIN_WORDS && c[a].n >= n + TAG_WORDS + MIN_WORDS
    requires SameOutside(m, m', a, Next(c, a)) && Next(c, a) <= |m|
    requires var rest := a + n + TAG_WORDS;
      && m'[a] == 8 * n && m'[a + n + 1] == 8 * n
      && m'[rest] == Header(Chunk(c[a].n - n - TAG_WORDS, true), a == wild)
      && m'[Next(c, a) - 1] == 8 * (c[a].n - n - TAG_WORDS)
    ensures Tags(m', Carve(c, a, n), if a == wild then a + n + TAG_WORDS else wild)
    ensures PayloadsKept(m, m', c)
  {
    var c' := Carve(c, a, n);
    var rest := a + n + TAG_WORDS;
    var wild' := if a == wild then rest else wild;
    assert rest !in c;
    FreeExtentKept(m, m', c, lo, hi, wild, a, Next(c, a));
    forall x {:trigger Tagged(m', c', wild', x)} | x in c'
      ensures Tagged(m', c', wild', x)
    {
      if x != a && x != rest {
        assert Next(c', x) == Next(c, x);
        assert Tagged(m, c, wild, x);
      }
    }
  }

  lemma JoinTags(m: seq<Word>, m': seq<Word>, c: Chunks, lo: nat, hi: nat, wild: nat, a: nat)
    requires Tiled(c, lo, hi, wild) && Tags(m, c, wild)
    requires a in c && a != wild && Next(c, a) in c && c[a].free && c[Next(c, a)].free
    requires var b := Next(c, a);
      && SameOutside(m, m', a, Next(c, b)) && Next(c, b) <= |m|
      && m'[a] == Header(Chunk(c[a].n + c[b].n + TAG_WORDS, true), b == wild)
      && m'[Next(c, b) - 1] == 8 * (c[a].n + c[b].n + TAG_WORDS)
    ensures Tags(m', Join(c, a), if Next(c, a) == wild then a else wild)
    ensures PayloadsKept(m, m', c)
  {
    var c' := Join(c, a);
    var b := Next(c, a);
    var wild' := if b == wild then a else wild;
    assert forall x | x in c && !c[x].free :: x < a || b < x;
    FreeExtentKept(m, m', c, lo, hi, wild, a, Next(c, b));
    forall x {:trigger Tagged(m', c', wild', x)} | x in c'
      ensures Tagged(m', c', wild', x)
    {
      if x != a {
        assert Tagged(m, c, wild, x);
      }
    }
  }

  lemma KeptTwice(m: seq<Word>, m': seq<Word>, m'': seq<Word>, c: Chunks, c': Chunks)
    requires PayloadsKept(m, m', c) && PayloadsKept(m', m'', c')
    requires forall a | a in c && !c[a].free :: a in c' && c'[a] == c[a]
    ensures PayloadsKept(m, m'', c)
  {
    forall a {:trigger PayloadKept(m, m'', c, a)} | a in c && !c[a].free
      ensures PayloadKept(m, m'', c, a)
    {
      assert PayloadKept(m, m', c, a) && PayloadKept(m', m'', c', a);
    }
  }
}

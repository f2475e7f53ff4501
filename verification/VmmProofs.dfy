/** What cutting and merging do to the list and to the address space it stands for. */
module VmmProofs {
  import opened Basics
  import opened Region
  import opened VmmModel

  // ----------------------------------------------------------- order

  lemma {:induction false} Sorted(rs: Regions, i: nat, j: nat)
    requires Tiles(rs) && i < j < |rs|
    ensures End(rs[i]) <= rs[j].start
    decreases j
  {
    assert Meets(rs[j - 1], rs[j]);
    if i < j - 1 {
      Sorted(rs, i, j - 1);
      assert Placed(rs[j - 1]);
    }
  }

  lemma {:induction false} SpotConcat(a: Regions, b: Regions, v: nat)
    ensures SpotAt(a + b, v) == if SpotAt(a, v).Some? then SpotAt(a, v) else SpotAt(b, v)
  {
    if a == [] {
      assert a + b == b;
    } else {
      assert (a + b)[1..] == a[1..] + b;
      SpotConcat(a[1..], b, v);
    }
  }

  lemma {:induction false} TakenConcat(a: Regions, b: Regions)
    ensures Taken(a + b) == Taken(a) + Taken(b)
  {
    if a == [] {
      assert a + b == b;
    } else {
      assert (a + b)[1..] == a[1..] + b;
      TakenConcat(a[1..], b);
    }
  }

  /** An address that no region reaches has no kind. */
  lemma {:induction false} SpotNone(rs: Regions, v: nat)
    requires forall i | 0 <= i < |rs| :: !(rs[i].start <= v < End(rs[i]))
    ensures SpotAt(rs, v) == None
  {
    if rs != [] {
      SpotNone(rs[1..], v);
    }
  }

  /** Two regions never claim the same address, so the first hit is the only one. */
  lemma SpotOf(rs: Regions, i: nat, v: nat)
    requires Tiles(rs) && i < |rs| && rs[i].start <= v < End(rs[i])
    ensures SpotAt(rs, v) == Some(SpotIn(rs[i], v))
    ensures SpotAt(rs[..i], v) == None
  {
    forall j | 0 <= j < i ensures !(rs[j].start <= v < End(rs[j])) {
      Sorted(rs, j, i);
    }
    SpotNone(rs[..i], v);
    assert rs == rs[..i] + rs[i..];
    SpotConcat(rs[..i], rs[i..], v);
  }

  lemma {:induction false} SpotSource(rs: Regions, v: nat)
    requires SpotAt(rs, v).Some?
    ensures exists i :: 0 <= i < |rs| && rs[i].start <= v < End(rs[i]) && SpotIn(rs[i], v) == SpotAt(rs, v).value
  {
    if !(rs[0].start <= v < End(rs[0])) {
      SpotSource(rs[1..], v);
      var k :| 0 <= k < |rs[1..]| && rs[1..][k].start <= v < End(rs[1..][k]) && SpotIn(rs[1..][k], v) == SpotAt(rs, v).value;
      assert rs[k + 1] == rs[1..][k];
    }
  }

  // ----------------------------------------------------------- cutting

  /** A cut that can be made: inside a free region of the same zone. */
  predicate Cuttable(r: Region, cut: Region) {
    IsFree(r.kind) && Holds(r, cut.start, cut.size) && Placed(cut) && !IsFree(cut.kind)
  }

  lemma RemaindersPlaced(r: Region, cut: Region)
    requires Placed(r) && Cuttable(r, cut)
    ensures r.start < cut.start ==> Placed(r.(size := cut.start - r.start))
    ensures End(cut) < End(r) ==> Placed(r.(start := End(cut), size := End(r) - End(cut)))
  {
  }

  lemma PiecesPlaced(r: Region, cut: Region)
    requires Placed(r) && Cuttable(r, cut)
    ensures var ps := Before(r, cut.start) + [cut] + After(r, End(cut));
      && Tiles(ps) && NoFreeNeighbours(ps)
      && |ps| > 0 && ps[0].start == r.start && End(ps[|ps| - 1]) == End(r)
      && (ps[0].kind == r.kind || ps[0] == cut) && (ps[|ps| - 1].kind == r.kind || ps[|ps| - 1] == cut)
  {
    RemaindersPlaced(r, cut);
    var b, a := r.(size := cut.start - r.start), r.(start := End(cut), size := End(r) - End(cut));
    var ps := Before(r, cut.start) + [cut] + After(r, End(cut));
    if r.start < cut.start {
      if End(cut) < End(r) {
        assert ps == [b, cut, a];
      } else {
        assert ps == [b, cut];
      }
    } else if End(cut) < End(r) {
      assert ps == [cut, a];
    } else {
      assert ps == [cut];
    }
  }

  /** Cutting a region out of a free one keeps the list well formed, whichever of the four
      shapes the cut has. */
  lemma CutKeepsWellFormed(rs: Regions, i: nat, cut: Region)
    requires WellFormed(rs) && i < |rs| && Cuttable(rs[i], cut)
    ensures WellFormed(Cut(rs, i, cut))
  {
    var ps := Before(rs[i], cut.start) + [cut] + After(rs[i], End(cut));
    PiecesPlaced(rs[i], cut);
    assert i > 0 ==> Meets(rs[i - 1], rs[i]) && Merged(rs[i - 1], rs[i]);
    assert i + 1 < |rs| ==> Meets(rs[i], rs[i + 1]) && Merged(rs[i], rs[i + 1]);
    Splice(rs[..i], ps, rs[i + 1..]);
  }

  /** Three well-formed stretches whose borders fit make one. */
  lemma Splice(a: Regions, b: Regions, c: Regions)
    requires Tiles(a) && Tiles(b) && Tiles(c) && b != []
    requires NoFreeNeighbours(a) && NoFreeNeighbours(b) && NoFreeNeighbours(c)
    requires a != [] ==> Meets(a[|a| - 1], b[0]) && Merged(a[|a| - 1], b[0])
    requires c != [] ==> Meets(b[|b| - 1], c[0]) && Merged(b[|b| - 1], c[0])
    ensures Tiles(a + b + c) && NoFreeNeighbours(a + b + c)
  {
    var s := a + b + c;
    forall i | 0 <= i < |s| - 1 ensures Meets(s[i], s[i + 1]) && Merged(s[i], s[i + 1]) {
      if i + 1 < |a| {
        assert Meets(a[i], a[i + 1]) && Merged(a[i], a[i + 1]);
      } else if |a| <= i && i + 1 < |a| + |b| {
        assert Meets(b[i - |a|], b[i - |a| + 1]) && Merged(b[i - |a|], b[i - |a| + 1]);
      } else if |a| + |b| <= i {
        assert Meets(c[i - |a| - |b|], c[i - |a| - |b| + 1]) && Merged(c[i - |a| - |b|], c[i - |a| - |b| + 1]);
      }
    }
  }

  /** The cut leaves no remainder, or remainders of an unpadded region. */
  predicate CleanCut(r: Region, cut: Region) {
    && Holds(r, cut.start, cut.size)
    && ((r.lower == 0 && r.upper == 0) || (cut.start == r.start && cut.size == r.size))
  }

  lemma PiecesSpot(r: Region, cut: Region, v: nat)
    requires CleanCut(r, cut)
    ensures SpotAt(Before(r, cut.start) + [cut] + After(r, End(cut)), v)
         == if cut.start <= v < End(cut) then Some(SpotIn(cut, v)) else SpotAt([r], v)
  {
    SpotConcat(Before(r, cut.start) + [cut], After(r, End(cut)), v);
    SpotConcat(Before(r, cut.start), [cut], v);
  }

  /** A cut changes the kind of its own addresses and of no other. */
  lemma CutSpot(rs: Regions, i: nat, cut: Region, v: nat)
    requires Tiles(rs) && i < |rs| && CleanCut(rs[i], cut)
    ensures SpotAt(Cut(rs, i, cut), v) == if cut.start <= v < End(cut) then Some(SpotIn(cut, v)) else SpotAt(rs, v)
  {
    var ps := Before(rs[i], cut.start) + [cut] + After(rs[i], End(cut));
    PiecesSpot(rs[i], cut, v);
    SpotConcat(rs[..i] + ps, rs[i + 1..], v);
    SpotConcat(rs[..i], ps, v);
    assert rs == rs[..i] + [rs[i]] + rs[i + 1..];
    SpotConcat(rs[..i] + [rs[i]], rs[i + 1..], v);
    SpotConcat(rs[..i], [rs[i]], v);
    if cut.start <= v < End(cut) {
      SpotOf(rs, i, v);
    }
  }

  function TakenOne(r: Region): Regions {
    if IsFree(r.kind) then [] else [r]
  }

  lemma TakenSplit(rs: Regions, i: nat)
    requires i < |rs|
    ensures Taken(rs) == Taken(rs[..i]) + TakenOne(rs[i]) + Taken(rs[i + 1..])
  {
    var tail := rs[i..];
    assert rs == rs[..i] + tail;
    TakenConcat(rs[..i], tail);
    assert tail[1..] == rs[i + 1..];
    assert Taken(tail) == TakenOne(rs[i]) + Taken(rs[i + 1..]);
  }

  lemma PiecesTaken(r: Region, cut: Region)
    requires Cuttable(r, cut)
    ensures Taken(Before(r, cut.start) + [cut] + After(r, End(cut))) == [cut]
  {
    var a, b := After(r, End(cut)), Before(r, cut.start);
    assert Taken(a) == [] by { if a != [] { assert a[1..] == []; } }
    assert Taken(b) == [] by { if b != [] { assert b[1..] == []; } }
    assert Taken([cut]) == [cut];
    TakenConcat(b + [cut], a);
    TakenConcat(b, [cut]);
  }

  /** A cut adds one region to the ones in use and leaves the others as they are. */
  lemma CutTaken(rs: Regions, i: nat, cut: Region)
    requires i < |rs| && Cuttable(rs[i], cut)
    ensures Taken(rs) == Taken(rs[..i]) + Taken(rs[i + 1..])
    ensures Taken(Cut(rs, i, cut)) == Taken(rs[..i]) + [cut] + Taken(rs[i + 1..])
  {
    FreeNotTaken(rs, i);
    var ps := Before(rs[i], cut.start) + [cut] + After(rs[i], End(cut));
    PiecesTaken(rs[i], cut);
    TakenConcat(rs[..i] + ps, rs[i + 1..]);
    TakenConcat(rs[..i], ps);
  }

  // ----------------------------------------------------------- merging

  function JoinNext(rs: Regions, j: nat): Regions
    requires j + 1 < |rs|
  {
    rs[..j] + [rs[j].(size := rs[j].size + rs[j + 1].size)] + rs[j + 2..]
  }

  lemma JoinNextTiles(rs: Regions, j: nat)
    requires Tiles(rs) && j + 1 < |rs| && IsFree(rs[j].kind) && rs[j].kind == rs[j + 1].kind
    ensures Tiles(JoinNext(rs, j)) && End(rs[j]) == rs[j + 1].start
  {
    var s := JoinNext(rs, j);
    assert Placed(rs[j]) && Placed(rs[j + 1]) && Meets(rs[j], rs[j + 1]);
    forall k | 0 <= k < |s| - 1 ensures Meets(s[k], s[k + 1]) {
      if k < j { assert Meets(rs[k], rs[k + 1]); } else { assert Meets(rs[k + 1], rs[k + 2]); }
    }
  }

  lemma JoinNextSpot(rs: Regions, j: nat, v: nat)
    requires Tiles(rs) && j + 1 < |rs| && IsFree(rs[j].kind) && rs[j].kind == rs[j + 1].kind
    ensures SpotAt(JoinNext(rs, j), v) == SpotAt(rs, v)
  {
    JoinNextTiles(rs, j);
    var r := rs[j].(size := rs[j].size + rs[j + 1].size);
    var two := [rs[j], rs[j + 1]];
    assert rs == rs[..j] + two + rs[j + 2..];
    SpotConcat(rs[..j] + two, rs[j + 2..], v);
    SpotConcat(rs[..j], two, v);
    assert two[1..] == [rs[j + 1]] && two[0] == rs[j];
    assert SpotAt([rs[j + 1]], v) == if rs[j + 1].start <= v < End(rs[j + 1]) then Some(SpotIn(rs[j + 1], v)) else None;
    assert SpotAt(two, v) == SpotAt([r], v);
    SpotConcat(rs[..j] + [r], rs[j + 2..], v);
    SpotConcat(rs[..j], [r], v);
  }

  lemma JoinNextTaken(rs: Regions, j: nat)
    requires j + 1 < |rs| && IsFree(rs[j].kind) && rs[j].kind == rs[j + 1].kind
    ensures Taken(JoinNext(rs, j)) == Taken(rs)
  {
    var s := JoinNext(rs, j);
    FreeNotTaken(rs, j);
    FreeNotTaken(s, j);
    assert s[..j] == rs[..j] && s[j + 1..] == rs[j + 2..];
    var tail := rs[j + 1..];
    assert tail[1..] == rs[j + 2..] && Taken(tail) == [] + Taken(tail[1..]);
  }

  lemma FreeNotTaken(rs: Regions, i: nat)
    requires i < |rs| && IsFree(rs[i].kind)
    ensures Taken(rs) == Taken(rs[..i]) + Taken(rs[i + 1..])
  {
    TakenSplit(rs, i);
    assert Taken(rs[..i]) + [] == Taken(rs[..i]);
  }

  /** All free neighbours are in the stretch that merging from `j` works on. */
  ghost predicate Mergeable(rs: Regions, j: nat) {
    && j < |rs| && IsFree(rs[j].kind)
    && (forall k | 0 <= k < j :: Merged(rs[k], rs[k + 1]))
    && (forall k | j < k < |rs| - 1 :: Merged(rs[k], rs[k + 1]) || (k == j + 1 && rs[j].kind == rs[j + 1].kind))
  }

  lemma JoinNextMergeable(rs: Regions, j: nat)
    requires Mergeable(rs, j) && j + 1 < |rs| && rs[j + 1].kind == rs[j].kind
    ensures Mergeable(JoinNext(rs, j), j)
  {
    var s := JoinNext(rs, j);
    forall k | j < k < |s| - 1 ensures Merged(s[k], s[k + 1]) {
      assert Merged(rs[k + 1], rs[k + 2]);
    }
    forall k | 0 <= k < j ensures Merged(s[k], s[k + 1]) {
      assert Merged(rs[k], rs[k + 1]);
    }
  }

  lemma JoinNextEnds(rs: Regions, j: nat)
    requires Tiles(rs) && j + 1 < |rs| && IsFree(rs[j].kind) && rs[j].kind == rs[j + 1].kind
    ensures var s := JoinNext(rs, j); s[0].start == rs[0].start && End(s[|s| - 1]) == End(rs[|rs| - 1])
  {
    JoinNextTiles(rs, j);
  }

  /** The merge loop ends with no two free neighbours left. */
  lemma {:induction false} MergeFromOk(rs: Regions, j: nat)
    requires Tiles(rs) && Mergeable(rs, j)
    ensures var s := MergeFrom(rs, j);
      && Tiles(s) && NoFreeNeighbours(s)
      && s != [] && s[0].start == rs[0].start && End(s[|s| - 1]) == End(rs[|rs| - 1])
    decreases |rs|
  {
    if j + 1 < |rs| && rs[j + 1].kind == rs[j].kind {
      JoinNextTiles(rs, j);
      JoinNextMergeable(rs, j);
      JoinNextEnds(rs, j);
      MergeFromOk(JoinNext(rs, j), j);
    }
  }

  /** Merging changes nothing about any address. */
  lemma {:induction false} MergeFromSpot(rs: Regions, j: nat, v: nat)
    requires Tiles(rs) && j < |rs| && IsFree(rs[j].kind)
    ensures SpotAt(MergeFrom(rs, j), v) == SpotAt(rs, v)
    decreases |rs|
  {
    if j + 1 < |rs| && rs[j + 1].kind == rs[j].kind {
      JoinNextTiles(rs, j);
      JoinNextSpot(rs, j, v);
      MergeFromSpot(JoinNext(rs, j), j, v);
    }
  }

  lemma {:induction false} MergeFromTaken(rs: Regions, j: nat)
    requires j < |rs| && IsFree(rs[j].kind)
    ensures Taken(MergeFrom(rs, j)) == Taken(rs)
    decreases |rs|
  {
    if j + 1 < |rs| && rs[j + 1].kind == rs[j].kind {
      JoinNextTaken(rs, j);
      MergeFromTaken(JoinNext(rs, j), j);
    }
  }

  lemma UpdateIsCut(rs: Regions, i: nat, r: Region)
    requires i < |rs| && r.start == rs[i].start && r.size == rs[i].size
    ensures Cut(rs, i, r) == rs[i := r]
  {
    assert Before(rs[i], r.start) + [r] + After(rs[i], End(r)) == [r];
  }

  lemma ReleasedTiles(rs: Regions, i: nat)
    requires Tiles(rs) && i < |rs| && !IsFree(rs[i].kind)
    ensures Tiles(rs[i := Released(rs[i])])
  {
    var t := rs[i := Released(rs[i])];
    assert Placed(rs[i]);
    forall k | 0 <= k < |t| - 1 ensures Meets(t[k], t[k + 1]) {
      assert Meets(rs[k], rs[k + 1]);
    }
  }

  lemma ReleasedTaken(rs: Regions, i: nat)
    requires i < |rs| && !IsFree(rs[i].kind)
    ensures Taken(rs) == Taken(rs[..i]) + [rs[i]] + Taken(rs[i + 1..])
    ensures Taken(rs[i := Released(rs[i])]) == Taken(rs[..i]) + Taken(rs[i + 1..])
  {
    var t := rs[i := Released(rs[i])];
    TakenSplit(rs, i);
    FreeNotTaken(t, i);
    assert t[..i] == rs[..i] && t[i + 1..] == rs[i + 1..];
  }

  /** The only free neighbours a release can create are the ones deallocation merges. */
  lemma ReleasedMergeable(rs: Regions, i: nat)
    requires WellFormed(rs) && i < |rs| && !IsFree(rs[i].kind)
    ensures Mergeable(rs[i := Released(rs[i])], MergePoint(rs, i))
  {
    var t := rs[i := Released(rs[i])];
    forall k | 0 <= k < |t| - 1 && k != i - 1 && k != i ensures Merged(t[k], t[k + 1]) {
      assert Merged(rs[k], rs[k + 1]);
    }
  }

  lemma DeallocateKeepsWellFormed(rs: Regions, i: nat)
    requires WellFormed(rs) && i < |rs| && !IsFree(rs[i].kind)
    ensures WellFormed(Deallocated(rs, i))
  {
    ReleasedTiles(rs, i);
    ReleasedMergeable(rs, i);
    MergeFromOk(rs[i := Released(rs[i])], MergePoint(rs, i));
  }

  /** Deallocation takes one region out of those in use; the others stay as they are. */
  lemma DeallocateTaken(rs: Regions, i: nat)
    requires i < |rs| && !IsFree(rs[i].kind)
    ensures Taken(rs) == Taken(rs[..i]) + [rs[i]] + Taken(rs[i + 1..])
    ensures Taken(Deallocated(rs, i)) == Taken(rs[..i]) + Taken(rs[i + 1..])
  {
    ReleasedTaken(rs, i);
    MergeFromTaken(rs[i := Released(rs[i])], MergePoint(rs, i));
  }

  /** Deallocation frees exactly the region's own addresses. */
  lemma DeallocateSpot(rs: Regions, i: nat, v: nat)
    requires WellFormed(rs) && i < |rs| && !IsFree(rs[i].kind)
    ensures SpotAt(Deallocated(rs, i), v)
         == if rs[i].start <= v < End(rs[i]) then Some(Spot(FreeKind(rs[i].start), true)) else SpotAt(rs, v)
  {
    var r := Released(rs[i]);
    UpdateIsCut(rs, i, r);
    CutSpot(rs, i, r, v);
    ReleasedTiles(rs, i);
    ReleasedMergeable(rs, i);
    MergeFromSpot(rs[i := r], MergePoint(rs, i), v);
  }
}

/** Every run of mappings and invalidations on a paging structure, as a flat map sees it. */
module PagingRuns {
  import opened PageTables
  import opened TableAccess
  import opened Paging

  datatype Op = MapOp(v: bv64, p: bv64, flags: bv16) | DropOp(v: bv64)

  /** What an operation does to the entry of the page of `w`. */
  function FlatStep(e: bv64, op: Op, w: bv64): bv64 {
    if !SamePage(op.v, w) then e
    else match op
      case MapOp(_, p, flags) => MapEntry(p, flags)
      case DropOp(_) => Absent(e)
  }

  /** The entry of the page of `w` after the operations, in a flat map that had `e` there. */
  function Flat(e: bv64, ops: seq<Op>, w: bv64): bv64 {
    if ops == [] then e else FlatStep(Flat(e, ops[..|ops| - 1], w), ops[|ops| - 1], w)
  }

  /** What the tables are after one operation, as `Map` and `Invalidate` leave them. */
  ghost predicate Stepped(mem: Memory, op: Op, mem': Memory, root: Frame) {
    && KeepsOpen(mem, mem', root)
    && match op
       case MapOp(v, p, flags) => PageWritten(mem, mem', root, v, MapEntry(p, flags))
       case DropOp(v) => PageWritten(mem, mem', root, v, Absent(Leaf(mem, root, 4, RouteOf(v))))
  }

  /** An operation on the tables takes such a step; it fails only when no frame is left. */
  method Apply(m: PagingMemory, root: Frame, op: Op) returns (ok: bool)
    requires m.Ready(root)
    modifies m
    ensures m.Ready(root) && Grown(old(m.mem), old(m.pool), m.mem, m.pool, root)
    ensures if ok then Stepped(old(m.mem), op, m.mem, root) else m.pool == [] && SameLeaves(old(m.mem), m.mem, root)
  {
    match op
    case MapOp(v, p, flags) => ok := m.Map(root, v, p, flags);
    case DropOp(v) => ok := m.Invalidate(root, v);
  }

  ghost predicate Run(mems: seq<Memory>, ops: seq<Op>, root: Frame) {
    |mems| == |ops| + 1 && forall i | 0 <= i < |ops| :: Stepped(mems[i], ops[i], mems[i + 1], root)
  }

  lemma StepIsFlat(mem: Memory, op: Op, mem': Memory, root: Frame, w: bv64)
    requires Stepped(mem, op, mem', root)
    ensures Leaf(mem', root, 4, RouteOf(w)) == FlatStep(Leaf(mem, root, 4, RouteOf(w)), op, w)
  {
    SameRoute(op.v, w);
    match op
    case MapOp(v, p, flags) => assert WrittenAt(mem, mem', root, v, MapEntry(p, flags), w);
    case DropOp(v) => assert WrittenAt(mem, mem', root, v, Absent(Leaf(mem, root, 4, RouteOf(v))), w);
  }

  /** The four-level tables refine the flat map over every run. */
  lemma {:induction false} RunIsFlat(mems: seq<Memory>, ops: seq<Op>, root: Frame, w: bv64)
    requires Run(mems, ops, root)
    ensures Leaf(mems[|ops|], root, 4, RouteOf(w)) == Flat(Leaf(mems[0], root, 4, RouteOf(w)), ops, w)
    decreases |ops|
  {
    if ops != [] {
      var n := |ops| - 1;
      RunIsFlat(mems[..n + 1], ops[..n], root, w);
      assert Stepped(mems[n], ops[n], mems[n + 1], root);
      StepIsFlat(mems[n], ops[n], mems[n + 1], root, w);
    }
  }

  lemma {:induction false} OtherPagesDoNotMatter(e: bv64, ops: seq<Op>, i: nat, w: bv64)
    requires i <= |ops| && forall j | i <= j < |ops| :: !SamePage(ops[j].v, w)
    ensures Flat(e, ops, w) == Flat(e, ops[..i], w)
    decreases |ops|
  {
    if i == |ops| {
      assert ops[..i] == ops;
    } else {
      var n := |ops| - 1;
      OtherPagesDoNotMatter(e, ops[..n], i, w);
      assert ops[..n][..i] == ops[..i];
    }
  }

  /** Whatever came before and whatever happens to other pages after: a page translates as its last mapping says. */
  lemma LastMappingWins(mems: seq<Memory>, ops: seq<Op>, root: Frame, i: nat, w: bv64)
    requires Run(mems, ops, root) && i < |ops| && ops[i].MapOp? && SamePage(ops[i].v, w)
    requires forall j | i < j < |ops| :: !SamePage(ops[j].v, w)
    ensures Translation(mems[|ops|], root, w) == Decode(MapEntry(ops[i].p, ops[i].flags))
  {
    RunIsFlat(mems, ops, root, w);
    LastMap(Leaf(mems[0], root, 4, RouteOf(w)), ops, i, w);
  }

  lemma {:induction false} RunStaysOpen(mems: seq<Memory>, ops: seq<Op>, root: Frame, n: nat)
    requires Run(mems, ops, root) && Open(mems[0], root, 4) && n <= |ops|
    ensures Open(mems[n], root, 4)
  {
    if n > 0 {
      RunStaysOpen(mems, ops, root, n - 1);
      assert Stepped(mems[n - 1], ops[n - 1], mems[n], root);
    }
  }

  /** And where the structure began open, every entry on the path of that page is present and writable
      exactly when the mapping asked for a writable page. */
  lemma LastMappingIsWritable(mems: seq<Memory>, ops: seq<Op>, root: Frame, i: nat, w: bv64)
    requires Run(mems, ops, root) && i < |ops| && ops[i].MapOp? && SamePage(ops[i].v, w)
    requires (forall j | i < j < |ops| :: !SamePage(ops[j].v, w)) && Open(mems[0], root, 4)
    ensures WritablePath(mems[|ops|], root, 4, RouteOf(w)) <==> ops[i].flags & 2 != 0
  {
    RunIsFlat(mems, ops, root, w);
    LastMap(Leaf(mems[0], root, 4, RouteOf(w)), ops, i, w);
    MapEntryBits(ops[i].p, ops[i].flags);
    RunStaysOpen(mems, ops, root, |ops|);
    OpenPath(mems[|ops|], root, 4, RouteOf(w));
  }

  lemma LastMap(e: bv64, ops: seq<Op>, i: nat, w: bv64)
    requires i < |ops| && ops[i].MapOp? && SamePage(ops[i].v, w)
    requires forall j | i < j < |ops| :: !SamePage(ops[j].v, w)
    ensures Flat(e, ops, w) == MapEntry(ops[i].p, ops[i].flags)
  {
    OtherPagesDoNotMatter(e, ops, i + 1, w);
    assert ops[..i + 1][..i] == ops[..i];
  }

  /** After an invalidation a page stays absent until it is mapped again. */
  lemma AbsentUntilMapped(mems: seq<Memory>, ops: seq<Op>, root: Frame, i: nat, w: bv64)
    requires Run(mems, ops, root) && i < |ops| && ops[i].DropOp? && SamePage(ops[i].v, w)
    requires forall j | i < j < |ops| && ops[j].MapOp? :: !SamePage(ops[j].v, w)
    ensures !Translation(mems[|ops|], root, w).present
  {
    RunIsFlat(mems, ops, root, w);
    var e := Leaf(mems[0], root, 4, RouteOf(w));
    StaysAbsent(e, ops, i, w);
  }

  lemma {:induction false} StaysAbsent(e: bv64, ops: seq<Op>, i: nat, w: bv64)
    requires i < |ops| && ops[i].DropOp? && SamePage(ops[i].v, w)
    requires forall j | i < j < |ops| && ops[j].MapOp? :: !SamePage(ops[j].v, w)
    ensures Flat(e, ops, w) & 1 == 0
    decreases |ops|
  {
    var n := |ops| - 1;
    AbsentBits(Flat(e, ops[..n], w));
    if i < n {
      StaysAbsent(e, ops[..n], i, w);
    }
  }
}

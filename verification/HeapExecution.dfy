/** Runs of the heap on its words: what a client has stored in a block stays there until it frees the block. */
module HeapExecution {
  import opened Basics
  import opened HeapModel
  import opened HeapMemory
  import opened HeapRuns
  import opened KernelHeap

  /** Requests of at most 2^63 bytes, for which 64-bit arithmetic is exact. */
  predicate Bounded(op: Op) {
    op.MallocOp? ==> op.bytes <= TWO63
  }

  /** The `n` payload words of the block at `a` are what they were. */
  ghost predicate Intact(m: seq<Word>, m': seq<Word>, a: nat, n: nat) {
    |m'| == |m| && forall w: nat | a < w <= a + n && w < |m| :: m'[w] == m[w]
  }

  /** Every block held stays intact but for the one freed. */
  ghost predicate AllIntact(m: seq<Word>, m': seq<Word>, held: map<nat, nat>, op: Op) {
    forall a | a in held && op != FreeOp(a) :: Intact(m, m', a, Words(held[a]))
  }

  lemma HeldIsChunk(k: Kernel, a: nat)
    requires Good(k) && a in k.held
    ensures a in k.heap.chunks && !k.heap.chunks[a].free && k.heap.chunks[a].n == Words(k.held[a])
  {
    assert a in Live(k.heap.chunks);
    assert Live(k.heap.chunks)[a] == Words(k.held[a]);
  }

  lemma KeptIsIntact(k: Kernel, m: seq<Word>, m': seq<Word>, c: Chunks, op: Op)
    requires Good(k) && PayloadsKept(m, m', c)
    requires forall a | a in k.held && op != FreeOp(a) :: a in c && a in k.heap.chunks && c[a] == k.heap.chunks[a]
    ensures AllIntact(m, m', k.held, op)
  {
    forall a | a in k.held && op != FreeOp(a) ensures Intact(m, m', a, Words(k.held[a])) {
      HeldIsChunk(k, a);
      assert PayloadKept(m, m', c, a);
    }
  }

  method MallocStep(h: Heap, test: Test, bytes: nat, ghost held: map<nat, nat>) returns (ghost now: map<nat, nat>)
    requires h.Valid() && Good(Kernel(h.state, held)) && Legal(test, Kernel(h.state, held), MallocOp(bytes)) && bytes <= TWO63
    modifies h, h.mem, h.buckets
    ensures h.Valid() && Kernel(h.state, now) == Exec(test, old(Kernel(h.state, held)), MallocOp(bytes))
    ensures AllIntact(old(h.mem[..]), h.mem[..], held, MallocOp(bytes))
  {
    ghost var k, m := Kernel(h.state, held), h.mem[..];
    var r := h.Kmalloc(test, bytes);
    now := if r.OutOfMemory? then held else held[r.at := bytes];
    forall a | a in held ensures a in k.heap.chunks {
      HeldIsChunk(k, a);
    }
    KeptIsIntact(k, m, h.mem[..], k.heap.chunks, MallocOp(bytes));
  }

  method FreeStep(h: Heap, a: nat, ghost test: Test, ghost held: map<nat, nat>) returns (ghost now: map<nat, nat>)
    requires h.Valid() && Good(Kernel(h.state, held)) && a in held
    modifies h, h.mem, h.buckets
    ensures h.Valid() && Kernel(h.state, now) == Exec(test, old(Kernel(h.state, held)), FreeOp(a))
    ensures AllIntact(old(h.mem[..]), h.mem[..], held, FreeOp(a))
  {
    ghost var k, m := Kernel(h.state, held), h.mem[..];
    HeldIsChunk(k, a);
    ghost var c := MarkFree(h.state, a).chunks;
    var ok := h.Kfree(a);
    now := held - {a};
    forall b | b in held && b != a ensures b in c && b in k.heap.chunks && c[b] == k.heap.chunks[b] {
      HeldIsChunk(k, b);
    }
    KeptIsIntact(k, m, h.mem[..], c, FreeOp(a));
  }

  /** One call on the words does what the model says, and leaves what clients have stored in other blocks. */
  method Step(h: Heap, test: Test, op: Op, ghost held: map<nat, nat>) returns (ghost now: map<nat, nat>)
    requires h.Valid() && Good(Kernel(h.state, held)) && Legal(test, Kernel(h.state, held), op) && Bounded(op)
    modifies h, h.mem, h.buckets
    ensures h.Valid() && Kernel(h.state, now) == Exec(test, old(Kernel(h.state, held)), op)
    ensures AllIntact(old(h.mem[..]), h.mem[..], held, op)
  {
    match op
    case MallocOp(bytes) => now := MallocStep(h, test, bytes, held);
    case FreeOp(a) => now := FreeStep(h, a, test, held);
    case EnableOp =>
      h.EnableGrowth();
      now := held;
  }

  /** A block not freed stays the client's, for the bytes it asked for. */
  lemma StillHeld(test: Test, k: Kernel, op: Op, a: nat)
    requires Good(k) && Legal(test, k, op) && a in k.held && op != FreeOp(a)
    ensures a in Exec(test, k, op).held && Exec(test, k, op).held[a] == k.held[a]
  {
    HeldIsChunk(k, a);
    assert a in Live(k.heap.chunks);
    if op.MallocOp? {
      MallocEffect(test, k.heap, Words(op.bytes));
    }
  }

  /** The blocks held and never freed are intact. */
  ghost predicate Untouched(m: seq<Word>, m': seq<Word>, held: map<nat, nat>, now: map<nat, nat>, ops: seq<Op>) {
    forall a | a in held && FreeOp(a) !in ops :: a in now && now[a] == held[a] && Intact(m, m', a, Words(held[a]))
  }

  lemma IntactTwice(m: seq<Word>, m1: seq<Word>, m2: seq<Word>, a: nat, n: nat)
    requires Intact(m, m1, a, n) && Intact(m1, m2, a, n)
    ensures Intact(m, m2, a, n)
  {
  }

  lemma UntouchedLater(test: Test, k: Kernel, ops: seq<Op>, m: seq<Word>, m1: seq<Word>, m2: seq<Word>, now: map<nat, nat>)
    requires Good(k) && ops != [] && Legal(test, k, ops[0]) && AllIntact(m, m1, k.held, ops[0])
    requires Untouched(m1, m2, Exec(test, k, ops[0]).held, now, ops[1..])
    ensures Untouched(m, m2, k.held, now, ops)
  {
    forall a | a in k.held && FreeOp(a) !in ops
      ensures a in now && now[a] == k.held[a] && Intact(m, m2, a, Words(k.held[a]))
    {
      assert ops == [ops[0]] + ops[1..];
      StillHeld(test, k, ops[0], a);
      IntactTwice(m, m1, m2, a, Words(k.held[a]));
    }
  }

  /** Over every run of legal calls on the words: the heap is the one the model reaches, and every block held before
      and not freed is held still and holds, word for word, what it held. */
  method Execute(h: Heap, test: Test, ops: seq<Op>, ghost held: map<nat, nat>) returns (ghost now: map<nat, nat>)
    requires h.Valid() && Good(Kernel(h.state, held)) && LegalRun(test, Kernel(h.state, held), ops)
    requires forall i | 0 <= i < |ops| :: Bounded(ops[i])
    modifies h, h.mem, h.buckets
    ensures h.Valid() && Kernel(h.state, now) == Run(test, old(Kernel(h.state, held)), ops)
    ensures Untouched(old(h.mem[..]), h.mem[..], held, now, ops)
    decreases |ops|
  {
    now := held;
    if ops != [] {
      ghost var k, m := Kernel(h.state, held), h.mem[..];
      ExecGood(test, k, ops[0]);
      ghost var first := Step(h, test, ops[0], held);
      ghost var m1 := h.mem[..];
      now := Execute(h, test, ops[1..], first);
      UntouchedLater(test, k, ops, m, m1, h.mem[..], now);
    }
  }

  /** With the intended test this asks nothing of the requests but their size. */
  method ExecuteIntended(h: Heap, ops: seq<Op>, ghost held: map<nat, nat>) returns (ghost now: map<nat, nat>)
    requires h.Valid() && Good(Kernel(h.state, held)) && Disciplined(Kernel(h.state, held), ops)
    requires forall i | 0 <= i < |ops| :: Bounded(ops[i])
    modifies h, h.mem, h.buckets
    ensures h.Valid() && Safe(Kernel(h.state, now)) && Untouched(old(h.mem[..]), h.mem[..], held, now, ops)
  {
    ghost var k := Kernel(h.state, held);
    IntendedRunIsSafe(k, ops);
    now := Execute(h, Intended, ops, held);
  }
}

/** The per-CPU request queues and the loops over them, one CPU at a time
    (kernel/mem/vaddr_cache_shootdown.c). */
module ShootdownQueue {
  import opened Basics
  import opened ShootdownModel

  /** _VMMCacheShootdownRange: a range, and the state to signal when it has been handled, if any. */
  datatype Request = Request(range: Range, state: Option<nat>)

  /** CSQNode. */
  class Node {
    const item: Request
    var next: Node?

    constructor (item: Request)
      ensures this.item == item && next == null
    {
      this.item := item;
      next := null;
    }
  }

  /** How many of the requests carry this state. */
  function Carrying(items: seq<Request>, id: nat): nat {
    if items == [] then 0 else (if items[0].state == Some(id) then 1 else 0) + Carrying(items[1..], id)
  }

  function Signals(acks: map<nat, nat>, id: nat): nat {
    if id in acks then acks[id] else 0
  }

  /** VMMCacheShootdownQueue: a singly linked list behind head and tail pointers. */
  class Queue {
    var head: Node?
    var tail: Node?
    var count: nat
    var active: bool
    ghost var nodes: seq<Node>

    ghost predicate Valid()
      reads this, nodes
    {
      && count == |nodes|
      && (nodes == [] ==> head == null && tail == null)
      && (nodes != [] ==> head == nodes[0] && tail == nodes[|nodes| - 1] && nodes[|nodes| - 1].next == null)
      && forall i | 0 <= i < |nodes| - 1 :: nodes[i].next == nodes[i + 1]
    }

    ghost function Contents(): seq<Request>
      reads this
    {
      var ns := nodes;
      seq(|ns|, i requires 0 <= i < |ns| => ns[i].item)
    }

    constructor ()
      ensures Valid() && Contents() == [] && !active && nodes == []
    {
      head, tail, count, active, nodes := null, null, 0, false, [];
    }

    predicate Empty()
      reads this
    {
      head == null && tail == null
    }

    /** push_to_shootdown_q: the new request goes in front. */
    method Push(item: Request)
      requires Valid()
      modifies this
      ensures Valid() && Contents() == [item] + old(Contents()) && active == old(active)
      ensures fresh(nodes[0]) && nodes[1..] == old(nodes)
    {
      var node := new Node(item);
      if Empty() {
        head := node;
        tail := node;
      } else {
        var first := head;
        head := node;
        node.next := first;
      }
      count := count + 1;
      nodes := [node] + nodes;
    }

    /** pop_from_shootdown_q: the last request pushed comes out first. */
    method Pop() returns (item: Request)
      requires Valid() && !Empty()
      modifies this
      ensures Valid() && old(Contents()) == [item] + Contents() && active == old(active) && nodes == old(nodes[1..])
    {
      item := head.item;
      if head == tail {
        head := null;
        tail := null;
      } else {
        head := head.next;
      }
      count := count - 1;
      nodes := nodes[1..];
    }
  }

  /** delete_vmmcache_range: exactly the pages of the range leave the TLB. */
  method DeleteRange(tlb: map<nat, nat>, r: Range) returns (left: map<nat, nat>)
    ensures left == tlb - Pages(r)
  {
    left := tlb;
    var start := r.start - r.start % PAGE;
    var i := 0;
    while i < r.pages
      invariant 0 <= i <= r.pages && left == tlb - Pages(Range(r.start, i))
    {
      var p := (start + i * PAGE) / PAGE;
      PageOf(r.start, i);
      left := left - {p};
      i := i + 1;
    }
  }

  lemma PageOf(start: nat, i: nat)
    ensures (start - start % PAGE + i * PAGE) / PAGE == start / PAGE + i
    ensures Pages(Range(start, i + 1)) == Pages(Range(start, i)) + {start / PAGE + i}
  {
  }

  /** cache_shootdown_interrupt_handler: the queue is drained and every state carried in it is signalled once
      per request that has one; as the guard is written, the TLB stays as it was. */
  method Handle(q: Queue, tlb: map<nat, nat>, acks: map<nat, nat>) returns (tlb': map<nat, nat>, acks': map<nat, nat>)
    requires q.Valid()
    modifies q
    ensures q.Valid() && q.Contents() == [] && q.active == old(q.active)
    ensures tlb' == tlb
    ensures forall id :: Signals(acks', id) == Signals(acks, id) + Carrying(old(q.Contents()), id)
  {
    tlb', acks' := tlb, acks;
    while !q.Empty()
      invariant q.Valid() && tlb' == tlb && q.active == old(q.active)
      invariant forall id :: Signals(acks', id) + Carrying(q.Contents(), id) == Signals(acks, id) + Carrying(old(q.Contents()), id)
      decreases |q.nodes|
    {
      ghost var before := q.Contents();
      var item := q.Pop();
      assert before[1..] == q.Contents();
      if IsNull(item.range) {
        tlb' := DeleteRange(tlb', item.range);
        assert Pages(item.range) == {};
      }
      if item.state.Some? {
        acks' := acks'[item.state.value := Signals(acks', item.state.value) + 1];
      }
    }
  }

  /** The queues a shootdown from `self` goes to. */
  ghost function Others(queues: seq<Queue>, self: nat, n: nat): set<nat>
    requires n <= |queues|
    reads queues
  {
    set i | 0 <= i < n && i != self && queues[i].active
  }

  /** The loop of init_vmmcache_shootdown_state. */
  method CountActive(queues: seq<Queue>, self: nat) returns (count: nat)
    ensures count == |Others(queues, self, |queues|)|
  {
    count := 0;
    var i := 0;
    while i < |queues|
      invariant 0 <= i <= |queues| && count == |Others(queues, self, i)|
    {
      if i != self && queues[i].active {
        assert Others(queues, self, i + 1) == Others(queues, self, i) + {i};
        count := count + 1;
      } else {
        assert Others(queues, self, i + 1) == Others(queues, self, i);
      }
      i := i + 1;
    }
  }

  /** _enqueue_vmmcache_shootdown_range: exactly the other active queues get the request, each in front. */
  method Enqueue(queues: seq<Queue>, self: nat, item: Request)
    requires forall i | 0 <= i < |queues| :: queues[i].Valid()
    requires forall i, j | 0 <= i < j < |queues| :: queues[i] != queues[j]
    modifies queues
    ensures forall i | 0 <= i < |queues| :: queues[i].Valid()
    ensures Others(queues, self, |queues|) == old(Others(queues, self, |queues|))
    ensures forall i | 0 <= i < |queues| ::
              queues[i].Contents() == (if i in Others(queues, self, |queues|) then [item] else []) + old(queues[i].Contents())
  {
    var i := 0;
    while i < |queues|
      invariant 0 <= i <= |queues| && forall k | 0 <= k < |queues| :: queues[k].Valid()
      invariant forall k | 0 <= k < |queues| :: queues[k].active == old(queues[k].active)
      invariant forall k | 0 <= k < |queues| && (i <= k || k == self || !queues[k].active) ::
                  queues[k].Contents() == old(queues[k].Contents())
      invariant forall k | 0 <= k < i && k != self && queues[k].active ::
                  queues[k].Contents() == [item] + old(queues[k].Contents())
    {
      if queues[i].active && i != self {
        queues[i].Push(item);
      }
      i := i + 1;
    }
  }
}

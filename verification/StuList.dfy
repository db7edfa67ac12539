/**
 The student queue: an intrusive circular doubly linked list with a sentinel head, a counter,
 and heap nodes that `kmalloc` and `kfree` hand out and take back.
 */
module StuList {

  const LIMIT_STU: nat := 50

  const EINVAL := 22
  const EAGAIN := 11
  const ENOMEM := 12

  datatype Stu = Stu(name: seq<char>, years: nat)

  // ---------- What the calls do, as values

  /**
   A call and how its surroundings behave: `fault` fails the copy to user space, `uncopied`
   is the number of bytes `copy_from_user` could not copy.
   */
  datatype Op =
    | Read(cnt: nat, fault: bool)
    | Write(cnt: nat, stu: Stu, memory: bool, uncopied: nat)

  datatype Reply = Reply(ret: int, out: seq<Stu>)

  /** The queue, and how many allocated nodes nothing points to any more. */
  datatype Model = Model(queue: seq<Stu>, leaked: nat)

  /** The call that gets as far as `copy_from_user` and fails there. */
  predicate Leaks(size: nat, m: Model, op: Op) {
    op.Write? && op.cnt == size && |m.queue| <= LIMIT_STU && op.memory && op.uncopied != 0
  }

  function Do(size: nat, m: Model, op: Op): (Model, Reply) {
    match op
    case Read(cnt, fault) =>
      if cnt != size then (m, Reply(-EINVAL, []))
      else if m.queue == [] then (m, Reply(0, []))
      else if fault then (m, Reply(-EINVAL, []))
      else (m.(queue := m.queue[1..]), Reply(cnt, [m.queue[0]]))
    case Write(cnt, stu, memory, uncopied) =>
      if cnt != size then (m, Reply(-EINVAL, []))
      else if |m.queue| > LIMIT_STU then (m, Reply(-EAGAIN, []))
      else if !memory then (m, Reply(-ENOMEM, []))
      else if uncopied != 0 then (m.(leaked := m.leaked + 1), Reply(uncopied, []))
      else (m.(queue := m.queue + [stu]), Reply(cnt, []))
  }

  /** What a read gives its caller and leaves of the queue: the oldest record, if all is well. */
  predicate ReadMeans(size: nat, q: seq<Stu>, cnt: nat, fault: bool, reply: Reply, q': seq<Stu>) {
    if cnt == size && q != [] && !fault then
      reply.ret == size && |reply.out| == 1 && reply.out + q' == q
    else
      q' == q && reply == Reply(if cnt == size && q == [] then 0 else -EINVAL, [])
  }

  /** A write joins the queue if all is well; otherwise the first obstacle is told. */
  predicate WriteMeans(size: nat, q: seq<Stu>, op: Op, reply: Reply, q': seq<Stu>)
    requires op.Write?
  {
    && reply.out == []
    && (if op.cnt == size && |q| <= 50 && op.memory && op.uncopied == 0 then
          reply.ret == size && q' == q + [op.stu]
        else
          && q' == q
          && reply.ret == (if op.cnt != size then -EINVAL
                           else if |q| > 50 then -EAGAIN
                           else if !op.memory then -ENOMEM
                           else op.uncopied))
  }

  lemma DoMeans(size: nat, m: Model, op: Op)
    ensures var (m', reply) := Do(size, m, op);
            match op
            case Read(cnt, fault) => ReadMeans(size, m.queue, cnt, fault, reply, m'.queue) && m'.leaked == m.leaked
            case Write(_, _, _, _) => WriteMeans(size, m.queue, op, reply, m'.queue)
  {
    if m.queue != [] {
      assert [m.queue[0]] + m.queue[1..] == m.queue;
    }
  }

  /** `copy_from_user` cannot fail on more bytes than it was asked for. */
  predicate Possible(op: Op) {
    op.Write? ==> op.uncopied <= op.cnt
  }

  /** The model and the replies after a list of calls on the empty queue. */
  function Run(size: nat, ops: seq<Op>): (r: (Model, seq<Reply>))
    ensures |r.1| == |ops|
  {
    if ops == [] then (Model([], 0), [])
    else
      var (m, replies) := Run(size, ops[..|ops| - 1]);
      var (m', reply) := Do(size, m, ops[|ops| - 1]);
      (m', replies + [reply])
  }

  function Queue(size: nat, ops: seq<Op>): seq<Stu> {
    Run(size, ops).0.queue
  }

  /** The payloads that calls linked in, in call order. */
  function PutIn(size: nat, ops: seq<Op>): seq<Stu> {
    if ops == [] then []
    else
      var p, op := ops[..|ops| - 1], ops[|ops| - 1];
      PutIn(size, p) + if op.Write? && Queue(size, ops) != Queue(size, p) then [op.stu] else []
  }

  /** The payloads that calls delivered, in call order. */
  function GotOut(replies: seq<Reply>): seq<Stu> {
    if replies == [] then [] else GotOut(replies[..|replies| - 1]) + replies[|replies| - 1].out
  }

  /** Payloads leave in the order they came, and the queue never holds more than 51 of them. */
  lemma {:induction false} ArrivalOrder(size: nat, ops: seq<Op>)
    ensures PutIn(size, ops) == GotOut(Run(size, ops).1) + Queue(size, ops)
    ensures |Queue(size, ops)| <= LIMIT_STU + 1
  {
    if ops != [] {
      var p, op := ops[..|ops| - 1], ops[|ops| - 1];
      ArrivalOrder(size, p);
      var (m, replies) := Run(size, p);
      assert Run(size, ops).1[..|ops| - 1] == replies;
      DoConserves(size, m, op, GotOut(replies));
    }
  }

  lemma DoConserves(size: nat, m: Model, op: Op, before: seq<Stu>)
    ensures var (m', reply) := Do(size, m, op);
            (before + m.queue) + (if op.Write? && m'.queue != m.queue then [op.stu] else [])
            == (before + reply.out) + m'.queue
    ensures |Do(size, m, op).0.queue| <= if |m.queue| <= LIMIT_STU + 1 then LIMIT_STU + 1 else |m.queue|
  {
    var (m', reply) := Do(size, m, op);
    if reply.out != [] {
      assert m.queue == [m.queue[0]] + m.queue[1..];
      assert before + m.queue == (before + [m.queue[0]]) + m.queue[1..];
    } else if op.Write? && m'.queue != m.queue {
      assert before + (m.queue + [op.stu]) == (before + m.queue) + [op.stu];
    }
  }

  /** `num > LIMIT_STU` lets the queue grow to 51 all the same, for any record size. */
  lemma {:induction false} FiftyOneReached(size: nat, stu: Stu, k: nat) returns (ops: seq<Op>)
    requires k <= LIMIT_STU + 1
    ensures |ops| == k && |Queue(size, ops)| == k && Run(size, ops).0.leaked == 0
  {
    if k == 0 {
      ops := [];
    } else {
      var p := FiftyOneReached(size, stu, k - 1);
      ops := p + [Write(size, stu, true, 0)];
      assert ops[..|ops| - 1] == p;
    }
  }

  /**
   A write is refused with -EAGAIN exactly on 51 entries.  It returns the full count exactly
   when it linked the record in or when the copy failed on every single byte: then the caller
   sees success although nothing was queued.  A positive result without a queued record comes
   from a failed copy and from nothing else.
   */
  lemma WriteResult(size: nat, ops: seq<Op>, op: Op)
    requires op.Write? && op.cnt == size && size != 0 && Possible(op)
    ensures var m := Run(size, ops).0;
            var (m', reply) := Do(size, m, op);
            && (reply.ret == -EAGAIN <==> |m.queue| == LIMIT_STU + 1)
            && (reply.ret == size <==> m'.queue == m.queue + [op.stu] || (Leaks(size, m, op) && op.uncopied == size))
            && (reply.ret > 0 && m'.queue == m.queue <==> Leaks(size, m, op))
            && (reply.ret < 0 ==> m' == m)
  {
    var m := Run(size, ops).0;
    ArrivalOrder(size, ops);
    assert |m.queue + [op.stu]| != |m.queue|;
  }

  /**
   After any calls, a read of the right size takes the oldest record, if there is one and its
   copy does not fail; otherwise it changes nothing and gives nothing, and 0 exactly on the empty
   queue.
   */
  lemma ReadResult(size: nat, ops: seq<Op>, op: Op)
    requires op.Read? && op.cnt == size && size != 0
    ensures var m := Run(size, ops).0;
            var (m', reply) := Do(size, m, op);
            && (m.queue != [] && !op.fault ==> reply == Reply(size, [m.queue[0]]) && m'.queue == m.queue[1..])
            && (m.queue == [] || op.fault ==> m' == m && reply.out == [] && reply.ret <= 0)
            && (reply.ret == 0 <==> m.queue == [])
  {
    DoMeans(size, Run(size, ops).0, op);
  }

  // ---------- What went in comes out

  function Writes(size: nat, stus: seq<Stu>): (ops: seq<Op>)
    ensures |ops| == |stus|
  {
    seq(|stus|, i requires 0 <= i < |stus| => Write(size, stus[i], true, 0))
  }

  function Reads(size: nat, k: nat): seq<Op> {
    seq(k, _ => Read(size, false))
  }

  lemma RunSnoc(size: nat, ops: seq<Op>, op: Op)
    ensures var (m, replies) := Run(size, ops);
            var (m', reply) := Do(size, m, op);
            Run(size, ops + [op]) == (m', replies + [reply])
            && GotOut(replies + [reply]) == GotOut(replies) + reply.out
  {
    assert (ops + [op])[..|ops|] == ops;
    var replies, reply := Run(size, ops).1, Do(size, Run(size, ops).0, op).1;
    assert (replies + [reply])[..|replies|] == replies;
  }

  lemma WriteOne(size: nat, ops: seq<Op>, stu: Stu)
    requires |Queue(size, ops)| <= 50
    ensures var ops' := ops + [Write(size, stu, true, 0)];
            && Queue(size, ops') == Queue(size, ops) + [stu]
            && GotOut(Run(size, ops').1) == GotOut(Run(size, ops).1)
  {
    var op := Write(size, stu, true, 0);
    RunSnoc(size, ops, op);
    DoMeans(size, Run(size, ops).0, op);
  }

  lemma ReadOne(size: nat, ops: seq<Op>)
    requires Queue(size, ops) != []
    ensures var ops' := ops + [Read(size, false)];
            && Queue(size, ops') == Queue(size, ops)[1..]
            && GotOut(Run(size, ops').1) == GotOut(Run(size, ops).1) + [Queue(size, ops)[0]]
  {
    var op := Read(size, false);
    RunSnoc(size, ops, op);
    DoMeans(size, Run(size, ops).0, op);
  }

  lemma WritesMore(size: nat, stus: seq<Stu>)
    requires stus != []
    ensures var p, last := stus[..|stus| - 1], stus[|stus| - 1];
            Writes(size, stus) == Writes(size, p) + [Write(size, last, true, 0)]
  {
  }

  lemma ReadsMore(size: nat, ops: seq<Op>, k: nat)
    requires k > 0
    ensures ops + Reads(size, k) == ops + Reads(size, k - 1) + [Read(size, false)]
  {
  }

  lemma {:induction false} WritesQueue(size: nat, stus: seq<Stu>)
    requires |stus| <= 51
    ensures Queue(size, Writes(size, stus)) == stus && GotOut(Run(size, Writes(size, stus)).1) == []
  {
    if stus != [] {
      var p, last := stus[..|stus| - 1], stus[|stus| - 1];
      WritesQueue(size, p);
      WriteOne(size, Writes(size, p), last);
      WritesMore(size, stus);
      assert p + [last] == stus;
    }
  }

  /** Up to 51 records written are read back, each once and in order, and the list is empty again. */
  lemma {:induction false} WrittenAreRead(size: nat, stus: seq<Stu>, k: nat)
    requires k <= |stus| <= 51
    ensures var ops := Writes(size, stus) + Reads(size, k);
            Queue(size, ops) == stus[k..] && GotOut(Run(size, ops).1) == stus[..k]
  {
    if k == 0 {
      WritesQueue(size, stus);
      assert Writes(size, stus) + Reads(size, 0) == Writes(size, stus);
    } else {
      WrittenAreRead(size, stus, k - 1);
      ReadOne(size, Writes(size, stus) + Reads(size, k - 1));
      ReadsMore(size, Writes(size, stus), k);
      assert stus[..k] == stus[..k - 1] + [stus[k - 1..][0]];
    }
  }

  /** A write into the empty queue queues nothing, loses a node, and returns the full count. */
  lemma FaultLooksLikeSuccess(size: nat, stu: Stu)
    requires size > 0
    ensures var ops := [Write(size, stu, true, size)];
            Run(size, ops) == (Model([], 1), [Reply(size, [])])
  {
    var ops := [Write(size, stu, true, size)];
    assert ops[..|ops| - 1] == [];
    assert [] + [Reply(size, [])] == [Reply(size, [])];
  }

  /** The number of writes among `ops` that failed in `copy_from_user`. */
  function Faulted(size: nat, ops: seq<Op>): nat {
    if ops == [] then 0
    else
      Faulted(size, ops[..|ops| - 1]) +
      if Leaks(size, Run(size, ops[..|ops| - 1]).0, ops[|ops| - 1]) then 1 else 0
  }

  /** One node is lost for every write that failed in `copy_from_user`, and for nothing else. */
  lemma {:induction false} LeaksCounted(size: nat, ops: seq<Op>)
    ensures Run(size, ops).0.leaked == Faulted(size, ops)
  {
    if ops != [] {
      LeaksCounted(size, ops[..|ops| - 1]);
    }
  }

  // ---------- The heap

  /** `struct stu_node`, and the sentinel, of which only the links are used. */
  class Node {
    var stu: Stu
    var next: Node
    var prev: Node

    /** `INIT_LIST_HEAD` on a node of its own */
    constructor (stu: Stu)
      ensures next == this && prev == this && this.stu == stu
    {
      this.stu := stu;
      next := this;
      prev := this;
    }
  }

  /** The node at place `i` of the circle: places -1 and `|ring|` both are the head. */
  ghost function Nth(head: Node, ring: seq<Node>, i: int): Node {
    if 0 <= i < |ring| then ring[i] else head
  }

  /** `ring` lists the nodes from `head.next` on; every link of the circle is where it belongs. */
  ghost predicate Linked(head: Node, ring: seq<Node>)
    reads head, ring
  {
    && head !in ring
    && Distinct(ring)
    && (forall i :: -1 <= i < |ring| ==> Nth(head, ring, i).next == Nth(head, ring, i + 1))
    && (forall i :: 0 <= i <= |ring| ==> Nth(head, ring, i).prev == Nth(head, ring, i - 1))
  }

  ghost predicate Distinct(s: seq<Node>) {
    forall i, j :: 0 <= i < j < |s| ==> s[i] != s[j]
  }

  ghost function Nodes(s: seq<Node>): set<Node> {
    set n | n in s
  }

  lemma NodesSplit(s: seq<Node>, k: nat)
    requires Distinct(s) && k < |s|
    ensures Nodes(s[k..]) == {s[k]} + Nodes(s[k + 1..])
    ensures s[k] !in Nodes(s[k + 1..])
    ensures Distinct(s[k + 1..])
  {
  }

  lemma NodesAppend(s: seq<Node>, n: Node)
    ensures Nodes(s + [n]) == Nodes(s) + {n}
    ensures Distinct(s) && n !in s ==> Distinct(s + [n])
  {
  }

  /** The node that following `next` from the head `k` times arrives at. */
  ghost function Walk(head: Node, ring: seq<Node>, k: nat): (n: Node)
    requires Linked(head, ring) && k <= |ring| + 1
    reads head, ring
    ensures n == Nth(head, ring, k - 1)
  {
    if k == 0 then head
    else
      assert Walk(head, ring, k - 1) == Nth(head, ring, k - 2);
      Walk(head, ring, k - 1).next
  }

  /**
   `next` and `prev` undo each other everywhere, and following `next` from the head visits
   every node of the ring once, in order, before it is back at the head.
   */
  lemma RingWellFormed(head: Node, ring: seq<Node>, i: int)
    requires Linked(head, ring) && -1 <= i < |ring|
    ensures var n := Nth(head, ring, i); n.next.prev == n && n.prev.next == n
    ensures forall k: nat :: 1 <= k <= |ring| ==> Walk(head, ring, k) == ring[k - 1]
    ensures forall j, k: nat :: 1 <= j < k <= |ring| ==> Walk(head, ring, j) != Walk(head, ring, k)
    ensures Walk(head, ring, |ring| + 1) == head
  {
    assert Nth(head, ring, i).next == Nth(head, ring, i + 1);
    assert Nth(head, ring, i + 1).prev == Nth(head, ring, i);
    if i == -1 {
      assert Nth(head, ring, |ring|).prev == Nth(head, ring, |ring| - 1);
      assert Nth(head, ring, |ring| - 1).next == Nth(head, ring, |ring|);
    } else {
      assert Nth(head, ring, i).prev == Nth(head, ring, i - 1);
      assert Nth(head, ring, i - 1).next == Nth(head, ring, i);
    }
  }

  ghost predicate Carries(ring: seq<Node>, queue: seq<Stu>)
    reads ring
  {
    |ring| == |queue| && forall i :: 0 <= i < |ring| ==> ring[i].stu == queue[i]
  }

  /**
   Who holds which node: `given` are the nodes that `kmalloc` ever handed out, `freed` those
   that came back, in order, and `live` the others: those in the ring, those that a failed
   write lost, and the `loose` ones that a call has just allocated.
   */
  ghost predicate Ledger(ring: seq<Node>, live: set<Node>, leaked: seq<Node>, freed: seq<Node>, given: set<Node>,
                         loose: set<Node>)
  {
    && Distinct(ring) && Distinct(leaked)
    && Nodes(leaked) !! Nodes(ring) && Nodes(leaked) !! loose && Nodes(ring) !! loose
    && live == Nodes(leaked) + Nodes(ring) + loose
    && live !! Nodes(freed)
    && given == live + Nodes(freed)
    && Distinct(freed)
  }

  lemma LedgerTake(ring: seq<Node>, live: set<Node>, leaked: seq<Node>, freed: seq<Node>, given: set<Node>)
    requires Ledger(ring, live, leaked, freed, given, {}) && ring != []
    ensures ring[0] in live
    ensures Ledger(ring[1..], live - {ring[0]}, leaked, freed + [ring[0]], given, {})
  {
    NodesSplit(ring, 0);
    assert ring[0..] == ring;
    NodesAppend(freed, ring[0]);
  }

  lemma LedgerPut(ring: seq<Node>, live: set<Node>, leaked: seq<Node>, freed: seq<Node>, given: set<Node>, n: Node)
    requires Ledger(ring, live, leaked, freed, given, {n})
    ensures Ledger(ring + [n], live, leaked, freed, given, {})
    ensures Ledger(ring, live, leaked + [n], freed, given, {})
  {
    NodesAppend(ring, n);
    NodesAppend(leaked, n);
  }

  class StuHead {
    const size: nat
    const head: Node
    var num: nat

    ghost var ring: seq<Node>
    ghost var queue: seq<Stu>
    ghost var live: set<Node>
    ghost var leaked: seq<Node>
    ghost var freed: seq<Node>
    ghost var given: set<Node>

    ghost predicate Valid()
      reads this, head, ring
    {
      Owned({})
    }

    /** `Valid`, but for the nodes of `loose`, which have just been allocated. */
    ghost predicate Owned(loose: set<Node>)
      reads this, head, ring
    {
      && Linked(head, ring)
      && Carries(ring, queue)
      && num == |ring| <= LIMIT_STU + 1
      && Ledger(ring, live, leaked, freed, given, loose)
      && head !in given
    }

    ghost function View(): Model
      reads this
    {
      Model(queue, |leaked|)
    }

    /** `INIT_LIST_HEAD`: the sentinel's links point at itself. */
    constructor (size: nat, nothing: Stu)
      ensures Valid() && View() == Model([], 0)
      ensures fresh(head) && ring == [] && given == {}
      ensures this.size == size
    {
      this.size := size;
      var h := new Node(nothing);
      head := h;
      num := 0;
      ring, queue := [], [];
      live, leaked, freed, given := {}, [], [], {};
    }

    /** A node that may be looked at: one that has not been given back. */
    ghost predicate Readable(n: Node)
      reads this
    {
      n == head || n in live
    }

    method NextOf(n: Node) returns (m: Node)
      requires Readable(n)
      ensures m == n.next
    {
      m := n.next;
    }

    /** `kmalloc`, when there is memory */
    method Kmalloc(stu: Stu) returns (n: Node)
      modifies this`live, this`given
      ensures fresh(n) && n.stu == stu && n !in old(live)
      ensures live == old(live) + {n} && given == old(given) + {n}
    {
      n := new Node(stu);
      live, given := live + {n}, given + {n};
    }

    method Kfree(n: Node)
      requires n in live
      modifies this`live, this`freed
      ensures live == old(live) - {n} && freed == old(freed) + [n]
    {
      live, freed := live - {n}, freed + [n];
    }

    /** `kfree` of the `k`-th node of the ring, when those before it are freed. */
    method FreeOne(n: Node, ghost k: nat)
      requires k < |ring| && n == ring[k] && Ledger(ring[k..], live, leaked, freed, given, {})
      modifies this`live, this`freed
      ensures freed == old(freed) + [n]
      ensures Ledger(ring[k + 1..], live, leaked, freed, given, {})
    {
      LedgerTake(ring[k..], live, leaked, freed, given);
      assert ring[k..][1..] == ring[k + 1..];
      Kfree(n);
    }

    /** `list_add_tail(n, head)` */
    method ListAddTail(n: Node)
      requires Linked(head, ring) && Carries(ring, queue) && n != head && n !in ring
      modifies this`ring, this`queue, head, ring, n
      ensures ring == old(ring) + [n] && queue == old(queue) + [old(n.stu)]
      ensures Linked(head, ring) && Carries(ring, queue)
    {
      ghost var was := ring;
      assert head.prev == Nth(head, was, |was| - 1) by {
        assert Nth(head, was, |was|).prev == Nth(head, was, |was| - 1);
      }
      var last := head.prev;
      head.prev := n;
      n.next := head;
      n.prev := last;
      last.next := n;
      ring, queue := ring + [n], queue + [n.stu];
      forall i | -1 <= i < |ring|
        ensures Nth(head, ring, i).next == Nth(head, ring, i + 1)
      {
        if i < |was| - 1 {
          assert old(Nth(head, was, i).next) == Nth(head, was, i + 1);
        }
      }
      forall i | 0 <= i <= |ring|
        ensures Nth(head, ring, i).prev == Nth(head, ring, i - 1)
      {
        if i < |was| {
          assert old(Nth(head, was, i).prev) == Nth(head, was, i - 1);
        }
      }
    }

    /** `list_del(head->next)` */
    method ListDelFirst()
      requires Linked(head, ring) && Carries(ring, queue) && ring != []
      modifies this`ring, this`queue, head, ring
      ensures ring == old(ring)[1..] && queue == old(queue)[1..]
      ensures Linked(head, ring) && Carries(ring, queue)
    {
      ghost var was := ring;
      assert head.next == was[0] by {
        assert Nth(head, was, -1).next == Nth(head, was, 0);
      }
      var entry := head.next;
      assert entry.next == Nth(head, was, 1) && entry.prev == head by {
        assert Nth(head, was, 0).next == Nth(head, was, 1);
        assert Nth(head, was, 0).prev == Nth(head, was, -1);
      }
      entry.next.prev := entry.prev;
      entry.prev.next := entry.next;
      ring, queue := ring[1..], queue[1..];
      forall i | -1 <= i < |ring|
        ensures Nth(head, ring, i).next == Nth(head, ring, i + 1)
      {
        assert old(Nth(head, was, i + 1).next) == Nth(head, was, i + 2);
      }
      forall i | 0 <= i <= |ring|
        ensures Nth(head, ring, i).prev == Nth(head, ring, i - 1)
      {
        assert old(Nth(head, was, i + 1).prev) == Nth(head, was, i);
      }
    }

    /** `stuhead.head.next` */
    method First() returns (stu: Node)
      requires Valid()
      ensures stu == Nth(head, ring, 0)
    {
      assert Nth(head, ring, -1).next == Nth(head, ring, 0);
      stu := NextOf(head);
    }

    /** Unlinks the first node and gives it back. */
    method TakeFirst(stu: Node)
      requires Valid() && ring != [] && stu == ring[0]
      modifies this, head, ring
      ensures Valid()
      ensures ring == old(ring)[1..] && freed == old(freed) + [stu]
      ensures queue == old(queue)[1..] && leaked == old(leaked)
    {
      LedgerTake(ring, live, leaked, freed, given);
      ListDelFirst();
      num := num - 1;
      Kfree(stu);
    }

    /** Links the node that is still loose in at the end. */
    method PutLast(n: Node)
      requires Owned({n}) && num <= LIMIT_STU
      modifies this`num, this`ring, this`queue, head, ring, n
      ensures Valid()
      ensures ring == old(ring) + [n]
      ensures queue == old(queue) + [old(n.stu)] && leaked == old(leaked)
    {
      LedgerPut(ring, live, leaked, freed, given, n);
      assert n in live && n !in ring;
      ListAddTail(n);
      num := num + 1;
    }

    /** Forgets the node that is still loose. */
    ghost method Lose(n: Node)
      requires Owned({n})
      modifies this`leaked
      ensures Valid()
      ensures leaked == old(leaked) + [n]
    {
      LedgerPut(ring, live, leaked, freed, given, n);
      leaked := leaked + [n];
    }

    /** `kbuf_read` */
    method Read(cnt: nat, fault: bool) returns (reply: Reply)
      requires Valid()
      modifies this, head, ring
      ensures Valid()
      ensures var (m, r) := Do(size, old(View()), Op.Read(cnt, fault)); View() == m && reply == r
      ensures ReadMeans(size, old(queue), cnt, fault, reply, queue) && leaked == old(leaked)
      ensures ring == old(ring) || ring == old(ring)[1..]
    {
      if cnt != size {
        return Reply(-EINVAL, []);
      }
      if num == 0 {
        return Reply(0, []);
      }
      var stu := First();
      if fault {
        return Reply(-EINVAL, []);
      }
      var out := stu.stu;
      TakeFirst(stu);
      return Reply(cnt, [out]);
    }

    /** `kbuf_write` */
    method Write(cnt: nat, stu: Stu, memory: bool, uncopied: nat) returns (reply: Reply)
      requires Valid()
      modifies this, head, ring
      ensures Valid()
      ensures var (m, r) := Do(size, old(View()), Op.Write(cnt, stu, memory, uncopied)); View() == m && reply == r
      ensures WriteMeans(size, old(queue), Op.Write(cnt, stu, memory, uncopied), reply, queue)
      ensures ring == old(ring) ||
              (|ring| == |old(ring)| + 1 && ring[..|old(ring)|] == old(ring) && fresh(ring[|old(ring)|]))
    {
      if cnt != size {
        return Reply(-EINVAL, []);
      }
      if num > LIMIT_STU {
        return Reply(-EAGAIN, []);
      }
      if !memory {
        return Reply(-ENOMEM, []);
      }
      var n := Kmalloc(stu);
      if uncopied != 0 {
        Lose(n);
        return Reply(uncopied, []);
      }
      PutLast(n);
      return Reply(cnt, []);
    }

    /** Either call. */
    method Call(op: Op) returns (reply: Reply)
      requires Valid()
      modifies this, head, ring
      ensures Valid()
      ensures var (m, r) := Do(size, old(View()), op); View() == m && reply == r
      ensures forall j :: 0 <= j < |ring| ==> fresh(ring[j]) || ring[j] in old(ring)
    {
      match op {
        case Read(cnt, fault) =>
          reply := Read(cnt, fault);
        case Write(cnt, stu, memory, uncopied) =>
          reply := Write(cnt, stu, memory, uncopied);
          assert forall j :: 0 <= j < |old(ring)| ==> ring[j] in old(ring);
      }
    }

    /**
     `kbuf_exit`: the safe walk frees the nodes of the ring, each once and in order, and looks
     only at nodes that have not been freed.
     */
    method Exit()
      requires Valid()
      modifies this`live, this`freed
      ensures freed == old(freed) + ring
      ensures Ledger([], live, leaked, freed, given, {})
    {
      ghost var k := 0;
      var pos := NextOf(head);
      assert pos == Nth(head, ring, k) by {
        assert Nth(head, ring, -1).next == Nth(head, ring, 0);
      }
      var n := NextOf(pos);
      while pos != head
        invariant 0 <= k <= |ring|
        invariant pos == Nth(head, ring, k) && n == pos.next
        invariant freed == old(freed) + ring[..k]
        invariant Ledger(ring[k..], live, leaked, freed, given, {})
        decreases |ring| - k
      {
        assert Nth(head, ring, k).next == Nth(head, ring, k + 1);
        FreeOne(pos, k);
        k := k + 1;
        pos := n;
        n := NextOf(pos);
      }
    }
  }

  /** `kbuf_init`; `misc` is what `misc_register` answers. */
  method KbufInit(size: nat, nothing: Stu, misc: int) returns (stuhead: StuHead, ret: int)
    ensures fresh(stuhead) && fresh(stuhead.head) && stuhead.ring == []
    ensures stuhead.Valid() && stuhead.size == size
    ensures stuhead.View() == Model([], 0) && stuhead.given == {}
    ensures ret <= 0 && (misc < 0 <==> ret == misc && ret != 0)
  {
    stuhead := new StuHead(size, nothing);
    ret := 0;
    if misc < 0 {
      ret := misc;
    }
  }

  /** One load of the module: any list of calls, then unloading. */
  method Session(size: nat, nothing: Stu, ops: seq<Op>) returns (stuhead: StuHead, replies: seq<Reply>)
    ensures replies == Run(size, ops).1
    ensures stuhead.live == Nodes(stuhead.leaked) && Distinct(stuhead.leaked)
    ensures |stuhead.leaked| == Faulted(size, ops)
    ensures Distinct(stuhead.freed)
    ensures stuhead.given == stuhead.live + Nodes(stuhead.freed)
    ensures (stuhead.given == Nodes(stuhead.freed)) <==> Faulted(size, ops) == 0
  {
    var ret;
    stuhead, ret := KbufInit(size, nothing, 0);
    replies := [];
    var i := 0;
    while i < |ops|
      invariant 0 <= i <= |ops|
      invariant fresh(stuhead) && fresh(stuhead.head)
      invariant forall j :: 0 <= j < |stuhead.ring| ==> fresh(stuhead.ring[j])
      invariant stuhead.Valid() && stuhead.size == size
      invariant stuhead.View() == Run(size, ops[..i]).0 && replies == Run(size, ops[..i]).1
    {
      assert ops[..i + 1][..i] == ops[..i];
      var reply := stuhead.Call(ops[i]);
      replies := replies + [reply];
      i := i + 1;
    }
    assert ops[..i] == ops;
    LeaksCounted(size, ops);
    stuhead.Exit();
    if stuhead.leaked != [] {
      assert stuhead.leaked[0] in stuhead.live;
    }
  }
}

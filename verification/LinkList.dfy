/** The circular doubly linked list of link_list.c, over the list_head primitives of list.h. */
module LinkList {
  import opened CTypes

  // ---------- what the list is, as a value ----------

  /** Contents in order, and whether the cached end cursor still names the last element. */
  datatype State<T> = State(items: seq<T>, endOk: bool)

  function InsertAt<T>(s: State<T>, k: nat, x: T): State<T>
    requires k <= |s.items|
  {
    State(s.items[..k] + [x] + s.items[k..], s.endOk)
  }

  /** Deleting the only element takes the begin branch, so end keeps naming the element that is gone. */
  function DeleteAt<T>(s: State<T>, k: nat): State<T>
    requires k < |s.items|
  {
    State(s.items[..k] + s.items[k + 1..], s.endOk && |s.items| >= 2)
  }

  datatype Op<T> = Insert(k: nat, x: T) | Delete(k: nat)

  predicate Enabled<T>(s: State<T>, op: Op<T>) {
    match op
    case Insert(k, _) => k <= |s.items|
    case Delete(k) => k < |s.items|
  }

  function Step<T>(s: State<T>, op: Op<T>): State<T>
    requires Enabled(s, op)
  {
    match op
    case Insert(k, x) => InsertAt(s, k, x)
    case Delete(k) => DeleteAt(s, k)
  }

  predicate Runs<T>(s: State<T>, ops: seq<Op<T>>)
    decreases |ops|
  {
    ops == [] || (Enabled(s, ops[0]) && Runs(Step(s, ops[0]), ops[1..]))
  }

  function Run<T>(s: State<T>, ops: seq<Op<T>>): State<T>
    requires Runs(s, ops)
    decreases |ops|
  {
    if ops == [] then s else Run(Step(s, ops[0]), ops[1..])
  }

  /** Some operation of the run deletes the list's only element. */
  predicate EverEmptied<T>(s: State<T>, ops: seq<Op<T>>)
    requires Runs(s, ops)
    decreases |ops|
  {
    ops != [] && ((ops[0].Delete? && |s.items| == 1) || EverEmptied(Step(s, ops[0]), ops[1..]))
  }

  /** The end cursor is right after a run if and only if it was right before and no operation emptied the list. */
  lemma {:induction false} EndRightIffNeverEmptied<T>(s: State<T>, ops: seq<Op<T>>)
    requires Runs(s, ops)
    ensures Run(s, ops).endOk <==> s.endOk && !EverEmptied(s, ops)
    decreases |ops|
  {
    if ops != [] { EndRightIffNeverEmptied(Step(s, ops[0]), ops[1..]); }
  }

  /** Deleting what was just inserted restores the contents, and the end cursor exactly when the list was not empty. */
  lemma {:induction false} InsertThenDelete<T>(s: State<T>, k: nat, x: T)
    requires k <= |s.items|
    ensures InsertAt(s, k, x).items[k] == x
    ensures DeleteAt(InsertAt(s, k, x), k) == State(s.items, s.endOk && s.items != [])
  {
    var t := InsertAt(s, k, x);
    assert t.items[..k] == s.items[..k] && t.items[k + 1..] == s.items[k..];
    assert s.items[..k] + s.items[k..] == s.items;
  }

  // ---------- list.h ----------

  class Node<T> {
    const data: Option<T>   // None for the bare list_head that anchors the list
    var next: Node?<T>
    var prev: Node?<T>

    constructor (data: Option<T>)
      ensures this.data == data
    {
      this.data := data;
      next, prev := null, null;
    }
  }

  /** list_add: insert fresh node p behind node at. */
  method ListAdd<T>(p: Node<T>, at: Node<T>)
    requires at.next != null && p != at && p != at.next
    modifies p, at, at.next
    ensures p.next == old(at.next) && p.prev == at && at.next == p
    ensures old(at.next).prev == p
    ensures old(at.next) != at ==> old(at.next).next == old(at.next.next) && at.prev == old(at.prev)
  {
    var next := at.next;
    next.prev := p;
    p.next := next;
    p.prev := at;
    at.next := p;
  }

  /** list_del: unlink the entry and poison its links. */
  method ListDel<T>(entry: Node<T>)
    requires entry.next != null && entry.prev != null && entry.next != entry && entry.prev != entry
    modifies entry, entry.next, entry.prev
    ensures entry.next == null && entry.prev == null
    ensures old(entry.next).prev == old(entry.prev) && old(entry.prev).next == old(entry.next)
    ensures old(entry.next) != old(entry.prev) ==>
              old(entry.next).next == old(entry.next.next) && old(entry.prev).prev == old(entry.prev.prev)
  {
    var prev, next := entry.prev, entry.next;
    next.prev := prev;
    prev.next := next;
    entry.next, entry.prev := null, null;
  }

  // ---------- link_list.c ----------

  ghost predicate Elements<T>(ns: seq<Node<T>>) {
    forall i :: 0 <= i < |ns| ==> ns[i].data.Some?
  }

  ghost function Items<T>(ns: seq<Node<T>>): (r: seq<T>)
    requires Elements(ns)
    ensures |r| == |ns| && forall i :: 0 <= i < |ns| ==> r[i] == ns[i].data.value
  {
    seq(|ns|, i requires 0 <= i < |ns| => ns[i].data.value)
  }

  /** Consecutive nodes of c are linked both ways. */
  ghost predicate Chained<T>(c: seq<Node<T>>)
    reads c
  {
    forall i :: 0 <= i < |c| - 1 ==> c[i].next == c[i + 1] && c[i + 1].prev == c[i]
  }

  class List<T> {
    var head: Node<T>
    var begin: Node<T>
    var end: Node<T>
    var count: nat
    ghost var nodes: seq<Node<T>>

    /** The circle, cut open at head. */
    ghost function Circle(): seq<Node<T>>
      reads this
    {
      [head] + nodes + [head]
    }

    ghost predicate Linked()
      reads this, head, nodes
    {
      head !in nodes && Distinct(nodes) && Elements(nodes) && Chained(Circle())
    }

    /** Position k: head for 0, then the elements in order. */
    ghost function At(k: nat): Node<T>
      requires k <= |nodes|
      reads this
    {
      if k == 0 then head else nodes[k - 1]
    }

    ghost function First(): Node<T>
      reads this
    {
      if nodes == [] then head else nodes[0]
    }

    ghost predicate EndOk()
      reads this
    {
      end == At(|nodes|)
    }

    /** begin is the first element, count the length; end is the last element or names a removed node. */
    ghost predicate Cursors()
      reads this
    {
      begin == First() && count == |nodes| && (EndOk() || (end != head && end !in nodes))
    }

    /** The links form one circle and the cursors fit it. */
    ghost predicate Valid()
      reads this, head, nodes
    {
      Linked() && Cursors()
    }

    ghost function View(): State<T>
      reads this, head, nodes
      requires Valid()
    {
      State(Items(nodes), EndOk())
    }

    /** A valid list in memory, link by link and cursor by cursor, and what its view says about it. */
    lemma {:induction false} CircleInMemory()
      requires Valid()
      ensures var n := |nodes|;
              && head.next == begin == (if n == 0 then head else nodes[0])
              && head.prev == (if n == 0 then head else nodes[n - 1])
              && (forall i :: 0 <= i < n ==> nodes[i].next == if i + 1 < n then nodes[i + 1] else head)
              && (forall i :: 0 <= i < n ==> nodes[i].prev == if i > 0 then nodes[i - 1] else head)
              && count == n && (View().endOk <==> end == if n == 0 then head else nodes[n - 1])
              && |View().items| == n && forall i :: 0 <= i < n ==> nodes[i].data == Some(View().items[i])
    {
      hide Distinct;
      var c := Circle();
      assert c[0].next == c[1] && c[|nodes| + 1].prev == c[|nodes|];
      forall i | 0 <= i < |nodes|
        ensures nodes[i].next == if i + 1 < |nodes| then nodes[i + 1] else head
        ensures nodes[i].prev == if i > 0 then nodes[i - 1] else head
      {
        assert c[i + 1].next == c[i + 2] && c[i + 1].prev == c[i];
      }
    }

    /** llist_create and llist_init. */
    constructor ()
      ensures Valid() && fresh(head)
      ensures nodes == [] && View() == State([], true)
    {
      var p := new Node<T>(None);
      head, begin, end := p, p, p;
      count := 0;
      nodes := [];
      new;
      head.next, head.prev := head, head;
    }

    /** The list_add of llist_insert: p is linked in behind position k. */
    method AddBehind(pos: Node<T>, p: Node<T>, ghost k: nat) returns (ghost now: seq<Node<T>>)
      requires Linked() && k <= |nodes| && pos == At(k) && p != head && p !in nodes && p.data.Some?
      modifies p, head, nodes
      ensures now == nodes[..k] + [p] + nodes[k..]
      ensures head !in now && Distinct(now) && Elements(now) && Chained([head] + now + [head])
      ensures Items(now) == Items(nodes)[..k] + [p.data.value] + Items(nodes)[k..]
      ensures |now| == |nodes| + 1 && now[0] == (if k == 0 then p else nodes[0])
      ensures now[|nodes|] == if k == |nodes| then p else nodes[|nodes| - 1]
      ensures forall n :: n in now <==> n == p || n in nodes
    {
      ghost var c := Circle();
      CircleShape(head, nodes);
      assert c[k].next == c[k + 1] && c[k + 1].prev == c[k];
      ListAdd(p, pos);
      assert ChainedExcept(c, k);
      SpliceChain(head, nodes, p, k);
      InsertedShape(nodes, p, k);
      now := nodes[..k] + [p] + nodes[k..];
    }

    /** The rest of llist_insert: begin, end and count. */
    method Inserted(pos: Node<T>, p: Node<T>, ghost k: nat, ghost now: seq<Node<T>>)
      requires head !in nodes && Distinct(nodes) && k <= |nodes| && pos == At(k) && p !in nodes && p != end && p != head
      requires Cursors()
      requires head !in now && Distinct(now) && Elements(now) && Chained([head] + now + [head])
      requires |now| == |nodes| + 1 && now[0] == (if k == 0 then p else nodes[0])
      requires now[|nodes|] == if k == |nodes| then p else nodes[|nodes| - 1]
      requires forall n :: n in now <==> n == p || n in nodes
      modifies this
      ensures nodes == now && head == old(head) && Valid() && EndOk() == old(EndOk())
    {
      assert pos == At(|nodes|) <==> k == |nodes|;
      assert pos == head <==> k == 0;
      hide Chained, Distinct, Elements;
      if pos == head { begin := p; }
      if pos == end { end := p; }
      nodes := now;
      count := count + 1;
    }

    /** llist_insert: a new element p behind position pos, which is head (k = 0) or the k-th element. */
    method Insert(pos: Node<T>, data: T, ghost k: nat) returns (ghost p: Node<T>)
      requires Valid() && k <= |nodes| && pos == At(k)
      modifies this, head, nodes
      ensures Valid() && head == old(head)
      ensures fresh(p) && nodes == old(nodes)[..k] + [p] + old(nodes)[k..]
      ensures View() == InsertAt(old(View()), k, data)
    {
      hide Chained, Distinct, Elements, Items;
      var node := new Node<T>(Some(data));
      p := node;
      ghost var now := AddBehind(pos, node, k);
      Inserted(pos, node, k, now);
    }

    /** The list_del of llist_delete: the k-th element is unlinked and its links poisoned. */
    method Unlink(pos: Node<T>, ghost k: nat) returns (ghost now: seq<Node<T>>)
      requires Linked() && k < |nodes| && pos == nodes[k]
      modifies head, nodes
      ensures now == nodes[..k] + nodes[k + 1..] && pos.next == null && pos.prev == null
      ensures head !in now && Distinct(now) && Elements(now) && Chained([head] + now + [head])
      ensures Items(now) == Items(nodes)[..k] + Items(nodes)[k + 1..]
      ensures |now| == |nodes| - 1 && forall n :: n in now <==> n != pos && n in nodes
      ensures now != [] ==> now[0] == (if k == 0 then nodes[1] else nodes[0])
      ensures now != [] ==> now[|now| - 1] == if k == |nodes| - 1 then nodes[k - 1] else nodes[|nodes| - 1]
    {
      hide Elements, Items, Distinct;
      ghost var c := Circle();
      CircleShape(head, nodes);
      assert c[k].next == c[k + 1] && c[k + 1].prev == c[k];
      assert c[k + 1].next == c[k + 2] && c[k + 2].prev == c[k + 1];
      ListDel(pos);
      now := nodes[..k] + nodes[k + 1..];
      assert ChainedAround(c, k);
      CutChain(head, nodes, k);
      RemovedShape(nodes, k);
    }

    /** The cursor updates of llist_delete. The else means a sole element, being begin, leaves end behind. */
    method LeaveCursors(pos: Node<T>, ghost k: nat)
      requires Valid() && k < |nodes| && pos == nodes[k]
      modifies this`begin, this`end
      ensures begin == if k > 0 then nodes[0] else if |nodes| > 1 then nodes[1] else head
      ensures end == if old(EndOk()) && k == |nodes| - 1 && k > 0 then nodes[k - 1] else old(end)
    {
      assert Circle()[k + 1].next == Circle()[k + 2] && Circle()[k + 1].prev == Circle()[k];
      if pos == begin {
        begin := pos.next;
      } else if pos == end {
        end := pos.prev;
      }
    }

    /** llist_detach: unlink the element at pos and hand it out. */
    method Detach(pos: Node<T>, ghost k: nat) returns (p: Node<T>)
      requires Valid() && k < |nodes| && pos == nodes[k]
      modifies this, head, nodes
      ensures Valid() && head == old(head)
      ensures p == pos && p.next == null && p.prev == null && nodes == old(nodes)[..k] + old(nodes)[k + 1..]
      ensures View() == DeleteAt(old(View()), k)
    {
      LeaveCursors(pos, k);
      hide Chained, Distinct, Elements, Items;
      ghost var now := Unlink(pos, k);
      nodes := now;
      count := count - 1;
      p := pos;
    }

    /** llist_delete: as detach; the element it returns is the one handed back to the allocator. */
    method Delete(pos: Node<T>, ghost k: nat) returns (released: Node<T>)
      requires Valid() && k < |nodes| && pos == nodes[k]
      modifies this, head, nodes
      ensures Valid() && head == old(head)
      ensures released == pos && nodes == old(nodes)[..k] + old(nodes)[k + 1..]
      ensures View() == DeleteAt(old(View()), k)
    {
      released := Detach(pos, k);
    }

    method PushFront(data: T)
      requires Valid()
      modifies this, head, nodes
      ensures Valid() && View() == State([data] + old(View()).items, old(EndOk()))
    {
      ghost var p := Insert(head, data, 0);
    }

    /** Appends where end points, so end must be right. */
    method PushBack(data: T)
      requires Valid() && EndOk()
      modifies this, head, nodes
      ensures Valid() && View() == State(old(View()).items + [data], true)
    {
      ghost var p := Insert(end, data, |nodes|);
    }

    method PopFront() returns (released: Node<T>)
      requires Valid() && nodes != []
      modifies this, head, nodes
      ensures Valid() && released == old(nodes[0])
      ensures View() == State(old(View()).items[1..], old(EndOk()) && |old(nodes)| >= 2)
    {
      released := Delete(begin, 0);
    }

    method PopBack() returns (released: Node<T>)
      requires Valid() && EndOk() && nodes != []
      modifies this, head, nodes
      ensures Valid() && released == old(nodes[|nodes| - 1])
      ensures View() == State(old(View()).items[..|old(nodes)| - 1], |old(nodes)| >= 2)
    {
      released := Delete(end, |nodes| - 1);
    }

    /** llist_for_each: visits every element once, in order. */
    method ForEach() returns (visited: seq<T>)
      requires Valid()
      ensures visited == View().items
    {
      visited := [];
      var pos := begin;
      ghost var i := 0;
      while pos != head
        invariant 0 <= i <= |nodes| && pos == Circle()[i + 1]
        invariant visited == Items(nodes)[..i]
        decreases |nodes| - i
      {
        assert pos == nodes[i] && Circle()[i + 1].next == Circle()[i + 2];
        visited := visited + [pos.data.value];
        pos := pos.next;
        i := i + 1;
      }
    }

    /** llist_destroy: releases every element once, in order, each time through the begin branch of delete, and
        needs only intact links and a right begin cursor. */
    method Destroy() returns (released: seq<Node<T>>, headReleased: bool)
      requires Valid()
      modifies this, head, nodes
      ensures released == old(nodes) && headReleased
      ensures head == old(head) && begin == head && head.next == head && head.prev == head && count == 0 && nodes == []
    {
      released := [];
      var pos, next := begin, begin.next;
      ghost var all := nodes;
      while pos != head
        invariant Valid() && head == old(head)
        invariant |released| <= |all| && released == all[..|released|] && nodes == all[|released|..]
        invariant pos == begin && next == pos.next
        decreases |nodes|
      {
        BeginStep();
        var gone := Delete(pos, 0);
        assert gone == all[|released|];
        assert all[..|released| + 1] == all[..|released|] + [gone];
        released := released + [gone];
        pos := next;
        assert next.next != null by { BeginStep(); }
        next := next.next;
      }
      assert nodes == [];
      assert Circle()[0].next == Circle()[1] && Circle()[1].prev == Circle()[0];
      headReleased := head == begin;
    }

    /** begin's successor is the second element, or head if there is none. */
    lemma {:induction false} BeginStep()
      requires Valid()
      ensures begin.next == if nodes == [] then First() else if |nodes| == 1 then head else nodes[1]
      ensures begin.next != null
    {
      if nodes == [] {
        assert Circle()[0].next == Circle()[1];
      } else {
        assert Circle()[1].next == Circle()[2];
      }
    }
  }

  /** c runs from an anchor back to itself and meets no node twice on the way. */
  ghost predicate IsCircle<T>(c: seq<Node<T>>) {
    && |c| >= 2 && c[0] == c[|c| - 1]
    && forall i, j :: 0 <= i < j < |c| && (i > 0 || j < |c| - 1) ==> c[i] != c[j]
  }

  lemma {:induction false} CircleShape<T>(head: Node<T>, ns: seq<Node<T>>)
    requires head !in ns && Distinct(ns)
    ensures IsCircle([head] + ns + [head])
    ensures forall n :: n in [head] + ns + [head] <==> n == head || n in ns
  {
  }

  /** All links of c but the k-th are in place. */
  ghost predicate ChainedExcept<T>(c: seq<Node<T>>, k: nat)
    reads c
  {
    forall i :: 0 <= i < |c| - 1 && i != k ==> c[i].next == c[i + 1] && c[i + 1].prev == c[i]
  }

  lemma {:induction false} SpliceChain<T>(head: Node<T>, ns: seq<Node<T>>, p: Node<T>, k: nat)
    requires k <= |ns|
    requires var c := [head] + ns + [head];
             ChainedExcept(c, k) && c[k].next == p && p.prev == c[k] && p.next == c[k + 1] && c[k + 1].prev == p
    ensures Chained([head] + (ns[..k] + [p] + ns[k..]) + [head])
  {
    var c, d := [head] + ns + [head], [head] + (ns[..k] + [p] + ns[k..]) + [head];
    forall i | 0 <= i < |d| ensures d[i] == if i <= k then c[i] else if i == k + 1 then p else c[i - 1] {}
    forall i | 0 <= i < |d| - 1 ensures d[i].next == d[i + 1] && d[i + 1].prev == d[i] {
      if i < k {
        assert c[i].next == c[i + 1] && c[i + 1].prev == c[i];
      } else if i > k + 1 {
        assert c[i - 1].next == c[i] && c[i].prev == c[i - 1];
      }
    }
  }

  lemma {:induction false} InsertedShape<T>(was: seq<Node<T>>, p: Node<T>, k: nat)
    requires Distinct(was) && Elements(was) && p !in was && p.data.Some? && k <= |was|
    ensures var now := was[..k] + [p] + was[k..];
            && Distinct(now) && Elements(now)
            && Items(now) == Items(was)[..k] + [p.data.value] + Items(was)[k..]
            && forall n :: n in now <==> n == p || n in was
  {
    assert was == was[..k] + was[k..];
  }

  /** All links of c but those of the node at k + 1 are in place, and its neighbours are joined. */
  ghost predicate ChainedAround<T>(c: seq<Node<T>>, k: nat)
    requires k + 2 < |c|
    reads c
  {
    && (forall i :: 0 <= i < |c| - 1 && i != k && i != k + 1 ==> c[i].next == c[i + 1] && c[i + 1].prev == c[i])
    && c[k].next == c[k + 2] && c[k + 2].prev == c[k]
  }

  lemma {:induction false} CutChain<T>(head: Node<T>, ns: seq<Node<T>>, k: nat)
    requires k < |ns| && ChainedAround([head] + ns + [head], k)
    ensures Chained([head] + (ns[..k] + ns[k + 1..]) + [head])
  {
    var c, d := [head] + ns + [head], [head] + (ns[..k] + ns[k + 1..]) + [head];
    forall i | 0 <= i < |d| ensures d[i] == if i <= k then c[i] else c[i + 1] {}
    forall i | 0 <= i < |d| - 1 ensures d[i].next == d[i + 1] && d[i + 1].prev == d[i] {
      if i < k {
        assert c[i].next == c[i + 1] && c[i + 1].prev == c[i];
      } else if i > k {
        assert c[i + 1].next == c[i + 2] && c[i + 2].prev == c[i + 1];
      }
    }
  }

  lemma {:induction false} RemovedShape<T>(was: seq<Node<T>>, k: nat)
    requires Distinct(was) && Elements(was) && k < |was|
    ensures var now := was[..k] + was[k + 1..];
            && Distinct(now) && Elements(now)
            && Items(now) == Items(was)[..k] + Items(was)[k + 1..]
            && forall n :: n in now <==> n != was[k] && n in was
  {
    assert was == was[..k] + [was[k]] + was[k + 1..];
  }
}

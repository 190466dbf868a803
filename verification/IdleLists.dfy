/** The doubly linked idleList of the redigo pool, shown to be a sequence. */
module IdleLists {
  import opened PoolSpec

  class PoolConn {
    const conn: ConnId
    const created: int
    var t: int
    var next: PoolConn?
    var prev: PoolConn?

    constructor (conn: ConnId, created: int)
      ensures this.conn == conn && this.created == created && t == 0 && next == null && prev == null
    {
      this.conn, this.created, t, next, prev := conn, created, 0, null, null;
    }

    function Value(): Entry
      reads this
    {
      Entry(conn, t, created)
    }
  }

  /** The k-th node, or null beyond either end. */
  ghost function NodeAt(nodes: seq<PoolConn>, k: int): PoolConn? {
    if 0 <= k < |nodes| then nodes[k] else null
  }

  /** The nodes carry these entries, in order. */
  ghost predicate Carries(nodes: seq<PoolConn>, es: seq<Entry>)
    reads nodes
  {
    |es| == |nodes| && forall k :: 0 <= k < |nodes| ==> nodes[k].Value() == es[k]
  }

  class IdleList {
    var count: int
    var front: PoolConn?
    var back: PoolConn?
    ghost var nodes: seq<PoolConn>   // front to back
    ghost var contents: seq<Entry>   // the entries that they carry

    ghost predicate Valid()
      reads this, nodes
    {
      && count == |nodes| == |contents|
      && (forall j, k :: 0 <= j < k < |nodes| ==> nodes[j] != nodes[k])
      && front == (if nodes == [] then null else nodes[0])
      && back == (if nodes == [] then null else nodes[|nodes| - 1])
      && (forall k {:trigger nodes[k].next} :: 0 <= k < |nodes| ==> nodes[k].next == NodeAt(nodes, k + 1))
      && (forall k {:trigger nodes[k].prev} :: 0 <= k < |nodes| ==> nodes[k].prev == NodeAt(nodes, k - 1))
      && (forall k :: 0 <= k < |nodes| ==> contents[k] == Entry(nodes[k].conn, nodes[k].t, nodes[k].created))
    }

    constructor ()
      ensures Valid() && contents == []
    {
      count, front, back, nodes, contents := 0, null, null, [], [];
    }

    method PushFront(pc: PoolConn)
      requires Valid() && pc !in nodes
      modifies this, nodes, pc`next, pc`prev
      ensures Valid() && nodes == [pc] + old(nodes) && contents == [pc.Value()] + old(contents)
    {
      pc.next := front;
      pc.prev := null;
      if count == 0 {
        back := pc;
      } else {
        front.prev := pc;
      }
      front := pc;
      count := count + 1;
      nodes, contents := [pc] + nodes, [pc.Value()] + contents;
      assert forall k :: 0 < k < |nodes| ==> nodes[k] == old(nodes)[k - 1] && nodes[k] != pc;
      assert forall k {:trigger nodes[k].next} :: 0 < k < |nodes| ==> nodes[k].next == NodeAt(nodes, k + 1);
      assert nodes[0].next == NodeAt(nodes, 1);
    }

    method PopFront()
      requires Valid() && nodes != []
      modifies this, nodes
      ensures Valid() && nodes == old(nodes)[1..] && contents == old(contents)[1..]
      ensures old(nodes)[0].Value() == old(contents)[0]
      ensures old(nodes)[0].next == null && old(nodes)[0].prev == null
    {
      var pc := front;
      assert pc == nodes[0] && (|nodes| > 1 ==> pc.next == nodes[1]);
      count := count - 1;
      if count == 0 {
        front, back := null, null;
      } else {
        pc.next.prev := null;
        front := pc.next;
      }
      pc.next, pc.prev := null, null;
      nodes, contents := nodes[1..], contents[1..];
      forall k | 0 <= k < |nodes|
        ensures nodes[k].prev == NodeAt(nodes, k - 1) && nodes[k].next == NodeAt(nodes, k + 1)
      {
        assert nodes[k] == old(nodes)[k + 1] && NodeAt(nodes, k + 1) == NodeAt(old(nodes), k + 2);
      }
    }

    method PopBack()
      requires Valid() && nodes != []
      modifies this, nodes
      ensures Valid() && nodes == old(nodes)[..|old(nodes)| - 1] && contents == old(contents)[..|old(nodes)| - 1]
      ensures old(nodes)[|old(nodes)| - 1].Value() == old(contents)[|old(nodes)| - 1]
      ensures old(nodes)[|old(nodes)| - 1].next == null && old(nodes)[|old(nodes)| - 1].prev == null
    {
      var pc := back;
      assert pc == nodes[|nodes| - 1] && (|nodes| > 1 ==> pc.prev == nodes[|nodes| - 2]);
      count := count - 1;
      if count == 0 {
        front, back := null, null;
      } else {
        pc.prev.next := null;
        back := pc.prev;
      }
      pc.next, pc.prev := null, null;
      nodes, contents := nodes[..|nodes| - 1], contents[..|nodes| - 1];
      forall k | 0 <= k < |nodes|
        ensures nodes[k].prev == NodeAt(nodes, k - 1) && nodes[k].next == NodeAt(nodes, k + 1)
      {
        assert nodes[k] != pc && NodeAt(nodes, k - 1) == NodeAt(old(nodes), k - 1);
      }
    }
  }
}

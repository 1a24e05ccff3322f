/** The list of expired timers whose handlers still have to run (libtimer.c, timeout_list). The server pushes
    at the front, the worker takes from the back. Each method is one section under timeout_mutex. */
module PendingLists {
  import opened TimeVals
  import opened TimerQueues

  ghost function Jobs(nodes: seq<TimerNode>): (js: seq<Call>)
    reads nodes
    ensures |js| == |nodes| && forall i :: 0 <= i < |nodes| ==> js[i] == Call(nodes[i].handler, nodes[i].arg)
  {
    seq(|nodes|, i requires 0 <= i < |nodes| reads nodes => Call(nodes[i].handler, nodes[i].arg))
  }

  class PendingList {
    var first: TimerNode?
    var last: TimerNode?
    ghost var nodes: seq<TimerNode>

    ghost predicate Valid()
      reads this, nodes
    {
      Linked(first, last, nodes)
    }

    ghost function Contents(): seq<Call>
      reads this, nodes
    {
      Jobs(nodes)
    }

    constructor ()
      ensures Valid() && Contents() == [] && fresh(this)
    {
      first, last, nodes := null, null, [];
    }

    /** add_timeout_list */
    method PushFront(handler: nat, arg: nat) returns (ret: int)
      requires Valid()
      modifies this, nodes`prev
      ensures Valid()
      ensures if handler == NULL
              then ret == -1 && Contents() == old(Contents())
              else ret == 0 && Contents() == [Call(handler, arg)] + old(Contents())
    {
      if handler == NULL {
        return -1;
      }
      var node := new TimerNode(TimeVal(0, 0), handler, arg);
      assert node !in nodes;
      if first == null {
        first := node;
        first.next, first.prev := null, null;
        last := first;
      } else {
        node.next, node.prev := first, null;
        first.prev := node;
        first := node;
      }
      nodes := [node] + nodes;
      ret := 0;
    }

    /** get_pending_list_count */
    method Count() returns (count: nat)
      requires Valid()
      ensures count == |Contents()|
    {
      count := 0;
      var ptr := first;
      while ptr != null
        invariant count <= |nodes| && ptr == (if count < |nodes| then nodes[count] else null)
        decreases |nodes| - count
      {
        ptr, count := ptr.next, count + 1;
      }
    }

    /** get_pending_list: the node is unlinked and handed to the worker. */
    method PopLast() returns (node: TimerNode?)
      requires Valid()
      modifies this, nodes`next
      ensures Valid()
      ensures if old(Contents()) == []
              then node == null && Contents() == []
              else && node != null && node in old(nodes) && node !in nodes
                   && Contents() + [Call(node.handler, node.arg)] == old(Contents())
    {
      node := last;
      if last != null {
        ghost var n := |nodes| - 1;
        if last.prev == null {
          last, first := null, null;
        } else {
          last := last.prev;
          last.next := null;
        }
        nodes := nodes[..n];
      }
    }
  }
}

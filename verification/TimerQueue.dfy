/** The timer queue of libtimer.c: an intrusive doubly linked list, sorted by absolute deadline.

    The first half says on sequences what the queue operations mean; the class proves that the pointer
    manipulations do exactly that. Handlers and their arguments are opaque machine words; 0 is NULL. */
module TimerQueues {
  import opened TimeVals
  import opened Wrappers

  const NULL: nat := 0
  const INT_MAX := 0x7fff_ffff
  const INT_RANGE := 0x1_0000_0000

  datatype Timer = Timer(id: int, deadline: TimeVal, handler: nat, arg: nat)
  // One call of a function pointer.
  datatype Call = Call(handler: nat, arg: nat)

  // ---------- Sequences of timers ----------

  ghost predicate AllNormal(q: seq<Timer>) {
    forall i :: 0 <= i < |q| ==> q[i].deadline.Normal()
  }

  ghost predicate Sorted(q: seq<Timer>) {
    forall i, j :: 0 <= i < j < |q| ==> q[i].deadline.Micros() <= q[j].deadline.Micros()
  }

  /** The position of the first timer that is due strictly after `deadline`. */
  function InsertPos(q: seq<Timer>, deadline: TimeVal): (p: nat)
    ensures p <= |q|
    ensures forall i :: 0 <= i < p ==> !LessThan(deadline, q[i].deadline)
    ensures p < |q| ==> LessThan(deadline, q[p].deadline)
  {
    if q == [] || LessThan(deadline, q[0].deadline) then 0 else 1 + InsertPos(q[1..], deadline)
  }

  function InsertAt<T>(q: seq<T>, k: nat, x: T): (r: seq<T>)
    requires k <= |q|
    ensures |r| == |q| + 1 && r[k] == x
    ensures forall i :: 0 <= i < |r| && i != k ==> r[i] == q[if i < k then i else i - 1]
  {
    q[..k] + [x] + q[k..]
  }

  function DeleteAt<T>(q: seq<T>, k: nat): (r: seq<T>)
    requires k < |q|
    ensures |r| == |q| - 1
    ensures forall i :: 0 <= i < |r| ==> r[i] == q[if i < k then i else i + 1]
  {
    q[..k] + q[k + 1..]
  }

  lemma InsertAtIsReversible<T>(q: seq<T>, k: nat, x: T)
    requires k <= |q|
    ensures multiset(InsertAt(q, k, x)) == multiset(q) + multiset{x}
    ensures DeleteAt(InsertAt(q, k, x), k) == q
  {
    assert q == q[..k] + q[k..];
    assert InsertAt(q, k, x)[..k] == q[..k] && InsertAt(q, k, x)[k + 1..] == q[k..];
  }

  lemma DeleteAtMultiset<T>(q: seq<T>, k: nat)
    requires k < |q|
    ensures multiset(q) == multiset(DeleteAt(q, k)) + multiset{q[k]}
  {
    assert q == q[..k] + [q[k]] + q[k + 1..];
  }

  function Insert(q: seq<Timer>, t: Timer): seq<Timer> {
    InsertAt(q, InsertPos(q, t.deadline), t)
  }

  /** The position of the first timer with the given id, or |q|. */
  function FindId(q: seq<Timer>, id: int): (k: nat)
    ensures k <= |q|
    ensures forall i :: 0 <= i < k ==> q[i].id != id
    ensures k < |q| ==> q[k].id == id
  {
    if q == [] || q[0].id == id then 0 else 1 + FindId(q[1..], id)
  }

  /** Insertion keeps the queue sorted, adds exactly the new timer, and is stable: everything due no later
      stays in front of it, everything due later stays behind it. */
  lemma {:induction false} InsertIsStable(q: seq<Timer>, t: Timer)
    requires Sorted(q) && AllNormal(q) && t.deadline.Normal()
    ensures Sorted(Insert(q, t)) && AllNormal(Insert(q, t))
    ensures multiset(Insert(q, t)) == multiset(q) + multiset{t}
    ensures var p := InsertPos(q, t.deadline);
            && Insert(q, t)[p] == t && DeleteAt(Insert(q, t), p) == q
            && (forall i :: 0 <= i < p ==> q[i].deadline.Micros() <= t.deadline.Micros())
            && (forall i :: p <= i < |q| ==> t.deadline.Micros() < q[i].deadline.Micros())
  {
    var p := InsertPos(q, t.deadline);
    forall i | 0 <= i < |q|
      ensures i < p ==> q[i].deadline.Micros() <= t.deadline.Micros()
      ensures p <= i ==> t.deadline.Micros() < q[i].deadline.Micros()
    {
      LessThanOrdersMicros(t.deadline, q[i].deadline);
      if p <= i {
        LessThanOrdersMicros(t.deadline, q[p].deadline);
      }
    }
    InsertAtIsReversible(q, p, t);
    InsertKeepsOrder(q, t, p);
  }

  lemma InsertKeepsOrder(q: seq<Timer>, t: Timer, p: nat)
    requires p <= |q| && Sorted(q) && AllNormal(q) && t.deadline.Normal()
    requires forall i :: 0 <= i < p ==> q[i].deadline.Micros() <= t.deadline.Micros()
    requires forall i :: p <= i < |q| ==> t.deadline.Micros() <= q[i].deadline.Micros()
    ensures Sorted(InsertAt(q, p, t)) && AllNormal(InsertAt(q, p, t))
  {
    var r := InsertAt(q, p, t);
    forall i, j | 0 <= i < j < |r|
      ensures r[i].deadline.Micros() <= r[j].deadline.Micros()
    {
    }
  }

  /** Deletion keeps the order and takes out exactly one timer. */
  lemma DeleteKeepsOrder(q: seq<Timer>, k: nat)
    requires k < |q| && Sorted(q) && AllNormal(q)
    ensures Sorted(DeleteAt(q, k)) && AllNormal(DeleteAt(q, k))
    ensures multiset(q) == multiset(DeleteAt(q, k)) + multiset{q[k]}
  {
    DeleteAtMultiset(q, k);
  }

  lemma EmptyIsSorted()
    ensures Sorted([]) && AllNormal([])
  {
  }

  // ---------- Identifiers ----------

  /** Two's-complement wrap-around of a C `int`. */
  function ToInt(n: int): int {
    var m := n % INT_RANGE;
    if m <= INT_MAX then m else m - INT_RANGE
  }

  /** The value lies in the range of an int and differs from n by a multiple of 2^32. */
  lemma ToIntWraps(n: int)
    ensures -0x8000_0000 <= ToInt(n) < 0x8000_0000 && (n - ToInt(n)) % 0x1_0000_0000 == 0
  {
    var q := n / INT_RANGE;
    var k := if n % INT_RANGE <= INT_MAX then q else q + 1;
    assert n - ToInt(n) == k * INT_RANGE;
    var d := k * INT_RANGE / INT_RANGE - k;
    assert d * INT_RANGE == -(k * INT_RANGE % INT_RANGE);
  }

  /** The counter value that is handed out: -1 means failure to callers, so it is skipped. */
  function SkipMinusOne(cur: int): int {
    if cur == -1 then 0 else cur
  }

  // ---------- The linked list ----------

  class TimerNode {
    var timeout: TimeVal
    var handler: nat
    var arg: nat
    var id: int
    var next: TimerNode?
    var prev: TimerNode?

    constructor (timeout: TimeVal, handler: nat, arg: nat)
      ensures this.timeout == timeout && this.handler == handler && this.arg == arg
    {
      this.timeout, this.handler, this.arg := timeout, handler, arg;
      id, next, prev := 0, null, null;
    }

    function Value(): Timer
      reads `id, `timeout, `handler, `arg
    {
      Timer(id, timeout, handler, arg)
    }
  }

  /** `nodes` is a doubly linked list from `first` to `last`: finite, without a cycle, the links of every
      node naming its neighbours. */
  ghost predicate Linked(first: TimerNode?, last: TimerNode?, nodes: seq<TimerNode>)
    reads nodes
  {
    && first == (if |nodes| == 0 then null else nodes[0])
    && last == (if |nodes| == 0 then null else nodes[|nodes| - 1])
    && (|nodes| > 0 ==> nodes[0].prev == null && nodes[|nodes| - 1].next == null)
    && (forall i {:trigger nodes[i].prev} :: 1 <= i < |nodes| ==> nodes[i].prev == nodes[i - 1])
    && (forall i {:trigger nodes[i].next} :: 0 <= i < |nodes| - 1 ==> nodes[i].next == nodes[i + 1])
    && (forall i, j :: 0 <= i < j < |nodes| ==> nodes[i] != nodes[j])
  }

  ghost function Values(nodes: seq<TimerNode>): (vs: seq<Timer>)
    reads nodes
    ensures |vs| == |nodes| && forall i :: 0 <= i < |nodes| ==> vs[i] == nodes[i].Value()
  {
    seq(|nodes|, i requires 0 <= i < |nodes| reads nodes => nodes[i].Value())
  }

  class TimerQueue {
    var first: TimerNode?
    var last: TimerNode?
    var curId: int
    ghost var nodes: seq<TimerNode>

    ghost predicate Valid()
      reads this, nodes
    {
      Linked(first, last, nodes) && Sorted(Contents()) && AllNormal(Contents())
    }

    ghost function Contents(): seq<Timer>
      reads this, nodes
    {
      Values(nodes)
    }

    ghost function NodeAt(k: nat): TimerNode?
      reads `nodes
    {
      if k < |nodes| then nodes[k] else null
    }

    constructor ()
      ensures Valid() && Contents() == [] && curId == 0 && fresh(this)
    {
      first, last, curId, nodes := null, null, 0, [];
    }

    /** timer_dequeue: unlink `t`, which is then freed. */
    method Dequeue(t: TimerNode, ghost k: nat)
      requires Linked(first, last, nodes) && k < |nodes| && nodes[k] == t
      modifies `first, `last, `nodes, nodes`next, nodes`prev
      ensures Linked(first, last, nodes) && nodes == DeleteAt(old(nodes), k)
      ensures Contents() == DeleteAt(old(Contents()), k)
    {
      hide Sorted, AllNormal, DeleteAt;
      if t.prev == null {
        first := t.next;
      } else {
        t.prev.next := t.next;
      }
      if t.next == null {
        last := t.prev;
      } else {
        t.next.prev := t.prev;
      }
      nodes := DeleteAt(nodes, k);
    }

    /** The pointer assignments at the end of add_timernode_to_list. */
    method Splice(app: TimerNode, tmp: TimerNode?, ghost k: nat)
      requires Linked(first, last, nodes) && k <= |nodes| && app !in nodes
      requires tmp == NodeAt(k)
      modifies `first, `last, `nodes, nodes`next, nodes`prev, app`next, app`prev
      ensures Linked(first, last, nodes) && nodes == InsertAt(old(nodes), k, app)
    {
      hide Sorted, AllNormal, InsertAt;
      ghost var was := nodes;
      nodes := InsertAt(nodes, k, app);
      if first == null {
        first, last := app, app;
        app.prev, app.next := null, null;
      } else if tmp == null {
        assert last == was[k - 1] && k == |was|;
        app.prev, app.next := last, null;
        last.next := app;
        last := app;
      } else if tmp.prev == null {
        assert k == 0;
        app.prev, app.next := null, tmp;
        tmp.prev := app;
        first := app;
      } else {
        assert tmp.prev == was[k - 1] && tmp == was[k];
        app.prev, app.next := tmp.prev, tmp;
        tmp.prev.next := app;
        tmp.prev := app;
      }
    }

    /** The last part of add_timernode_to_list: link `app` in before `tmp`, or at the end when there is no `tmp`. */
    method LinkBefore(app: TimerNode, tmp: TimerNode?, ghost k: nat)
      requires Linked(first, last, nodes) && k <= |nodes| && app !in nodes
      requires tmp == NodeAt(k)
      modifies `first, `last, `nodes, nodes`next, nodes`prev, app`next, app`prev
      ensures Linked(first, last, nodes) && nodes == InsertAt(old(nodes), k, app)
      ensures Contents() == InsertAt(old(Contents()), k, app.Value())
    {
      hide Sorted, AllNormal, InsertAt, Linked;
      Splice(app, tmp, k);
    }

    /** The search loop of add_timernode_to_list: the first timer due after `timeout`. */
    method FindLater(timeout: TimeVal) returns (tmp: TimerNode?, ghost k: nat)
      requires Linked(first, last, nodes)
      ensures k == InsertPos(Contents(), timeout) && tmp == NodeAt(InsertPos(Contents(), timeout))
    {
      k, tmp := 0, first;
      while tmp != null
        invariant k <= |nodes| && tmp == NodeAt(k)
        invariant forall i :: 0 <= i < k ==> !LessThan(timeout, nodes[i].timeout)
        decreases |nodes| - k
      {
        if LessThan(timeout, tmp.timeout) {
          return;
        }
        tmp, k := tmp.next, k + 1;
      }
    }

    /** The search loop of del_timernode_from_list. */
    method FindNode(id: int) returns (t: TimerNode?, ghost k: nat)
      requires Linked(first, last, nodes)
      ensures k == FindId(Contents(), id) && t == NodeAt(FindId(Contents(), id))
    {
      k, t := 0, first;
      while t != null
        invariant k <= |nodes| && t == NodeAt(k)
        invariant forall i :: 0 <= i < k ==> nodes[i].id != id
        decreases |nodes| - k
      {
        if t.id == id {
          return;
        }
        t, k := t.next, k + 1;
      }
    }

    /** The identifier counter: -1 is skipped. */
    method NextId() returns (id: int)
      modifies `curId
      ensures id == SkipMinusOne(old(curId)) && curId == ToInt(id + 1)
      ensures id == if old(curId) == -1 then 0 else old(curId)
    {
      id := curId;
      curId := ToInt(curId + 1);
      if id == -1 {
        id := curId;
        curId := ToInt(curId + 1);
      }
    }

    /** add_timernode_to_list, for a request that timer_add has let through. */
    method Add(sec: nat, usec: nat, handler: nat, arg: nat, now: TimeVal) returns (id: int)
      requires Valid() && now.Normal() && 0 < TimeVal(sec, usec).Micros()
      modifies this, nodes
      ensures Valid() && id == SkipMinusOne(old(curId)) && curId == ToInt(id + 1)
      ensures Contents() == Insert(old(Contents()), Timer(id, AbsoluteDeadline(now, sec, usec), handler, arg))
    {
      hide Sorted, AllNormal, Linked, LessThan, InsertAt, InsertPos, AbsoluteDeadline, Values, SkipMinusOne, ToInt;
      AbsoluteDeadlineIsExact(now, sec, usec);
      var app := new TimerNode(AbsoluteDeadline(now, sec, usec), handler, arg);
      assert app !in nodes;
      id := NextId();
      app.id := id;

      ghost var before := Contents();
      assert before == old(Contents());
      ghost var t := app.Value();
      InsertIsStable(before, t);
      var tmp, k := FindLater(app.timeout);
      assert before == Contents() && k <= |nodes|;
      LinkBefore(app, tmp, k);
      assert Contents() == Insert(before, t);
    }

    /** timer_add: a missing handler and a timeout that is not in the future are refused with -1. */
    method TimerAdd(sec: int, usec: int, handler: nat, arg: nat, now: TimeVal) returns (id: int)
      requires Valid() && now.Normal()
      modifies this, nodes
      ensures Valid()
      ensures handler == NULL || sec < 0 || usec < 0 || (sec == 0 && usec == 0) ==>
                id == -1 && Contents() == old(Contents()) && curId == old(curId)
      ensures handler != NULL && 0 <= sec && 0 <= usec && (sec != 0 || usec != 0) ==>
                && id == SkipMinusOne(old(curId)) && curId == ToInt(id + 1)
                && Contents() == Insert(old(Contents()), Timer(id, AbsoluteDeadline(now, sec, usec), handler, arg))
    {
      hide Sorted, AllNormal, Linked, Insert;
      if handler == NULL || sec < 0 || usec < 0 || (sec == 0 && usec == 0) {
        return -1;
      }
      id := Add(sec, usec, handler, arg, now);
    }

    /** del_timernode_from_list. A non-null `free` is called once, with the argument of the timer found. */
    method Remove(id: int, free: nat) returns (ret: int, calls: seq<Call>)
      requires Valid()
      modifies this, nodes
      ensures Valid() && curId == old(curId)
      ensures var k := FindId(old(Contents()), id);
              if id == -1 || k == |old(Contents())|
              then ret == -1 && calls == [] && Contents() == old(Contents())
              else && ret == 0 && Contents() == DeleteAt(old(Contents()), k)
                   && calls == (if free == NULL then [] else [Call(free, old(Contents())[k].arg)])
    {
      hide Sorted, AllNormal, Linked, DeleteAt;
      if id == -1 {
        return -1, [];
      }
      var t, k := FindNode(id);
      if t == null {
        return -1, [];
      }
      calls := if free != NULL then [Call(free, t.arg)] else [];
      DeleteKeepsOrder(Contents(), k);
      Dequeue(t, k);
      ret := 0;
    }

    /** del_all_timer: dequeue from the back until nothing is left. */
    method Clear()
      requires Valid()
      modifies this, nodes
      ensures Valid() && Contents() == [] && curId == old(curId)
    {
      hide Sorted, AllNormal, DeleteAt;
      var t := last;
      while t != null
        invariant Linked(first, last, nodes) && t == last && curId == old(curId)
        invariant |nodes| <= |old(nodes)| && nodes == old(nodes)[..|nodes|]
        decreases |nodes|
      {
        Dequeue(t, |nodes| - 1);
        t := last;
      }
      assert Sorted([]) && AllNormal([]) by {
        EmptyIsSorted();
      }
    }

    /** The first critical section of timer_execute: take the head off the queue. */
    method TakeFirst() returns (job: Option<Call>)
      requires Valid()
      modifies this, nodes
      ensures Valid() && curId == old(curId)
      ensures if old(Contents()) == []
              then job == None && Contents() == []
              else && job == Some(Call(old(Contents())[0].handler, old(Contents())[0].arg))
                   && Contents() == old(Contents())[1..]
    {
      if first == null {
        return None;
      }
      job := Some(Call(first.handler, first.arg));
      ghost var before := Contents();
      DeleteKeepsOrder(before, 0);
      assert DeleteAt(before, 0) == before[1..];
      hide Sorted, AllNormal, Linked, DeleteAt, Values;
      Dequeue(first, 0);
    }

    /** get_rest_time */
    method GetRestTime(now: TimeVal) returns (rest: Option<TimeVal>)
      requires Valid()
      ensures rest == if Contents() == [] then None else Some(RestTime(Contents()[0].deadline, now))
    {
      if first == null {
        return None;
      }
      rest := Some(RestTime(first.timeout, now));
    }
  }
}

/** Whole runs of the timer library: the server thread (timer_server_task, timer_execute) interleaved with the
    workers it spawns (time_out_task), one step per critical section.

    A run is a sequence of labels; `Exec` replays it. The pointer-level methods of TimerQueue and PendingList are
    proved to do to the linked lists what the steps do to the sequences. */
module TimerRuns {
  import opened Wrappers
  import opened TimeVals
  import opened TimerQueues
  import opened PendingLists

  // ---------- Requests ----------

  datatype Request =
    | Add(sec: nat, usec: nat, handler: nat, arg: nat)
    | Remove(id: int, free: nat)
    | Clear
    | Failed // accept, receive or dispatch failed

  /** What timer_add lets through. */
  predicate WellFormed(req: Request) {
    req.Add? ==> req.handler != NULL && 0 < req.sec + req.usec
  }

  /** What one request does to the queue, and which timers it accepts, removes and clears. */
  datatype Effect = Effect(queue: seq<Timer>, curId: int, accepted: seq<Timer>, removed: seq<Timer>,
                           cleared: seq<Timer>, calls: seq<Call>)

  function HandleRequest(queue: seq<Timer>, curId: int, req: Request, now: TimeVal): Effect
    requires now.Normal()
  {
    match req
    case Add(sec, usec, handler, arg) =>
      var id := SkipMinusOne(curId);
      var t := Timer(id, AbsoluteDeadline(now, sec, usec), handler, arg);
      Effect(Insert(queue, t), ToInt(id + 1), [t], [], [], [])
    case Remove(id, free) =>
      var k := FindId(queue, id);
      if id == -1 || k == |queue| then
        Effect(queue, curId, [], [], [], [])
      else
        Effect(DeleteAt(queue, k), curId, [], [queue[k]], [],
               if free == NULL then [] else [Call(free, queue[k].arg)])
    case Clear => Effect([], curId, [], [], queue, [])
    case Failed => Effect(queue, curId, [], [], [], [])
  }

  lemma InsertAddsOne(q: seq<Timer>, t: Timer)
    ensures multiset(Insert(q, t)) == multiset(q) + multiset{t}
  {
    InsertAtIsReversible(q, InsertPos(q, t.deadline), t);
  }

  /** handle_msg: the pointer-level dispatch does what HandleRequest says. */
  method HandleMsg(q: TimerQueue, req: Request, now: TimeVal) returns (calls: seq<Call>)
    requires q.Valid() && now.Normal() && WellFormed(req)
    modifies q, q.nodes
    ensures q.Valid()
    ensures var e := HandleRequest(old(q.Contents()), old(q.curId), req, now);
            q.Contents() == e.queue && q.curId == e.curId && calls == e.calls
    ensures match req
            case Add(sec, usec, handler, arg) =>
              && calls == [] && (old(q.curId) != -1 ==> q.curId == ToInt(old(q.curId) + 1))
              && multiset(q.Contents()) == multiset(old(q.Contents()))
                 + multiset{Timer(SkipMinusOne(old(q.curId)), AbsoluteDeadline(now, sec, usec), handler, arg)}
            case Remove(id, free) =>
              && q.curId == old(q.curId)
              && if id != -1 && exists i :: 0 <= i < |old(q.Contents())| && old(q.Contents())[i].id == id
                 then |q.Contents()| == |old(q.Contents())| - 1 && |calls| == (if free == NULL then 0 else 1)
                 else q.Contents() == old(q.Contents()) && calls == []
            case Clear => q.Contents() == [] && q.curId == old(q.curId) && calls == []
            case Failed => q.Contents() == old(q.Contents()) && q.curId == old(q.curId) && calls == []
  {
    hide Linked, Values, Sorted, AllNormal, Insert, DeleteAt;
    calls := [];
    match req
    case Add(sec, usec, handler, arg) =>
      ghost var before, t := q.Contents(), Timer(SkipMinusOne(q.curId), AbsoluteDeadline(now, sec, usec), handler, arg);
      InsertAddsOne(before, t);
      var _ := q.Add(sec, usec, handler, arg, now);
    case Remove(id, free) =>
      var ret;
      ret, calls := q.Remove(id, free);
    case Clear => q.Clear();
    case Failed =>
  }

  // ---------- The two threads ----------

  // When the select of the server may report a timeout.
  datatype Wait = Forever | Until(micros: int)

  datatype ServerPc =
    | Waiting(wait: Wait, since: TimeVal) // in select, with the time at which the wait was computed
    | Appending(job: Call)    // before add_timeout_list
    | Signalling              // before testing timeout_thread_is_on
    | Spawning                // before pthread_create
    | SpawnFailed             // before clearing timeout_thread_is_on again
    | Checking                // before get_rest_time

  datatype WorkerPc =
    | Counting                // before get_pending_list_count
    | Sleeping                // before or in pthread_cond_timedwait
    | Popping                 // before get_pending_list
    | Holding(job: Call)      // before calling the handler
    | Running(job: Call)      // inside the handler

  // A timer that fired, when, and the time at which the wait that it ended was computed.
  datatype Expiry = Expiry(timer: Timer, at: int, since: TimeVal)

  datatype Machine = Machine(
    queue: seq<Timer>, curId: int, clock: int, pc: ServerPc,
    pending: seq<Call>, on: bool, workers: seq<WorkerPc>,
    // history
    accepted: seq<Timer>, fired: seq<Expiry>, removed: seq<Timer>, cleared: seq<Timer>,
    calls: seq<Call>, ran: seq<Call>)

  const INIT := Machine([], 0, 0, Checking, [], false, [], [], [], [], [], [], [])

  datatype Label =
    | Receive(req: Request, now: TimeVal)
    | Timeout(now: TimeVal)
    | Append
    | Signal
    | Spawn(ok: bool)
    | SpawnUndo
    | Check(now: TimeVal)
    | WorkerCounts(w: nat)
    | WorkerWakes(w: nat)     // signalled, or spuriously
    | WorkerExits(w: nat)     // ETIMEDOUT
    | WorkerPops(w: nat)
    | WorkerCalls(w: nat)
    | WorkerReturns(w: nat)

  ghost predicate Reads(m: Machine, now: TimeVal) {
    now.Normal() && m.clock <= now.Micros()
  }

  ghost predicate WorkerAt(m: Machine, w: nat) {
    w < |m.workers|
  }

  ghost predicate Enabled(m: Machine, l: Label) {
    match l
    case Receive(req, now) => m.pc.Waiting? && Reads(m, now) && WellFormed(req)
    case Timeout(now) => m.pc.Waiting? && m.pc.wait.Until? && Reads(m, now) && m.pc.wait.micros <= now.Micros()
    case Append => m.pc.Appending?
    case Signal => m.pc.Signalling?
    case Spawn(_) => m.pc.Spawning?
    case SpawnUndo => m.pc.SpawnFailed?
    case Check(now) => m.pc.Checking? && Reads(m, now)
    case WorkerCounts(w) => WorkerAt(m, w) && m.workers[w].Counting?
    case WorkerWakes(w) => WorkerAt(m, w) && m.workers[w].Sleeping?
    case WorkerExits(w) => WorkerAt(m, w) && m.workers[w].Sleeping?
    case WorkerPops(w) => WorkerAt(m, w) && m.workers[w].Popping?
    case WorkerCalls(w) => WorkerAt(m, w) && m.workers[w].Holding?
    case WorkerReturns(w) => WorkerAt(m, w) && m.workers[w].Running?
  }

  ghost function Receives(m: Machine, req: Request, now: TimeVal): Machine
    requires now.Normal()
  {
    var e := HandleRequest(m.queue, m.curId, req, now);
    m.(queue := e.queue, curId := e.curId, clock := now.Micros(), pc := Checking,
    accepted := m.accepted + e.accepted, removed := m.removed + e.removed, cleared := m.cleared + e.cleared,
    calls := m.calls + e.calls)
  }

  /** The first section of timer_execute: the head leaves the queue, whatever its deadline is. */
  ghost function TimesOut(m: Machine, now: TimeVal): Machine
    requires m.pc.Waiting?
  {
    if m.queue == [] then
      m.(clock := now.Micros(), pc := Checking)
    else
      var t := m.queue[0];
      m.(queue := m.queue[1..], clock := now.Micros(), fired := m.fired + [Expiry(t, now.Micros(), m.pc.since)],
      pc := if t.handler == NULL then Checking else Appending(Call(t.handler, t.arg)))
  }

  ghost function MoveWorker(m: Machine, w: nat, pc: WorkerPc): Machine
    requires w < |m.workers|
  {
    m.(workers := m.workers[w := pc])
  }

  ghost function Apply(m: Machine, l: Label): Machine
    requires Enabled(m, l)
  {
    match l
    case Receive(req, now) => Receives(m, req, now)
    case Timeout(now) => TimesOut(m, now)
    case Append => m.(pending := [m.pc.job] + m.pending, pc := Signalling)
    case Signal => if m.on then m.(pc := Checking) else m.(on := true, pc := Spawning)
    case Spawn(ok) => if ok then m.(workers := m.workers + [Counting], pc := Checking) else m.(pc := SpawnFailed)
    case SpawnUndo => m.(on := false, pc := Checking)
    case Check(now) =>
      m.(clock := now.Micros(),
      pc := Waiting(if m.queue == [] then Forever
                    else Until(now.Micros() + RestTime(m.queue[0].deadline, now).Micros()), now))
    case WorkerCounts(w) => MoveWorker(m, w, if m.pending == [] then Sleeping else Popping)
    case WorkerWakes(w) => MoveWorker(m, w, Counting)
    case WorkerExits(w) => m.(on := false, workers := DeleteAt(m.workers, w))
    case WorkerPops(w) =>
      if m.pending == [] then MoveWorker(m, w, Counting)
      else
        var n := |m.pending| - 1;
        MoveWorker(m, w, Holding(m.pending[n])).(pending := m.pending[..n])
    case WorkerCalls(w) =>
      var job := m.workers[w].job;
      MoveWorker(m, w, Running(job)).(ran := m.ran + [job])
    case WorkerReturns(w) => MoveWorker(m, w, Counting)
  }

  // ---------- The linked lists follow the machine ----------

  /** The first section of timer_execute. */
  method ExpireHead(q: TimerQueue, ghost m: Machine, now: TimeVal) returns (job: Option<Call>)
    requires q.Valid() && q.Contents() == m.queue && m.pc.Waiting?
    modifies q, q.nodes
    ensures q.Valid() && q.Contents() == TimesOut(m, now).queue && q.curId == old(q.curId)
    ensures TimesOut(m, now).pc
         == if job == None || job.value.handler == NULL then Checking else Appending(job.value)
  {
    hide Linked, Sorted, AllNormal, Values;
    job := q.TakeFirst();
  }

  /** The second section of timer_execute. */
  method AppendJob(p: PendingList, job: Call, ghost m: Machine) returns (ret: int)
    requires p.Valid() && p.Contents() == m.pending && m.pc == Appending(job) && job.handler != NULL
    modifies p, p.nodes`prev
    ensures p.Valid() && p.Contents() == Apply(m, Append).pending && ret == 0
  {
    hide Linked, Jobs;
    ret := p.PushFront(job.handler, job.arg);
  }

  /** The end of every round of timer_server_task: get_rest_time arms the next select. */
  method ArmSelect(q: TimerQueue, ghost m: Machine, now: TimeVal) returns (rest: Option<TimeVal>)
    requires q.Valid() && q.Contents() == m.queue && Enabled(m, Check(now))
    ensures Apply(m, Check(now)).pc
         == Waiting(if rest == None then Forever else Until(now.Micros() + rest.value.Micros()), now)
  {
    hide Linked, Sorted, AllNormal, Values, RestTime;
    rest := q.GetRestTime(now);
  }

  /** The test of time_out_task for pending work. */
  method TestPending(p: PendingList, ghost m: Machine, ghost w: nat) returns (none: bool)
    requires p.Valid() && p.Contents() == m.pending && Enabled(m, WorkerCounts(w))
    ensures Apply(m, WorkerCounts(w)).workers[w] == if none then Sleeping else Popping
  {
    hide Linked, Jobs;
    var count := p.Count();
    none := count == 0;
  }

  /** The worker takes its next job. */
  method TakeJob(p: PendingList, ghost m: Machine, ghost w: nat) returns (node: TimerNode?)
    requires p.Valid() && p.Contents() == m.pending && Enabled(m, WorkerPops(w))
    modifies p, p.nodes`next
    ensures p.Valid() && p.Contents() == Apply(m, WorkerPops(w)).pending
    ensures Apply(m, WorkerPops(w)).workers[w]
         == if node == null then Counting else Holding(Call(node.handler, node.arg))
  {
    hide Linked, Jobs;
    node := p.PopLast();
    assert node != null ==> m.pending[..|m.pending| - 1] == p.Contents();
  }

  /** The state a run ends in, or None when some step of it is not possible. */
  ghost function Exec(run: seq<Label>): Option<Machine> {
    if run == [] then Some(INIT)
    else
      var before := Exec(run[..|run| - 1]);
      var l := run[|run| - 1];
      if before.Some? && Enabled(before.value, l) then Some(Apply(before.value, l)) else None
  }

  // ---------- Firing order ----------

  ghost function Due(t: Timer): int {
    t.deadline.Micros()
  }

  /** The wait computed at `since` for `deadline` falls short of it: the subtraction borrows. */
  ghost predicate Borrows(deadline: TimeVal, since: TimeVal) {
    LessThan(since, deadline) && deadline.usec < since.usec
  }

  /** A timer fires before its deadline exactly when the subtraction borrowed and the select returned in the very
      microsecond before the deadline. */
  ghost predicate EarlyOnlyByTheBorrow(e: Expiry) {
    e.at < Due(e.timer) <==> Borrows(e.timer.deadline, e.since) && e.at == Due(e.timer) - 1
  }

  ghost predicate NotEarly(m: Machine) {
    forall i :: 0 <= i < |m.fired| ==> EarlyOnlyByTheBorrow(m.fired[i]) && m.fired[i].at <= m.clock
  }

  ghost predicate FiredInOrder(fired: seq<Expiry>) {
    forall i, j :: 0 <= i < j < |fired| ==> Due(fired[i].timer) <= Due(fired[j].timer)
  }

  ghost predicate QueueIsLater(fired: seq<Expiry>, queue: seq<Timer>) {
    forall i, j :: 0 <= i < |fired| && 0 <= j < |queue| ==> Due(fired[i].timer) <= Due(queue[j])
  }

  ghost predicate Armed(m: Machine) {
    m.pc.Waiting? ==>
      if m.queue == [] then m.pc.wait == Forever
      else
        && m.pc.since.Normal()
        && m.pc.wait == Until(m.pc.since.Micros() + RestTime(m.queue[0].deadline, m.pc.since).Micros())
  }

  ghost predicate Timed(m: Machine) {
    && Sorted(m.queue) && AllNormal(m.queue)
    && NotEarly(m) && FiredInOrder(m.fired) && QueueIsLater(m.fired, m.queue) && Armed(m)
  }

  /** A timer added now is due after everything that has fired: it lies at least 1 microsecond in the future,
      and what fired was at most 1 microsecond early. */
  lemma AddedIsLater(m: Machine, t: Timer)
    requires Timed(m) && t.deadline.Normal() && m.clock < Due(t)
    ensures Sorted(Insert(m.queue, t)) && AllNormal(Insert(m.queue, t))
    ensures QueueIsLater(m.fired, Insert(m.queue, t))
  {
    hide LessThan, Sorted, AllNormal, InsertAt, InsertPos;
    InsertIsStable(m.queue, t);
    var p, q := InsertPos(m.queue, t.deadline), Insert(m.queue, t);
    forall i, j | 0 <= i < |m.fired| && 0 <= j < |q|
      ensures Due(m.fired[i].timer) <= Due(q[j])
    {
      assert q[j] == t || (j != p && q[j] == m.queue[if j < p then j else j - 1]);
    }
  }

  lemma ReceiveKeepsTimed(m: Machine, req: Request, now: TimeVal)
    requires Timed(m) && Enabled(m, Receive(req, now))
    ensures Timed(Receives(m, req, now))
  {
    hide AbsoluteDeadline, ToInt, LessThan, InsertAt, DeleteAt, Insert;
    match req
    case Add(sec, usec, handler, arg) =>
      AbsoluteDeadlineIsExact(now, sec, usec);
      AddedIsLater(m, Timer(SkipMinusOne(m.curId), AbsoluteDeadline(now, sec, usec), handler, arg));
    case Remove(id, free) =>
      var k := FindId(m.queue, id);
      if k < |m.queue| {
        DeleteKeepsOrder(m.queue, k);
      }
    case Clear =>
    case Failed =>
  }

  lemma HeadIsNext(m: Machine, e: Expiry)
    requires Timed(m) && m.queue != [] && e.timer == m.queue[0]
    ensures Sorted(m.queue[1..]) && AllNormal(m.queue[1..])
    ensures FiredInOrder(m.fired + [e]) && QueueIsLater(m.fired + [e], m.queue[1..])
  {
    hide LessThan;
    var fired := m.fired + [e];
    var n := |m.fired|;
    forall i, j | 0 <= i <= n && 0 <= j < |m.queue|
      ensures Due(fired[i].timer) <= Due(m.queue[j])
    {
      if i < n {
        assert fired[i] == m.fired[i];
      }
    }
    forall i, j | 0 <= i < j <= n
      ensures Due(fired[i].timer) <= Due(fired[j].timer)
    {
      if j < n {
        assert fired[j] == m.fired[j];
      }
    }
  }

  /** What the wait computed for a deadline allows: to wake up before it only through the borrow, and then in the
      microsecond before it. */
  lemma WaitFallsShortIff(due: TimeVal, since: TimeVal, at: int)
    requires due.Normal() && since.Normal()
    ensures since.Micros() + RestTime(due, since).Micros() <= at < due.Micros()
       <==> Borrows(due, since) && at == due.Micros() - 1
  {
    LessThanOrdersMicros(since, due);
    MinusIsShortByTheBorrow(due, since);
  }

  lemma TimeoutKeepsTimed(m: Machine, now: TimeVal)
    requires Timed(m) && Enabled(m, Timeout(now))
    ensures Timed(TimesOut(m, now))
  {
    hide Sorted, AllNormal, FiredInOrder, QueueIsLater, Borrows, RestTime;
    if m.queue != [] {
      assert m.queue[0].deadline.Normal() by {
        HeadIsNormal(m.queue);
      }
      WaitFallsShortIff(m.queue[0].deadline, m.pc.since, now.Micros());
      HeadIsNext(m, Expiry(m.queue[0], now.Micros(), m.pc.since));
    }
  }

  lemma HeadIsNormal(q: seq<Timer>)
    requires AllNormal(q) && q != []
    ensures q[0].deadline.Normal()
  {
  }

  lemma StepKeepsTimed(m: Machine, l: Label)
    requires Timed(m) && Enabled(m, l)
    ensures Timed(Apply(m, l))
  {
    match l
    case Receive(req, now) => ReceiveKeepsTimed(m, req, now);
    case Timeout(now) => TimeoutKeepsTimed(m, now);
    case _ =>
  }

  /** In every run, a timer fires before its deadline exactly when the wait was computed with a borrow and ended in
      the last microsecond before the deadline, so never more than one microsecond early; and timers fire in the
      order of their deadlines, including those added after earlier ones fired. */
  lemma {:induction false} FiringOrder(run: seq<Label>)
    requires Exec(run).Some?
    ensures Timed(Exec(run).value)
    ensures forall i :: 0 <= i < |Exec(run).value.fired| ==> EarlyOnlyByTheBorrow(Exec(run).value.fired[i])
    ensures forall i :: 0 <= i < |Exec(run).value.fired| ==>
                          Due(Exec(run).value.fired[i].timer) - 1 <= Exec(run).value.fired[i].at
    ensures forall i, j :: 0 <= i < j < |Exec(run).value.fired| ==>
                             Due(Exec(run).value.fired[i].timer) <= Due(Exec(run).value.fired[j].timer)
  {
    if run != [] {
      var before := run[..|run| - 1];
      FiringOrder(before);
      StepKeepsTimed(Exec(before).value, run[|run| - 1]);
    }
  }

  /** After the wait has been computed, the next select can end before the deadline exactly if there was a borrow,
      and then only in the microsecond before it. */
  lemma NextFiringIsEarlyIff(m: Machine, now: TimeVal, at: TimeVal)
    requires Timed(m) && m.queue != [] && Enabled(m, Check(now)) && at.Normal()
    ensures Enabled(Apply(m, Check(now)), Timeout(at)) && at.Micros() < Due(m.queue[0])
       <==> Borrows(m.queue[0].deadline, now) && at.Micros() == Due(m.queue[0]) - 1
  {
    var due := m.queue[0].deadline;
    WaitFallsShortIff(due, now, at.Micros());
    LessThanOrdersMicros(now, due);
  }

  lemma ExecOneMore(run: seq<Label>, m: Machine, l: Label)
    requires Exec(run) == Some(m) && Enabled(m, l)
    ensures Exec(run + [l]) == Some(Apply(m, l))
  {
    assert (run + [l])[..|run|] == run;
  }

  /** A timer does fire early: one second, added at 0, with the wait computed half a millisecond later. */
  lemma SomeTimerFiresEarly() returns (run: seq<Label>)
    ensures Exec(run).Some? && |Exec(run).value.fired| == 1
    ensures Exec(run).value.fired[0].at == Due(Exec(run).value.fired[0].timer) - 1
  {
    hide Exec;
    assert Exec([]) == Some(INIT) by {
      NothingExecuted();
    }
    var start, added := TimeVal(0, 0), Receive(Add(1, 0, 1, 1), TimeVal(0, 0));
    ExecOneMore([], INIT, Check(start));
    var m1 := Apply(INIT, Check(start));
    run := [Check(start)];
    assert [] + run == run;
    ExecOneMore(run, m1, added);
    run := run + [added];
    var m2 := Apply(m1, added);
    assert m2.queue == [Timer(0, TimeVal(1, 0), 1, 1)];
    var late, last := Check(TimeVal(0, 500)), Timeout(TimeVal(0, 999_999));
    ExecOneMore(run, m2, late);
    run := run + [late];
    ExecOneMore(run, Apply(m2, late), last);
    run := run + [last];
  }

  lemma NothingExecuted()
    ensures Exec([]) == Some(INIT)
  {
  }

  // ---------- One worker, handlers in firing order ----------

  ghost function JobsOf(fired: seq<Expiry>): (js: seq<Call>)
    ensures |js| == |fired|
  {
    seq(|fired|, i requires 0 <= i < |fired| => Call(fired[i].timer.handler, fired[i].timer.arg))
  }

  ghost function Reverse<T>(s: seq<T>): (r: seq<T>)
    ensures |r| == |s|
  {
    if s == [] then [] else Reverse(s[1..]) + [s[0]]
  }

  lemma {:induction false} ReverseDropLast<T>(s: seq<T>)
    requires s != []
    ensures Reverse(s) == [s[|s| - 1]] + Reverse(s[..|s| - 1])
  {
    if |s| > 1 {
      ReverseDropLast(s[1..]);
      assert s[1..][..|s| - 2] == s[..|s| - 1][1..];
    }
  }

  ghost function InHand(workers: seq<WorkerPc>): seq<Call> {
    if |workers| > 0 && workers[0].Holding? then [workers[0].job] else []
  }

  ghost function InTransit(pc: ServerPc): seq<Call> {
    if pc.Appending? then [pc.job] else []
  }

  /** The flag timeout_thread_is_on counts the worker that runs or is about to be created. */
  ghost predicate OneWorker(m: Machine) {
    |m.workers| + (if m.pc.Spawning? || m.pc.SpawnFailed? then 1 else 0) == if m.on then 1 else 0
  }

  ghost predicate HandlersSet(m: Machine) {
    forall t :: t in m.queue ==> t.handler != NULL
  }

  ghost predicate Accounted(m: Machine) {
    JobsOf(m.fired) == m.ran + InHand(m.workers) + Reverse(m.pending) + InTransit(m.pc)
  }

  ghost predicate Threaded(m: Machine) {
    OneWorker(m) && HandlersSet(m) && Accounted(m)
  }

  lemma ReceiveKeepsThreaded(m: Machine, req: Request, now: TimeVal)
    requires Threaded(m) && Enabled(m, Receive(req, now))
    ensures Threaded(Receives(m, req, now))
  {
    var m' := Receives(m, req, now);
    forall t | t in m'.queue
      ensures t.handler != NULL
    {
      var i :| 0 <= i < |m'.queue| && m'.queue[i] == t;
    }
  }

  lemma TimeoutKeepsThreaded(m: Machine, now: TimeVal)
    requires Threaded(m) && Enabled(m, Timeout(now))
    ensures Threaded(TimesOut(m, now))
  {
    if m.queue != [] {
      var t := m.queue[0];
      assert JobsOf(m.fired + [Expiry(t, now.Micros(), m.pc.since)]) == JobsOf(m.fired) + [Call(t.handler, t.arg)];
    }
  }

  lemma WorkerKeepsThreaded(m: Machine, w: nat, l: Label)
    requires Threaded(m) && Enabled(m, l)
    requires l in {WorkerCounts(w), WorkerWakes(w), WorkerExits(w), WorkerPops(w), WorkerCalls(w), WorkerReturns(w)}
    ensures Threaded(Apply(m, l))
  {
    assert w == 0 && |m.workers| == 1;
    if l == WorkerPops(w) && m.pending != [] {
      ReverseDropLast(m.pending);
    }
    assert OneWorker(Apply(m, l)) && HandlersSet(Apply(m, l));
  }

  lemma StepKeepsThreaded(m: Machine, l: Label)
    requires Threaded(m) && Enabled(m, l)
    ensures Threaded(Apply(m, l))
  {
    match l
    case Receive(req, now) => ReceiveKeepsThreaded(m, req, now);
    case Timeout(now) => TimeoutKeepsThreaded(m, now);
    case Append =>
    case Signal =>
    case Spawn(ok) =>
    case SpawnUndo =>
    case Check(now) =>
    case WorkerCounts(w) => WorkerKeepsThreaded(m, w, l);
    case WorkerWakes(w) => WorkerKeepsThreaded(m, w, l);
    case WorkerExits(w) => WorkerKeepsThreaded(m, w, l);
    case WorkerPops(w) => WorkerKeepsThreaded(m, w, l);
    case WorkerCalls(w) => WorkerKeepsThreaded(m, w, l);
    case WorkerReturns(w) => WorkerKeepsThreaded(m, w, l);
  }

  /** In every interleaving at most one worker is live, so handlers never overlap. The handlers run so far are
      those of the first timers that fired, each once and in firing order; then comes the job in the worker's
      hand, then the pending list from its last node to its first, then the job the server is moving. */
  lemma {:induction false} HandlersRunInFiringOrder(run: seq<Label>)
    requires Exec(run).Some?
    ensures Threaded(Exec(run).value)
    ensures |Exec(run).value.workers| <= 1
    ensures Exec(run).value.ran <= JobsOf(Exec(run).value.fired)
    ensures var m := Exec(run).value;
            JobsOf(m.fired) == m.ran + InHand(m.workers) + Reverse(m.pending) + InTransit(m.pc)
  {
    if run != [] {
      var before := run[..|run| - 1];
      HandlersRunInFiringOrder(before);
      StepKeepsThreaded(Exec(before).value, run[|run| - 1]);
    }
  }

  /** After a job was put on the pending list there is a worker, or the server is about to create one; if that
      fails, the flag is cleared so that the next timer tries again. */
  lemma SignalLeadsToAWorker(m: Machine)
    requires Threaded(m) && m.pc.Signalling?
    ensures var m1 := Apply(m, Signal);
            if |m.workers| == 1 then m1 == m.(pc := Checking)
            else && m.workers == [] && m1 == m.(on := true, pc := Spawning)
                 && Apply(m1, Spawn(true)) == m.(on := true, workers := [Counting], pc := Checking)
                 && Apply(Apply(m1, Spawn(false)), SpawnUndo) == m.(on := false, pc := Checking)
  {
  }

  /** The server goes from select to the request or to the expired timer, from there past the pending list and the
      worker, and back to select with a new wait. */
  lemma ServerGoesRound(m: Machine, req: Request, now: TimeVal)
    requires Timed(m) && HandlersSet(m) && now.Normal()
    ensures m.pc.Waiting? ==> Receives(m, req, now).pc == Checking && Receives(m, req, now).clock == now.Micros()
    ensures m.pc.Waiting? && m.queue == [] ==> TimesOut(m, now) == m.(clock := now.Micros(), pc := Checking)
    ensures m.pc.Waiting? && m.queue != [] ==>
              var t := m.queue[0];
              TimesOut(m, now) == m.(queue := m.queue[1..], clock := now.Micros(),
              pc := Appending(Call(t.handler, t.arg)), fired := m.fired + [Expiry(t, now.Micros(), m.pc.since)])
    ensures m.pc.Appending? ==> Apply(m, Append) == m.(pending := [m.pc.job] + m.pending, pc := Signalling)
    ensures m.pc.Checking? && Reads(m, now) ==>
              && Apply(m, Check(now)).pc.Waiting? && Apply(m, Check(now)).clock == now.Micros()
              && (Apply(m, Check(now)).pc.wait == Forever <==> m.queue == [])
  {
    if m.queue != [] {
      assert m.queue[0] in m.queue;
    }
  }

  /** A worker counts, sleeps or takes a job, calls its handler and counts again; it ends only from its sleep, and
      then clears the flag. */
  lemma WorkerGoesRound(m: Machine)
    requires |m.workers| == 1
    ensures match m.workers[0]
            case Counting =>
              Apply(m, WorkerCounts(0)) == m.(workers := [if m.pending == [] then Sleeping else Popping])
            case Sleeping =>
              && Apply(m, WorkerWakes(0)) == m.(workers := [Counting])
              && Apply(m, WorkerExits(0)) == m.(workers := [], on := false)
            case Popping =>
              m.pending != [] ==>
                var n := |m.pending| - 1;
                Apply(m, WorkerPops(0)) == m.(workers := [Holding(m.pending[n])], pending := m.pending[..n])
            case Holding(job) => Apply(m, WorkerCalls(0)) == m.(workers := [Running(job)], ran := m.ran + [job])
            case Running(_) => Apply(m, WorkerReturns(0)) == m.(workers := [Counting])
  {
  }

  /** The two theorems together: handlers run in the order of their timers' deadlines. */
  lemma HandlersRunInDeadlineOrder(run: seq<Label>, i: nat, j: nat)
    requires Exec(run).Some? && i < j < |Exec(run).value.ran|
    ensures var m := Exec(run).value;
            && j < |m.fired| && Due(m.fired[i].timer) <= Due(m.fired[j].timer)
            && m.ran[i] == Call(m.fired[i].timer.handler, m.fired[i].timer.arg)
            && m.ran[j] == Call(m.fired[j].timer.handler, m.fired[j].timer.arg)
  {
    FiringOrder(run);
    HandlersRunInFiringOrder(run);
    var m := Exec(run).value;
    assert m.ran[i] == JobsOf(m.fired)[i] && m.ran[j] == JobsOf(m.fired)[j];
  }

  // ---------- Conservation ----------

  ghost function TimersOf(fired: seq<Expiry>): (ts: seq<Timer>)
    ensures |ts| == |fired| && forall i :: 0 <= i < |fired| ==> ts[i] == fired[i].timer
  {
    seq(|fired|, i requires 0 <= i < |fired| => fired[i].timer)
  }

  ghost predicate Balanced(accepted: seq<Timer>, queue: seq<Timer>, fired: seq<Expiry>,
                           removed: seq<Timer>, cleared: seq<Timer>)
  {
    multiset(accepted) == multiset(queue) + multiset(TimersOf(fired)) + multiset(removed) + multiset(cleared)
  }

  ghost predicate Conserved(m: Machine) {
    Balanced(m.accepted, m.queue, m.fired, m.removed, m.cleared)
  }

  lemma AddKeepsConserved(m: Machine, t: Timer)
    requires Conserved(m)
    ensures Balanced(m.accepted + [t], Insert(m.queue, t), m.fired, m.removed, m.cleared)
  {
    InsertAtIsReversible(m.queue, InsertPos(m.queue, t.deadline), t);
  }

  lemma RemoveKeepsConserved(m: Machine, k: nat)
    requires Conserved(m) && k < |m.queue|
    ensures Balanced(m.accepted, DeleteAt(m.queue, k), m.fired, m.removed + [m.queue[k]], m.cleared)
  {
    DeleteAtMultiset(m.queue, k);
  }

  lemma ClearKeepsConserved(m: Machine)
    requires Conserved(m)
    ensures Balanced(m.accepted, [], m.fired, m.removed, m.cleared + m.queue)
  {
  }

  lemma FiringKeepsConserved(m: Machine, e: Expiry)
    requires Conserved(m) && m.queue != [] && e.timer == m.queue[0]
    ensures Balanced(m.accepted, m.queue[1..], m.fired + [e], m.removed, m.cleared)
  {
    assert m.queue == [m.queue[0]] + m.queue[1..];
    assert TimersOf(m.fired + [e]) == TimersOf(m.fired) + [m.queue[0]];
  }

  lemma ReceiveKeepsConserved(m: Machine, req: Request, now: TimeVal)
    requires Conserved(m) && now.Normal()
    ensures Conserved(Receives(m, req, now))
  {
    hide AbsoluteDeadline, Insert, DeleteAt, ToInt, SkipMinusOne, Balanced;
    assert m.accepted + [] == m.accepted && m.removed + [] == m.removed && m.cleared + [] == m.cleared;
    match req
    case Add(sec, usec, handler, arg) =>
      AddKeepsConserved(m, Timer(SkipMinusOne(m.curId), AbsoluteDeadline(now, sec, usec), handler, arg));
    case Remove(id, free) =>
      if FindId(m.queue, id) < |m.queue| {
        RemoveKeepsConserved(m, FindId(m.queue, id));
      }
    case Clear => ClearKeepsConserved(m);
    case Failed =>
  }

  lemma StepKeepsConserved(m: Machine, l: Label)
    requires Conserved(m) && Enabled(m, l)
    ensures Conserved(Apply(m, l))
  {
    hide Balanced, Receives;
    match l
    case Receive(req, now) => ReceiveKeepsConserved(m, req, now);
    case Timeout(now) =>
      if m.queue != [] {
        FiringKeepsConserved(m, Expiry(m.queue[0], now.Micros(), m.pc.since));
      }
    case _ =>
  }

  /** In every run the accepted timers are exactly those queued, fired, removed and cleared, with multiplicity. */
  lemma {:induction false} TimersAreConserved(run: seq<Label>)
    requires Exec(run).Some?
    ensures Conserved(Exec(run).value)
  {
    if run != [] {
      var before := run[..|run| - 1];
      TimersAreConserved(before);
      StepKeepsConserved(Exec(before).value, run[|run| - 1]);
    }
  }

  // ---------- Identifiers ----------

  // Identifiers repeat after this many timers: all 2^32 values of an int but -1.
  const ID_PERIOD := INT_RANGE - 1

  /** The identifier of the n-th accepted timer. */
  function IdAt(n: nat): int {
    ToInt(n % ID_PERIOD)
  }

  ghost predicate Numbered(m: Machine) {
    && SkipMinusOne(m.curId) == IdAt(|m.accepted|)
    && forall i :: 0 <= i < |m.accepted| ==> m.accepted[i].id == IdAt(i)
  }

  lemma NextIdFollows(n: nat)
    ensures SkipMinusOne(ToInt(IdAt(n) + 1)) == IdAt(n + 1)
  {
    var r := n % ID_PERIOD;
    var q := n / ID_PERIOD;
    assert n == q * ID_PERIOD + r;
    if r + 1 < ID_PERIOD {
      NextResidue(n, q, r + 1);
    } else {
      NextResidue(n, q + 1, 0);
    }
  }

  lemma NextResidue(n: nat, q: nat, r: nat)
    requires n + 1 == q * ID_PERIOD + r && r < ID_PERIOD
    ensures (n + 1) % ID_PERIOD == r
  {
    var d := (n + 1) / ID_PERIOD - q;
    assert d * ID_PERIOD == r - (n + 1) % ID_PERIOD;
  }

  /** Two timers share an identifier exactly when a multiple of 2^32 - 1 adds separates them. */
  lemma IdsRepeatWithThePeriod(i: nat, j: nat)
    requires i <= j
    ensures IdAt(i) == IdAt(j) <==> (j - i) % ID_PERIOD == 0
    ensures IdAt(i) != -1
  {
    var ri, rj, qi, qj := i % ID_PERIOD, j % ID_PERIOD, i / ID_PERIOD, j / ID_PERIOD;
    assert IdAt(i) == IdAt(j) <==> ri == rj;
    var d := (j - i) / ID_PERIOD;
    var r := (j - i) % ID_PERIOD;
    assert (d - (qj - qi)) * ID_PERIOD == rj - ri - r;
  }

  lemma {:induction false} AcceptedIdsFollowTheCounter(run: seq<Label>)
    requires Exec(run).Some?
    ensures Numbered(Exec(run).value)
  {
    if run != [] {
      var before := run[..|run| - 1];
      AcceptedIdsFollowTheCounter(before);
      StepKeepsNumbered(Exec(before).value, run[|run| - 1]);
    }
  }

  lemma StepKeepsNumbered(m: Machine, l: Label)
    requires Numbered(m) && Enabled(m, l)
    ensures Numbered(Apply(m, l))
  {
    hide IdAt, ToInt;
    match l
    case Receive(req, now) =>
      NextIdFollows(|m.accepted|);
      assert Receives(m, req, now).accepted[..|m.accepted|] == m.accepted;
    case _ =>
  }

  /** As long as at most 2^32 - 1 timers were added, every accepted timer is in exactly one of the queue, the
      fired, the removed and the cleared timers, and its identifier names it alone. */
  lemma EveryTimerIsInOnePlace(run: seq<Label>, t: Timer)
    requires Exec(run).Some? && |Exec(run).value.accepted| <= ID_PERIOD && t in Exec(run).value.accepted
    ensures var m := Exec(run).value;
            multiset(m.queue)[t] + multiset(TimersOf(m.fired))[t] + multiset(m.removed)[t] + multiset(m.cleared)[t] == 1
    ensures forall u :: u in Exec(run).value.accepted && u.id == t.id ==> u == t
  {
    hide Exec, Numbered, IdAt, ToInt;
    var m := Exec(run).value;
    TimersAreConserved(run);
    AcceptedIdsFollowTheCounter(run);
    AcceptedIdsAreDistinct(m);
    DistinctIdsOccurOnce(m.accepted, t);
  }

  lemma AcceptedIdsAreDistinct(m: Machine)
    requires Numbered(m) && |m.accepted| <= ID_PERIOD
    ensures forall i, j :: 0 <= i < j < |m.accepted| ==> m.accepted[i].id != m.accepted[j].id
  {
    hide IdAt, ToInt;
    forall i, j | 0 <= i < j < |m.accepted|
      ensures m.accepted[i].id != m.accepted[j].id
    {
      IdsRepeatWithThePeriod(i, j);
    }
  }

  lemma {:induction false} DistinctIdsOccurOnce(ts: seq<Timer>, t: Timer)
    requires forall i, j :: 0 <= i < j < |ts| ==> ts[i].id != ts[j].id
    requires t in ts
    ensures multiset(ts)[t] == 1
  {
    assert ts == ts[..|ts| - 1] + [ts[|ts| - 1]];
    if t == ts[|ts| - 1] {
      assert t !in ts[..|ts| - 1];
    } else {
      DistinctIdsOccurOnce(ts[..|ts| - 1], t);
    }
  }

  // ---------- Removal ----------

  /** Removing a queued identifier calls the callback exactly once, with that timer's argument. */
  lemma RemoveCallsBackOnce(m: Machine, id: int, free: nat, now: TimeVal, k: nat)
    requires now.Normal() && id != -1 && free != NULL
    requires k < |m.queue| && m.queue[k].id == id && forall i :: 0 <= i < k ==> m.queue[i].id != id
    ensures var m' := Receives(m, Remove(id, free), now);
            && m'.calls == m.calls + [Call(free, m.queue[k].arg)]
            && m'.removed == m.removed + [m.queue[k]]
            && m.queue == InsertAt(m'.queue, k, m.queue[k])
  {
    assert FindId(m.queue, id) == k;
  }

  /** Removing an unknown identifier, or -1, changes nothing but the clock. */
  lemma UnknownIsNotRemoved(m: Machine, id: int, free: nat, now: TimeVal)
    requires now.Normal() && (id == -1 || forall t :: t in m.queue ==> t.id != id)
    ensures Receives(m, Remove(id, free), now) == m.(clock := now.Micros(), pc := Checking)
  {
    assert m.removed + [] == m.removed && m.accepted + [] == m.accepted;
    assert m.cleared + [] == m.cleared && m.calls + [] == m.calls;
  }

  /** Clearing takes every queued timer out of the queue, without calling anything, and keeps the counter. */
  lemma ClearEmptiesTheQueue(m: Machine, now: TimeVal)
    requires now.Normal()
    ensures var m' := Receives(m, Clear, now);
            && m'.queue == [] && m'.cleared == m.cleared + m.queue && m'.curId == m.curId
            && m'.calls == m.calls && m'.accepted == m.accepted && m'.removed == m.removed && m'.fired == m.fired
  {
  }

  /** An accepted timer joins the queue, due at the time of the request plus its timeout. */
  lemma AddQueuesTheTimer(m: Machine, sec: nat, usec: nat, handler: nat, arg: nat, now: TimeVal)
    requires now.Normal() && m.curId != -1
    ensures var m', t := Receives(m, Add(sec, usec, handler, arg), now),
                         Timer(m.curId, AbsoluteDeadline(now, sec, usec), handler, arg);
            && multiset(m'.queue) == multiset(m.queue) + multiset{t} && m'.accepted == m.accepted + [t]
            && Due(t) == now.Micros() + 1_000_000 * sec + usec
            && m'.calls == m.calls && m'.removed == m.removed && m'.cleared == m.cleared && m'.fired == m.fired
  {
    InsertAddsOne(m.queue, Timer(m.curId, AbsoluteDeadline(now, sec, usec), handler, arg));
    AbsoluteDeadlineIsExact(now, sec, usec);
    hide Insert, AbsoluteDeadline;
  }

  lemma {:induction false} RemovedIsKept(run: seq<Label>, more: seq<Label>)
    requires Exec(run + more).Some?
    ensures Exec(run).Some? && Exec(run).value.removed <= Exec(run + more).value.removed
    ensures Exec(run).value.cleared <= Exec(run + more).value.cleared
  {
    hide Apply, Enabled;
    if more == [] {
      assert run + more == run;
    } else {
      var all := run + more;
      var before := all[..|all| - 1];
      assert before == run + more[..|more| - 1];
      RemovedIsKept(run, more[..|more| - 1]);
      StepKeepsRemoved(Exec(before).value, all[|all| - 1]);
    }
  }

  lemma StepKeepsRemoved(m: Machine, l: Label)
    requires Enabled(m, l)
    ensures m.removed <= Apply(m, l).removed && m.cleared <= Apply(m, l).cleared
  {
  }

  /** Once removed, a timer never fires, however the run goes on. */
  lemma RemovedNeverFires(run: seq<Label>, more: seq<Label>, t: Timer)
    requires Exec(run + more).Some? && |Exec(run + more).value.accepted| <= ID_PERIOD
    requires Exec(run).Some? && t in Exec(run).value.removed
    ensures t !in TimersOf(Exec(run + more).value.fired)
  {
    RemovedIsKept(run, more);
    var m := Exec(run + more).value;
    assert t in m.removed;
    TimersAreConserved(run + more);
    assert t in multiset(m.accepted);
    EveryTimerIsInOnePlace(run + more, t);
  }

  /** Nor does a timer that was cleared. */
  lemma ClearedNeverFires(run: seq<Label>, more: seq<Label>, t: Timer)
    requires Exec(run + more).Some? && |Exec(run + more).value.accepted| <= ID_PERIOD
    requires Exec(run).Some? && t in Exec(run).value.cleared
    ensures t !in TimersOf(Exec(run + more).value.fired)
  {
    RemovedIsKept(run, more);
    var m := Exec(run + more).value;
    assert t in m.cleared;
    TimersAreConserved(run + more);
    assert t in multiset(m.accepted);
    EveryTimerIsInOnePlace(run + more, t);
  }

  /** No timer that is queued when a clear request arrives fires afterwards. */
  lemma NothingQueuedFiresAfterClear(run: seq<Label>, now: TimeVal, more: seq<Label>, t: Timer)
    requires Exec(run).Some? && t in Exec(run).value.queue && Enabled(Exec(run).value, Receive(Clear, now))
    requires Exec(run + [Receive(Clear, now)] + more).Some?
    requires |Exec(run + [Receive(Clear, now)] + more).value.accepted| <= ID_PERIOD
    ensures t !in TimersOf(Exec(run + [Receive(Clear, now)] + more).value.fired)
  {
    hide Exec;
    ExecOneMore(run, Exec(run).value, Receive(Clear, now));
    ClearEmptiesTheQueue(Exec(run).value, now);
    ClearedNeverFires(run + [Receive(Clear, now)], more, t);
  }
}

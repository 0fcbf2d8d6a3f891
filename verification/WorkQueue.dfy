/** The two-thread work queue as a state machine over its atomic sections.

    The master thread submits requests, the worker thread runs `work_cb`, and the master runs
    `after_work_cb`.  Each event below is one section that the other thread cannot interleave with:
    a critical section, a `uv_async_send`, a callback's return, or a libuv dispatch.
    `uv_async_send` sets a pending flag, so sends that arrive before the dispatch coalesce.
  */
module WorkQueue {

  type Req = int

  /** What travels through the queues: a request, or the shutdown sentinel `exit_req`. */
  datatype Item = Work(req: Req) | Exit

  datatype WorkerPc =
    | WIdle               // blocked in uv_run
    | WDrain              // at the top of worker_cb's loop
    | WRun(req: Req)      // popped, work_cb not yet returned
    | WRan(req: Req)      // work_cb returned, not yet pushed to queue_master
    | WSend               // pushed, uv_async_send(async_master) still to come
    | WExitRan            // worker_close_cb: exit work_cb returned
    | WExitSend           // exit_req pushed, send still to come
    | WGone               // uv_run returned, the thread has ended

  datatype MasterPc = MLoop | MDrain | MCall(req: Req)

  /** The part of queue_work / close_work that is still to come on the master. */
  datatype Op = NoOp | SubmitSend | CloseSend | Join

  datatype State = State(
    closed: bool,           // exit_req.data != nullptr
    qw: seq<Item>,          // queue_worker
    qm: seq<Item>,          // queue_master
    wakeW: bool,            // async_worker pending
    wakeM: bool,            // async_master pending
    wpc: WorkerPc,
    wclosing: bool,         // uv_close(async_worker) issued
    mpc: MasterPc,
    mclosing: bool,         // uv_close(async_master) issued
    mdone: bool,            // master_close_cb has run
    op: Op,
    submitted: seq<Item>,   // pushes to queue_worker, in order
    worked: seq<Item>,      // work_cb returns, in order
    completed: seq<Item>)   // after_work_cb returns, in order

  const Init := State(false, [], [], false, false, WIdle, false, MLoop, false, false, NoOp, [], [], [])

  datatype Event =
    // the two calls, made by the application on the master thread
    | Submit(req: Req)
    | Close(data: bool)     // data: the caller's `data` is not nullptr
    // worker thread
    | WakeW | PopW | FinishW | PushM | SendM | EmptyW | CloseW | PushExit | SendExit
    // master thread
    | WakeM | PopM | FinishM | EmptyM | CloseM | SendOp | JoinReturn

  predicate System(e: Event) { !e.Submit? && !e.Close? }

  predicate MayCall(s: State) { s.op == NoOp && !s.mpc.MDrain? }

  predicate OfWorker(e: Event) {
    e.WakeW? || e.PopW? || e.FinishW? || e.PushM? || e.SendM? || e.EmptyW? || e.CloseW? || e.PushExit? || e.SendExit?
  }

  predicate Enabled(s: State, e: Event) { if OfWorker(e) then EnabledW(s, e) else EnabledM(s, e) }

  predicate EnabledW(s: State, e: Event) {
    match e
    case WakeW => s.wpc.WIdle? && s.wakeW && !s.wclosing
    case PopW => s.wpc.WDrain? && s.qw != []
    case EmptyW => s.wpc.WDrain? && s.qw == []
    case FinishW => s.wpc.WRun?
    case PushM => s.wpc.WRan?
    case SendM => s.wpc.WSend?
    case CloseW => s.wpc.WIdle? && s.wclosing
    case PushExit => s.wpc.WExitRan?
    case SendExit => s.wpc.WExitSend?
    case _ => false
  }

  predicate EnabledM(s: State, e: Event) {
    match e
    case Submit(_) => MayCall(s) && !s.closed
    case Close(_) => MayCall(s) && !s.closed
    case WakeM => s.mpc.MLoop? && s.op == NoOp && s.wakeM && !s.mclosing
    case PopM => s.mpc.MDrain? && s.qm != []
    case EmptyM => s.mpc.MDrain? && s.qm == []
    case FinishM => s.mpc.MCall? && s.op == NoOp
    case CloseM => s.mpc.MLoop? && s.op == NoOp && s.mclosing && !s.mdone
    case SendOp => s.op == SubmitSend || s.op == CloseSend
    case JoinReturn => s.op == Join && s.wpc.WGone?
    case _ => false
  }

  function Apply(s: State, e: Event): State
    requires Enabled(s, e)
  {
    if OfWorker(e) then ApplyW(s, e) else ApplyM(s, e)
  }

  function ApplyW(s: State, e: Event): State
    requires EnabledW(s, e)
  {
    match e
    case WakeW => s.(wakeW := false, wpc := WDrain)
    case PopW =>
      var x := s.qw[0];
      s.(qw := s.qw[1..], wclosing := s.wclosing || x.Exit?, wpc := if x.Exit? then s.wpc else WRun(x.req))
    case EmptyW => s.(wpc := WIdle)
    case FinishW => s.(wpc := WRan(s.wpc.req), worked := s.worked + [Work(s.wpc.req)])
    case PushM => s.(wpc := WSend, qm := s.qm + [Work(s.wpc.req)])
    case SendM => s.(wpc := WDrain, wakeM := true)
    case CloseW => s.(wpc := WExitRan, worked := s.worked + [Exit])
    case PushExit => s.(wpc := WExitSend, qm := s.qm + [Exit])
    case SendExit => s.(wpc := WGone, wakeM := true)
  }

  function ApplyM(s: State, e: Event): State
    requires EnabledM(s, e)
  {
    match e
    case Submit(r) => s.(qw := s.qw + [Work(r)], op := SubmitSend, submitted := s.submitted + [Work(r)])
    case Close(d) => s.(closed := d, qw := s.qw + [Exit], op := CloseSend, submitted := s.submitted + [Exit])
    case WakeM => s.(wakeM := false, mpc := MDrain)
    case PopM =>
      var x := s.qm[0];
      s.(qm := s.qm[1..], mclosing := s.mclosing || x.Exit?, mpc := if x.Exit? then s.mpc else MCall(x.req))
    case EmptyM => s.(mpc := MLoop)
    case FinishM => s.(mpc := MDrain, completed := s.completed + [Work(s.mpc.req)])
    case CloseM => s.(mdone := true, completed := s.completed + [Exit])
    case SendOp => s.(wakeW := true, op := if s.op == CloseSend then Join else NoOp)
    case JoinReturn => s.(op := NoOp)
  }

  // ---------------------------------------------------------------- runs

  /** s' follows from s by the events es, taken in order. */
  predicate Run(s: State, es: seq<Event>, s': State)
    decreases |es|
  {
    if es == [] then s == s'
    else Enabled(s, es[0]) && Run(Apply(s, es[0]), es[1..], s')
  }

  /** Every close_work in the run was given `data` that is not nullptr. */
  predicate Proper(es: seq<Event>) {
    forall i :: 0 <= i < |es| ==> es[i] != Close(false)
  }

  ghost predicate Reachable(s: State) {
    exists es :: Proper(es) && Run(Init, es, s)
  }

  // ---------------------------------------------------------------- where each submission is

  function WorkerHeld(s: State): seq<Item> {
    if s.wpc.WRun? then [Work(s.wpc.req)]
    else if s.wclosing && (s.wpc.WDrain? || s.wpc.WIdle?) then [Exit]
    else []
  }

  function WorkerDone(s: State): seq<Item> {
    if s.wpc.WRan? then [Work(s.wpc.req)] else if s.wpc.WExitRan? then [Exit] else []
  }

  function MasterHeld(s: State): seq<Item> {
    if s.mpc.MCall? then [Work(s.mpc.req)] else if s.mclosing && !s.mdone then [Exit] else []
  }

  predicate Fifo(s: State) {
    && s.worked == s.completed + MasterHeld(s) + s.qm + WorkerDone(s)
    && s.submitted == s.worked + WorkerHeld(s) + s.qw
  }

  predicate NoExit(q: seq<Item>) { forall i :: 0 <= i < |q| ==> q[i] != Exit }

  /** The sentinel is in q once, at the end. */
  predicate ExitLast(q: seq<Item>) {
    && q != []
    && q[|q| - 1] == Exit
    && NoExit(q[..|q| - 1])
  }

  /** Which control positions can occur together. */
  predicate Shape(s: State) {
    && (s.wclosing ==> s.closed && s.wpc in {WDrain, WIdle, WExitRan, WExitSend, WGone})
    && (s.wpc in {WExitRan, WExitSend, WGone} ==> s.wclosing)
    && (s.mdone ==> s.mclosing)
    && (s.mclosing ==> s.wpc in {WExitSend, WGone} && s.op == NoOp && !s.mpc.MCall?)
    && (s.op != NoOp ==> !s.mpc.MDrain?)
    && (s.op == CloseSend || s.op == Join ==> s.closed)
  }

  /** The sentinel is in exactly one place, and last wherever it is queued. */
  predicate ExitPlace(s: State) {
    && (if s.wclosing then s.qw == [] else if s.closed then ExitLast(s.qw) else NoExit(s.qw))
    && (if s.mclosing then s.qm == []
        else if s.wpc in {WExitSend, WGone} then ExitLast(s.qm) else NoExit(s.qm))
    && (if s.mdone then ExitLast(s.completed) else NoExit(s.completed))
  }

  /** A non-empty queue always has its consumer in mid-drain, or a wake-up pending, or a producer
      that is between its push and its send. */
  predicate NoLostWakeup(s: State) {
    && (s.qw != [] ==> s.wakeW || s.wpc.WDrain? || s.wpc.WRun? || s.wpc.WRan? || s.wpc.WSend?
                       || s.op == SubmitSend || s.op == CloseSend)
    && (s.qm != [] ==> s.wakeM || s.mpc.MDrain? || s.mpc.MCall? || s.wpc.WSend? || s.wpc.WExitSend?)
  }

  predicate Inv(s: State) { Fifo(s) && Shape(s) && ExitPlace(s) && NoLostWakeup(s) }

  // ---------------------------------------------------------------- every step keeps the invariant

  lemma {:induction false} FifoStep(s: State, e: Event)
    requires Fifo(s) && Shape(s) && Enabled(s, e)
    requires (s.wclosing ==> s.qw == []) && (s.mclosing ==> s.qm == [])
    ensures Fifo(Apply(s, e))
  {
    if OfWorker(e) { FifoWorker(s, e); } else { FifoMaster(s, e); }
  }

  lemma FifoWorker(s: State, e: Event)
    requires Fifo(s) && Shape(s) && EnabledW(s, e)
    requires s.wclosing ==> s.qw == []
    ensures Fifo(ApplyW(s, e))
  {
    match e {
      case PopW => FifoPopW(s);
      case WakeW => case FinishW => case PushM => case SendM => case EmptyW =>
      case CloseW => case PushExit => case SendExit =>
    }
  }

  lemma FifoMaster(s: State, e: Event)
    requires Fifo(s) && Shape(s) && EnabledM(s, e)
    requires s.mclosing ==> s.qm == []
    ensures Fifo(ApplyM(s, e))
  {
    if e == PopM { FifoPopM(s); }
  }

  lemma FifoPopW(s: State)
    requires Fifo(s) && Shape(s) && EnabledW(s, PopW)
    requires s.wclosing ==> s.qw == []
    ensures Fifo(ApplyW(s, PopW))
  {
    var t := ApplyW(s, PopW);
    assert t.worked == t.completed + MasterHeld(t) + t.qm + WorkerDone(t) by {
      assert MasterHeld(t) == MasterHeld(s) && WorkerDone(t) == WorkerDone(s) == [];
    }
    assert t.submitted == t.worked + WorkerHeld(t) + t.qw by {
      assert WorkerHeld(t) == [s.qw[0]] && WorkerHeld(s) == [];
      TakeFirst(s.worked, s.qw);
    }
    assert Fifo(t);
  }

  lemma TakeFirst(a: seq<Item>, q: seq<Item>)
    requires q != []
    ensures a + [] + q == a + [q[0]] + q[1..]
  {
    assert q == [q[0]] + q[1..];
  }

  lemma FifoPopM(s: State)
    requires Fifo(s) && Shape(s) && EnabledM(s, PopM)
    requires s.mclosing ==> s.qm == []
    ensures Fifo(ApplyM(s, PopM))
  {
    Regroup(s.completed, s.qm, WorkerDone(s));
    var t := ApplyM(s, PopM);
    assert MasterHeld(t) == [s.qm[0]] && WorkerDone(t) == WorkerDone(s);
    assert MasterHeld(s) == [];
    assert WorkerHeld(t) == WorkerHeld(s);
  }

  lemma Regroup(a: seq<Item>, q: seq<Item>, b: seq<Item>)
    requires q != []
    ensures a + [] + q + b == a + [q[0]] + q[1..] + b
  {
    assert q == [q[0]] + q[1..];
  }

  lemma NoExitTail(q: seq<Item>)
    requires NoExit(q) && q != []
    ensures NoExit(q[1..]) && q[0] != Exit
  {
    forall i | 0 <= i < |q| - 1 ensures q[1..][i] != Exit { assert q[1..][i] == q[i + 1]; }
  }

  lemma ExitLastTail(q: seq<Item>)
    requires ExitLast(q) && |q| > 1
    ensures ExitLast(q[1..]) && q[0] != Exit
  {
    assert q[0] == q[..|q| - 1][0];
    forall i | 0 <= i < |q[1..]| - 1 ensures q[1..][i] != Exit { assert q[1..][i] == q[..|q| - 1][i + 1]; }
  }

  lemma {:induction false} ExitPlaceStep(s: State, e: Event)
    requires Shape(s) && ExitPlace(s) && Enabled(s, e) && e != Close(false)
    ensures ExitPlace(Apply(s, e))
  {
    if OfWorker(e) { ExitPlaceWorker(s, e); } else { ExitPlaceMaster(s, e); }
  }

  lemma ExitPlaceWorker(s: State, e: Event)
    requires Shape(s) && ExitPlace(s) && EnabledW(s, e)
    ensures ExitPlace(ApplyW(s, e))
  {
    if e == PopW {
      if !s.closed { NoExitTail(s.qw); } else if |s.qw| > 1 { ExitLastTail(s.qw); }
    }
  }

  lemma ExitPlaceMaster(s: State, e: Event)
    requires Shape(s) && ExitPlace(s) && EnabledM(s, e) && e != Close(false)
    ensures ExitPlace(ApplyM(s, e))
  {
    if e == PopM {
      if !s.wpc.WExitSend? && !s.wpc.WGone? { NoExitTail(s.qm); } else if |s.qm| > 1 { ExitLastTail(s.qm); }
    }
  }

  lemma {:induction false} ShapeStep(s: State, e: Event)
    requires Shape(s) && ExitPlace(s) && Enabled(s, e) && e != Close(false)
    ensures Shape(Apply(s, e))
  {
    if OfWorker(e) { ShapeWorker(s, e); } else { ShapeMaster(s, e); }
  }

  lemma ShapeWorker(s: State, e: Event)
    requires Shape(s) && ExitPlace(s) && EnabledW(s, e)
    ensures Shape(ApplyW(s, e))
  {
  }

  lemma ShapeMaster(s: State, e: Event)
    requires Shape(s) && ExitPlace(s) && EnabledM(s, e) && e != Close(false)
    ensures Shape(ApplyM(s, e))
  {
  }

  lemma NoLostWakeupStep(s: State, e: Event)
    requires Shape(s) && ExitPlace(s) && NoLostWakeup(s) && Enabled(s, e)
    ensures NoLostWakeup(Apply(s, e))
  {
    if OfWorker(e) { NoLostWakeupWorker(s, e); } else { NoLostWakeupMaster(s, e); }
  }

  lemma NoLostWakeupWorker(s: State, e: Event)
    requires Shape(s) && ExitPlace(s) && NoLostWakeup(s) && EnabledW(s, e)
    ensures NoLostWakeup(ApplyW(s, e))
  {
  }

  lemma NoLostWakeupMaster(s: State, e: Event)
    requires Shape(s) && ExitPlace(s) && NoLostWakeup(s) && EnabledM(s, e)
    ensures NoLostWakeup(ApplyM(s, e))
  {
  }

  lemma {:induction false} InvStep(s: State, e: Event)
    requires Inv(s) && Enabled(s, e) && e != Close(false)
    ensures Inv(Apply(s, e))
  {
    FifoStep(s, e);
    ExitPlaceStep(s, e);
    ShapeStep(s, e);
    NoLostWakeupStep(s, e);
  }

  lemma {:induction false} InvRun(s: State, es: seq<Event>, t: State)
    requires Inv(s) && Proper(es) && Run(s, es, t)
    ensures Inv(t)
    decreases |es|
  {
    if es != [] {
      InvStep(s, es[0]);
      InvRun(Apply(s, es[0]), es[1..], t);
    }
  }

  lemma ReachableInv(s: State)
    requires Reachable(s)
    ensures Inv(s)
  {
    var es :| Proper(es) && Run(Init, es, s);
    InvRun(Init, es, s);
  }

  // ---------------------------------------------------------------- safety over every run

  /** Each submission runs work_cb and then after_work_cb exactly once, in submission order: the
      three histories differ only by what is in a thread's hands or in a queue. */
  lemma InOrderExactlyOnce(s: State)
    requires Reachable(s)
    ensures s.submitted == s.completed + MasterHeld(s) + s.qm + WorkerDone(s) + WorkerHeld(s) + s.qw
    ensures s.completed <= s.worked <= s.submitted
  {
    ReachableInv(s);
    assert s.worked == s.completed + (MasterHeld(s) + s.qm + WorkerDone(s));
    assert s.submitted == s.worked + (WorkerHeld(s) + s.qw);
  }

  lemma ExitLastAppend(a: seq<Item>, q: seq<Item>)
    requires NoExit(a) && ExitLast(q)
    ensures ExitLast(a + q)
  {
    assert (a + q)[..|a + q| - 1] == a + q[..|q| - 1];
  }

  lemma NoExitAppend(a: seq<Item>, b: seq<Item>)
    requires NoExit(a) && NoExit(b)
    ensures NoExit(a + b)
  {
  }

  lemma ExitLastPrefix(a: seq<Item>, b: seq<Item>)
    requires ExitLast(a + b)
    ensures b == [] || NoExit(a)
  {
    if b != [] {
      forall i | 0 <= i < |a| ensures a[i] != Exit { assert a[i] == (a + b)[..|a + b| - 1][i]; }
    }
  }

  /** The sentinel has reached the master. */
  lemma EndsAtMaster(s: State)
    requires Inv(s) && s.closed && (s.wpc.WExitSend? || s.wpc.WGone?)
    ensures ExitLast(s.submitted)
  {
    assert s.submitted == s.worked + [] + s.qw == s.worked;
    if s.mdone {
      assert s.worked == s.completed + [] + [] + [] == s.completed;
    } else if s.mclosing {
      ExitLastAppend(s.completed, [Exit]);
      assert s.worked == s.completed + [Exit] + [] + [] == s.completed + [Exit];
    } else {
      NoExitAppend(s.completed, MasterHeld(s));
      ExitLastAppend(s.completed + MasterHeld(s), s.qm);
      assert s.worked == s.completed + MasterHeld(s) + s.qm + [];
    }
  }

  /** The sentinel is still with the worker. */
  lemma EndsAtWorker(s: State)
    requires Inv(s) && s.closed && !s.wpc.WExitSend? && !s.wpc.WGone?
    ensures ExitLast(s.submitted)
  {
    var front := s.completed + MasterHeld(s) + s.qm;
    assert NoExit(front) by {
      NoExitAppend(s.completed, MasterHeld(s));
      NoExitAppend(s.completed + MasterHeld(s), s.qm);
    }
    if s.wpc.WExitRan? {
      ExitLastAppend(front, [Exit]);
      assert s.submitted == s.worked + [] + s.qw == s.worked;
    } else {
      NoExitAppend(front, WorkerDone(s));
      if s.wclosing {
        ExitLastAppend(s.worked, [Exit]);
        assert s.submitted == s.worked + [Exit] + [] == s.worked + [Exit];
      } else {
        NoExitAppend(s.worked, WorkerHeld(s));
        ExitLastAppend(s.worked + WorkerHeld(s), s.qw);
      }
    }
  }

  /** After close_work the sentinel is the last submission of all. */
  lemma {:induction false} SubmittedEndsWithExit(s: State)
    requires Inv(s) && s.closed
    ensures ExitLast(s.submitted)
  {
    if s.wpc.WExitSend? || s.wpc.WGone? { EndsAtMaster(s); } else { EndsAtWorker(s); }
  }

  /** Shutdown order: both assertions in the drain loops hold whenever they are evaluated, and when
      the exit callbacks have run, every other callback of their kind has run before them. */
  lemma ShutdownOrder(s: State)
    requires Reachable(s)
    ensures s.wclosing ==> s.qw == []
    ensures s.mclosing ==> s.qm == []
    ensures s.closed ==> ExitLast(s.submitted)
    ensures Exit in s.worked ==> s.worked == s.submitted
    ensures Exit in s.completed ==> s.completed == s.submitted
  {
    ReachableInv(s);
    InOrderExactlyOnce(s);
    if s.closed {
      SubmittedEndsWithExit(s);
      assert s.submitted == s.worked + s.submitted[|s.worked|..];
      ExitLastPrefix(s.worked, s.submitted[|s.worked|..]);
      assert s.submitted == s.completed + s.submitted[|s.completed|..];
      ExitLastPrefix(s.completed, s.submitted[|s.completed|..]);
    } else {
      assert NoExit(s.worked);
    }
  }

  // ---------------------------------------------------------------- nothing gets stuck

  ghost predicate Quiescent(s: State) {
    forall e {:trigger Enabled(s, e)} :: System(e) ==> !Enabled(s, e)
  }

  predicate Settled(s: State) {
    && s.qw == [] && s.qm == []
    && s.completed == s.submitted
    && s.op == NoOp
    && (s.closed ==> s.wpc.WGone? && s.mdone)
  }

  /** As long as something is outstanding, one of the threads can take a step. */
  lemma SomeEnabled(s: State) returns (e: Event)
    requires Inv(s) && !Settled(s)
    ensures System(e) && Enabled(s, e)
  {
    e := match s.wpc
      case WDrain => if s.qw == [] then EmptyW else PopW
      case WRun(_) => FinishW
      case WRan(_) => PushM
      case WSend => SendM
      case WExitRan => PushExit
      case WExitSend => SendExit
      case WIdle => if s.wclosing then CloseW else if s.wakeW then WakeW else MasterEvent(s)
      case WGone => MasterEvent(s);
  }

  function MasterEvent(s: State): Event {
    if s.op == Join then JoinReturn
    else if s.op != NoOp then SendOp
    else if s.mpc.MCall? then FinishM
    else if s.mpc.MDrain? then (if s.qm == [] then EmptyM else PopM)
    else if s.mclosing then CloseM
    else WakeM
  }

  function WorkerWeight(pc: WorkerPc, closing: bool): nat {
    match pc
    case WIdle => if closing then 9 else 0
    case WDrain => if closing then 10 else 1
    case WRun(_) => 10
    case WRan(_) => 9
    case WSend => 4
    case WExitRan => 8
    case WExitSend => 3
    case WGone => 0
  }

  function MasterWeight(pc: MasterPc, closing: bool, done: bool): nat {
    (match pc case MLoop => 0 case MDrain => 1 case MCall(_) => 3) + (if closing && !done then 2 else 0)
  }

  function OpWeight(op: Op): nat {
    match op case NoOp => 0 case SubmitSend => 3 case CloseSend => 4 case Join => 1
  }

  /** Bounds the system steps that are left when nothing more is submitted. */
  function Measure(s: State): nat {
    10 * |s.qw| + 4 * |s.qm| + (if s.wakeW then 2 else 0) + (if s.wakeM then 2 else 0)
    + WorkerWeight(s.wpc, s.wclosing) + MasterWeight(s.mpc, s.mclosing, s.mdone) + OpWeight(s.op)
  }

  lemma MeasureWorker(s: State, e: Event)
    requires Shape(s) && (s.wclosing ==> s.qw == []) && EnabledW(s, e)
    ensures Measure(ApplyW(s, e)) < Measure(s)
    ensures ApplyW(s, e).submitted == s.submitted && ApplyW(s, e).closed == s.closed
  {
  }

  lemma MeasureMaster(s: State, e: Event)
    requires Shape(s) && (s.mclosing ==> s.qm == []) && EnabledM(s, e) && System(e)
    ensures Measure(ApplyM(s, e)) < Measure(s)
    ensures ApplyM(s, e).submitted == s.submitted && ApplyM(s, e).closed == s.closed
  {
  }

  lemma {:induction false} MeasureStep(s: State, e: Event)
    requires Shape(s) && (s.wclosing ==> s.qw == []) && (s.mclosing ==> s.qm == [])
    requires System(e) && Enabled(s, e)
    ensures Measure(Apply(s, e)) < Measure(s)
    ensures Apply(s, e).submitted == s.submitted && Apply(s, e).closed == s.closed
  {
    if OfWorker(e) { MeasureWorker(s, e); } else { MeasureMaster(s, e); }
  }

  predicate SystemOnly(es: seq<Event>) { forall i :: 0 <= i < |es| ==> System(es[i]) }

  /** Without new calls the threads take at most Measure(s) steps. */
  lemma {:induction false} SystemRunBound(s: State, es: seq<Event>, t: State)
    requires Inv(s) && SystemOnly(es) && Run(s, es, t)
    ensures Inv(t) && |es| + Measure(t) <= Measure(s)
    ensures t.submitted == s.submitted && t.closed == s.closed
    decreases |es|
  {
    if es != [] {
      MeasureStep(s, es[0]);
      InvStep(s, es[0]);
      SystemRunBound(Apply(s, es[0]), es[1..], t);
    }
  }

  /** A run that has stopped has finished everything that was ever submitted; if close_work was
      called, the worker thread has ended, the join has returned and the exit callbacks have run. */
  lemma {:induction false} StoppedMeansDone(s: State, es: seq<Event>, t: State)
    requires Reachable(s) && SystemOnly(es) && Run(s, es, t) && Quiescent(t)
    ensures t.completed == s.submitted && t.qw == [] && t.qm == []
    ensures s.closed ==> t.wpc == WGone && t.mdone && t.op == NoOp
  {
    ReachableInv(s);
    SystemRunBound(s, es, t);
    if !Settled(t) { var e := SomeEnabled(t); }
  }

  /** Such a run exists from every reachable state. */
  lemma {:induction false} CanFinish(s: State) returns (es: seq<Event>, t: State)
    requires Inv(s)
    ensures SystemOnly(es) && Run(s, es, t) && Settled(t) && t.completed == s.submitted
    decreases Measure(s)
  {
    if Settled(s) {
      return [], s;
    }
    var e := SomeEnabled(s);
    MeasureStep(s, e);
    InvStep(s, e);
    var rest;
    rest, t := CanFinish(Apply(s, e));
    es := [e] + rest;
  }

  // ---------------------------------------------------------------- close_work with a null argument

  predicate ClosesWith(es: seq<Event>, data: bool) {
    forall i :: 0 <= i < |es| && es[i].Close? ==> es[i].data == data
  }

  lemma {:induction false} RunSnoc(s: State, es: seq<Event>, t: State, e: Event)
    requires Run(s, es, t) && Enabled(t, e)
    ensures Run(s, es + [e], Apply(t, e))
    decreases |es|
  {
    if es == [] {
      assert ([e])[1..] == [];
    } else {
      RunSnoc(Apply(s, es[0]), es[1..], t, e);
      assert (es + [e])[1..] == es[1..] + [e];
    }
  }

  lemma Extend(es: seq<Event>, s: State, e: Event) returns (es': seq<Event>, s': State)
    requires Run(Init, es, s) && Enabled(s, e) && ClosesWith(es, false) && e != Close(true)
    ensures es' == es + [e] && s' == Apply(s, e)
    ensures Run(Init, es', s') && ClosesWith(es', false)
  {
    RunSnoc(Init, es, s, e);
    es', s' := es + [e], Apply(s, e);
  }

  /** close_work(nullptr, ...) is not recorded, but the worker takes the sentinel. */
  lemma NullClosePopped() returns (es: seq<Event>, t: State)
    ensures ClosesWith(es, false) && Run(Init, es, t)
    ensures t == Init.(wclosing := true, wpc := WDrain, op := Join, submitted := [Exit])
  {
    es, t := Extend([], Init, Close(false));
    es, t := Extend(es, t, SendOp);
    es, t := Extend(es, t, WakeW);
    es, t := Extend(es, t, PopW);
  }

  /** The worker thread ends and the join returns. */
  lemma NullCloseJoined() returns (es: seq<Event>, t: State)
    ensures ClosesWith(es, false) && Run(Init, es, t)
    ensures t == Init.(wclosing := true, wpc := WGone, submitted := [Exit], worked := [Exit], qm := [Exit], wakeM := true)
  {
    es, t := NullClosePopped();
    es, t := Extend(es, t, EmptyW);
    es, t := Extend(es, t, CloseW);
    es, t := Extend(es, t, PushExit);
    es, t := Extend(es, t, SendExit);
    es, t := Extend(es, t, JoinReturn);
  }

  /** The master's side closes too. */
  lemma NullCloseDone() returns (es: seq<Event>, t: State)
    ensures ClosesWith(es, false) && Run(Init, es, t)
    ensures t == Init.(wclosing := true, wpc := WGone, mclosing := true, mdone := true,
                       submitted := [Exit], worked := [Exit], completed := [Exit])
  {
    es, t := NullCloseJoined();
    es, t := Extend(es, t, WakeM);
    es, t := Extend(es, t, PopM);
    es, t := Extend(es, t, EmptyM);
    es, t := Extend(es, t, CloseM);
  }

  /** After that, queue_work still accepts a request, and nobody will ever run it. */
  lemma NullCloseLosesWork() returns (es: seq<Event>, t: State)
    ensures ClosesWith(es, false) && Run(Init, es, t)
    ensures Quiescent(t) && t.completed != t.submitted
  {
    es, t := NullCloseDone();
    es, t := Extend(es, t, Submit(1));
    es, t := Extend(es, t, SendOp);
    assert t.completed == [Exit];
  }

  // ---------------------------------------------------------------- a run with null closes, decided

  /** Nothing is called any more once close_work has been given nullptr. */
  predicate NoCallAfterNullClose(es: seq<Event>) {
    forall i, j :: 0 <= i < j < |es| && es[i] == Close(false) ==> System(es[j])
  }

  /** s and u differ at most in `closed`, which the threads do not look at. */
  predicate Alike(s: State, u: State) {
    && s.qw == u.qw && s.qm == u.qm && s.wakeW == u.wakeW && s.wakeM == u.wakeM
    && s.wpc == u.wpc && s.wclosing == u.wclosing && s.mpc == u.mpc && s.mclosing == u.mclosing && s.mdone == u.mdone
    && s.op == u.op && s.submitted == u.submitted && s.worked == u.worked && s.completed == u.completed
  }

  lemma AlikeStep(s: State, u: State, e: Event)
    requires Alike(s, u) && System(e)
    ensures Enabled(s, e) <==> Enabled(u, e)
    ensures Enabled(s, e) ==> Alike(Apply(s, e), Apply(u, e))
  {
    if Enabled(s, e) {
      if OfWorker(e) { AlikeWorker(s, u, e); } else { AlikeMaster(s, u, e); }
    }
  }

  lemma AlikeWorker(s: State, u: State, e: Event)
    requires Alike(s, u) && EnabledW(s, e) && EnabledW(u, e)
    ensures Alike(ApplyW(s, e), ApplyW(u, e))
  {
    match e {
      case WakeW => case PopW => case FinishW => case PushM => case SendM => case EmptyW =>
      case CloseW => case PushExit => case SendExit =>
    }
  }

  lemma AlikeMaster(s: State, u: State, e: Event)
    requires Alike(s, u) && System(e) && EnabledM(s, e) && EnabledM(u, e)
    ensures Alike(ApplyM(s, e), ApplyM(u, e))
  {
    if e.SendOp? || e.JoinReturn? { AlikeOp(s, u, e); } else { AlikeDrain(s, u, e); }
  }

  lemma AlikeOp(s: State, u: State, e: Event)
    requires Alike(s, u) && (e.SendOp? || e.JoinReturn?) && EnabledM(s, e) && EnabledM(u, e)
    ensures Alike(ApplyM(s, e), ApplyM(u, e))
  {
  }

  lemma AlikeDrain(s: State, u: State, e: Event)
    requires Alike(s, u) && System(e) && !e.SendOp? && !e.JoinReturn? && EnabledM(s, e) && EnabledM(u, e)
    ensures Alike(ApplyM(s, e), ApplyM(u, e))
  {
    match e {
      case WakeM => case PopM => case EmptyM => case FinishM => case CloseM =>
    }
  }

  lemma {:induction false} AlikeRun(s: State, u: State, es: seq<Event>, t: State) returns (t': State)
    requires Alike(s, u) && SystemOnly(es) && Run(s, es, t)
    ensures Run(u, es, t') && Alike(t, t')
    decreases |es|
  {
    if es == [] {
      return u;
    }
    AlikeStep(s, u, es[0]);
    t' := AlikeRun(Apply(s, es[0]), Apply(u, es[0]), es[1..], t);
  }

  lemma NoCallTail(es: seq<Event>)
    requires es != [] && NoCallAfterNullClose(es)
    ensures NoCallAfterNullClose(es[1..])
    ensures es[0] == Close(false) ==> SystemOnly(es[1..])
  {
    forall i, j | 0 <= i < j < |es| - 1 && es[1..][i] == Close(false) ensures System(es[1..][j]) {
      assert es[i + 1] == Close(false) && es[1..][j] == es[j + 1];
    }
  }

  /** As long as nothing is called afterwards, a null close leads to the same state, but for the record,
      as a proper one. */
  lemma {:induction false} AsIfRecorded(s: State, es: seq<Event>, t: State) returns (es': seq<Event>, t': State)
    requires Run(s, es, t) && NoCallAfterNullClose(es)
    ensures Proper(es') && Run(s, es', t') && Alike(t, t')
    decreases |es|
  {
    if es == [] {
      return es, t;
    }
    NoCallTail(es);
    var first, rest := es[0], es[1..];
    if first == Close(false) {
      first := Close(true);
      t' := AlikeRun(Apply(s, Close(false)), Apply(s, Close(true)), rest, t);
    } else {
      rest, t' := AsIfRecorded(Apply(s, first), rest, t);
    }
    es' := [first] + rest;
    assert es'[1..] == rest;
  }

  function One(b: bool): nat { if b then 1 else 0 }

  /** Worked on and not yet completed: in queue_master or in a thread's hands. */
  function Returning(s: State): nat {
    One(s.mpc.MCall?) + One(s.mclosing && !s.mdone) + |s.qm| + One(s.wpc.WRan? || s.wpc.WExitRan?)
  }

  /** Submitted and not yet worked on. */
  function Outgoing(s: State): nat {
    |s.qw| + One(s.wpc.WRun?) + One(s.wclosing && !s.wpc.WExitRan? && !s.wpc.WExitSend? && !s.wpc.WGone?)
  }

  /** In any run at all, what is on its way is not yet completed. */
  predicate Counted(s: State) { Behind(s) && Ahead(s) }

  predicate Behind(s: State) { |s.completed| + Returning(s) <= |s.worked| }

  predicate Ahead(s: State) { |s.worked| + Outgoing(s) <= |s.submitted| }

  lemma CountedStep(s: State, e: Event)
    requires Counted(s) && Enabled(s, e)
    ensures Counted(Apply(s, e))
  {
    if OfWorker(e) {
      BehindWorker(s, e);
      AheadWorker(s, e);
    } else {
      BehindMaster(s, e);
      AheadMaster(s, e);
    }
  }

  lemma BehindWorker(s: State, e: Event)
    requires Behind(s) && EnabledW(s, e)
    ensures Behind(ApplyW(s, e))
  {
  }

  lemma AheadWorker(s: State, e: Event)
    requires Ahead(s) && EnabledW(s, e)
    ensures Ahead(ApplyW(s, e))
  {
  }

  lemma BehindMaster(s: State, e: Event)
    requires Behind(s) && EnabledM(s, e)
    ensures Behind(ApplyM(s, e))
  {
  }

  lemma AheadMaster(s: State, e: Event)
    requires Ahead(s) && EnabledM(s, e)
    ensures Ahead(ApplyM(s, e))
  {
  }

  lemma {:induction false} CountedRun(s: State, es: seq<Event>, t: State)
    requires Counted(s) && Run(s, es, t)
    ensures Counted(t)
    decreases |es|
  {
    if es != [] {
      CountedStep(s, es[0]);
      CountedRun(Apply(s, es[0]), es[1..], t);
    }
  }

  /** The worker thread has ended and something is queued for it. */
  predicate Stuck(s: State) { s.wpc.WGone? && s.qw != [] }

  /** The master is in close_work, or the worker thread has ended. */
  predicate Joining(s: State) { s.op == CloseSend || s.op == Join || s.wpc.WGone? }

  lemma JoiningStep(s: State, e: Event)
    requires Joining(s) && Enabled(s, e)
    ensures Joining(Apply(s, e))
    ensures Stuck(s) || !System(e) ==> Stuck(Apply(s, e))
  {
    if OfWorker(e) { JoiningWorker(s, e); } else { JoiningMaster(s, e); }
  }

  lemma JoiningWorker(s: State, e: Event)
    requires Joining(s) && EnabledW(s, e)
    ensures Joining(ApplyW(s, e)) && (Stuck(s) ==> Stuck(ApplyW(s, e)))
  {
  }

  lemma JoiningMaster(s: State, e: Event)
    requires Joining(s) && EnabledM(s, e)
    ensures Joining(ApplyM(s, e)) && (Stuck(s) || !System(e) ==> Stuck(ApplyM(s, e)))
  {
  }

  lemma {:induction false} StuckStays(s: State, es: seq<Event>, t: State)
    requires Stuck(s) && Run(s, es, t)
    ensures Stuck(t)
    decreases |es|
  {
    if es != [] {
      JoiningStep(s, es[0]);
      StuckStays(Apply(s, es[0]), es[1..], t);
    }
  }

  /** The master is in close_work until the worker thread has ended; a call after that is stuck. */
  lemma {:induction false} CallAfterClose(s: State, es: seq<Event>, t: State, j: nat)
    requires Joining(s) && Run(s, es, t) && j < |es| && !System(es[j])
    ensures Stuck(t)
    decreases |es|
  {
    JoiningStep(s, es[0]);
    if j == 0 {
      StuckStays(Apply(s, es[0]), es[1..], t);
    } else {
      CallAfterClose(Apply(s, es[0]), es[1..], t, j - 1);
    }
  }

  lemma {:induction false} CallAfterNullClose(s: State, es: seq<Event>, t: State, i: nat, j: nat)
    requires Run(s, es, t) && i < j < |es| && es[i] == Close(false) && !System(es[j])
    ensures Stuck(t)
    decreases |es|
  {
    if i == 0 {
      CallAfterClose(Apply(s, es[0]), es[1..], t, j - 1);
    } else {
      CallAfterNullClose(Apply(s, es[0]), es[1..], t, i - 1, j - 1);
    }
  }

  /** A run that has stopped, with any arguments to close_work, has completed whatever was submitted
      exactly if nothing was called after a close_work with nullptr. */
  lemma {:induction false} CloseArgumentExact(es: seq<Event>, t: State)
    requires Run(Init, es, t) && Quiescent(t)
    ensures t.completed == t.submitted <==> NoCallAfterNullClose(es)
  {
    if NoCallAfterNullClose(es) {
      var es', t' := AsIfRecorded(Init, es, t);
      forall e {:trigger Enabled(t', e)} | System(e) ensures !Enabled(t', e) { AlikeStep(t, t', e); }
      StoppedMeansDone(t', [], t');
    } else {
      var i, j :| 0 <= i < j < |es| && es[i] == Close(false) && !System(es[j]);
      CallAfterNullClose(Init, es, t, i, j);
      CountedRun(Init, es, t);
    }
  }
}

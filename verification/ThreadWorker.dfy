/** The thread worker's own code, as it runs between the other thread's steps.

    Each method is one of the functions of the class, with its loops, or one of the sections that they
    consist of; `MasterInterferes` and `WorkerInterferes` stand at the points where the other thread may
    get in between two sections.  Every section is proved to be a step of the machine in WorkQueue, so
    the object stays in a reachable state, and everything proved there about runs holds of this code.
  */
module ThreadWorkers {
  import opened WorkQueue

  /** The requests in a queue, without the sentinel. */
  function Requests(q: seq<Item>): seq<Item> {
    if |q| == 0 then [] else (if q[0] == Exit then [] else [q[0]]) + Requests(q[1..])
  }

  /** Events of the master other than close_work with a null argument. */
  predicate OfMaster(env: seq<Event>) {
    forall i :: 0 <= i < |env| ==> !OfWorker(env[i]) && env[i] != Close(false)
  }

  /** What an after_work_cb may call on its worker. */
  datatype Call = Queue(req: Req) | CloseAll

  /** What a list of calls pushes to the worker: queue_work is refused and close_work does nothing once
      the worker was closed. */
  function Accepted(closed: bool, calls: seq<Call>): seq<Item> {
    if closed || |calls| == 0 then []
    else match calls[0]
      case Queue(req) => [Work(req)] + Accepted(false, calls[1..])
      case CloseAll => [Exit]
  }

  lemma AcceptedStep(done: seq<Item>, closed: bool, calls: seq<Call>)
    requires calls != []
    ensures closed ==> Accepted(closed, calls) == Accepted(closed, calls[1..]) == []
    ensures !closed && calls[0].Queue? ==>
      done + Accepted(closed, calls) == done + [Work(calls[0].req)] + Accepted(closed, calls[1..])
    ensures !closed && calls[0].CloseAll? ==>
      done + Accepted(closed, calls) == done + [Exit] + Accepted(true, calls[1..])
  {
    if !closed {
      match calls[0] {
        case Queue(req) => Associate(done, [Work(req)], Accepted(false, calls[1..]));
        case CloseAll => Associate(done, [Exit], []);
      }
    }
  }

  lemma {:induction false} AcceptedAppend(closed: bool, a: seq<Call>, b: seq<Call>)
    ensures Accepted(closed, a + b) == Accepted(closed, a) + Accepted(closed || CloseAll in a, b)
    decreases |a|
  {
    if |a| == 0 {
      assert a + b == b && [] + Accepted(closed, b) == Accepted(closed, b);
    } else if !closed {
      assert (a + b)[1..] == a[1..] + b && (a + b)[0] == a[0];
      match a[0] {
        case Queue(req) =>
          AcceptedAppend(false, a[1..], b);
          assert CloseAll in a <==> CloseAll in a[1..] by { assert a == [a[0]] + a[1..]; }
          Associate([Work(req)], Accepted(false, a[1..]), Accepted(CloseAll in a[1..], b));
        case CloseAll => assert Accepted(true, b) == [] && [Exit] + [] == [Exit];
      }
    }
  }

  /** The calls that after_work_cb makes for the requests `served`, one after the other; `callbacks` says
      what the k-th one calls. */
  function Made(callbacks: (nat, Req) -> seq<Call>, served: seq<Item>): seq<Call> {
    if |served| == 0 then []
    else
      var n := |served| - 1;
      Made(callbacks, served[..n]) + match served[n] case Work(req) => callbacks(n, req) case Exit => []
  }

  /** Since the state with closed0, submitted0 and completed0, the callbacks of the requests completed
      have made their calls, and nothing else was submitted. */
  ghost predicate Caused(callbacks: (nat, Req) -> seq<Call>, closed0: bool, submitted0: seq<Item>, completed0: seq<Item>,
                         closed: bool, submitted: seq<Item>, completed: seq<Item>)
  {
    && completed0 <= completed
    && submitted == submitted0 + Accepted(closed0, Made(callbacks, completed[|completed0|..]))
    && closed == (closed0 || CloseAll in Made(callbacks, completed[|completed0|..]))
  }

  lemma CausedStart(callbacks: (nat, Req) -> seq<Call>, closed: bool, submitted: seq<Item>, completed: seq<Item>)
    ensures Caused(callbacks, closed, submitted, completed, closed, submitted, completed)
  {
    assert completed[|completed|..] == [] && submitted + [] == submitted;
  }

  lemma CausedTurn(callbacks: (nat, Req) -> seq<Call>, closed0: bool, submitted0: seq<Item>, completed0: seq<Item>,
                   closed: bool, submitted: seq<Item>, completed: seq<Item>, req: Req)
    requires Caused(callbacks, closed0, submitted0, completed0, closed, submitted, completed)
    ensures var calls := callbacks(|completed| - |completed0|, req);
      Caused(callbacks, closed0, submitted0, completed0,
             closed || CloseAll in calls, submitted + Accepted(closed, calls), completed + [Work(req)])
  {
    var served, n := completed[|completed0|..], |completed| - |completed0|;
    var more := (completed + [Work(req)])[|completed0|..];
    var made, calls := Made(callbacks, served), callbacks(n, req);
    assert more == served + [Work(req)] && more[..n] == served;
    AcceptedAppend(closed0, made, calls);
    Associate(submitted0, Accepted(closed0, made), Accepted(closed, calls));
  }

  class ThreadWorker {
    var exitData: bool            // exit_req.data != nullptr
    var queueWorker: seq<Item>
    var queueMaster: seq<Item>
    var asyncWorker: bool         // a send is pending
    var asyncMaster: bool
    // where the two threads are
    var wpc: WorkerPc
    var wclosing: bool
    var mpc: MasterPc
    var mclosing: bool
    var mdone: bool
    var op: Op
    // histories
    var submitted: seq<Item>
    var worked: seq<Item>
    var completed: seq<Item>

    function S(): State
      reads this
    {
      State(exitData, queueWorker, queueMaster, asyncWorker, asyncMaster, wpc, wclosing, mpc, mclosing, mdone, op,
            submitted, worked, completed)
    }

    /** The object is in a state that the machine can reach. */
    ghost predicate Valid()
      reads this
    {
      Reachable(S())
    }

    constructor ()
      ensures Valid() && S() == Init
    {
      exitData, queueWorker, queueMaster, asyncWorker, asyncMaster := false, [], [], false, false;
      wpc, wclosing, mpc, mclosing, mdone, op := WIdle, false, MLoop, false, false, NoOp;
      submitted, worked, completed := [], [], [];
      new;
      assert Proper([]) && Run(Init, [], S());
    }

    /** The fields have been changed from `before` as event e says. */
    lemma Commit(before: State, e: Event)
      requires Reachable(before) && Enabled(before, e) && e != Close(false) && S() == Apply(before, e)
      ensures Valid()
    {
      var es :| Proper(es) && Run(Init, es, before);
      RunSnoc(Init, es, before, e);
      assert Proper(es + [e]);
    }

    // ------------------------------------------------------------ the worker's sections

    /** libuv dispatches async_worker. */
    method WorkerWakes()
      requires Valid() && wpc == WIdle && asyncWorker && !wclosing
      modifies `asyncWorker, `wpc
      ensures Valid() && !asyncWorker && wpc == WDrain
    {
      ghost var before := S();
      asyncWorker := false;
      wpc := WDrain;
      Commit(before, WakeW);
    }

    /** The critical section at the top of worker_cb's loop when there is something to take. */
    method WorkerTakes() returns (req: Item)
      requires Valid() && wpc == WDrain && queueWorker != []
      modifies `queueWorker, `wpc, `wclosing
      ensures Valid() && req == old(queueWorker)[0] && queueWorker == old(queueWorker)[1..]
      ensures if req == Exit then wpc == WDrain && wclosing else wpc == WRun(req.req) && wclosing == old(wclosing)
      ensures req == Exit ==> queueWorker == []
    {
      ghost var before := S();
      req := queueWorker[0];
      queueWorker := queueWorker[1..];
      if req == Exit {
        wclosing := true;
        ReachableInv(before);
        ExitPlaceStep(before, PopW);
        assert queueWorker == [];
      } else {
        wpc := WRun(req.req);
      }
      Commit(before, PopW);
    }

    /** The same section when the queue is empty. */
    method WorkerBreaks()
      requires Valid() && wpc == WDrain && queueWorker == []
      modifies `wpc
      ensures Valid() && wpc == WIdle
    {
      ghost var before := S();
      wpc := WIdle;
      Commit(before, EmptyW);
    }

    /** work_cb runs to its end. */
    method WorkCb()
      requires Valid() && wpc.WRun?
      modifies `worked, `wpc
      ensures Valid() && wpc == WRan(old(wpc).req) && worked == old(worked) + [Work(old(wpc).req)]
    {
      ghost var before := S();
      worked := worked + [Work(wpc.req)];
      wpc := WRan(wpc.req);
      Commit(before, FinishW);
    }

    /** The critical section that hands the request to the master. */
    method WorkerPushes()
      requires Valid() && wpc.WRan?
      modifies `queueMaster, `wpc
      ensures Valid() && wpc == WSend && queueMaster == old(queueMaster) + [Work(old(wpc).req)]
    {
      ghost var before := S();
      queueMaster := queueMaster + [Work(wpc.req)];
      wpc := WSend;
      Commit(before, PushM);
    }

    /** uv_async_send(async_master). */
    method WorkerSends()
      requires Valid() && wpc == WSend
      modifies `asyncMaster, `wpc
      ensures Valid() && asyncMaster && wpc == WDrain
    {
      ghost var before := S();
      asyncMaster := true;
      wpc := WDrain;
      Commit(before, SendM);
    }

    /** worker_close_cb: the exit work_cb runs. */
    method ExitWorkCb()
      requires Valid() && wpc == WIdle && wclosing
      modifies `worked, `wpc
      ensures Valid() && wpc == WExitRan && worked == old(worked) + [Exit]
    {
      ghost var before := S();
      worked := worked + [Exit];
      wpc := WExitRan;
      Commit(before, CloseW);
    }

    /** exit_req goes to the master. */
    method ExitPushes()
      requires Valid() && wpc == WExitRan
      modifies `queueMaster, `wpc
      ensures Valid() && wpc == WExitSend && queueMaster == old(queueMaster) + [Exit]
    {
      ghost var before := S();
      queueMaster := queueMaster + [Exit];
      wpc := WExitSend;
      Commit(before, PushExit);
    }

    /** The last send; the thread ends. */
    method ExitSends()
      requires Valid() && wpc == WExitSend
      modifies `asyncMaster, `wpc
      ensures Valid() && asyncMaster && wpc == WGone
    {
      ghost var before := S();
      asyncMaster := true;
      wpc := WGone;
      Commit(before, SendExit);
    }

    predicate WorkerCan()
      reads this
    {
      wpc != WGone && (wpc == WIdle ==> wclosing || asyncWorker)
    }

    /** The top of worker_cb's loop. */
    method WorkerLooks()
      requires Valid() && wpc == WDrain
      modifies `queueWorker, `wpc, `wclosing
      ensures Valid() && Measure(S()) < Measure(old(S()))
    {
      if wclosing { ClosingWorks(S()); }
      if queueWorker == [] { WorkerBreaks(); } else { var req := WorkerTakes(); }
    }

    /** libuv's next dispatch on the worker's loop. */
    method WorkerRises()
      requires Valid() && wpc == WIdle && WorkerCan()
      modifies `asyncWorker, `wpc, `worked
      ensures Valid() && Measure(S()) < Measure(old(S()))
    {
      if wclosing { ExitWorkCb(); } else { WorkerWakes(); }
    }

    /** A request in hand moves on. */
    method WorkerHands()
      requires Valid() && (wpc.WRun? || wpc.WRan? || wpc.WSend?)
      modifies `queueMaster, `asyncMaster, `wpc, `worked
      ensures Valid() && Measure(S()) < Measure(old(S()))
      ensures old(queueMaster) <= queueMaster && |queueMaster| <= |old(queueMaster)| + 1
    {
      if wclosing { ClosingWorks(S()); }
      match wpc
      case WRun(_) => WorkCb();
      case WRan(_) => WorkerPushes();
      case WSend => WorkerSends();
    }

    /** The rest of worker_close_cb. */
    method WorkerCloses()
      requires Valid() && (wpc.WExitRan? || wpc.WExitSend?)
      modifies `queueMaster, `asyncMaster, `wpc
      ensures Valid() && Measure(S()) < Measure(old(S()))
      ensures old(queueMaster) <= queueMaster && |queueMaster| <= |old(queueMaster)| + 1
    {
      if wpc.WExitRan? { ExitPushes(); } else { ExitSends(); }
    }

    /** The worker thread executes its next section, whichever that is. */
    method WorkerSteps()
      requires Valid() && WorkerCan()
      modifies `queueWorker, `queueMaster, `asyncWorker, `asyncMaster, `wpc, `wclosing, `worked
      ensures Valid() && Measure(S()) < Measure(old(S()))
      ensures old(queueMaster) <= queueMaster && |queueMaster| <= |old(queueMaster)| + 1
    {
      match wpc
      case WIdle => WorkerRises();
      case WDrain => WorkerLooks();
      case WRun(_) | WRan(_) | WSend => WorkerHands();
      case WExitRan | WExitSend => WorkerCloses();
    }

    // ------------------------------------------------------------ the master's sections

    /** queue_work's critical section. */
    method Pushes(req: Req)
      requires Valid() && MayCall(S()) && !exitData
      modifies `queueWorker, `op, `submitted
      ensures Valid() && op == SubmitSend
      ensures queueWorker == old(queueWorker) + [Work(req)] && submitted == old(submitted) + [Work(req)]
    {
      ghost var before := S();
      queueWorker := queueWorker + [Work(req)];
      op, submitted := SubmitSend, submitted + [Work(req)];
      Commit(before, Submit(req));
    }

    /** close_work records its data and queues exit_req. */
    method PushesExit()
      requires Valid() && MayCall(S()) && !exitData
      modifies `exitData, `queueWorker, `op, `submitted
      ensures Valid() && exitData && op == CloseSend
      ensures queueWorker == old(queueWorker) + [Exit] && submitted == old(submitted) + [Exit]
    {
      ghost var before := S();
      exitData := true;
      queueWorker := queueWorker + [Exit];
      op, submitted := CloseSend, submitted + [Exit];
      Commit(before, Close(true));
    }

    /** uv_async_send(async_worker). */
    method Sends()
      requires Valid() && (op == SubmitSend || op == CloseSend)
      modifies `asyncWorker, `op
      ensures Valid() && asyncWorker && op == if old(op) == CloseSend then Join else NoOp
    {
      ghost var before := S();
      asyncWorker := true;
      op := if op == CloseSend then Join else NoOp;
      Commit(before, SendOp);
    }

    /** uv_thread_join returns. */
    method Joins()
      requires Valid() && op == Join && wpc == WGone
      modifies `op
      ensures Valid() && op == NoOp
    {
      ghost var before := S();
      op := NoOp;
      Commit(before, JoinReturn);
    }

    /** libuv dispatches async_master. */
    method MasterWakes()
      requires Valid() && mpc == MLoop && op == NoOp && asyncMaster && !mclosing
      modifies `asyncMaster, `mpc
      ensures Valid() && !asyncMaster && mpc == MDrain
    {
      ghost var before := S();
      asyncMaster := false;
      mpc := MDrain;
      Commit(before, WakeM);
    }

    /** The critical section at the top of master_cb's loop when there is something to take. */
    method MasterTakes() returns (req: Item)
      requires Valid() && mpc == MDrain && queueMaster != []
      modifies `queueMaster, `mpc, `mclosing
      ensures Valid() && req == old(queueMaster)[0] && queueMaster == old(queueMaster)[1..]
      ensures if req == Exit then mpc == MDrain && mclosing else mpc == MCall(req.req) && mclosing == old(mclosing)
      ensures req == Exit ==> queueMaster == []
    {
      ghost var before := S();
      req := queueMaster[0];
      queueMaster := queueMaster[1..];
      if req == Exit {
        mclosing := true;
        ReachableInv(before);
        ExitPlaceStep(before, PopM);
        assert queueMaster == [];
      } else {
        mpc := MCall(req.req);
      }
      Commit(before, PopM);
    }

    /** The same section when the queue is empty. */
    method MasterBreaks()
      requires Valid() && mpc == MDrain && queueMaster == []
      modifies `mpc
      ensures Valid() && mpc == MLoop
    {
      ghost var before := S();
      mpc := MLoop;
      Commit(before, EmptyM);
    }

    /** after_work_cb returns. */
    method AfterReturns()
      requires Valid() && mpc.MCall? && op == NoOp
      modifies `completed, `mpc
      ensures Valid() && mpc == MDrain && completed == old(completed) + [Work(old(mpc).req)]
    {
      ghost var before := S();
      completed := completed + [Work(mpc.req)];
      mpc := MDrain;
      Commit(before, FinishM);
    }

    /** master_close_cb: the exit after_work_cb runs. */
    method ExitAfterWorkCb()
      requires Valid() && mpc == MLoop && op == NoOp && mclosing && !mdone
      modifies `completed, `mdone
      ensures Valid() && mdone && completed == old(completed) + [Exit]
    {
      ghost var before := S();
      completed := completed + [Exit];
      mdone := true;
      Commit(before, CloseM);
    }

    /** The master executes the section e, if it can. */
    method MasterDoes(e: Event)
      requires Valid() && !OfWorker(e) && e != Close(false)
      modifies `exitData, `queueWorker, `queueMaster, `asyncWorker, `asyncMaster
      modifies `mpc, `mclosing, `mdone, `op, `submitted, `completed
      ensures Valid() && old(queueWorker) <= queueWorker && |queueWorker| <= |old(queueWorker)| + 1
    {
      if Enabled(S(), e) {
        match e
        case Submit(req) => Pushes(req);
        case Close(_) => PushesExit();
        case SendOp => Sends();
        case JoinReturn => Joins();
        case WakeM => MasterWakes();
        case PopM => var req := MasterTakes();
        case EmptyM => MasterBreaks();
        case FinishM => AfterReturns();
        case CloseM => ExitAfterWorkCb();
      }
    }

    // ------------------------------------------------------------ worker_cb, with the master in between

    /** Steps that the master may take while the worker is between two sections: a part of the events,
        those that are possible. */
    method MasterInterferes(env: seq<Event>) returns (rest: seq<Event>)
      requires Valid() && OfMaster(env)
      modifies `exitData, `queueWorker, `queueMaster, `asyncWorker, `asyncMaster
      modifies `mpc, `mclosing, `mdone, `op, `submitted, `completed
      ensures Valid() && OfMaster(rest) && |rest| + |queueWorker| <= |env| + |old(queueWorker)|
      ensures old(queueWorker) <= queueWorker
      ensures env == [] ==> rest == [] && S() == old(S())
    {
      rest := env;
      var n: nat :| n <= |env|;
      for i := 0 to n
        invariant Valid() && |rest| == |env| - i && OfMaster(rest)
        invariant |rest| + |queueWorker| <= |env| + |old(queueWorker)| && old(queueWorker) <= queueWorker
        invariant env == [] ==> S() == old(S())
      {
        MasterDoes(rest[0]);
        rest := rest[1..];
      }
    }

    /** One request, from its work_cb to the send. */
    method WorkerServes(env: seq<Event>) returns (rest: seq<Event>)
      requires Valid() && wpc.WRun? && OfMaster(env)
      modifies this
      ensures Valid() && wpc == WDrain && OfMaster(rest) && |rest| + |queueWorker| <= |env| + |old(queueWorker)|
      ensures worked == old(worked) + [Work(old(wpc).req)] && old(queueWorker) <= queueWorker
      ensures env == [] ==> rest == [] && queueWorker == old(queueWorker)
    {
      rest := MasterInterferes(env);
      WorkCb();
      rest := MasterInterferes(rest);
      WorkerPushes();
      rest := MasterInterferes(rest);
      WorkerSends();
    }

    /** The body of worker_cb's loop when there is something to take. */
    method WorkerTurn(env: seq<Event>) returns (rest: seq<Event>)
      requires Valid() && wpc == WDrain && queueWorker != [] && OfMaster(env)
      modifies this
      ensures Valid() && wpc == WDrain && OfMaster(rest)
      ensures |rest| + |queueWorker| < |env| + |old(queueWorker)|
      ensures old(worked + Requests(queueWorker)) <= worked + Requests(queueWorker)
      ensures env == [] ==> rest == [] && worked + Requests(queueWorker) == old(worked + Requests(queueWorker))
    {
      rest := env;
      ghost var all := worked + Requests(queueWorker);
      RequestsTail(worked, queueWorker);
      var req := WorkerTakes();
      ghost var q := queueWorker;
      if req != Exit {
        rest := WorkerServes(rest);
      }
      RequestsGrow(all, worked, q, queueWorker);
    }

    /** worker_cb: takes requests until the queue is empty, those that were there first of all. */
    method WorkerCb(env: seq<Event>) returns (rest: seq<Event>)
      requires Valid() && wpc == WIdle && asyncWorker && !wclosing && OfMaster(env)
      modifies this
      ensures Valid() && wpc == WIdle && OfMaster(rest) && queueWorker == []
      ensures old(worked) + Requests(old(queueWorker)) <= worked
      ensures env == [] ==> worked == old(worked) + Requests(old(queueWorker))
    {
      WorkerWakes();
      rest := env;
      ghost var all := worked + Requests(queueWorker);
      while true
        invariant Valid() && wpc == WDrain && OfMaster(rest)
        invariant all <= worked + Requests(queueWorker)
        invariant env == [] ==> rest == [] && worked + Requests(queueWorker) == all
        decreases |rest| + |queueWorker|
      {
        ghost var q := queueWorker;
        rest := MasterInterferes(rest);
        RequestsGrow(all, worked, q, queueWorker);
        if queueWorker == [] {
          WorkerBreaks();
          break;
        }
        rest := WorkerTurn(rest);
      }
      assert worked + [] == worked;
    }

    /** worker_close_cb. */
    method WorkerCloseCb(env: seq<Event>) returns (rest: seq<Event>)
      requires Valid() && wpc == WIdle && wclosing && OfMaster(env)
      modifies this
      ensures Valid() && wpc == WGone && OfMaster(rest) && worked == old(worked) + [Exit]
    {
      ExitWorkCb();
      rest := MasterInterferes(env);
      ExitPushes();
      rest := MasterInterferes(rest);
      ExitSends();
    }

    // ------------------------------------------------------------ the master's functions, with the worker in between

    /** Up to `slack` steps that the worker may take in between. */
    method WorkerInterferes(slack: nat) returns (left: nat)
      requires Valid()
      modifies `queueWorker, `queueMaster, `asyncWorker, `asyncMaster, `wpc, `wclosing, `worked
      ensures Valid() && left <= slack && left + |queueMaster| <= slack + |old(queueMaster)|
      ensures old(queueMaster) <= queueMaster
      ensures slack == 0 ==> S() == old(S())
    {
      left := slack;
      var n: nat :| n <= slack;
      while left > slack - n && WorkerCan()
        invariant slack - n <= left <= slack && Valid()
        invariant left + |queueMaster| <= slack + |old(queueMaster)| && old(queueMaster) <= queueMaster
        invariant slack == 0 ==> S() == old(S())
      {
        WorkerSteps();
        left := left - 1;
      }
    }

    /** queue_work: refused once close_work was called. */
    method QueueWork(req: Req, slack: nat) returns (ok: bool, left: nat)
      requires Valid() && MayCall(S())
      modifies `queueWorker, `queueMaster, `asyncWorker, `asyncMaster, `wpc, `wclosing, `worked, `op, `submitted
      ensures Valid() && left + |queueMaster| <= slack + |old(queueMaster)| && old(queueMaster) <= queueMaster
      ensures ok == !exitData && op == NoOp
      ensures !ok ==> S() == old(S())
      ensures submitted == old(submitted) + if ok then [Work(req)] else []
      ensures slack == 0 ==> left == 0 && queueMaster == old(queueMaster)
    {
      if exitData {
        return false, slack;
      }
      Pushes(req);
      left := WorkerInterferes(slack);
      Sends();
      ok := true;
    }

    /** What the join waits for: the worker's remaining steps, which are finitely many. */
    method WorkerEnds()
      requires Valid() && op == Join
      modifies `queueWorker, `queueMaster, `asyncWorker, `asyncMaster, `wpc, `wclosing, `worked
      ensures Valid() && wpc == WGone && queueWorker == [] && worked == submitted
      ensures old(queueMaster) <= queueMaster
    {
      while wpc != WGone
        invariant Valid() && old(queueMaster) <= queueMaster
        decreases Measure(S())
      {
        if wpc == WIdle { JoinedWorkerCan(S()); }
        WorkerSteps();
      }
      GoneHasWorked(S());
    }

    /** close_work up to its send; the worker may already run before that. */
    method SignalsExit(slack: nat) returns (left: nat)
      requires Valid() && MayCall(S()) && !exitData
      modifies `exitData, `queueWorker, `queueMaster, `asyncWorker, `asyncMaster
      modifies `wpc, `wclosing, `worked, `op, `submitted
      ensures Valid() && exitData && op == Join && left <= slack
      ensures old(queueMaster) <= queueMaster && submitted == old(submitted) + [Exit]
    {
      PushesExit();
      left := WorkerInterferes(slack);
      Sends();
    }

    /** close_work with data that is not null: the join returns, and by then the worker has run every
        request and the exit work_cb. */
    method CloseWork(slack: nat) returns (left: nat)
      requires Valid() && MayCall(S())
      modifies `exitData, `queueWorker, `queueMaster, `asyncWorker, `asyncMaster
      modifies `wpc, `wclosing, `worked, `op, `submitted
      ensures Valid() && exitData && op == NoOp && left <= slack && old(queueMaster) <= queueMaster
      ensures old(exitData) ==> S() == old(S())
      ensures !old(exitData) ==> wpc == WGone && queueWorker == [] && worked == submitted == old(submitted) + [Exit]
    {
      left := slack;
      if !exitData {
        left := SignalsExit(left);
        WorkerEnds();
        Joins();
      }
    }

    /** One call of queue_work or close_work. */
    method MakesCall(call: Call, slack: nat) returns (left: nat)
      requires Valid() && mpc.MCall? && op == NoOp
      modifies `exitData, `queueWorker, `queueMaster, `asyncWorker, `asyncMaster
      modifies `wpc, `wclosing, `worked, `op, `submitted
      ensures Valid() && op == NoOp && old(queueMaster) <= queueMaster && left <= slack
      ensures submitted == old(submitted) +
        if old(exitData) then [] else if call.Queue? then [Work(call.req)] else [Exit]
      ensures exitData == (old(exitData) || call.CloseAll?)
      ensures exitData == old(exitData) ==> left + |queueMaster| <= slack + |old(queueMaster)|
      ensures exitData == old(exitData) && slack == 0 ==> queueMaster == old(queueMaster)
    {
      match call
      case Queue(req) =>
        var ok;
        ok, left := QueueWork(req, slack);
      case CloseAll =>
        left := CloseWork(slack);
    }

    /** One after_work_cb and the calls that it makes. */
    method MasterServes(calls: seq<Call>, slack: nat) returns (left: nat)
      requires Valid() && mpc.MCall? && op == NoOp
      modifies `exitData, `queueWorker, `queueMaster, `asyncWorker, `asyncMaster
      modifies `wpc, `wclosing, `worked, `op, `submitted, `completed, `mpc
      ensures Valid() && mpc == MDrain && op == NoOp && old(queueMaster) <= queueMaster
      ensures completed == old(completed) + [Work(old(mpc).req)]
      ensures submitted == old(submitted) + Accepted(old(exitData), calls)
      ensures exitData == (old(exitData) || CloseAll in calls) && left <= slack
      ensures exitData == old(exitData) ==> left + |queueMaster| <= slack + |old(queueMaster)|
      ensures exitData == old(exitData) && slack == 0 ==> queueMaster == old(queueMaster)
    {
      left := slack;
      for i := 0 to |calls|
        invariant Valid() && mpc == old(mpc) && op == NoOp
        invariant completed == old(completed) && old(queueMaster) <= queueMaster
        invariant submitted + Accepted(exitData, calls[i..]) == old(submitted) + Accepted(old(exitData), calls)
        invariant exitData == (old(exitData) || CloseAll in calls[..i]) && left <= slack
        invariant exitData == old(exitData) ==> left + |queueMaster| <= slack + |old(queueMaster)|
        invariant exitData == old(exitData) && slack == 0 ==> queueMaster == old(queueMaster)
      {
        AcceptedStep(submitted, exitData, calls[i..]);
        assert calls[i..][1..] == calls[i + 1..] && calls[..i + 1] == calls[..i] + [calls[i]];
        left := MakesCall(calls[i], left);
      }
      assert calls[..|calls|] == calls && submitted + [] == submitted;
      AfterReturns();
    }

    /** The body of master_cb's loop when there is something to take. */
    method MasterTurn(callback: Req -> seq<Call>, slack: nat) returns (req: Item, left: nat)
      requires Valid() && mpc == MDrain && op == NoOp && queueMaster != []
      modifies this
      ensures Valid() && mpc == MDrain && op == NoOp && left <= slack && (old(exitData) ==> exitData)
      ensures req == old(queueMaster)[0]
      ensures req.Exit? ==>
        completed == old(completed) && submitted == old(submitted) && exitData == old(exitData)
      ensures req.Work? ==>
        && completed == old(completed) + [req]
        && submitted == old(submitted) + Accepted(old(exitData), callback(req.req))
        && exitData == (old(exitData) || CloseAll in callback(req.req))
      ensures old(completed + Requests(queueMaster)) <= completed + Requests(queueMaster)
      ensures exitData == old(exitData) ==> left + |queueMaster| < slack + |old(queueMaster)|
      ensures exitData == old(exitData) && slack == 0 ==>
        completed + Requests(queueMaster) == old(completed + Requests(queueMaster))
    {
      left := slack;
      ghost var all := completed + Requests(queueMaster);
      RequestsTail(completed, queueMaster);
      req := MasterTakes();
      ghost var q := queueMaster;
      if req != Exit {
        left := MasterServes(callback(req.req), left);
      }
      RequestsGrow(all, completed, q, queueMaster);
    }

    /** The k-th turn, or the one with the sentinel. */
    method MasterCounts(callbacks: (nat, Req) -> seq<Call>, k: nat, slack: nat,
                        ghost closed0: bool, ghost submitted0: seq<Item>, ghost completed0: seq<Item>)
      returns (k': nat, left: nat)
      requires Valid() && mpc == MDrain && op == NoOp && queueMaster != []
      requires Caused(callbacks, closed0, submitted0, completed0, exitData, submitted, completed)
      requires |completed| == |completed0| + k
      modifies this
      ensures Valid() && mpc == MDrain && op == NoOp && left <= slack && (old(exitData) ==> exitData)
      ensures Caused(callbacks, closed0, submitted0, completed0, exitData, submitted, completed)
      ensures |completed| == |completed0| + k'
      ensures old(completed + Requests(queueMaster)) <= completed + Requests(queueMaster)
      ensures exitData == old(exitData) ==> left + |queueMaster| < slack + |old(queueMaster)|
      ensures exitData == old(exitData) && slack == 0 ==>
        completed + Requests(queueMaster) == old(completed + Requests(queueMaster))
    {
      k' := k;
      ghost var closed, pushed, done := exitData, submitted, completed;
      var req;
      req, left := MasterTurn(r => callbacks(k, r), slack);
      if req != Exit {
        CausedTurn(callbacks, closed0, submitted0, completed0, closed, pushed, done, req.req);
        k' := k + 1;
      }
    }

    /** The loop of master_cb. */
    method MasterDrains(callbacks: (nat, Req) -> seq<Call>, slack: nat) returns (left: nat)
      requires Valid() && mpc == MDrain && op == NoOp
      modifies this
      ensures Valid() && mpc == MLoop && queueMaster == []
      ensures old(completed) + Requests(old(queueMaster)) <= completed
      ensures Caused(callbacks, old(exitData), old(submitted), old(completed), exitData, submitted, completed)
      ensures slack == 0 && exitData == old(exitData) ==> completed == old(completed) + Requests(old(queueMaster))
    {
      left := slack;
      var k: nat := 0;
      ghost var all := completed + Requests(queueMaster);
      CausedStart(callbacks, exitData, submitted, completed);
      while true
        invariant Valid() && mpc == MDrain && op == NoOp && left <= slack && (old(exitData) ==> exitData)
        invariant all <= completed + Requests(queueMaster)
        invariant |completed| == |old(completed)| + k
        invariant Caused(callbacks, old(exitData), old(submitted), old(completed), exitData, submitted, completed)
        invariant slack == 0 && exitData == old(exitData) ==> completed + Requests(queueMaster) == all
        decreases if exitData then 0 else 1, left + |queueMaster|
      {
        ghost var q := queueMaster;
        left := WorkerInterferes(left);
        RequestsGrow(all, completed, q, queueMaster);
        if queueMaster == [] {
          MasterBreaks();
          break;
        }
        k, left := MasterCounts(callbacks, k, left, old(exitData), old(submitted), old(completed));
      }
      assert completed + [] == completed;
    }

    /** master_cb: runs after_work_cb for what has come back, until the queue is empty; first of all for
        what was there at the start.  The k-th callback of the drain may make any calls, and what they
        submit, in order, is all that is submitted. */
    method MasterCb(callbacks: (nat, Req) -> seq<Call>, slack: nat) returns (left: nat)
      requires Valid() && mpc == MLoop && op == NoOp && asyncMaster && !mclosing
      modifies this
      ensures Valid() && mpc == MLoop && queueMaster == []
      ensures old(completed) + Requests(old(queueMaster)) <= completed
      ensures old(completed) <= completed
      ensures submitted == old(submitted) + Accepted(old(exitData), Made(callbacks, completed[|old(completed)|..]))
      ensures exitData == (old(exitData) || CloseAll in Made(callbacks, completed[|old(completed)|..]))
      ensures slack == 0 && exitData == old(exitData) ==> completed == old(completed) + Requests(old(queueMaster))
    {
      MasterWakes();
      left := MasterDrains(callbacks, slack);
    }
  }

  lemma RequestsTail(done: seq<Item>, q: seq<Item>)
    requires q != []
    ensures done + Requests(q) == if q[0] == Exit then done + Requests(q[1..]) else done + [q[0]] + Requests(q[1..])
  {
    var rest := Requests(q[1..]);
    if q[0] == Exit {
      assert [] + rest == rest;
    } else {
      Associate(done, [q[0]], rest);
    }
  }

  lemma {:induction false} RequestsPrefix(q: seq<Item>, q': seq<Item>)
    requires q <= q'
    ensures Requests(q) <= Requests(q')
    decreases |q|
  {
    if q != [] {
      RequestsPrefix(q[1..], q'[1..]);
      Prefixes(if q[0] == Exit then [] else [q[0]], Requests(q[1..]), Requests(q'[1..]));
    }
  }

  lemma Prefixes(a: seq<Item>, b: seq<Item>, c: seq<Item>)
    requires b <= c
    ensures a + b <= a + c
  {
    assert (a + c)[..|a + b|] == a + c[..|b|];
  }

  /** What is pushed later comes later. */
  lemma RequestsGrow(all: seq<Item>, done: seq<Item>, q: seq<Item>, q': seq<Item>)
    requires all <= done + Requests(q) && q <= q'
    ensures all <= done + Requests(q')
  {
    RequestsPrefix(q, q');
    Prefixes(done, Requests(q), Requests(q'));
  }

  lemma Associate(a: seq<Item>, b: seq<Item>, c: seq<Item>)
    ensures a + (b + c) == a + b + c
  {
  }

  /** While the master joins, the worker can go on until it has ended. */
  lemma JoinedWorkerCan(s: State)
    requires Reachable(s) && s.op == Join && s.wpc == WIdle
    ensures s.wclosing || s.wakeW
  {
    ReachableInv(s);
  }

  lemma ClosingWorks(s: State)
    requires Reachable(s) && s.wclosing
    ensures s.qw == [] && !s.wpc.WRun? && !s.wpc.WRan? && s.wpc != WSend
  {
    ReachableInv(s);
  }

  lemma GoneHasWorked(s: State)
    requires Reachable(s) && s.wpc == WGone
    ensures s.qw == [] && s.worked == s.submitted
  {
    ReachableInv(s);
    assert s.submitted == s.worked + [] + [];
  }
}

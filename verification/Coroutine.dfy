/** The coroutine trampoline: an explicit stack of generators, resumed from event-loop callbacks.

    Every method is tied to the recursive meaning in Generators: `Meaning(ios)` is what is still to
    come if the asynchronous completions ios arrive, preceded by what has already happened, and no
    step changes it.
  */
module Coroutines {
  import opened Options
  import opened Generators

  /** An entry of gen_: a generator object, or a plain value that the callable returned. */
  datatype Gen<S> = Generator(at: S, started: bool) | NotGenerator(v: Value)

  /** What invoking the coroutine's callable gives. */
  datatype Invoked<S> = Generating(main: S) | Value(v: Value) | Threw(exn: nat)

  /** The process-wide coroutine::current. */
  class Current {
    var co: object?
    constructor () { co := null; }
  }

  class Coroutine<S(!new)> {
    const prog: Program<S>
    ghost const rank: S -> ORDINAL
    var status: int                 // status_
    var gen: seq<Gen<S>>            // gen_, bottom first
    var stack: seq<Callback>        // stack_
    var exn: Option<nat>            // the pending PHP exception
    var timer: bool                 // timer_ armed with resume_cb
    var closes: nat                 // uv_close calls on timer_
    ghost var log: seq<Entry<S>>    // what the generators were resumed with

    constructor (prog: Program<S>, ghost rank: S -> ORDINAL)
      requires WellFounded(prog, rank)
      ensures this.prog == prog && this.rank == rank
      ensures status == 0 && gen == [] && stack == [] && exn == None && !timer && closes == 0 && log == []
    {
      this.prog, this.rank := prog, rank;
      status, gen, stack, exn, timer, closes, log := 0, [], [], None, false, 0, [];
    }

    // ------------------------------------------------------------ states

    function Top(): Gen<S>
      reads this
      requires gen != []
    {
      gen[|gen| - 1]
    }

    predicate Waits(g: Gen<S>) { g.Generator? && g.started && prog.act(g.at).YieldGenerator? }

    predicate Suspends(g: Gen<S>) { g.Generator? && g.started && prog.act(g.at).Await? }

    predicate Ended(g: Gen<S>) { g.NotGenerator? || (g.started && !Yields(prog.act(g.at))) }

    /** The generators below the top wait for the one above them. */
    ghost predicate Nested(g: seq<Gen<S>>) {
      WellFounded(prog, rank) && g != [] && forall i :: 0 <= i < |g| - 1 ==> Waits(g[i])
    }

    /** The pending exception is the one that ended the top generator (or the callable). */
    predicate Pending()
      reads this
      requires gen != []
    {
      match Top()
      case Generator(at, started) =>
        exn == if started && prog.act(at).Raise? then Some(prog.act(at).exn) else None
      case NotGenerator(_) => |gen| == 1
    }

    /** In run(): the top generator is to be driven on. */
    ghost predicate Running()
      reads this
    {
      && Nested(gen) && Pending() && !timer && closes == 0
      && (if Suspends(Top()) then status == 1 && stack == prog.act(Top().at).cbs else status == 0 && stack == [])
    }

    /** At the event loop: waiting for an asynchronous completion. */
    ghost predicate Suspended()
      reads this
    {
      Nested(gen) && Suspends(Top()) && exn == None && status == 0 && !timer && closes == 0
    }

    /** At the event loop: a nested generator has ended, and resume_cb is due. */
    ghost predicate Resuming()
      reads this
    {
      Nested(gen) && Pending() && Ended(Top()) && |gen| > 1 && status == 0 && stack == [] && timer && closes == 0
    }

    /** At the event loop: the coroutine is over, and close_cb is due. */
    ghost predicate Closing()
      reads this
    {
      Nested(gen) && Pending() && Ended(Top()) && |gen| == 1 && status == -1 && stack == [] && !timer && closes == 1
    }

    ghost predicate AtLoop()
      reads this
    {
      Suspended() || Resuming() || Closing()
    }

    /** The coroutine is in one phase at a time, and status_ says which one is the last. */
    lemma OnePhase()
      requires AtLoop()
      ensures Suspended() <==> !timer && closes == 0
      ensures Resuming() <==> timer
      ensures Closing() <==> closes == 1
      ensures Closing() <==> status == -1
      ensures gen != [] && closes <= 1
    {
    }

    // ------------------------------------------------------------ meaning

    /** The generators g go on, topmost first, once the one above them has ended with r. */
    ghost function Unwind(g: seq<Gen<S>>, r: Result<S>): Result<S>
      requires WellFounded(prog, rank)
      requires forall i :: 0 <= i < |g| ==> Waits(g[i])
    {
      if |g| == 0 then r
      else
        assert Waits(g[|g| - 1]);
        Unwind(g[..|g| - 1], Bind(false, prog, rank, g[|g| - 1].at, r))
    }

    ghost function TopMeaning(top: Gen<S>, cbs: seq<Callback>, e: Option<nat>, ios: seq<Completion>): Result<S>
      requires WellFounded(prog, rank)
    {
      match top
      case NotGenerator(v) => Done(if e.Some? then Raised(e.value) else Returned(v), ios, [], 0)
      case Generator(at, _) =>
        if Suspends(top) then Arrive(false, prog, rank, at, Deliver(cbs, ios))
        else Eval(false, prog, rank, at, ios)
    }

    /** All that happens if the completions ios are still to arrive, including what has happened. */
    ghost function Meaning(ios: seq<Completion>): Result<S>
      reads this
      requires Nested(gen)
    {
      Unwind(gen[..|gen| - 1], TopMeaning(Top(), stack, exn, ios)).After(log, 0)
    }

    lemma {:induction false} UnwindAfter(g: seq<Gen<S>>, r: Result<S>, pre: seq<Entry<S>>, n: nat)
      requires WellFounded(prog, rank)
      requires forall i :: 0 <= i < |g| ==> Waits(g[i])
      ensures Unwind(g, r.After(pre, n)) == Unwind(g, r).After(pre, n)
    {
      if |g| != 0 {
        var at := g[|g| - 1].at;
        var b := Bind(false, prog, rank, at, r);
        assert Bind(false, prog, rank, at, r.After(pre, n)) == b.After(pre, n) by {
          if r.Done? {
            AfterAfter(Resume(false, prog, rank, at, Lift(false, r.out), r.rest), r.log, r.turns + 1, pre, n);
          }
        }
        UnwindAfter(g[..|g| - 1], b, pre, n);
      }
    }

    lemma AfterAfter(r: Result<S>, a: seq<Entry<S>>, m: nat, b: seq<Entry<S>>, n: nat)
      ensures r.After(a, m).After(b, n) == r.After(b + a, n + m)
    {
      assert b + (a + r.log) == (b + a) + r.log;
    }

    lemma AfterTurn(r: Result<S>, n: nat)
      ensures r.After([], 1).After([], n) == r.After([], n + 1)
    {
      AfterAfter(r, [], 1, [], n);
    }

    // ------------------------------------------------------------ PHP's side of a generator

    /** The top generator is resumed with i and runs to its next point. */
    method SendTop(i: Input, ghost ios: seq<Completion>)
      requires Nested(gen)
      requires Suspends(Top()) || Waits(Top()) || (Top().Generator? && Top().started && prog.act(Top().at).YieldValue?)
      requires exn == None && status == 0 && stack == [] && !timer && closes == 0
      modifies this
      ensures Running() && |gen| == |old(gen)| && gen[..|gen| - 1] == old(gen)[..|gen| - 1]
      ensures Top() == Generator(prog.resume(old(Top()).at, i), true)
      ensures Meaning(ios) ==
        Unwind(gen[..|gen| - 1], Resume(false, prog, rank, old(Top().at), i, ios)).After(old(log), 0)
    {
      var at := Top().at;
      var below := gen[..|gen| - 1];
      gen := below + [Generator(prog.resume(at, i), true)];
      log := log + [Entry(at, i)];
      Reach();
      assert gen[..|gen| - 1] == below;
      ghost var r := Eval(false, prog, rank, prog.resume(at, i), ios);
      UnwindAfter(below, r, [Entry(at, i)], 0);
      AfterAfter(Unwind(below, r), [Entry(at, i)], 0, old(log), 0);
    }

    /** Control has reached the top generator's point: an exception becomes pending, and an async call
        counts in status_ and registers its callbacks. */
    method Reach()
      requires gen != [] && Top().Generator?
      modifies `exn, `status, `stack
      ensures match prog.act(Top().at)
              case Raise(e) => exn == Some(e) && status == old(status) && stack == old(stack)
              case Await(cbs) => exn == old(exn) && status == old(status) + 1 && stack == old(stack) + cbs
              case _ => exn == old(exn) && status == old(status) && stack == old(stack)
    {
      match prog.act(Top().at)
      case Raise(e) => exn := Some(e);
      case Await(cbs) =>
        status := status + 1;
        stack := stack + cbs;
      case _ =>
    }

    /** valid(): a fresh generator first runs to its first point. */
    method Valid(ghost ios: seq<Completion>) returns (valid: bool)
      requires Running() && Top().Generator? && exn == None
      modifies this
      ensures Running() && |gen| == |old(gen)| && gen[..|gen| - 1] == old(gen)[..|gen| - 1]
      ensures Top() == Generator(old(Top()).at, true) && log == old(log)
      ensures valid <==> Yields(prog.act(Top().at))
      ensures Meaning(ios) == old(Meaning(ios))
    {
      var g := Top();
      if !g.started {
        gen := gen[..|gen| - 1] + [Generator(g.at, true)];
        Reach();
        assert gen[..|gen| - 1] == old(gen)[..|gen| - 1];
      }
      var a := prog.act(g.at);
      valid := !a.Return? && !a.Raise?;
    }

    // ------------------------------------------------------------ the trampoline

    method Close(ghost ios: seq<Completion>)
      requires Running() && Ended(Top())
      modifies this
      ensures Resuming() || Closing()
      ensures gen == old(gen) && log == old(log) && exn == old(exn)
    {
      assert status != -1;
      if |gen| == 1 {
        status := -1;
        closes := closes + 1;
      } else {
        status := 0;
        timer := true;
      }
    }

    /** gen_.push(y) for a yielded generator. */
    method Push(c: S, ghost ios: seq<Completion>)
      requires Running() && exn == None && Waits(Top()) && c == prog.act(Top().at).child
      modifies `gen
      ensures Running() && Top() == Generator(c, false)
      ensures Meaning(ios) == old(Meaning(ios))
    {
      ghost var below, top := gen[..|gen| - 1], Top();
      gen := gen + [Generator(c, false)];
      assert gen[..|gen| - 1] == below + [top];
    }

    method Run(ghost ios: seq<Completion>)
      requires Running()
      modifies this
      ensures AtLoop()
      ensures Meaning(ios) == old(Meaning(ios))
    {
      while status >= 0
        invariant Running()
        invariant Meaning(ios) == old(Meaning(ios))
        decreases if Top().Generator? then rank(Top().at) else 0
      {
        if exn.Some? {
          status := 0;
          Close(ios);
          break;
        }
        if !Top().Generator? {
          Close(ios);
          break;
        }
        var valid := Valid(ios);
        if !valid {
          Close(ios);
          break;
        }
        match prog.act(Top().at)
        case Await(_) =>
          // the marker of this coroutine: the operation has been started exactly once
          status := status - 1;
          assert status == 0;
          break;
        case YieldGenerator(c) => Push(c, ios);
        case YieldValue(v) => SendTop(Send(v), ios);
      }
    }

    /** At the event loop, or in resume_cb after the nested generator was popped. */
    ghost predicate Awaiting()
      reads this
    {
      && Nested(gen) && exn == None && status == 0 && !timer && closes == 0
      && (Suspends(Top()) || (Waits(Top()) && stack == []))
    }

    /** What delivering c to the top generator's callbacks leads to. */
    ghost function Delivered(g: seq<Gen<S>>, cbs: seq<Callback>, c: Completion, ios: seq<Completion>): Result<S>
      requires Nested(g) && g[|g| - 1].Generator? && Yields(prog.act(g[|g| - 1].at))
    {
      Unwind(g[..|g| - 1], Arrive(false, prog, rank, g[|g| - 1].at, DeliverOne(cbs, c, ios)))
    }

    method Discard()
      modifies `stack
      ensures stack == []
    {
      while |stack| > 0 {
        stack := stack[1..];
      }
    }

    /** The generator gets i and is driven on. */
    method Resumes(i: Input, ghost ios: seq<Completion>)
      requires Awaiting() && stack == []
      modifies this
      ensures AtLoop()
      ensures Meaning(ios) ==
        Unwind(old(gen)[..|old(gen)| - 1], Resume(false, prog, rank, old(Top()).at, i, ios)).After(old(log), 0)
    {
      SendTop(i, ios);
      Run(ios);
    }

    /** next(rv): the front callback gets the value; the generator does if there is none left, or if
        the value is a throwable.  coroutine::current is this coroutine meanwhile. */
    method Next(cur: Current, rv: Value, ghost ios: seq<Completion>)
      requires Awaiting() || Closing()
      modifies this, cur
      ensures cur.co == old(cur.co)
      ensures old(Closing()) ==> Closing() && gen == old(gen) && log == old(log)
      ensures !old(Closing()) ==>
        AtLoop() && Meaning(ios) == Delivered(old(gen), old(stack), Completion.Next(rv), ios).After(old(log), 0)
      decreases |stack|, 1
    {
      if status < 0 {
        return;
      }
      var origin := cur.co;
      cur.co := this;
      if rv.Throwable? {
        Discard();
        Resumes(ThrowIn(rv.exn), ios);
      } else if stack == [] {
        Resumes(Send(rv), ios);
      } else {
        CallFront(cur, rv, ios);
      }
      cur.co := origin;
    }

    /** The front callback is taken off and called; it may complete at once. */
    method CallFront(cur: Current, rv: Value, ghost ios: seq<Completion>)
      requires Awaiting() && stack != [] && !rv.Throwable?
      modifies this, cur
      ensures cur.co == old(cur.co) && AtLoop()
      ensures Meaning(ios) == Delivered(old(gen), old(stack), Completion.Next(rv), ios).After(old(log), 0)
      decreases |stack|, 0
    {
      var cb := stack[0];
      stack := stack[1..];
      match cb(rv)
      case Later =>
      case NextNow(w) => Next(cur, w, ios);
      case FailNow(e) => Fail(cur, e, ios);
    }

    method Fail(cur: Current, e: nat, ghost ios: seq<Completion>)
      requires Awaiting() || Closing()
      modifies this, cur
      ensures cur.co == old(cur.co)
      ensures old(Closing()) ==> Closing() && gen == old(gen) && log == old(log)
      ensures !old(Closing()) ==>
        AtLoop() && Meaning(ios) == Delivered(old(gen), old(stack), Completion.Fail(e), ios).After(old(log), 0)
    {
      if status < 0 {
        return;
      }
      var origin := cur.co;
      cur.co := this;
      Discard();
      Resumes(ThrowIn(e), ios);
      cur.co := origin;
    }

    /** The value that resume_cb hands over for an outcome. */
    function Handed(out: Outcome): Value {
      match out case Raised(e) => Throwable(e) case Returned(v) => v
    }

    /** Handing the outcome of a generator to the one below is one turn of its remaining meaning. */
    lemma HandOver(g: seq<Gen<S>>, out: Outcome, ios: seq<Completion>, l: seq<Entry<S>>)
      requires Nested(g) && |g| > 1 && Waits(g[|g| - 2])
      ensures Unwind(g[..|g| - 1], Done(out, ios, [], 0)).After(l, 0)
           == Delivered(g[..|g| - 1], [], Completion.Next(Handed(out)), ios).After(l, 0).After([], 1)
    {
      var parents := g[..|g| - 1];
      var below, at := parents[..|parents| - 1], g[|g| - 2].at;
      var r := Resume(false, prog, rank, at, Lift(false, out), ios);
      assert Delivered(parents, [], Completion.Next(Handed(out)), ios) == Unwind(below, r);
      assert Bind(false, prog, rank, at, Done(out, ios, [], 0)) == r.After([], 1);
      UnwindAfter(below, r, [], 1);
      AfterAfter(Unwind(below, r), l, 0, [], 1);
      AfterAfter(Unwind(below, r), [], 1, l, 0);
      assert l + [] == [] + l;
    }

    /** resume_cb: the result of the generator that ended goes to the one below. */
    method ResumeCb(cur: Current, ghost ios: seq<Completion>)
      requires Resuming()
      modifies this, cur
      ensures AtLoop() && cur.co == old(cur.co)
      ensures Meaning(ios).After([], 1) == old(Meaning(ios))
    {
      assert Waits(gen[|gen| - 2]);
      ghost var out := if exn.Some? then Raised(exn.value) else Returned(prog.act(Top().at).v);
      HandOver(gen, out, ios, log);
      assert TopMeaning(Top(), stack, exn, ios) == Done(out, ios, [], 0);
      var g := Top();
      var rv;
      if exn.Some? {
        rv := Throwable(exn.value);
        exn := None;
      } else {
        rv := prog.act(g.at).v;
      }
      gen := gen[..|gen| - 1];
      timer := false;
      assert gen[..|gen| - 1] == old(gen)[..|old(gen)| - 1][..|gen| - 1];
      Next(cur, rv, ios);
    }

    /** start_cb and the wrapper that create() put on gen_: invoke the callable and run. */
    method StartCb(cur: Current, invoked: Invoked<S>, ghost ios: seq<Completion>)
      requires WellFounded(prog, rank)
      requires status == 0 && gen == [] && stack == [] && exn == None && !timer && closes == 0 && log == []
      modifies this, cur
      ensures AtLoop() && cur.co == old(cur.co)
      ensures Meaning(ios) == Direct(invoked, ios)
    {
      var origin := cur.co;
      cur.co := this;
      match invoked {
        case Generating(s) => gen := [Generator(s, false)];
        case Value(v) => gen := [NotGenerator(v)];
        case Threw(e) =>
          exn := Some(e);
          gen := [NotGenerator(Null)];
      }
      Run(ios);
      cur.co := origin;
    }

    /** Direct evaluation of what the callable gave. */
    ghost function Direct(invoked: Invoked<S>, ios: seq<Completion>): Result<S>
      requires WellFounded(prog, rank)
    {
      match invoked
      case Generating(s) => Eval(false, prog, rank, s, ios)
      case Value(v) => Done(Returned(v), ios, [], 0)
      case Threw(e) => Done(Raised(e), ios, [], 0)
    }

    /** close_cb: a pending exception stops the loop, otherwise the after_ callback runs. */
    method CloseCb() returns (stopped: bool)
      requires Closing()
      ensures Meaning([]).Done?
      ensures stopped <==> Meaning([]).out.Raised?
    {
      stopped := exn.Some?;
    }

    lemma {:induction false} UnwindBlocked(g: seq<Gen<S>>)
      requires WellFounded(prog, rank)
      requires forall i :: 0 <= i < |g| ==> Waits(g[i])
      ensures Unwind(g, Blocked([], 0)) == Blocked([], 0)
    {
      if |g| != 0 {
        assert Waits(g[|g| - 1]);
        UnwindBlocked(g[..|g| - 1]);
      }
    }

    /** The pending exception, or what the only entry left has returned. */
    function Ending(): Outcome
      reads this
      requires gen != []
      requires match Top() case Generator(at, _) => exn.Some? || prog.act(at).Return? case NotGenerator(_) => true
    {
      if exn.Some? then Raised(exn.value)
      else match Top() case Generator(at, _) => Returned(prog.act(at).v) case NotGenerator(v) => Returned(v)
    }

    lemma EndingMeans(ios: seq<Completion>)
      requires Closing()
      ensures match Top() case Generator(at, _) => exn.Some? || prog.act(at).Return? case NotGenerator(_) => true
      ensures TopMeaning(Top(), stack, exn, ios) == Done(Ending(), ios, [], 0)
    {
    }

    /** The event loop with the completions ios: resume_cb and completions are dispatched until the
        coroutine is closing or waits for a completion that does not come.  The coroutine then has the
        outcome of the direct evaluation, has left over the same completions, and its generators have
        been resumed with the same values and exceptions, in the same order. */
    method Drive(cur: Current, invoked: Invoked<S>, ios: seq<Completion>) returns (rest: seq<Completion>)
      requires WellFounded(prog, rank)
      requires status == 0 && gen == [] && stack == [] && exn == None && !timer && closes == 0 && log == []
      modifies this, cur
      ensures cur.co == old(cur.co)
      ensures match Direct(invoked, ios)
              case Done(out, left, l, _) =>
                Closing() && rest == left && log == l && Ending() == out
              case Blocked(l, _) =>
                Suspended() && rest == [] && log == l
      ensures invoked.Value? ==> Closing() && Ending() == Returned(invoked.v) && rest == ios && log == []
      ensures invoked.Threw? ==> Closing() && Ending() == Raised(invoked.exn) && rest == ios && log == []
    {
      StartCb(cur, invoked, ios);
      rest := ios;
      ghost var turned := 0;
      ghost var direct := Direct(invoked, ios);
      while closes == 0 && (timer || rest != [])
        invariant AtLoop() && cur.co == old(cur.co)
        invariant Meaning(rest).After([], turned) == direct
        decreases |rest| + Meaning(rest).turns
      {
        ghost var before := Meaning(rest);
        if timer {
          ResumeCb(cur, rest);
          AfterTurn(Meaning(rest), turned);
          turned := turned + 1;
        } else {
          var c := rest[0];
          rest := rest[1..];
          match c
          case Next(v) => Next(cur, v, rest);
          case Fail(e) => Fail(cur, e, rest);
        }
      }
      if closes == 0 {
        UnwindBlocked(gen[..|gen| - 1]);
      } else {
        EndingMeans(rest);
      }
    }
  }
}

/** PHP generators as scripts, and what `yield` means in a Flame coroutine.

    A generator is a point of a program: `act` says what it does when control is there, `resume` where
    it goes when it is given a value or an exception.  The recursive evaluator below is the meaning
    that a user of the library has in mind: a yielded generator is run to its end in place
    (`yield from`), an asynchronous call waits for its completion.
  */
module Generators {

  datatype Value = Null | Plain(n: int) | Throwable(exn: nat)

  /** What a generator is resumed with: send()/next(), or throw_exception(). */
  datatype Input = Send(v: Value) | ThrowIn(exn: nat)

  /** How native code completes an asynchronous operation: co->next(v) or co->fail(e). */
  datatype Completion = Next(v: Value) | Fail(exn: nat)

  /** What a callback registered with co->async does: start a further operation, or complete. */
  datatype Reply = Later | NextNow(v: Value) | FailNow(exn: nat)

  type Callback = Value -> Reply

  datatype Action<S> =
    | YieldValue(v: Value)
    | YieldGenerator(child: S)
    | Await(cbs: seq<Callback>)   // calls an async function, which registers cbs, and yields its marker
    | Return(v: Value)
    | Raise(exn: nat)

  datatype Program<!S> = Program(act: S -> Action<S>, resume: (S, Input) -> S)

  predicate Yields<S>(a: Action<S>) { !a.Return? && !a.Raise? }

  /** Every generator of the program ends after finitely many yields, and generators nest finitely:
      the points have a rank that goes down.  Ordinals, so that a generator may yield as often as a
      value it received says. */
  ghost predicate WellFounded<S(!new)>(p: Program<S>, rank: S -> ORDINAL) {
    && (forall s, i {:trigger rank(p.resume(s, i))} :: Yields(p.act(s)) ==> rank(p.resume(s, i)) < rank(s))
    && (forall s {:trigger p.act(s)} :: p.act(s).YieldGenerator? ==> rank(p.act(s).child) < rank(s))
  }

  datatype Outcome = Returned(v: Value) | Raised(exn: nat)

  /** The generator that was at `at` was resumed with `input`. */
  datatype Entry<S> = Entry(at: S, input: Input)

  /** Either the generator ended, leaving completions over, or it waits for one that never came.
      `turns` counts generators that were resumed after a nested one ended. */
  datatype Result<S> =
    | Done(out: Outcome, rest: seq<Completion>, log: seq<Entry<S>>, turns: nat)
    | Blocked(log: seq<Entry<S>>, turns: nat)
  {
    function After(before: seq<Entry<S>>, n: nat): Result<S> {
      match this
      case Done(o, r, l, t) => Done(o, r, before + l, n + t)
      case Blocked(l, t) => Blocked(before + l, n + t)
    }
  }

  datatype Delivery = Waiting | Got(input: Input, rest: seq<Completion>)

  /** The completions of one asynchronous call: each goes to the next registered callback, in
      registration order; a failure or a throwable skips the remaining ones. */
  function Deliver(cbs: seq<Callback>, ios: seq<Completion>): Delivery
    decreases |ios|, |cbs|, 1
  {
    if ios == [] then Waiting else DeliverOne(cbs, ios[0], ios[1..])
  }

  function DeliverOne(cbs: seq<Callback>, c: Completion, rest: seq<Completion>): Delivery
    decreases |rest| + 1, |cbs|, 0
  {
    match c
    case Fail(e) => Got(ThrowIn(e), rest)
    case Next(v) =>
      if v.Throwable? then Got(ThrowIn(v.exn), rest)
      else if cbs == [] then Got(Send(v), rest)
      else match cbs[0](v)
        case Later => Deliver(cbs[1..], rest)
        case NextNow(w) => DeliverOne(cbs[1..], Next(w), rest)
        case FailNow(e) => Got(ThrowIn(e), rest)
  }

  /** What a generator gets when the one it yielded has ended.  Plain `yield from` hands over any
      return value; the library throws one that is a throwable. */
  function Lift(plain: bool, out: Outcome): Input {
    match out
    case Raised(e) => ThrowIn(e)
    case Returned(v) => if v.Throwable? && !plain then ThrowIn(v.exn) else Send(v)
  }

  /** Direct recursive evaluation of the generator at s. */
  ghost function Eval<S(!new)>(plain: bool, p: Program<S>, rank: S -> ORDINAL, s: S, ios: seq<Completion>): Result<S>
    requires WellFounded(p, rank)
    decreases rank(s), 2
  {
    match p.act(s)
    case Return(v) => Done(Returned(v), ios, [], 0)
    case Raise(e) => Done(Raised(e), ios, [], 0)
    case YieldValue(v) => Resume(plain, p, rank, s, Send(v), ios)
    case YieldGenerator(c) => Bind(plain, p, rank, s, Eval(plain, p, rank, c, ios))
    case Await(cbs) => Arrive(plain, p, rank, s, Deliver(cbs, ios))
  }

  ghost function Resume<S(!new)>(plain: bool, p: Program<S>, rank: S -> ORDINAL, s: S, i: Input,
                                 ios: seq<Completion>): Result<S>
    requires WellFounded(p, rank) && Yields(p.act(s))
    decreases rank(s), 0
  {
    Eval(plain, p, rank, p.resume(s, i), ios).After([Entry(s, i)], 0)
  }

  /** s yielded a generator whose result is r. */
  ghost function Bind<S(!new)>(plain: bool, p: Program<S>, rank: S -> ORDINAL, s: S, r: Result<S>): Result<S>
    requires WellFounded(p, rank) && Yields(p.act(s))
    decreases rank(s), 1
  {
    match r
    case Blocked(_, _) => r
    case Done(out, rest, log, turns) => Resume(plain, p, rank, s, Lift(plain, out), rest).After(log, turns + 1)
  }

  /** s awaits an asynchronous call for which d arrives. */
  ghost function Arrive<S(!new)>(plain: bool, p: Program<S>, rank: S -> ORDINAL, s: S, d: Delivery): Result<S>
    requires WellFounded(p, rank) && Yields(p.act(s))
    decreases rank(s), 1
  {
    match d
    case Waiting => Blocked([], 0)
    case Got(i, rest) => Resume(plain, p, rank, s, i, rest)
  }

  // ---------------------------------------------------------------- callbacks

  predicate Plainly(c: Completion) { c.Next? && !c.v.Throwable? }

  ghost predicate AllLater(cbs: seq<Callback>) {
    forall i, v {:trigger cbs[i](v)} :: 0 <= i < |cbs| ==> cbs[i](v) == Later
  }

  /** Callbacks that each start a further operation take one completion each, in registration order,
      and the generator gets the one after them; a failure on the way discards the rest of them. */
  lemma {:induction false} OneCallbackPerCompletion(cbs: seq<Callback>, ios: seq<Completion>, k: nat)
    requires AllLater(cbs) && k <= |cbs| && k < |ios|
    requires forall i :: 0 <= i < k ==> Plainly(ios[i])
    ensures ios[k].Fail? ==> Deliver(cbs, ios) == Got(ThrowIn(ios[k].exn), ios[k + 1..])
    ensures ios[k].Next? && ios[k].v.Throwable? ==> Deliver(cbs, ios) == Got(ThrowIn(ios[k].v.exn), ios[k + 1..])
    ensures Plainly(ios[k]) && k == |cbs| ==> Deliver(cbs, ios) == Got(Send(ios[k].v), ios[k + 1..])
    decreases k
  {
    if k > 0 {
      var v := ios[0].v;
      assert Plainly(ios[0]) && cbs[0](v) == Later;
      forall i | 0 <= i < k - 1 ensures Plainly(ios[1..][i]) { assert Plainly(ios[i + 1]); }
      forall i, w {:trigger cbs[1..][i](w)} | 0 <= i < |cbs[1..]| ensures cbs[1..][i](w) == Later {
        assert cbs[i + 1](w) == Later;
      }
      OneCallbackPerCompletion(cbs[1..], ios[1..], k - 1);
      assert ios[1..][k..] == ios[k + 1..];
    }
  }

  /** How the values come about: callback i is called with vs[i], the last of them is on its way to the next
      callback or to the generator, and us[i] completions have been used up by then.  A callback that
      completes at once hands on the value itself, one that starts a further operation hands on what the
      next completion brings. */
  predicate Chain(cbs: seq<Callback>, ios: seq<Completion>, vs: seq<Value>, us: seq<nat>) {
    && 0 < |vs| == |us| <= |cbs| + 1
    && ios != [] && ios[0] == Next(vs[0]) && us[0] == 1
    && forall i :: 0 <= i < |vs| - 1 ==> Link(cbs[i], ios, vs[i], vs[i + 1], us[i], us[i + 1])
  }

  predicate Link(cb: Callback, ios: seq<Completion>, v: Value, v': Value, u: nat, u': nat) {
    && !v.Throwable? && u <= |ios|
    && match cb(v)
       case NextNow(w) => w == v' && u' == u
       case Later => u < |ios| && ios[u] == Next(v') && u' == u + 1
       case FailNow(_) => false
  }

  /** Nothing follows the last value of a chain. */
  predicate Ends(cbs: seq<Callback>, ios: seq<Completion>, vs: seq<Value>, us: seq<nat>)
    requires Chain(cbs, ios, vs, us)
  {
    var n := |vs| - 1;
    vs[n].Throwable? || n == |cbs|
    || match cbs[n](vs[n])
       case NextNow(_) => false
       case FailNow(_) => true
       case Later => us[n] >= |ios| || ios[us[n]].Fail?
  }

  lemma ChainBound(cbs: seq<Callback>, ios: seq<Completion>, vs: seq<Value>, us: seq<nat>, i: nat)
    requires Chain(cbs, ios, vs, us) && i < |vs|
    ensures 0 < us[i] <= |ios|
    decreases i
  {
    if i > 0 {
      ChainBound(cbs, ios, vs, us, i - 1);
      assert Link(cbs[i - 1], ios, vs[i - 1], vs[i], us[i - 1], us[i]);
    }
  }

  /** The delivery stands where the chain has got to. */
  lemma {:induction false} ChainReaches(cbs: seq<Callback>, ios: seq<Completion>, vs: seq<Value>, us: seq<nat>, i: nat)
    requires Chain(cbs, ios, vs, us) && i < |vs|
    ensures us[i] <= |ios| && Deliver(cbs, ios) == DeliverOne(cbs[i..], Next(vs[i]), ios[us[i]..])
    decreases i
  {
    if i == 0 {
      assert cbs[0..] == cbs;
    } else {
      var j := i - 1;
      ChainReaches(cbs, ios, vs, us, j);
      assert Link(cbs[j], ios, vs[j], vs[i], us[j], us[i]);
      assert cbs[j..][1..] == cbs[i..] && cbs[j..][0] == cbs[j];
      if cbs[j](vs[j]).Later? { assert ios[us[j]..][0] == Next(vs[i]) && ios[us[j]..][1..] == ios[us[i]..]; }
    }
  }

  /** What the generator gets, for any callbacks: the last value if all of them have run, an exception if a
      callback fails, a completion fails or a value is a throwable; each completion is used up by exactly
      one callback that started an operation, or by the generator. */
  lemma {:induction false} DeliveryExact(cbs: seq<Callback>, ios: seq<Completion>, vs: seq<Value>, us: seq<nat>, n: nat)
    requires Chain(cbs, ios, vs, us) && Ends(cbs, ios, vs, us) && n == |vs| - 1
    ensures us[n] <= |ios|
    ensures vs[n].Throwable? ==> Deliver(cbs, ios) == Got(ThrowIn(vs[n].exn), ios[us[n]..])
    ensures !vs[n].Throwable? && n == |cbs| ==> Deliver(cbs, ios) == Got(Send(vs[n]), ios[us[n]..])
    ensures !vs[n].Throwable? && n < |cbs| && cbs[n](vs[n]).FailNow? ==>
      Deliver(cbs, ios) == Got(ThrowIn(cbs[n](vs[n]).exn), ios[us[n]..])
    ensures !vs[n].Throwable? && n < |cbs| && cbs[n](vs[n]).Later? && us[n] == |ios| ==> Deliver(cbs, ios) == Waiting
    ensures !vs[n].Throwable? && n < |cbs| && cbs[n](vs[n]).Later? && us[n] < |ios| && ios[us[n]].Fail? ==>
      Deliver(cbs, ios) == Got(ThrowIn(ios[us[n]].exn), ios[us[n] + 1..])
  {
    ChainReaches(cbs, ios, vs, us, n);
    var rest := ios[us[n]..];
    if !vs[n].Throwable? && n < |cbs| {
      assert cbs[n..][0] == cbs[n];
      if cbs[n](vs[n]).Later? {
        var more := cbs[n..][1..];
        assert Deliver(cbs, ios) == Deliver(more, rest);
        if us[n] < |ios| {
          assert rest[0] == ios[us[n]] && rest[1..] == ios[us[n] + 1..];
          assert Deliver(more, rest) == DeliverOne(more, rest[0], rest[1..]);
        } else {
          assert rest == [];
        }
      }
    }
  }

  lemma ChainGrows(cbs: seq<Callback>, ios: seq<Completion>, vs: seq<Value>, us: seq<nat>, v: Value, u: nat)
    requires Chain(cbs, ios, vs, us) && |vs| <= |cbs|
    requires Link(cbs[|vs| - 1], ios, vs[|vs| - 1], v, us[|us| - 1], u)
    ensures Chain(cbs, ios, vs + [v], us + [u])
  {
    forall i | 0 <= i < |vs|
      ensures Link(cbs[i], ios, (vs + [v])[i], (vs + [v])[i + 1], (us + [u])[i], (us + [u])[i + 1])
    {
      if i < |vs| - 1 { assert Link(cbs[i], ios, vs[i], vs[i + 1], us[i], us[i + 1]); }
    }
  }

  /** Such a chain exists whenever the first completion is a value. */
  lemma {:induction false} ChainExists(cbs: seq<Callback>, ios: seq<Completion>, vs: seq<Value>, us: seq<nat>)
    returns (vs': seq<Value>, us': seq<nat>)
    requires Chain(cbs, ios, vs, us)
    ensures Chain(cbs, ios, vs', us') && Ends(cbs, ios, vs', us')
    decreases |cbs| + 1 - |vs|
  {
    if Ends(cbs, ios, vs, us) {
      return vs, us;
    }
    var n := |vs| - 1;
    ChainBound(cbs, ios, vs, us, n);
    match cbs[n](vs[n]) {
      case NextNow(w) =>
        ChainGrows(cbs, ios, vs, us, w, us[n]);
        vs', us' := ChainExists(cbs, ios, vs + [w], us + [us[n]]);
      case Later =>
        ChainGrows(cbs, ios, vs, us, ios[us[n]].v, us[n] + 1);
        vs', us' := ChainExists(cbs, ios, vs + [ios[us[n]].v], us + [us[n] + 1]);
    }
  }

  /** The delivery is decided for every list of callbacks and completions. */
  lemma DeliveryDecided(cbs: seq<Callback>, ios: seq<Completion>) returns (vs: seq<Value>, us: seq<nat>)
    ensures ios == [] ==> Deliver(cbs, ios) == Waiting
    ensures ios != [] && ios[0].Fail? ==> Deliver(cbs, ios) == Got(ThrowIn(ios[0].exn), ios[1..])
    ensures ios != [] && ios[0].Next? ==> Chain(cbs, ios, vs, us) && Ends(cbs, ios, vs, us)
  {
    vs, us := [], [];
    if ios != [] && ios[0].Next? {
      assert Chain(cbs, ios, [ios[0].v], [1]);
      vs, us := ChainExists(cbs, ios, [ios[0].v], [1]);
    }
  }

  // ---------------------------------------------------------------- the log and the outcome

  /** The point of the generator at s once its log is l: where its last resumption has led it. */
  function LastPoint<S>(p: Program<S>, s: S, l: seq<Entry<S>>): S {
    if |l| == 0 then s else p.resume(l[|l| - 1].at, l[|l| - 1].input)
  }

  /** An evaluation that ends does so with what its own last point returns or raises. */
  ghost predicate EndsAt<S>(p: Program<S>, s: S, r: Result<S>) {
    r.Done? ==>
      match p.act(LastPoint(p, s, r.log))
      case Return(v) => r.out == Returned(v)
      case Raise(e) => r.out == Raised(e)
      case _ => false
  }

  /** What a resumption gives a generator fits what it did: a plain value comes straight back, an ended
      generator hands over its return value or its exception.  For asynchronous calls see Consumes. */
  ghost predicate Fits<S(!new)>(plain: bool, p: Program<S>, rank: S -> ORDINAL, x: Entry<S>)
    requires WellFounded(p, rank)
  {
    match p.act(x.at)
    case YieldValue(v) => x.input == Send(v)
    case YieldGenerator(c) =>
      exists ios {:trigger Eval(plain, p, rank, c, ios)} ::
        var r := Eval(plain, p, rank, c, ios);
        r.Done? && Handed(plain, r.out, x.input)
    case Await(_) => true
    case _ => false
  }

  predicate Handed(plain: bool, out: Outcome, i: Input) {
    match i
    case Send(v) => out == Returned(v) && (plain || !v.Throwable?)
    case ThrowIn(e) => out == Raised(e) || (!plain && out == Returned(Throwable(e)))
  }

  /** The asynchronous calls in the log l, one after the other, were given what is delivered from ios, and
      leave rest over. */
  ghost predicate Consumes<S>(p: Program<S>, l: seq<Entry<S>>, ios: seq<Completion>, rest: seq<Completion>)
    decreases |l|
  {
    if |l| == 0 then ios == rest
    else match p.act(l[0].at)
      case Await(cbs) =>
        var d := Deliver(cbs, ios);
        d.Got? && d.input == l[0].input && Consumes(p, l[1..], d.rest, rest)
      case _ => Consumes(p, l[1..], ios, rest)
  }

  lemma {:induction false} ConsumesAppend<S>(p: Program<S>, a: seq<Entry<S>>, b: seq<Entry<S>>,
                                             ios: seq<Completion>, mid: seq<Completion>, rest: seq<Completion>)
    requires Consumes(p, a, ios, mid) && Consumes(p, b, mid, rest)
    ensures Consumes(p, a + b, ios, rest)
    decreases |a|
  {
    if |a| == 0 {
      assert a + b == b;
    } else {
      assert (a + b)[0] == a[0] && (a + b)[1..] == a[1..] + b;
      match p.act(a[0].at) {
        case Await(cbs) => ConsumesAppend(p, a[1..], b, Deliver(cbs, ios).rest, mid, rest);
        case _ => ConsumesAppend(p, a[1..], b, ios, mid, rest);
      }
    }
  }

  /** Some asynchronous call is not answered by the completions `rest`. */
  ghost predicate Stuck<S(!new)>(p: Program<S>, rest: seq<Completion>) {
    exists at {:trigger p.act(at)} :: p.act(at).Await? && Deliver(p.act(at).cbs, rest) == Waiting
  }

  /** What an evaluation leaves over, or has left when it is stuck. */
  ghost predicate ConsumesAll<S(!new)>(p: Program<S>, ios: seq<Completion>, r: Result<S>) {
    match r
    case Done(_, rest, l, _) => Consumes(p, l, ios, rest)
    case Blocked(l, _) => exists rest :: Consumes(p, l, ios, rest) && Stuck(p, rest)
  }

  lemma ConsumesAfter<S(!new)>(p: Program<S>, a: seq<Entry<S>>, n: nat, ios: seq<Completion>,
                                 mid: seq<Completion>, r: Result<S>)
    requires Consumes(p, a, ios, mid) && ConsumesAll(p, mid, r)
    ensures ConsumesAll(p, ios, r.After(a, n))
  {
    match r {
      case Done(_, rest, l, _) => ConsumesAppend(p, a, l, ios, mid, rest);
      case Blocked(l, _) =>
        var rest :| Consumes(p, l, mid, rest) && Stuck(p, rest);
        ConsumesAppend(p, a, l, ios, mid, rest);
    }
  }

  /** Completions are used up in the order of the log, and an evaluation stops only where they do not suffice. */
  lemma {:induction false} EvalConsumes<S(!new)>(plain: bool, p: Program<S>, rank: S -> ORDINAL, s: S,
                                                 ios: seq<Completion>)
    requires WellFounded(p, rank)
    ensures ConsumesAll(p, ios, Eval(plain, p, rank, s, ios))
    decreases rank(s), 1
  {
    match p.act(s) {
      case Return(_) =>
      case Raise(_) =>
      case YieldValue(v) => ResumedConsumes(plain, p, rank, s, Send(v), ios, ios);
      case YieldGenerator(c) =>
        EvalConsumes(plain, p, rank, c, ios);
        var r := Eval(plain, p, rank, c, ios);
        if r.Done? {
          var i := Lift(plain, r.out);
          ResumedConsumes(plain, p, rank, s, i, r.rest, r.rest);
          ConsumesAfter(p, r.log, r.turns + 1, ios, r.rest, Resume(plain, p, rank, s, i, r.rest));
          assert Eval(plain, p, rank, s, ios) == Resume(plain, p, rank, s, i, r.rest).After(r.log, r.turns + 1);
        } else {
          assert Eval(plain, p, rank, s, ios) == r;
        }
      case Await(cbs) =>
        var d := Deliver(cbs, ios);
        if d.Got? {
          ResumedConsumes(plain, p, rank, s, d.input, ios, d.rest);
          assert Eval(plain, p, rank, s, ios) == Resume(plain, p, rank, s, d.input, d.rest);
        } else {
          assert Consumes(p, [], ios, ios);
        }
    }
  }

  lemma {:induction false} ResumedConsumes<S(!new)>(plain: bool, p: Program<S>, rank: S -> ORDINAL, s: S, i: Input,
                                                    ios: seq<Completion>, rest: seq<Completion>)
    requires WellFounded(p, rank) && Yields(p.act(s)) && Consumes(p, [Entry(s, i)], ios, rest)
    ensures ConsumesAll(p, ios, Resume(plain, p, rank, s, i, rest))
    decreases rank(s), 0
  {
    EvalConsumes(plain, p, rank, p.resume(s, i), rest);
    ConsumesAfter(p, [Entry(s, i)], 0, ios, rest, Eval(plain, p, rank, p.resume(s, i), rest));
  }

  ghost predicate AllFit<S(!new)>(plain: bool, p: Program<S>, rank: S -> ORDINAL, l: seq<Entry<S>>)
    requires WellFounded(p, rank)
  {
    forall k :: 0 <= k < |l| ==> Fits(plain, p, rank, l[k])
  }

  lemma LogGrows<S(!new)>(plain: bool, p: Program<S>, rank: S -> ORDINAL, s: S, l: seq<Entry<S>>, n: nat, r: Result<S>)
    requires WellFounded(p, rank) && AllFit(plain, p, rank, l) && AllFit(plain, p, rank, r.log) && |r.log| > 0
    requires EndsAt(p, s, r)
    ensures AllFit(plain, p, rank, r.After(l, n).log) && EndsAt(p, s, r.After(l, n))
  {
    var all := l + r.log;
    forall k | 0 <= k < |all| ensures Fits(plain, p, rank, all[k]) {
      if k >= |l| { assert all[k] == r.log[k - |l|]; } else { assert all[k] == l[k]; }
    }
    assert all[|all| - 1] == r.log[|r.log| - 1];
  }

  /** Every entry of the log of an evaluation fits, and so does its outcome. */
  lemma {:induction false} EvalHonest<S(!new)>(plain: bool, p: Program<S>, rank: S -> ORDINAL, s: S,
                                               ios: seq<Completion>)
    requires WellFounded(p, rank)
    ensures AllFit(plain, p, rank, Eval(plain, p, rank, s, ios).log)
    ensures EndsAt(p, s, Eval(plain, p, rank, s, ios))
    decreases rank(s), 1
  {
    match p.act(s) {
      case Return(_) =>
      case Raise(_) =>
      case YieldValue(v) => ResumedHonest(plain, p, rank, s, Send(v), ios);
      case YieldGenerator(c) =>
        EvalHonest(plain, p, rank, c, ios);
        var r := Eval(plain, p, rank, c, ios);
        if r.Done? {
          var i := Lift(plain, r.out);
          assert Handed(plain, r.out, i);
          ResumedHonest(plain, p, rank, s, i, r.rest);
          LogGrows(plain, p, rank, s, r.log, r.turns + 1, Resume(plain, p, rank, s, i, r.rest));
          assert Eval(plain, p, rank, s, ios) == Resume(plain, p, rank, s, i, r.rest).After(r.log, r.turns + 1);
        } else {
          assert Eval(plain, p, rank, s, ios) == r;
        }
      case Await(cbs) =>
        var d := Deliver(cbs, ios);
        if d.Got? {
          ResumedHonest(plain, p, rank, s, d.input, d.rest);
          assert Eval(plain, p, rank, s, ios) == Resume(plain, p, rank, s, d.input, d.rest);
        }
    }
  }

  lemma {:induction false} ResumedHonest<S(!new)>(plain: bool, p: Program<S>, rank: S -> ORDINAL, s: S, i: Input,
                                                  ios: seq<Completion>)
    requires WellFounded(p, rank) && Yields(p.act(s)) && Fits(plain, p, rank, Entry(s, i))
    ensures AllFit(plain, p, rank, Resume(plain, p, rank, s, i, ios).log)
    ensures EndsAt(p, s, Resume(plain, p, rank, s, i, ios))
    ensures |Resume(plain, p, rank, s, i, ios).log| > 0
    decreases rank(s), 0
  {
    var t := p.resume(s, i);
    var r := Eval(plain, p, rank, t, ios);
    EvalHonest(plain, p, rank, t, ios);
    var all := [Entry(s, i)] + r.log;
    forall k | 0 <= k < |all| ensures Fits(plain, p, rank, all[k]) {
      if k > 0 { assert all[k] == r.log[k - 1]; }
    }
    if |r.log| > 0 { assert all[|all| - 1] == r.log[|r.log| - 1]; }
  }

  // ---------------------------------------------------------------- return values that are throwables

  /** In the plain evaluation of the generator at s, some generator that was yielded returns a throwable. */
  ghost predicate Hands<S(!new)>(p: Program<S>, rank: S -> ORDINAL, s: S, ios: seq<Completion>)
    requires WellFounded(p, rank)
    decreases rank(s), 2
  {
    match p.act(s)
    case Return(_) | Raise(_) => false
    case YieldValue(v) => ResumedHands(p, rank, s, Send(v), ios)
    case YieldGenerator(c) => Hands(p, rank, c, ios) || BoundHands(p, rank, s, Eval(true, p, rank, c, ios))
    case Await(cbs) =>
      var d := Deliver(cbs, ios);
      d.Got? && ResumedHands(p, rank, s, d.input, d.rest)
  }

  ghost predicate ResumedHands<S(!new)>(p: Program<S>, rank: S -> ORDINAL, s: S, i: Input, ios: seq<Completion>)
    requires WellFounded(p, rank) && Yields(p.act(s))
    decreases rank(s), 0
  {
    Hands(p, rank, p.resume(s, i), ios)
  }

  /** s yielded a generator whose plain result is r. */
  ghost predicate BoundHands<S(!new)>(p: Program<S>, rank: S -> ORDINAL, s: S, r: Result<S>)
    requires WellFounded(p, rank) && Yields(p.act(s))
    decreases rank(s), 1
  {
    r.Done? && (HandedOver(r.out) || ResumedHands(p, rank, s, Lift(true, r.out), r.rest))
  }

  predicate HandedOver(out: Outcome) { out.Returned? && out.v.Throwable? }

  /** There is a position at which both logs have an entry, and not the same. */
  ghost predicate Apart<S(!new)>(a: seq<Entry<S>>, b: seq<Entry<S>>) {
    exists k :: 0 <= k < |a| && k < |b| && a[k] != b[k]
  }

  lemma ApartExtends<S(!new)>(pre: seq<Entry<S>>, a: seq<Entry<S>>, b: seq<Entry<S>>, x: seq<Entry<S>>, y: seq<Entry<S>>)
    requires Apart(a, b)
    ensures Apart(pre + (a + x), pre + (b + y)) && Apart(a + x, b + y) && Apart(pre + a, pre + b)
  {
    var k :| 0 <= k < |a| && k < |b| && a[k] != b[k];
    assert (a + x)[k] == a[k] && (b + y)[k] == b[k];
    var j := |pre| + k;
    assert (pre + a)[j] == a[k] && (pre + b)[j] == b[k];
    assert (pre + (a + x))[j] == a[k] && (pre + (b + y))[j] == b[k];
  }

  /** Both evaluations agree, or their logs come apart where a throwable was handed over. */
  lemma {:induction false} HandsDecides<S(!new)>(p: Program<S>, rank: S -> ORDINAL, s: S, ios: seq<Completion>)
    requires WellFounded(p, rank)
    ensures var plain, own := Eval(true, p, rank, s, ios), Eval(false, p, rank, s, ios);
      if Hands(p, rank, s, ios) then Apart(plain.log, own.log) else plain == own
    decreases rank(s), 2
  {
    match p.act(s) {
      case Return(_) =>
      case Raise(_) =>
      case YieldValue(v) => ResumedDecides(p, rank, s, Send(v), ios);
      case YieldGenerator(c) =>
        HandsDecides(p, rank, c, ios);
        BoundDecides(p, rank, s, Eval(true, p, rank, c, ios), Eval(false, p, rank, c, ios));
      case Await(cbs) =>
        var d := Deliver(cbs, ios);
        if d.Got? { ResumedDecides(p, rank, s, d.input, d.rest); }
    }
  }

  lemma {:induction false} ResumedDecides<S(!new)>(p: Program<S>, rank: S -> ORDINAL, s: S, i: Input,
                                                   ios: seq<Completion>)
    requires WellFounded(p, rank) && Yields(p.act(s))
    ensures var plain, own := Resume(true, p, rank, s, i, ios), Resume(false, p, rank, s, i, ios);
      if ResumedHands(p, rank, s, i, ios) then Apart(plain.log, own.log) else plain == own
    decreases rank(s), 0
  {
    var plain, own := Eval(true, p, rank, p.resume(s, i), ios), Eval(false, p, rank, p.resume(s, i), ios);
    HandsDecides(p, rank, p.resume(s, i), ios);
    if ResumedHands(p, rank, s, i, ios) { ApartExtends([Entry(s, i)], plain.log, own.log, [], []); }
  }

  lemma {:induction false} BoundDecides<S(!new)>(p: Program<S>, rank: S -> ORDINAL, s: S,
                                                 plain: Result<S>, own: Result<S>)
    requires WellFounded(p, rank) && Yields(p.act(s))
    requires plain == own || Apart(plain.log, own.log)
    ensures var a, b := Bind(true, p, rank, s, plain), Bind(false, p, rank, s, own);
      if Apart(plain.log, own.log) || BoundHands(p, rank, s, plain) then Apart(a.log, b.log) else a == b
    decreases rank(s), 1
  {
    if plain.Done? && own.Done? {
      var i, j := Lift(true, plain.out), Lift(false, own.out);
      var x, y := Resume(true, p, rank, s, i, plain.rest), Resume(false, p, rank, s, j, own.rest);
      if Apart(plain.log, own.log) {
        ApartExtends([], plain.log, own.log, x.log, y.log);
      } else if HandedOver(plain.out) {
        Starts(x.log, Entry(s, i), y.log, Entry(s, j));
        ApartExtends(plain.log, x.log, y.log, [], []);
      } else {
        ResumedDecides(p, rank, s, i, plain.rest);
        if ResumedHands(p, rank, s, i, plain.rest) { ApartExtends(plain.log, x.log, y.log, [], []); }
      }
    } else if Apart(plain.log, own.log) {
      var x := if plain.Done? then Resume(true, p, rank, s, Lift(true, plain.out), plain.rest).log else [];
      var y := if own.Done? then Resume(false, p, rank, s, Lift(false, own.out), own.rest).log else [];
      ApartExtends([], plain.log, own.log, x, y);
      assert plain.log + [] == plain.log && own.log + [] == own.log;
    }
  }

  lemma Starts<S(!new)>(a: seq<Entry<S>>, x: Entry<S>, b: seq<Entry<S>>, y: Entry<S>)
    requires |a| > 0 && |b| > 0 && a[0] == x && b[0] == y && x != y
    ensures Apart(a, b)
  {
  }

  /** The coroutine agrees with plain `yield from` exactly if no generator that was yielded returns a
      throwable; what the outermost one returns does not matter. */
  lemma PlainYieldFromExact<S(!new)>(p: Program<S>, rank: S -> ORDINAL, s: S, ios: seq<Completion>)
    requires WellFounded(p, rank)
    ensures Eval(true, p, rank, s, ios) == Eval(false, p, rank, s, ios) <==> !Hands(p, rank, s, ios)
  {
    HandsDecides(p, rank, s, ios);
  }

  // ---------------------------------------------------------------- two families of programs

  /** No generator of the program returns a throwable. */
  ghost predicate ReturnsPlainly<S(!new)>(p: Program<S>) {
    forall s {:trigger p.act(s)} :: p.act(s).Return? ==> !p.act(s).v.Throwable?
  }

  lemma {:induction false} NothingHanded<S(!new)>(p: Program<S>, rank: S -> ORDINAL, s: S, ios: seq<Completion>)
    requires WellFounded(p, rank) && ReturnsPlainly(p)
    ensures !Hands(p, rank, s, ios)
    ensures var r := Eval(true, p, rank, s, ios); r.Done? ==> !HandedOver(r.out)
    decreases rank(s), 1
  {
    match p.act(s) {
      case Return(_) =>
      case Raise(_) =>
      case YieldValue(v) => NothingHandedResumed(p, rank, s, Send(v), ios);
      case YieldGenerator(c) =>
        NothingHanded(p, rank, c, ios);
        var r := Eval(true, p, rank, c, ios);
        if r.Done? { NothingHandedResumed(p, rank, s, Lift(true, r.out), r.rest); }
      case Await(cbs) =>
        var d := Deliver(cbs, ios);
        if d.Got? { NothingHandedResumed(p, rank, s, d.input, d.rest); }
    }
  }

  lemma {:induction false} NothingHandedResumed<S(!new)>(p: Program<S>, rank: S -> ORDINAL, s: S, i: Input,
                                                         ios: seq<Completion>)
    requires WellFounded(p, rank) && ReturnsPlainly(p) && Yields(p.act(s))
    ensures !ResumedHands(p, rank, s, i, ios)
    ensures var r := Resume(true, p, rank, s, i, ios); r.Done? ==> !HandedOver(r.out)
    decreases rank(s), 0
  {
    NothingHanded(p, rank, p.resume(s, i), ios);
  }

  /** If no generator returns a throwable, the library's evaluation is plain `yield from`. */
  lemma PlainAgrees<S(!new)>(p: Program<S>, rank: S -> ORDINAL, s: S, ios: seq<Completion>)
    requires WellFounded(p, rank) && ReturnsPlainly(p)
    ensures Eval(true, p, rank, s, ios) == Eval(false, p, rank, s, ios)
  {
    NothingHanded(p, rank, s, ios);
    PlainYieldFromExact(p, rank, s, ios);
  }

  /** A generator that yields one which returns v, and ends normally or by the exception it gets. */
  function Probe(v: Value): Program<int> {
    Program(
      s =>
        if s == 0 then YieldGenerator(1) else if s == 1 then Return(v) else if s < 3 then Return(Null) else Raise(s - 3),
      (s: int, i: Input) => match i case Send(_) => 2 case ThrowIn(e) => e + 3)
  }

  ghost function Ordinals(f: int -> nat): int -> ORDINAL { (s: int) => f(s) as ORDINAL }

  function ProbeRank(s: int): nat { if s == 0 then 1 else 0 }

  lemma ProbeWellFounded(v: Value)
    requires v.Throwable?
    ensures WellFounded(Probe(v), Ordinals(ProbeRank))
  {
    var p := Probe(v);
    forall s, i | Yields(p.act(s)) ensures Ordinals(ProbeRank)(p.resume(s, i)) < Ordinals(ProbeRank)(s) {
      assert ProbeRank(s) == 1 && ProbeRank(p.resume(s, i)) == 0;
    }
    forall s | p.act(s).YieldGenerator? ensures Ordinals(ProbeRank)(p.act(s).child) < Ordinals(ProbeRank)(s) {
      assert s == 0 && p.act(s).child == 1;
      assert ProbeRank(p.act(s).child) == 0 && ProbeRank(s) == 1;
    }
  }

  lemma ProbeOutcome(plain: bool, v: Value)
    requires v.Throwable? && WellFounded(Probe(v), Ordinals(ProbeRank))
    ensures var r := Eval(plain, Probe(v), Ordinals(ProbeRank), 0, []);
      r.Done? && r.out == if plain then Returned(Null) else Raised(v.exn)
  {
    var p := Probe(v);
    assert Eval(plain, p, Ordinals(ProbeRank), 1, []) == Done(Returned(v), [], [], 0);
    var i := Lift(plain, Returned(v));
    assert p.resume(0, i) == if plain then 2 else v.exn + 3;
    assert Resume(plain, p, Ordinals(ProbeRank), 0, i, []).out == if plain then Returned(Null) else Raised(v.exn);
  }

  /** A throwable that a nested generator returns is thrown in the outer one. */
  lemma ThrowableReturnThrows(v: Value) returns (p: Program<int>, f: int -> nat, s: int, ios: seq<Completion>)
    requires v.Throwable?
    ensures WellFounded(p, Ordinals(f))
    ensures Eval(true, p, Ordinals(f), s, ios) != Eval(false, p, Ordinals(f), s, ios)
  {
    p, f, s, ios := Probe(v), ProbeRank, 0, [];
    ProbeWellFounded(v);
    ProbeOutcome(true, v);
    ProbeOutcome(false, v);
  }
}

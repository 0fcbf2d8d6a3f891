/** `cursor::to_array`: one request goes back and forth through the work queue, fetching one document
    per trip, in any interleaving with other traffic on the same worker.

    The worker half advances the cursor, the master half turns the current document into a row and
    submits the same request again.  A document that the cursor returned is only valid until the
    cursor advances, so `doc` records which document the request points at.
  */
module CursorFetch {
  import opened WorkQueue

  /** A document of the cursor; its contents do not matter here. */
  type Doc = int

  /** Where the live trip of the request is. */
  datatype Where = Absent | InQueueW | InWork | InRan | InQueueM | InCall | Finished | Aborted

  datatype Fetch = Fetch(
    q: State,
    at: Where,
    idx: int,                    // ctx->idx
    doc: int,                    // ctx->doc: which document of the cursor it points at
    pos: nat,                    // documents the cursor has returned so far
    rv: seq<(int, Doc)>,         // ctx->rv, a PHP array in insertion order
    seen: seq<int>,              // ctx->idx on each entry of to_array_cb
    resumed: seq<seq<(int, Doc)>>)  // what the coroutine was resumed with

  datatype FetchEvent =
    | Queue(e: Event)            // any step of the work queue that is not one of the two below
    | Start                      // the coroutine calls to_array
    | Callback                   // the body of to_array_cb for this request

  /** Assignment to a PHP array element: overwrite in place, or append a new key. */
  function Put(a: seq<(int, Doc)>, k: int, v: Doc): (r: seq<(int, Doc)>)
    ensures |r| >= |a|
    ensures (forall i :: 0 <= i < |a| ==> a[i].0 != k) ==> r == a + [(k, v)]
    ensures (exists i :: 0 <= i < |a| && a[i].0 == k) ==> |r| == |a| && (k, v) in r
    ensures forall i :: 0 <= i < |a| && a[i].0 != k ==> a[i] == r[i]
  {
    if a == [] then [(k, v)]
    else if a[0].0 == k then [(k, v)] + a[1..]
    else assert a == [a[0]] + a[1..]; [a[0]] + Put(a[1..], k, v)
  }

  /** What the sequential loop `for (i = 0; next(cursor, &doc); ++i) rv[i] = row(doc)` has built after
      n documents. */
  function Rows(docs: seq<Doc>, n: nat): (r: seq<(int, Doc)>)
    requires n <= |docs|
  {
    seq(n, i requires 0 <= i < n => (i, docs[i]))
  }

  /** The entries of to_array_cb for n fetched documents: -2, 0, ..., n - 1. */
  function Entries(n: nat): seq<int> { [-2] + seq(n, i => i) }

  ghost predicate InitFetch(s: Fetch) {
    s.q == Init && s.at == Absent && s.idx == -2 && s.pos == 0 && s.rv == [] && s.seen == [] && s.resumed == []
  }

  predicate Allowed(s: Fetch, r: Req, e: FetchEvent) {
    match e
    case Queue(qe) =>
      && Enabled(s.q, qe)
      && qe != Submit(r) && qe != Close(false)
      && !(qe == FinishM && s.q.mpc == MCall(r) && s.at == InCall)
    case Start => s.at == Absent && MayCall(s.q)
    case Callback => s.at == InCall && s.q.mpc == MCall(r) && s.q.op == NoOp
  }

  /** to_array_wk on the worker. */
  function FetchNext(s: Fetch, docs: seq<Doc>): Fetch {
    if s.pos < |docs| then s.(idx := s.idx + 1, doc := s.pos, pos := s.pos + 1) else s.(idx := -1)
  }

  /** queue_work for this request: it throws once the queue is closed. */
  function Resubmit(s: Fetch, r: Req): Fetch
    requires MayCall(s.q)
  {
    if s.q.closed then s.(at := Aborted) else s.(q := Apply(s.q, Submit(r)), at := InQueueW)
  }

  /** How a step of the queue moves the request along. */
  function Move(s: Fetch, r: Req, docs: seq<Doc>, e: Event): Fetch
    requires Enabled(s.q, e)
  {
    var t := s.(q := Apply(s.q, e));
    match e
    case PopW => if s.q.qw[0] == Work(r) then t.(at := InWork) else t
    case FinishW => if s.q.wpc == WRun(r) then FetchNext(t.(at := InRan), docs) else t
    case PushM => if s.q.wpc == WRan(r) then t.(at := InQueueM) else t
    case PopM => if s.q.qm[0] == Work(r) then t.(at := InCall) else t
    case _ => t
  }

  /** to_array_cb on the master: what it does to the request; unless it resumes the coroutine, it submits
      the request again. */
  function Handle(s: Fetch, docs: seq<Doc>): Fetch
    requires s.idx >= 0 ==> 0 <= s.doc < |docs|
  {
    var t := s.(seen := s.seen + [s.idx]);
    if s.idx == -2 then t.(idx := -1)
    else if s.idx == -1 then t.(resumed := s.resumed + [s.rv], at := Finished)
    else if s.idx >= 0 then t.(rv := Put(s.rv, s.idx, docs[s.doc]))
    else t
  }

  function Do(s: Fetch, r: Req, docs: seq<Doc>, e: FetchEvent): Fetch
    requires Allowed(s, r, e)
    requires !e.Queue? && s.idx >= 0 ==> 0 <= s.doc < |docs|
  {
    match e
    case Queue(qe) => Move(s, r, docs, qe)
    case Start | Callback =>
      var t := Handle(s, docs);
      if s.idx == -2 || s.idx >= 0 then Resubmit(t, r) else t
  }

  // ---------------------------------------------------------------- invariant

  /** How often the request is in q. */
  function Count(q: seq<Item>, r: Req): nat {
    if |q| == 0 then 0 else (if q[0] == Work(r) then 1 else 0) + Count(q[1..], r)
  }

  /** The request is in exactly the place that `at` says, and nowhere else. */
  predicate Placed(s: Fetch, r: Req) {
    && Count(s.q.qw, r) == (if s.at == InQueueW then 1 else 0)
    && Count(s.q.qm, r) == (if s.at == InQueueM then 1 else 0)
    && (s.q.wpc == WRun(r) <==> s.at == InWork)
    && (s.q.wpc == WRan(r) <==> s.at == InRan)
    && (s.at == InCall ==> s.q.mpc == MCall(r))
    && (s.at == Absent ==> s.q.mpc != MCall(r))
    && (s.at == Aborted ==> s.q.closed)
  }

  /** What the request carries, by where it is. */
  predicate Carries(s: Fetch, docs: seq<Doc>) {
    && s.pos <= |docs|
    && match s.at
       case Absent => s.idx == -2 && s.pos == 0 && s.rv == [] && s.seen == [] && s.resumed == []
       case InQueueW | InWork =>
         s.idx == s.pos - 1 && s.rv == Rows(docs, s.pos) && s.seen == Entries(s.pos) && s.resumed == []
       case InRan | InQueueM | InCall =>
         && s.resumed == []
         && (if s.idx == -1 then s.pos == |docs| && s.rv == Rows(docs, |docs|) && s.seen == Entries(|docs|)
             else s.pos > 0 && s.idx == s.doc == s.pos - 1
                  && s.rv == Rows(docs, s.pos - 1) && s.seen == Entries(s.pos - 1))
       case Finished => s.resumed == [Rows(docs, |docs|)] && s.seen == Entries(|docs|) + [-1]
       case Aborted => s.resumed == []
  }

  predicate FetchInv(s: Fetch, r: Req, docs: seq<Doc>) { Inv(s.q) && Placed(s, r) && Carries(s, docs) }

  lemma {:induction false} CountSnoc(q: seq<Item>, x: Item, r: Req)
    ensures Count(q + [x], r) == Count(q, r) + (if x == Work(r) then 1 else 0)
  {
    if q == [] {
      assert q + [x] == [x];
    } else {
      CountSnoc(q[1..], x, r);
      assert (q + [x])[1..] == q[1..] + [x];
    }
  }

  lemma PlacedPopMine(s: Fetch, r: Req, docs: seq<Doc>, e: Event)
    requires Placed(s, r) && Enabled(s.q, e)
    requires (e == PopW && s.q.qw[0] == Work(r)) || (e == PopM && s.q.qm[0] == Work(r))
    ensures Placed(Move(s, r, docs, e), r)
  {
  }

  lemma PlacedPopOtherW(s: Fetch, r: Req, docs: seq<Doc>)
    requires Placed(s, r) && Enabled(s.q, PopW) && s.q.qw[0] != Work(r)
    ensures Placed(Move(s, r, docs, PopW), r)
  {
  }

  lemma PlacedPopOtherM(s: Fetch, r: Req, docs: seq<Doc>)
    requires Placed(s, r) && Allowed(s, r, Queue(PopM)) && s.q.qm[0] != Work(r)
    ensures Placed(Move(s, r, docs, PopM), r)
  {
  }

  lemma PlacedSubmit(s: Fetch, r: Req, docs: seq<Doc>, x: Req)
    requires Placed(s, r) && Allowed(s, r, Queue(Submit(x)))
    ensures Placed(Move(s, r, docs, Submit(x)), r)
  {
    CountSnoc(s.q.qw, Work(x), r);
  }

  lemma PlacedClose(s: Fetch, r: Req, docs: seq<Doc>)
    requires Placed(s, r) && Allowed(s, r, Queue(Close(true)))
    ensures Placed(Move(s, r, docs, Close(true)), r)
  {
    CountSnoc(s.q.qw, Exit, r);
  }

  lemma PlacedPushM(s: Fetch, r: Req, docs: seq<Doc>)
    requires Placed(s, r) && Allowed(s, r, Queue(PushM))
    ensures Placed(Move(s, r, docs, PushM), r)
  {
    CountSnoc(s.q.qm, Work(s.q.wpc.req), r);
  }

  lemma PlacedPushExit(s: Fetch, r: Req, docs: seq<Doc>)
    requires Placed(s, r) && Allowed(s, r, Queue(PushExit))
    ensures Placed(Move(s, r, docs, PushExit), r)
  {
    CountSnoc(s.q.qm, Exit, r);
  }

  lemma PlacedFinishW(s: Fetch, r: Req, docs: seq<Doc>)
    requires Placed(s, r) && Allowed(s, r, Queue(FinishW))
    ensures Placed(Move(s, r, docs, FinishW), r)
  {
  }

  lemma PlacedFinishM(s: Fetch, r: Req, docs: seq<Doc>)
    requires Placed(s, r) && Allowed(s, r, Queue(FinishM))
    ensures Placed(Move(s, r, docs, FinishM), r)
  {
  }

  /** Sections that neither move a request nor have one in hand. */
  lemma PlacedQuietW(s: Fetch, r: Req, docs: seq<Doc>, e: Event)
    requires Placed(s, r) && Allowed(s, r, Queue(e))
    requires e.WakeW? || e.SendM? || e.EmptyW? || e.CloseW? || e.SendExit?
    ensures Placed(Move(s, r, docs, e), r)
  {
  }

  lemma PlacedQuietM(s: Fetch, r: Req, docs: seq<Doc>, e: Event)
    requires Placed(s, r) && Allowed(s, r, Queue(e))
    requires e.WakeM? || e.EmptyM? || e.CloseM? || e.SendOp? || e.JoinReturn?
    ensures Placed(Move(s, r, docs, e), r)
  {
  }

  lemma {:induction false} PlacedMove(s: Fetch, r: Req, docs: seq<Doc>, e: Event)
    requires Placed(s, r) && Allowed(s, r, Queue(e))
    ensures Placed(Move(s, r, docs, e), r)
  {
    match e {
      case PopW => if s.q.qw[0] == Work(r) { PlacedPopMine(s, r, docs, e); } else { PlacedPopOtherW(s, r, docs); }
      case PopM => if s.q.qm[0] == Work(r) { PlacedPopMine(s, r, docs, e); } else { PlacedPopOtherM(s, r, docs); }
      case Submit(x) => PlacedSubmit(s, r, docs, x);
      case Close(_) => PlacedClose(s, r, docs);
      case PushM => PlacedPushM(s, r, docs);
      case PushExit => PlacedPushExit(s, r, docs);
      case FinishW => PlacedFinishW(s, r, docs);
      case FinishM => PlacedFinishM(s, r, docs);
      case WakeW | SendM | EmptyW | CloseW | SendExit => PlacedQuietW(s, r, docs, e);
      case WakeM | EmptyM | CloseM | SendOp | JoinReturn => PlacedQuietM(s, r, docs, e);
    }
  }

  lemma {:induction false} CarriesMove(s: Fetch, r: Req, docs: seq<Doc>, e: Event)
    requires Placed(s, r) && Carries(s, docs) && Allowed(s, r, Queue(e))
    ensures Carries(Move(s, r, docs, e), docs)
  {
  }

  lemma RowsSnoc(docs: seq<Doc>, n: nat)
    requires n < |docs|
    ensures Put(Rows(docs, n), n, docs[n]) == Rows(docs, n + 1)
    ensures Entries(n) + [n] == Entries(n + 1)
  {
    assert Rows(docs, n) + [(n, docs[n])] == Rows(docs, n + 1);
  }

  lemma HandleKeeps(s: Fetch, r: Req, docs: seq<Doc>)
    requires FetchInv(s, r, docs) && MayCall(s.q) && (s.at == Absent || s.at == InCall)
    ensures s.idx >= 0 ==> 0 <= s.doc < |docs|
    ensures FetchInv(if s.idx == -2 || s.idx >= 0 then Resubmit(Handle(s, docs), r) else Handle(s, docs), r, docs)
  {
    if !s.q.closed { InvStep(s.q, Submit(r)); CountSnoc(s.q.qw, Work(r), r); }
    if s.idx >= 0 { RowsSnoc(docs, s.doc); }
  }

  lemma {:induction false} FetchInvStep(s: Fetch, r: Req, docs: seq<Doc>, e: FetchEvent)
    requires FetchInv(s, r, docs) && Allowed(s, r, e)
    ensures !e.Queue? && s.idx >= 0 ==> 0 <= s.doc < |docs|
    ensures FetchInv(Do(s, r, docs, e), r, docs)
  {
    match e {
      case Queue(qe) =>
        InvStep(s.q, qe);
        PlacedMove(s, r, docs, qe);
        CarriesMove(s, r, docs, qe);
      case Start => HandleKeeps(s, r, docs);
      case Callback => HandleKeeps(s, r, docs);
    }
  }

  // ---------------------------------------------------------------- every run

  ghost predicate FetchRun(s: Fetch, r: Req, docs: seq<Doc>, es: seq<FetchEvent>, t: Fetch)
    decreases |es|
  {
    if es == [] then s == t
    else
      && Allowed(s, r, es[0])
      && (!es[0].Queue? && s.idx >= 0 ==> 0 <= s.doc < |docs|)
      && FetchRun(Do(s, r, docs, es[0]), r, docs, es[1..], t)
  }

  ghost predicate FetchReachable(s: Fetch, r: Req, docs: seq<Doc>) {
    exists i, es :: InitFetch(i) && FetchRun(i, r, docs, es, s)
  }

  lemma {:induction false} FetchInvRun(s: Fetch, r: Req, docs: seq<Doc>, es: seq<FetchEvent>, t: Fetch)
    requires FetchInv(s, r, docs) && FetchRun(s, r, docs, es, t)
    ensures FetchInv(t, r, docs)
    decreases |es|
  {
    if es != [] {
      FetchInvStep(s, r, docs, es[0]);
      FetchInvRun(Do(s, r, docs, es[0]), r, docs, es[1..], t);
    }
  }

  lemma FetchReachableInv(s: Fetch, r: Req, docs: seq<Doc>)
    requires FetchReachable(s, r, docs)
    ensures FetchInv(s, r, docs)
  {
    var i, es :| InitFetch(i) && FetchRun(i, r, docs, es, s);
    assert Rows(docs, 0) == [];
    FetchInvRun(i, r, docs, es, s);
  }

  /** The coroutine is resumed at most once, and then with all rows in order, after the entries
      -2, 0, ..., n - 1, -1; whatever else goes through the same worker. */
  lemma ResumedOnceWithAllRows(s: Fetch, r: Req, docs: seq<Doc>)
    requires FetchReachable(s, r, docs)
    ensures s.resumed == [] || s.resumed == [Rows(docs, |docs|)]
    ensures s.resumed != [] <==> s.at == Finished
    ensures s.at == Finished ==> s.seen == Entries(|docs|) + [-1]
  {
    FetchReachableInv(s, r, docs);
  }

  /** When the master reads the document, the worker has not advanced the cursor past it. */
  lemma DocumentStillCurrent(s: Fetch, r: Req, docs: seq<Doc>)
    requires FetchReachable(s, r, docs) && Allowed(s, r, Callback) && s.idx >= 0
    ensures s.doc == s.pos - 1 && 0 <= s.doc < |docs| && s.idx == s.doc
  {
    FetchReachableInv(s, r, docs);
  }

  // ---------------------------------------------------------------- progress

  predicate FetchSystem(e: FetchEvent) { e.Queue? ==> System(e.e) }

  /** Trips that the fetch still needs, including the one under way. */
  function Trips(s: Fetch, docs: seq<Doc>): int {
    match s.at
    case Absent => |docs| + 2
    case InQueueW | InWork => |docs| - s.pos + 1
    case InRan | InQueueM | InCall => if s.idx == -1 then 1 else |docs| - s.pos + 2
    case Finished | Aborted => 0
  }

  /** Remaining documents are a termination measure of the whole exchange, resubmissions included. */
  function FetchMeasure(s: Fetch, docs: seq<Doc>): int { 14 * Trips(s, docs) + Measure(s.q) }

  lemma TripsMove(s: Fetch, r: Req, docs: seq<Doc>, e: Event)
    requires Placed(s, r) && Carries(s, docs) && Allowed(s, r, Queue(e))
    requires Placed(Move(s, r, docs, e), r)
    ensures Trips(Move(s, r, docs, e), docs) == Trips(s, docs)
  {
  }

  /** A further trip costs less than the document that it is for. */
  lemma HandleMeasure(s: Fetch, r: Req, docs: seq<Doc>)
    requires FetchInv(s, r, docs) && MayCall(s.q) && (s.at == Absent || s.at == InCall)
    requires s.idx >= 0 ==> 0 <= s.doc < |docs|
    ensures var t := Handle(s, docs);
      FetchMeasure(if s.idx == -2 || s.idx >= 0 then Resubmit(t, r) else t, docs) < FetchMeasure(s, docs)
  {
    if !s.q.closed { assert |Apply(s.q, Submit(r)).qw| == |s.q.qw| + 1; }
  }

  lemma {:induction false} FetchMeasureStep(s: Fetch, r: Req, docs: seq<Doc>, e: FetchEvent)
    requires FetchInv(s, r, docs) && FetchSystem(e) && Allowed(s, r, e)
    requires !e.Queue? && s.idx >= 0 ==> 0 <= s.doc < |docs|
    ensures 0 <= FetchMeasure(Do(s, r, docs, e), docs) < FetchMeasure(s, docs)
    ensures Do(s, r, docs, e).q.closed == s.q.closed && (s.at != Absent ==> Do(s, r, docs, e).at != Absent)
  {
    FetchInvStep(s, r, docs, e);
    if e.Queue? {
      PlacedMove(s, r, docs, e.e);
      TripsMove(s, r, docs, e.e);
      MeasureStep(s.q, e.e);
    } else {
      HandleMeasure(s, r, docs);
    }
  }

  predicate FetchSystemOnly(es: seq<FetchEvent>) { forall i :: 0 <= i < |es| ==> FetchSystem(es[i]) }

  /** Without new calls the exchange, and all traffic beside it, takes at most FetchMeasure(s) steps. */
  lemma {:induction false} FetchRunBound(s: Fetch, r: Req, docs: seq<Doc>, es: seq<FetchEvent>, t: Fetch)
    requires FetchInv(s, r, docs) && FetchSystemOnly(es) && FetchRun(s, r, docs, es, t)
    ensures FetchInv(t, r, docs) && t.q.closed == s.q.closed
    ensures |es| + FetchMeasure(t, docs) <= FetchMeasure(s, docs)
    decreases |es|
  {
    if es != [] {
      FetchInvStep(s, r, docs, es[0]);
      FetchMeasureStep(s, r, docs, es[0]);
      FetchRunBound(Do(s, r, docs, es[0]), r, docs, es[1..], t);
    }
  }

  /** While a fetch is under way, something can be done. */
  lemma FetchSomeEnabled(s: Fetch, r: Req, docs: seq<Doc>) returns (e: FetchEvent)
    requires FetchInv(s, r, docs) && !Settled(s.q)
    ensures FetchSystem(e) && Allowed(s, r, e) && !e.Start?
  {
    var qe := SomeEnabled(s.q);
    e := if qe == FinishM && s.q.mpc == MCall(r) && s.at == InCall then Callback else Queue(qe);
  }

  lemma FetchAtRest(s: Fetch, r: Req, docs: seq<Doc>)
    requires FetchInv(s, r, docs) && Settled(s.q) && s.at != Absent
    ensures s.resumed == [Rows(docs, |docs|)] || (s.at == Aborted && s.q.closed)
  {
  }

  /** Unless close_work came in between, a fetch that was started and has come to rest has resumed the
      coroutine with exactly the rows of the sequential loop. */
  lemma FetchCompletes(s: Fetch, r: Req, docs: seq<Doc>)
    requires FetchReachable(s, r, docs) && s.at != Absent
    requires forall e {:trigger Allowed(s, r, e)} :: FetchSystem(e) ==> !Allowed(s, r, e)
    ensures s.resumed == [Rows(docs, |docs|)] || (s.at == Aborted && s.q.closed)
  {
    FetchReachableInv(s, r, docs);
    if !Settled(s.q) { var e := FetchSomeEnabled(s, r, docs); }
    FetchAtRest(s, r, docs);
  }

  /** A fetch that was started can always come to that rest. */
  lemma {:induction false} FetchCanFinish(s: Fetch, r: Req, docs: seq<Doc>) returns (es: seq<FetchEvent>, t: Fetch)
    requires FetchInv(s, r, docs) && s.at != Absent
    ensures FetchSystemOnly(es) && FetchRun(s, r, docs, es, t)
    ensures t.resumed == [Rows(docs, |docs|)] || (t.at == Aborted && s.q.closed)
    decreases FetchMeasure(s, docs)
  {
    if Settled(s.q) {
      FetchAtRest(s, r, docs);
      return [], s;
    }
    var e := FetchSomeEnabled(s, r, docs);
    FetchInvStep(s, r, docs, e);
    FetchMeasureStep(s, r, docs, e);
    var rest;
    rest, t := FetchCanFinish(Do(s, r, docs, e), r, docs);
    es := [e] + rest;
    assert es[1..] == rest;
  }

  // ---------------------------------------------------------------- the request object

  /** cursor_request_t, together with the cursor that it advances. */
  class Request {
    const docs: seq<Doc>
    var pos: nat
    var idx: int
    var doc: int
    var rv: seq<(int, Doc)>
    var seen: seq<int>
    var resumed: seq<seq<(int, Doc)>>

    /** As it is in the state s of the exchange. */
    predicate In(s: Fetch)
      reads this
    {
      s.pos == pos && s.idx == idx && s.doc == doc && s.rv == rv && s.seen == seen && s.resumed == resumed
    }

    constructor (docs: seq<Doc>)
      ensures this.docs == docs && pos == 0 && idx == -2 && rv == [] && seen == [] && resumed == []
    {
      this.docs, pos, idx, doc, rv, seen, resumed := docs, 0, -2, 0, [], [], [];
    }

    method ToArrayWk(ghost s: Fetch)
      requires In(s)
      modifies this
      ensures In(FetchNext(s, docs))
    {
      if pos < |docs| {
        idx := idx + 1;
        doc, pos := pos, pos + 1;
      } else {
        idx := -1;
      }
    }

    method ToArrayCb(ghost s: Fetch) returns (again: bool)
      requires In(s) && (idx >= 0 ==> 0 <= doc < |docs|)
      modifies this
      ensures In(Handle(s, docs)) && again == (s.idx == -2 || s.idx >= 0)
    {
      seen := seen + [idx];
      again := true;
      if idx == -2 {
        idx := -1;
      } else if idx == -1 {
        resumed := resumed + [rv];
        again := false;
      } else if idx >= 0 {
        rv := Put(rv, idx, docs[doc]);
      } else {
        again := false;
      }
    }
  }

  /** The sequential loop that the exchange amounts to. */
  method FetchAll(docs: seq<Doc>) returns (rv: seq<(int, Doc)>)
    ensures rv == Rows(docs, |docs|)
  {
    rv := [];
    for i := 0 to |docs|
      invariant rv == Rows(docs, i)
    {
      RowsSnoc(docs, i);
      rv := Put(rv, i, docs[i]);
    }
  }
}

/** The life of a server connection: reference-counted by its responses, closed by the peer or by the
    last response. */
module Connections {

  /** close() is virtual: the base class closes at the last release, HTTP and FastCGI only if the
      connection is not to be kept. */
  datatype Kind = Base | Keeping

  /** The calls into libuv that matter, in order. */
  datatype Call = ReadStop | UvClose | UvWrite

  datatype State = State(
    refer: int,            // refer_
    isClosing: bool,       // is_closing
    reading: bool,         // read callbacks still come
    keep: bool,            // what the parser says about keeping the connection
    calls: seq<Call>)

  const Opened := State(0, false, true, false, [])

  datatype Event =
    | Data(responses: nat, keep: bool, ok: bool)   // read_cb: parse creates responses, and succeeds or not
    | EndOfFile                                    // read_cb with UV_EOF or an error
    | Release                                      // a response is destroyed, between read callbacks
    | Write                                        // a response writes

  predicate Enabled(s: State, e: Event) {
    match e
    case Data(_, _, _) | EndOfFile => s.reading
    case Release | Write => s.refer > 0
  }

  /** close_ex() */
  function ClosedEx(s: State): State {
    s.(reading := false, isClosing := true, calls := s.calls + [ReadStop] + if s.refer == 0 then [UvClose] else [])
  }

  function Apply(kind: Kind, s: State, e: Event): State
    requires Enabled(s, e)
  {
    match e
    case Data(n, keep, ok) =>
      var t := s.(refer := s.refer + n, keep := keep);
      if ok then t else ClosedEx(t)
    case EndOfFile => ClosedEx(s)
    case Release =>
      var t := s.(refer := s.refer - 1);
      if t.refer == 0 && (kind == Base || !s.keep) then ClosedEx(t) else t
    case Write => if s.isClosing then s else s.(calls := s.calls + [UvWrite])
  }

  // ---------------------------------------------------------------- every run

  predicate Run(kind: Kind, s: State, es: seq<Event>, t: State)
    decreases |es|
  {
    if |es| == 0 then s == t else Enabled(s, es[0]) && Run(kind, Apply(kind, s, es[0]), es[1..], t)
  }

  /** uv_close comes last and once, and nothing is written after reading was stopped. */
  predicate Orderly(calls: seq<Call>) {
    && (forall i :: 0 <= i < |calls| - 1 ==> calls[i] != UvClose)
    && (forall i, j :: 0 <= i < j < |calls| && calls[i] == ReadStop ==> calls[j] != UvWrite)
  }

  predicate Closed(s: State) { UvClose in s.calls }

  predicate Inv(s: State) {
    && Orderly(s.calls) && s.refer >= 0
    && (s.isClosing <==> ReadStop in s.calls)
    && (s.isClosing ==> !s.reading)
    && (Closed(s) ==> s.isClosing && s.refer == 0)
    && (s.isClosing && !Closed(s) ==> s.refer > 0 || s.keep)
  }

  lemma OrderlySnoc(calls: seq<Call>, c: Call)
    requires Orderly(calls) && UvClose !in calls
    requires c == UvWrite ==> ReadStop !in calls
    ensures Orderly(calls + [c])
  {
    forall i, j | 0 <= i < j < |calls| + 1 && (calls + [c])[i] == ReadStop ensures (calls + [c])[j] != UvWrite {
      assert calls[i] in calls;
    }
  }

  lemma CloseExKeeps(s: State)
    requires Orderly(s.calls) && s.refer >= 0 && !Closed(s)
    ensures Inv(ClosedEx(s)) && (Closed(ClosedEx(s)) <==> s.refer == 0)
  {
    OrderlySnoc(s.calls, ReadStop);
    if s.refer == 0 { OrderlySnoc(s.calls + [ReadStop], UvClose); }
    assert ClosedEx(s).calls[|s.calls|] == ReadStop;
  }

  lemma {:induction false} InvStep(kind: Kind, s: State, e: Event)
    requires Inv(s) && Enabled(s, e)
    ensures Inv(Apply(kind, s, e))
  {
    match e {
      case Data(n, keep, ok) => if !ok { CloseExKeeps(s.(refer := s.refer + n, keep := keep)); }
      case EndOfFile => CloseExKeeps(s);
      case Release => if s.refer == 1 && (kind == Base || !s.keep) { CloseExKeeps(s.(refer := 0)); }
      case Write => if !s.isClosing { OrderlySnoc(s.calls, UvWrite); }
    }
  }

  /** Over every interleaving of read callbacks, writes and released responses: uv_close is issued at most
      once, with no response left, and is the last thing that happens; no write follows uv_read_stop.
      A connection that is closing and not closed still has a response or is kept alive. */
  lemma {:induction false} RunKeeps(kind: Kind, s: State, es: seq<Event>, t: State)
    requires Inv(s) && Run(kind, s, es, t)
    ensures Inv(t)
    ensures Closed(t) ==> t.refer == 0 && forall e {:trigger Enabled(t, e)} :: !Enabled(t, e)
    decreases |es|
  {
    if |es| != 0 {
      InvStep(kind, s, es[0]);
      RunKeeps(kind, Apply(kind, s, es[0]), es[1..], t);
    }
  }

  /** Once a connection is closing, the run that releases its last response closes the socket exactly if
      the connection is not kept alive, whatever is written on the way; a kept one stays open for good, as
      nothing can happen to it any more. */
  lemma {:induction false} LastReleaseExact(kind: Kind, s: State, es: seq<Event>, t: State)
    requires Inv(s) && s.isClosing && s.refer > 0 && Run(kind, s, es, t) && t.refer == 0
    ensures Closed(t) <==> kind == Base || !s.keep
    ensures forall e {:trigger Enabled(t, e)} :: !Enabled(t, e)
    decreases |es|
  {
    var u := Apply(kind, s, es[0]);
    InvStep(kind, s, es[0]);
    if u.refer > 0 {
      LastReleaseExact(kind, u, es[1..], t);
    } else if kind == Base || !s.keep {
      CloseExKeeps(s.(refer := 0));
      NothingMore(kind, u, es[1..], t);
    } else {
      NothingMore(kind, u, es[1..], t);
    }
  }

  lemma NothingMore(kind: Kind, s: State, es: seq<Event>, t: State)
    requires s.refer == 0 && !s.reading && Run(kind, s, es, t)
    ensures t == s
  {
  }

  // ---------------------------------------------------------------- what decides a run

  function Created(es: seq<Event>): nat {
    if |es| == 0 then 0 else (match es[0] case Data(n, _, _) => n case _ => 0) + Created(es[1..])
  }

  function Released(es: seq<Event>): nat {
    if |es| == 0 then 0 else (if es[0].Release? then 1 else 0) + Released(es[1..])
  }

  /** What the parser said last. */
  function LastKeep(keep: bool, es: seq<Event>): bool
    decreases |es|
  {
    if |es| == 0 then keep
    else LastKeep(match es[0] case Data(_, k, _) => k case _ => keep, es[1..])
  }

  /** refer_ counts the responses that are alive, and the parser's last word is kept. */
  lemma {:induction false} RefersTo(kind: Kind, s: State, es: seq<Event>, t: State)
    requires Run(kind, s, es, t)
    ensures t.refer == s.refer + Created(es) - Released(es)
    ensures t.keep == LastKeep(s.keep, es)
    decreases |es|
  {
    if |es| != 0 { RefersTo(kind, Apply(kind, s, es[0]), es[1..], t); }
  }

  /** The last response is released and the connection is not to be kept. */
  predicate LetsGo(kind: Kind, s: State, e: Event) { e.Release? && s.refer == 1 && (kind.Base? || !s.keep) }

  /** The peer is gone, or sends what cannot be parsed. */
  predicate Breaks(e: Event) { e.EndOfFile? || (e.Data? && !e.ok) }

  /** No response is left after e. */
  predicate LeavesNone(s: State, e: Event) {
    match e
    case Data(n, _, _) => s.refer + n == 0
    case EndOfFile => s.refer == 0
    case Release => s.refer == 1
    case Write => false
  }

  ghost predicate SomeStop(kind: Kind, s: State, es: seq<Event>)
    decreases |es|
  {
    && |es| > 0 && Enabled(s, es[0])
    && (Breaks(es[0]) || LetsGo(kind, s, es[0]) || SomeStop(kind, Apply(kind, s, es[0]), es[1..]))
  }

  ghost predicate SomeClose(kind: Kind, s: State, es: seq<Event>)
    decreases |es|
  {
    && |es| > 0 && Enabled(s, es[0])
    && (|| (Breaks(es[0]) && LeavesNone(s, es[0]))
        || LetsGo(kind, s, es[0])
        || SomeClose(kind, Apply(kind, s, es[0]), es[1..]))
  }

  function Writes(s: State): nat { CountOf(s.calls, UvWrite) }

  function CountOf(calls: seq<Call>, c: Call): nat {
    if |calls| == 0 then 0 else CountOf(calls[..|calls| - 1], c) + if calls[|calls| - 1] == c then 1 else 0
  }

  lemma {:induction false} CountAppend(a: seq<Call>, b: seq<Call>, c: Call)
    ensures CountOf(a + b, c) == CountOf(a, c) + CountOf(b, c)
    decreases |b|
  {
    if |b| == 0 {
      assert a + b == a;
    } else {
      assert (a + b)[..|a + b| - 1] == a + b[..|b| - 1];
      CountAppend(a, b[..|b| - 1], c);
    }
  }

  /** The writes of a run that come before it stops. */
  function WritesInTime(kind: Kind, s: State, es: seq<Event>): nat
    decreases |es|
  {
    if |es| == 0 || !Enabled(s, es[0]) then 0
    else (if es[0].Write? && !s.isClosing then 1 else 0) + WritesInTime(kind, Apply(kind, s, es[0]), es[1..])
  }

  lemma CallsEx(s: State)
    ensures var t := ClosedEx(s);
      t.isClosing && (Closed(t) <==> Closed(s) || s.refer == 0) && Writes(t) == Writes(s)
  {
    var more := if s.refer == 0 then [ReadStop, UvClose] else [ReadStop];
    assert ClosedEx(s).calls == s.calls + more;
    CountAppend(s.calls, more, UvWrite);
    assert [ReadStop, UvClose][..1] == [ReadStop] && [ReadStop][..0] == [];
    assert UvClose in more <==> s.refer == 0;
  }

  lemma CallsWrite(s: State)
    ensures Writes(s.(calls := s.calls + [UvWrite])) == Writes(s) + 1
    ensures Closed(s.(calls := s.calls + [UvWrite])) <==> Closed(s)
  {
    CountAppend(s.calls, [UvWrite], UvWrite);
    assert [UvWrite][..0] == [];
  }

  lemma CallsStep(kind: Kind, s: State, e: Event)
    requires Enabled(s, e)
    ensures Apply(kind, s, e).isClosing <==> s.isClosing || Breaks(e) || LetsGo(kind, s, e)
    ensures Closed(Apply(kind, s, e)) <==> Closed(s) || (Breaks(e) && LeavesNone(s, e)) || LetsGo(kind, s, e)
    ensures Writes(Apply(kind, s, e)) == Writes(s) + if e.Write? && !s.isClosing then 1 else 0
  {
    match e {
      case Data(n, keep, _) => CallsEx(s.(refer := s.refer + n, keep := keep));
      case EndOfFile => CallsEx(s);
      case Release => CallsEx(s.(refer := s.refer - 1));
      case Write => CallsWrite(s);
    }
  }

  /** Over any run: the connection is closing exactly if the peer has gone, or the last response of one that
      is not kept was released; uv_close was issued exactly if no response was left at such a moment; and
      every write before that, and no other, was issued. */
  lemma {:induction false} RunDecided(kind: Kind, s: State, es: seq<Event>, t: State)
    requires Run(kind, s, es, t)
    ensures t.isClosing <==> s.isClosing || SomeStop(kind, s, es)
    ensures Closed(t) <==> Closed(s) || SomeClose(kind, s, es)
    ensures Writes(t) == Writes(s) + WritesInTime(kind, s, es)
    decreases |es|
  {
    if |es| != 0 {
      CallsStep(kind, s, es[0]);
      RunDecided(kind, Apply(kind, s, es[0]), es[1..], t);
    }
  }

  // ---------------------------------------------------------------- the object

  class ServerConnection {
    const kind: Kind
    var refer: int
    var isClosing: bool
    var reading: bool
    var keep: bool
    ghost var calls: seq<Call>

    ghost function S(): State
      reads this
    {
      State(refer, isClosing, reading, keep, calls)
    }

    constructor (kind: Kind)
      ensures S() == Opened && this.kind == kind
    {
      this.kind := kind;
      refer, isClosing, reading, keep, calls := 0, false, true, false, [];
    }

    method CloseEx()
      modifies this
      ensures S() == ClosedEx(old(S()))
    {
      calls, reading := calls + [ReadStop], false;
      isClosing := true;
      if refer == 0 {
        calls := calls + [UvClose];
      }
    }

    /** close(), as a response's destructor calls it. */
    method Close()
      requires refer > 0
      modifies this
      ensures S() == Apply(kind, old(S()), Release)
    {
      refer := refer - 1;
      if kind == Base {
        if refer == 0 {
          calls, reading := calls + [ReadStop], false;
          isClosing := true;
          calls := calls + [UvClose];
        }
      } else if refer == 0 && !keep {
        CloseEx();
      }
    }

    /** read_cb: parsing creates `responses` responses and leaves the parser with the flag `kept`. */
    method ReadCb(eof: bool, responses: nat, kept: bool, parsed: bool)
      requires reading
      modifies this
      ensures S() == Apply(kind, old(S()), if eof then EndOfFile else Data(responses, kept, parsed))
    {
      if eof {
        CloseEx();
        return;
      }
      for i := 0 to responses
        invariant S() == old(S()).(refer := old(refer) + i)
      {
        refer := refer + 1;
      }
      keep := kept;
      if !parsed {
        CloseEx();
      }
    }

    method Write() returns (ok: bool)
      requires refer > 0
      modifies this
      ensures ok == !old(isClosing) && S() == Apply(kind, old(S()), Event.Write)
    {
      if isClosing {
        return false;
      }
      calls := calls + [UvWrite];
      ok := true;
    }
  }
}

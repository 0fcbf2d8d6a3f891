/** The buffered stream reader: four kinds of read over a byte stream that arrives in pieces.

    `Reader` is the state of the object as a value, with its histories; the class below works on it
    step by step as the callbacks do, and each of its methods is tied to a step of `Reader`.
  */
module StreamReaders {
  import opened Options
  import opened Bytes

  datatype Mode =
    | Any                        // read(): whatever there is
    | Size(n: nat)               // read(n)
    | Until(endl: seq<byte>)     // read("endl")
    | ToEnd                      // read_all()

  datatype Answer = Data(bytes: seq<byte>) | Null | Error(code: int)

  type Id = int

  datatype Reader = Reader(
    open: bool,                  // cli_ is set
    co: Option<Id>,              // co_: the coroutine of the read under way
    mode: Mode,                  // d_type, d_size, d_endl
    buf: seq<byte>,              // buf_
    rv: seq<byte>,               // rv_
    timer: bool,                 // tm_ armed with return_cb
    reading: bool,               // uv_read_start is in effect
    dead: bool,                  // a null pointer was used: co_ or tm_
    received: seq<byte>,         // all bytes that arrived
    started: seq<(Id, Mode)>,    // reads, in the order they were started
    answers: seq<(Id, Answer)>,  // answers, in the order they were given
    taker: nat,                  // rv was taken by the taker-th read; 0 when it is empty again
    given: seq<Gift>)            // for each answer, where it came from and went to

  /** An answer was taken by the taker-th read and went to the got-th, when `seen` bytes had arrived. */
  datatype Gift = Gift(taker: nat, got: nat, seen: nat)

  // ---------------------------------------------------------------- what one read takes

  predicate Matches(h: seq<byte>, d: seq<byte>, i: nat) { i + |d| <= |h| && h[i..i + |d|] == d }

  /** std::search from i: the first match, or the end. */
  function Search(h: seq<byte>, d: seq<byte>, i: nat): (r: nat)
    requires i <= |h|
    ensures i <= r <= |h|
    ensures forall k :: i <= k < r ==> !Matches(h, d, k)
    ensures r < |h| ==> Matches(h, d, r)
    decreases |h| - i
  {
    if i == |h| || Matches(h, d, i) then i else Search(h, d, i + 1)
  }

  /** What a read takes from the buffer, and what it leaves; None if it has to wait. */
  function Take(mode: Mode, buf: seq<byte>): Option<(seq<byte>, seq<byte>)> {
    match mode
    case Any => if |buf| > 0 then Some((buf, [])) else None
    case Size(n) => if |buf| >= n then Some((buf[..n], buf[n..])) else None
    case Until(d) =>
      var i := Search(buf, d, 0);
      if i != |buf| && i + |d| <= |buf| then Some((buf[..i + |d|], buf[i + |d|..])) else None
    case ToEnd => None
  }

  /** What a read asks for: some bytes, exactly n, or no more than up to the first delimiter. */
  predicate Fits(mode: Mode, bytes: seq<byte>) {
    match mode
    case Any => bytes != []
    case Size(n) => |bytes| == n
    case Until(d) =>
      && |d| <= |bytes| && bytes[|bytes| - |d|..] == d
      && forall k :: 0 <= k < |bytes| - |d| ==> !Matches(bytes, d, k)
    case ToEnd => true
  }

  /** A read neither loses nor invents a byte; a size read returns exactly n bytes, a delimiter read the
      shortest prefix that ends in the delimiter. */
  lemma TakeMeans(mode: Mode, buf: seq<byte>)
    requires Take(mode, buf).Some?
    ensures Take(mode, buf).value.0 + Take(mode, buf).value.1 == buf
    ensures Fits(mode, Take(mode, buf).value.0)
  {
    if mode.Until? {
      var d, i := mode.endl, Search(buf, mode.endl, 0);
      var taken := buf[..i + |d|];
      assert taken[i..] == buf[i..i + |d|];
      forall k | 0 <= k < |taken| - |d| ensures !Matches(taken, d, k) {
        assert taken[k..k + |d|] == buf[k..k + |d|] && !Matches(buf, d, k);
      }
    }
  }

  /** When a read has to wait, and that read() takes all there is. */
  lemma TakeExact(mode: Mode, buf: seq<byte>)
    ensures Take(mode, buf).None? <==>
      match mode
      case Any => buf == []
      case Size(n) => |buf| < n
      case Until(d) => forall k :: 0 <= k < |buf| ==> !Matches(buf, d, k)
      case ToEnd => true
    ensures mode.Any? && buf != [] ==> Take(mode, buf) == Some((buf, []))
  {
    if mode.Until? {
      var i := Search(buf, mode.endl, 0);
      if i < |buf| { assert Matches(buf, mode.endl, i); }
    }
  }

  /** Reads that leave nothing in the buffer. */
  predicate Greedy(mode: Mode) { mode.Any? || mode.ToEnd? }

  predicate Exact(mode: Mode) { mode.Size? || mode.Until? }

  /** The first match stays the first one when bytes are added. */
  lemma SearchMonotone(buf: seq<byte>, d: seq<byte>, more: seq<byte>)
    requires Search(buf, d, 0) < |buf|
    ensures Search(buf + more, d, 0) == Search(buf, d, 0)
  {
    var i, all := Search(buf, d, 0), buf + more;
    assert all[i..i + |d|] == buf[i..i + |d|];
    forall k | 0 <= k < i ensures !Matches(all, d, k) {
      assert all[k..k + |d|] == buf[k..k + |d|] && !Matches(buf, d, k);
    }
    assert Matches(all, d, i);
    assert Search(all, d, 0) == i;
  }

  /** Bytes that arrive later do not change what an exact read takes. */
  lemma TakeMonotone(mode: Mode, buf: seq<byte>, more: seq<byte>)
    requires Exact(mode) && Take(mode, buf).Some?
    ensures Take(mode, buf + more) == Some((Take(mode, buf).value.0, Take(mode, buf).value.1 + more))
  {
    var n := |Take(mode, buf).value.0|;
    assert (buf + more)[..n] == buf[..n] && (buf + more)[n..] == buf[n..] + more;
    if mode.Until? { SearchMonotone(buf, mode.endl, more); }
  }

  // ---------------------------------------------------------------- chunking independence

  /** The reads of `modes`, one after the other, when the stream arrives in `chunks`. */
  function Answers(buf: seq<byte>, modes: seq<Mode>, chunks: seq<seq<byte>>): seq<seq<byte>>
    decreases |modes| + |chunks|
  {
    if |modes| == 0 then []
    else match Take(modes[0], buf)
      case Some((taken, left)) => [taken] + Answers(left, modes[1..], chunks)
      case None => if |chunks| == 0 then [] else Answers(buf + chunks[0], modes, chunks[1..])
  }

  /** However a stream is cut into arrivals, a sequence of exact reads returns the same strings as when
      all of it was there from the start. */
  lemma {:induction false} ChunkingIndependent(buf: seq<byte>, modes: seq<Mode>, chunks: seq<seq<byte>>)
    requires forall i :: 0 <= i < |modes| ==> Exact(modes[i])
    ensures Answers(buf, modes, chunks) == Answers(buf + Concat(chunks), modes, [])
    decreases |modes| + |chunks|
  {
    if |modes| != 0 {
      match Take(modes[0], buf)
      case Some((_, left)) =>
        TakeMonotone(modes[0], buf, Concat(chunks));
        ChunkingIndependent(left, modes[1..], chunks);
      case None =>
        if |chunks| == 0 {
          assert buf + Concat(chunks) == buf;
        } else {
          ChunkingIndependent(buf + chunks[0], modes, chunks[1..]);
          assert buf + chunks[0] + Concat(chunks[1..]) == buf + Concat(chunks);
        }
    }
  }

  // ---------------------------------------------------------------- steps

  /** The read under way is answered with a; `owner` counts the reads up to the one that took it. */
  function Reply(r: Reader, a: Answer, owner: nat): Reader
    requires r.co.Some?
  {
    r.(co := None, answers := r.answers + [(r.co.value, a)], given := r.given + [Gift(owner, |r.started|, |r.received|)])
  }

  function Answered(r: Reader, a: Answer): Reader
    requires r.co.Some?
  {
    Reply(r, a, |r.started|)
  }

  /** return_cb itself: co_ is used without a look. */
  function Delivered(r: Reader): Reader {
    if r.co.None? then r.(dead := true) else Reply(r, Data(r.rv), r.taker).(rv := [], taker := 0)
  }

  /** The timer fires. */
  function Returned(r: Reader): Reader { Delivered(r.(timer := false)) }

  /** read_from_buf() has found what the latest read asks for. */
  function Filled(r: Reader, taken: seq<byte>, left: seq<byte>): Reader {
    r.(rv := taken, buf := left, taker := |r.started|)
  }

  function Started(r: Reader, id: Id, mode: Mode): Reader {
    var s := r.(co := Some(id), mode := mode, started := r.started + [(id, mode)]);
    match Take(mode, r.buf)
    case Some((taken, left)) => Filled(s, taken, left).(timer := true)
    case None => s.(reading := true)
  }

  /** After close() all reads throw but read_all(), which arms the timer that is gone. */
  predicate Accepts(r: Reader, mode: Mode) { r.open || mode == ToEnd }

  function Reads(r: Reader, id: Id, mode: Mode): Reader {
    if r.open then Started(r, id, mode)
    else if mode == ToEnd then r.(co := Some(id), mode := mode, started := r.started + [(id, mode)], dead := true)
    else r
  }

  /** A read that the coroutine starts when it is resumed. */
  function Again(r: Reader, again: Option<(Id, Mode)>): Reader {
    if r.dead || again.None? then r else Reads(r, again.value.0, again.value.1)
  }

  function Arrived(r: Reader, chunk: seq<byte>): Reader {
    var s := r.(buf := r.buf + chunk, received := r.received + chunk);
    match Take(r.mode, s.buf)
    case Some((taken, left)) => Delivered(Filled(s, taken, left).(reading := false))
    case None => s
  }

  function ClosingAnswer(err: int): Answer { if err == 0 then Null else Error(err) }

  /** The coroutine is resumed before the handles are closed, and may start a further read.  A closed
      reader that has a read all the same answers it, and then uses the timer that is gone. */
  function Closed(r: Reader, err: int, last: Option<(Id, Mode)>): Reader {
    if r.dead || r.co.None? then r
    else
      var s := Again(Answered(r, ClosingAnswer(err)), last);
      if r.open then s.(timer := false, reading := false, open := false) else s.(dead := true)
  }

  /** EOF: read_all gets what there is. */
  function Ended(r: Reader, again: Option<(Id, Mode)>, last: Option<(Id, Mode)>): Reader {
    var s := r.(reading := false);
    Closed(if r.mode == ToEnd then Again(Delivered(Filled(s, s.buf, [])), again) else s, 0, last)
  }

  datatype Step =
    | Start(id: Id, mode: Mode)
    | Timer                                      // return_cb
    | Arrive(bytes: seq<byte>)                   // read_cb with data
    // read_cb with UV_EOF; reads that are started when read_all and then close() resume their coroutine
    | EndOfFile(again: Option<(Id, Mode)>, last: Option<(Id, Mode)>)
    // close(), or read_cb with an error; the coroutine that is resumed by it may read again
    | Close(err: int, last: Option<(Id, Mode)>)

  predicate Enabled(r: Reader, s: Step) {
    && !r.dead
    && match s
       case Start(_, _) => true
       case Timer => r.timer
       case Arrive(bytes) => r.reading && bytes != []
       case EndOfFile(_, _) => r.reading
       case Close(_, _) => true
  }

  function Apply(r: Reader, s: Step): Reader {
    match s
    case Start(id, mode) => Reads(r, id, mode)
    case Timer => Returned(r)
    case Arrive(bytes) => Arrived(r, bytes)
    case EndOfFile(again, last) => Ended(r, again, last)
    case Close(err, last) => Closed(r, err, last)
  }

  /** r' follows from r by `steps`. */
  predicate Run(r: Reader, steps: seq<Step>, r': Reader)
    decreases |steps|
  {
    if |steps| == 0 then r == r' else Enabled(r, steps[0]) && Run(Apply(r, steps[0]), steps[1..], r')
  }

  // ---------------------------------------------------------------- the books

  function DataOf(answers: seq<(Id, Answer)>): seq<byte> {
    if |answers| == 0 then []
    else DataOf(answers[..|answers| - 1]) + match answers[|answers| - 1].1 case Data(b) => b case _ => []
  }

  /** Bytes: what has been delivered, what is about to be, and the buffer are all that arrived. */
  predicate Conserved(r: Reader) { DataOf(r.answers) + r.rv + r.buf == r.received }

  /** Bytes that arrived and are neither delivered nor kept. */
  function Lost(r: Reader): int { |r.received| - |DataOf(r.answers)| - |r.rv| - |r.buf| }

  /** The coroutines in a history, in order. */
  function Ids<T>(h: seq<(Id, T)>): seq<Id> { seq(|h|, i requires 0 <= i < |h| => h[i].0) }

  function UnderWay(r: Reader): nat { if r.co.Some? then 1 else 0 }

  /** Every read started has been answered once, in order, or is under way. */
  predicate Accounted(r: Reader) {
    && Ids(r.started) == Ids(r.answers) + (match r.co case Some(id) => [id] case None => [])
    && |r.given| == |r.answers|
    && forall i :: 0 <= i < |r.given| ==> r.given[i].got == i + 1
  }

  /** Reads that were started and are neither answered nor under way. */
  function Forgotten(r: Reader): int { |r.started| - |r.answers| - UnderWay(r) }

  /** Answers that went to another read than the one that took them, or that nobody took. */
  function Crossed(given: seq<Gift>): nat {
    if |given| == 0 then 0
    else Crossed(given[..|given| - 1]) + if given[|given| - 1].taker != given[|given| - 1].got then 1 else 0
  }

  /** The first k reads in the order of starting: the last of them, and whether it asked for this. */
  predicate TookBy(started: seq<(Id, Mode)>, k: nat, bytes: seq<byte>) {
    0 < k <= |started| ==> Fits(started[k - 1].1, bytes)
  }

  /** Whatever was answered is what some read takes, and went to the coroutine of the read it is booked for. */
  predicate Taken(r: Reader) {
    && |r.given| == |r.answers| && r.taker <= |r.started|
    && TookBy(r.started, r.taker, r.rv)
    && (r.co.Some? ==> |r.started| > 0 && r.started[|r.started| - 1].0 == r.co.value)
    && (|r.started| > 0 ==> r.started[|r.started| - 1].1 == r.mode)
    && forall i :: 0 <= i < |r.given| ==> Booked(r.started, r.answers[i], r.given[i])
  }

  predicate Booked(started: seq<(Id, Mode)>, answer: (Id, Answer), gift: Gift) {
    && gift.taker <= |started| && 0 < gift.got <= |started|
    && started[gift.got - 1].0 == answer.0
    && (answer.1.Data? ==> TookBy(started, gift.taker, answer.1.bytes))
  }

  /** From r to s, `lost` bytes are lost, `forgotten` reads forgotten, and `crossed` answers go astray; what
      is in order stays in order unless that happens. */
  predicate Goes(r: Reader, s: Reader, lost: nat, forgotten: nat, crossed: nat) {
    && Lost(s) == Lost(r) + lost
    && (lost == 0 && Conserved(r) ==> Conserved(s))
    && Forgotten(s) == Forgotten(r) + forgotten
    && (forgotten == 0 && Accounted(r) ==> Accounted(s))
    && Crossed(s.given) == Crossed(r.given) + crossed
    && (Taken(r) ==> Taken(s))
  }

  lemma GoesOn(r: Reader, s: Reader, t: Reader, l: nat, f: nat, c: nat, l': nat, f': nat, c': nat)
    requires Goes(r, s, l, f, c) && Goes(s, t, l', f', c')
    ensures Goes(r, t, l + l', f + f', c + c')
  {
  }

  // ---------------------------------------------------------------- what the parts of a step do to the books

  /** timer, reading, open and dead are not booked. */
  lemma GoesFlags(r: Reader, s: Reader)
    requires s == r.(timer := s.timer, reading := s.reading, open := s.open, dead := s.dead)
    ensures Goes(r, s, 0, 0, 0)
  {
  }

  lemma GoesReceived(r: Reader, chunk: seq<byte>)
    ensures Goes(r, r.(buf := r.buf + chunk, received := r.received + chunk), 0, 0, 0)
  {
    assert DataOf(r.answers) + r.rv + (r.buf + chunk) == DataOf(r.answers) + r.rv + r.buf + chunk;
  }

  /** What is in rv_ and not delivered yet is overwritten. */
  lemma GoesFilled(r: Reader, taken: seq<byte>, left: seq<byte>)
    requires taken + left == r.buf
    requires |r.started| > 0 ==> r.mode == r.started[|r.started| - 1].1 ==> Fits(r.mode, taken)
    ensures Goes(r, Filled(r, taken, left), |r.rv|, 0, 0)
  {
    var s := Filled(r, taken, left);
    assert |taken| + |left| == |r.buf|;
    if r.rv == [] {
      assert DataOf(r.answers) + [] + (taken + left) == DataOf(r.answers) + taken + left;
    }
  }

  lemma HistorySnoc(answers: seq<(Id, Answer)>, x: (Id, Answer), given: seq<Gift>, y: Gift)
    ensures DataOf(answers + [x]) == DataOf(answers) + match x.1 case Data(b) => b case _ => []
    ensures Ids(answers + [x]) == Ids(answers) + [x.0]
    ensures Crossed(given + [y]) == Crossed(given) + if y.taker != y.got then 1 else 0
  {
    assert (answers + [x])[..|answers|] == answers;
    assert (given + [y])[..|given|] == given;
  }

  lemma ReplyAccounted(r: Reader, a: Answer, owner: nat)
    requires r.co.Some? && Accounted(r)
    ensures Accounted(Reply(r, a, owner))
  {
    HistorySnoc(r.answers, (r.co.value, a), r.given, Gift(owner, |r.started|, |r.received|));
    assert Ids(r.answers) + [r.co.value] + [] == Ids(r.answers) + [r.co.value];
    assert |Ids(r.started)| == |r.answers| + 1;
  }

  lemma ReplyTaken(r: Reader, a: Answer, owner: nat)
    requires r.co.Some? && Taken(r) && owner <= |r.started|
    requires a.Data? ==> TookBy(r.started, owner, a.bytes)
    ensures Taken(Reply(r, a, owner))
  {
    var s := Reply(r, a, owner);
    forall i | 0 <= i < |s.given| ensures Booked(s.started, s.answers[i], s.given[i]) {
      if i < |r.given| { assert s.given[i] == r.given[i] && s.answers[i] == r.answers[i]; }
    }
  }

  lemma ReplyCounts(r: Reader, a: Answer, owner: nat)
    requires r.co.Some?
    ensures Forgotten(Reply(r, a, owner)) == Forgotten(r)
    ensures Crossed(Reply(r, a, owner).given) == Crossed(r.given) + if owner != |r.started| then 1 else 0
    ensures DataOf(Reply(r, a, owner).answers) == DataOf(r.answers) + match a case Data(b) => b case _ => []
  {
    HistorySnoc(r.answers, (r.co.value, a), r.given, Gift(owner, |r.started|, |r.received|));
  }

  lemma GoesAnswered(r: Reader, a: Answer)
    requires r.co.Some? && !a.Data?
    ensures Goes(r, Answered(r, a), 0, 0, 0)
  {
    var s := Answered(r, a);
    ReplyCounts(r, a, |r.started|);
    assert DataOf(s.answers) == DataOf(r.answers) by { assert DataOf(r.answers) + [] == DataOf(r.answers); }
    if Accounted(r) { ReplyAccounted(r, a, |r.started|); }
    if Taken(r) { ReplyTaken(r, a, |r.started|); }
  }

  function Strays(r: Reader): nat { if r.co.Some? && r.taker != |r.started| then 1 else 0 }

  /** rv_ is empty once it is delivered. */
  lemma GoesEmptied(r: Reader, s: Reader)
    requires s == r.(rv := [], taker := 0)
    ensures Forgotten(s) == Forgotten(r) && (Accounted(r) ==> Accounted(s)) && (Taken(r) ==> Taken(s))
  {
  }

  lemma GoesDelivered(r: Reader)
    ensures Goes(r, Delivered(r), 0, 0, Strays(r))
  {
    var t := Delivered(r);
    if r.co.None? {
      GoesFlags(r, t);
    } else {
      var s := Reply(r, Data(r.rv), r.taker);
      ReplyCounts(r, Data(r.rv), r.taker);
      GoesEmptied(s, t);
      assert Conserved(r) ==> Conserved(t) by {
        assert DataOf(t.answers) + [] + t.buf == DataOf(r.answers) + r.rv + r.buf;
      }
      if Accounted(r) { ReplyAccounted(r, Data(r.rv), r.taker); }
      if Taken(r) { ReplyTaken(r, Data(r.rv), r.taker); }
    }
  }

  /** A read is booked as the latest one. */
  lemma GoesBegun(r: Reader, id: Id, mode: Mode)
    ensures Goes(r, r.(co := Some(id), mode := mode, started := r.started + [(id, mode)]), 0, UnderWay(r), 0)
  {
    var s := r.(co := Some(id), mode := mode, started := r.started + [(id, mode)]);
    assert Ids(s.started) == Ids(r.started) + [id];
    if Taken(r) {
      assert forall j :: 0 <= j < |r.started| ==> s.started[j] == r.started[j];
      forall i | 0 <= i < |s.given| ensures Booked(s.started, s.answers[i], s.given[i]) {
        assert Booked(r.started, r.answers[i], r.given[i]);
      }
    }
  }

  /** The bytes in rv_ that a read overwrites when it finds what it asks for in the buffer. */
  function Replaced(r: Reader, again: Option<(Id, Mode)>): nat {
    if again.Some? && !r.dead && r.open && Take(again.value.1, r.buf).Some? then |r.rv| else 0
  }

  /** The reads that it overwrites. */
  function Displaced(r: Reader, again: Option<(Id, Mode)>): nat {
    if again.Some? && !r.dead && Accepts(r, again.value.1) then UnderWay(r) else 0
  }

  lemma GoesStarted(r: Reader, id: Id, mode: Mode)
    ensures Goes(r, Started(r, id, mode), if Take(mode, r.buf).Some? then |r.rv| else 0, UnderWay(r), 0)
  {
    var s, t := r.(co := Some(id), mode := mode, started := r.started + [(id, mode)]), Started(r, id, mode);
    GoesBegun(r, id, mode);
    if Take(mode, r.buf).Some? {
      TakeMeans(mode, r.buf);
      var (taken, left) := Take(mode, r.buf).value;
      GoesFilled(s, taken, left);
      GoesOn(r, s, Filled(s, taken, left), 0, UnderWay(r), 0, |r.rv|, 0, 0);
      GoesFlags(Filled(s, taken, left), t);
      GoesOn(r, Filled(s, taken, left), t, |r.rv|, UnderWay(r), 0, 0, 0, 0);
    } else {
      GoesFlags(s, t);
      GoesOn(r, s, t, 0, UnderWay(r), 0, 0, 0, 0);
    }
  }

  lemma GoesAgain(r: Reader, again: Option<(Id, Mode)>)
    ensures Goes(r, Again(r, again), Replaced(r, again), Displaced(r, again), 0)
  {
    if again.Some? && !r.dead && Accepts(r, again.value.1) {
      var (id, mode) := again.value;
      if r.open {
        GoesStarted(r, id, mode);
      } else {
        var s := r.(co := Some(id), mode := mode, started := r.started + [(id, mode)]);
        GoesBegun(r, id, mode);
        GoesFlags(s, Again(r, again));
        GoesOn(r, s, Again(r, again), 0, UnderWay(r), 0, 0, 0, 0);
      }
    }
  }

  lemma GoesReturned(r: Reader)
    ensures Goes(r, Returned(r), 0, 0, Strays(r))
  {
    var s := r.(timer := false);
    GoesFlags(r, s);
    GoesDelivered(s);
    GoesOn(r, s, Returned(r), 0, 0, 0, 0, 0, Strays(r));
  }

  lemma GoesTo(r: Reader, s: Reader, t: Reader, lost: nat, forgotten: nat, crossed: nat)
    requires Goes(r, s, lost, forgotten, crossed)
    requires t == s.(timer := t.timer, reading := t.reading, open := t.open, dead := t.dead)
    ensures Goes(r, t, lost, forgotten, crossed)
  {
    GoesFlags(s, t);
  }

  /** What the latest read takes is delivered at once. */
  lemma GoesPassed(r: Reader, taken: seq<byte>, left: seq<byte>)
    requires taken + left == r.buf
    requires |r.started| > 0 ==> r.mode == r.started[|r.started| - 1].1 ==> Fits(r.mode, taken)
    ensures Goes(r, Delivered(Filled(r, taken, left)), |r.rv|, 0, 0)
  {
    var f := Filled(r, taken, left);
    GoesFilled(r, taken, left);
    GoesDelivered(f);
    GoesOn(r, f, Delivered(f), |r.rv|, 0, 0, 0, 0, 0);
  }

  lemma GoesArrived(r: Reader, chunk: seq<byte>)
    ensures Goes(r, Arrived(r, chunk), if Take(r.mode, r.buf + chunk).Some? then |r.rv| else 0, 0, 0)
  {
    var s := r.(buf := r.buf + chunk, received := r.received + chunk);
    GoesReceived(r, chunk);
    if Take(r.mode, s.buf).Some? { GoesSuffices(r, s, Arrived(r, chunk)); }
  }

  lemma GoesSuffices(r: Reader, s: Reader, t: Reader)
    requires Take(s.mode, s.buf).Some? && Goes(r, s, 0, 0, 0)
    requires t == Delivered(Filled(s, Take(s.mode, s.buf).value.0, Take(s.mode, s.buf).value.1).(reading := false))
    ensures Goes(r, t, |s.rv|, 0, 0)
  {
    TakeMeans(s.mode, s.buf);
    var u := s.(reading := false);
    GoesTo(r, s, u, 0, 0, 0);
    GoesPassed(u, Take(s.mode, s.buf).value.0, Take(s.mode, s.buf).value.1);
    GoesOn(r, u, t, 0, 0, 0, |s.rv|, 0, 0);
  }

  /** What the read that close() lets in overwrites. */
  function ReplacedByLast(r: Reader, last: Option<(Id, Mode)>): nat { if r.co.Some? then Replaced(r, last) else 0 }

  lemma GoesClosed(r: Reader, err: int, last: Option<(Id, Mode)>)
    ensures Goes(r, Closed(r, err, last), ReplacedByLast(r, last), 0, 0)
  {
    if !r.dead && r.co.Some? {
      var a := ClosingAnswer(err);
      var s := Answered(r, a);
      GoesAnswered(r, a);
      GoesAgain(s, last);
      GoesOn(r, s, Again(s, last), 0, 0, 0, Replaced(r, last), 0, 0);
      GoesTo(r, Again(s, last), Closed(r, err, last), Replaced(r, last), 0, 0);
    }
  }

  /** From an empty buffer a read takes nothing, or the empty string. */
  lemma NothingLeft(r: Reader, again: Option<(Id, Mode)>)
    requires r.dead || (r.rv == [] && r.buf == [])
    ensures Replaced(r, again) == 0
    ensures Again(r, again).dead || Again(r, again).rv == []
  {
  }

  /** read_all gets what there is, and goes on. */
  lemma GoesFlushed(r: Reader, again: Option<(Id, Mode)>)
    requires r.mode == ToEnd
    ensures var t := Again(Delivered(Filled(r, r.buf, [])), again); Goes(r, t, |r.rv|, 0, 0) && (t.dead || t.rv == [])
  {
    var d := Delivered(Filled(r, r.buf, []));
    assert r.buf + [] == r.buf;
    GoesPassed(r, r.buf, []);
    NothingLeft(d, again);
    GoesAgain(d, again);
    GoesOn(r, d, Again(d, again), |r.rv|, 0, 0, 0, 0, 0);
  }

  lemma GoesEnded(r: Reader, again: Option<(Id, Mode)>, last: Option<(Id, Mode)>)
    ensures Goes(r, Ended(r, again, last), if r.mode == ToEnd then |r.rv| else ReplacedByLast(r, last), 0, 0)
  {
    var s := r.(reading := false);
    if r.mode == ToEnd {
      var t := Again(Delivered(Filled(s, s.buf, [])), again);
      GoesFlushed(s, again);
      GoesClosed(t, 0, last);
      GoesOn(s, t, Ended(r, again, last), |r.rv|, 0, 0, 0, 0, 0);
    } else {
      GoesClosed(s, 0, last);
    }
    GoesFrom(r, s, Ended(r, again, last), if r.mode == ToEnd then |r.rv| else ReplacedByLast(r, last), 0, 0);
  }

  lemma GoesFrom(r: Reader, s: Reader, t: Reader, lost: nat, forgotten: nat, crossed: nat)
    requires Goes(s, t, lost, forgotten, crossed)
    requires s == r.(timer := s.timer, reading := s.reading, open := s.open, dead := s.dead)
    ensures Goes(r, t, lost, forgotten, crossed)
  {
    GoesFlags(r, s);
  }

  // ---------------------------------------------------------------- every run, decided

  /** Bytes of an answer in rv_, waiting for the timer, that step s overwrites. */
  function Overwritten(r: Reader, s: Step): nat {
    match s
    case Start(id, mode) => Replaced(r, Some((id, mode)))
    case Timer => 0
    case Arrive(bytes) => if Take(r.mode, r.buf + bytes).Some? then |r.rv| else 0
    case EndOfFile(_, last) => if r.mode == ToEnd then |r.rv| else ReplacedByLast(r, last)
    case Close(_, last) => ReplacedByLast(r, last)
  }

  /** Step s starts a read over one that is under way. */
  function Overlaps(r: Reader, s: Step): nat {
    match s case Start(id, mode) => Displaced(r, Some((id, mode))) case _ => 0
  }

  /** The timer answers a read that has not taken what is in rv_. */
  function Crosses(r: Reader, s: Step): nat { if s.Timer? then Strays(r) else 0 }

  lemma GoesStep(r: Reader, s: Step)
    requires Enabled(r, s)
    ensures Goes(r, Apply(r, s), Overwritten(r, s), Overlaps(r, s), Crosses(r, s))
  {
    match s {
      case Start(id, mode) => GoesAgain(r, Some((id, mode)));
      case Timer => GoesReturned(r);
      case Arrive(bytes) => GoesArrived(r, bytes);
      case EndOfFile(again, last) => GoesEnded(r, again, last);
      case Close(err, last) => GoesClosed(r, err, last);
    }
  }

  function AllOverwritten(r: Reader, steps: seq<Step>): nat
    decreases |steps|
  {
    if |steps| == 0 then 0 else Overwritten(r, steps[0]) + AllOverwritten(Apply(r, steps[0]), steps[1..])
  }

  function AllOverlaps(r: Reader, steps: seq<Step>): nat
    decreases |steps|
  {
    if |steps| == 0 then 0 else Overlaps(r, steps[0]) + AllOverlaps(Apply(r, steps[0]), steps[1..])
  }

  function AllCrosses(r: Reader, steps: seq<Step>): nat
    decreases |steps|
  {
    if |steps| == 0 then 0 else Crosses(r, steps[0]) + AllCrosses(Apply(r, steps[0]), steps[1..])
  }

  lemma {:induction false} GoesRun(r: Reader, steps: seq<Step>, r': Reader)
    requires Run(r, steps, r')
    ensures Goes(r, r', AllOverwritten(r, steps), AllOverlaps(r, steps), AllCrosses(r, steps))
    decreases |steps|
  {
    if |steps| != 0 {
      var s, rest := Apply(r, steps[0]), steps[1..];
      GoesStep(r, steps[0]);
      GoesRun(s, rest, r');
      GoesOn(r, s, r', Overwritten(r, steps[0]), Overlaps(r, steps[0]), Crosses(r, steps[0]),
             AllOverwritten(s, rest), AllOverlaps(s, rest), AllCrosses(s, rest));
    }
  }

  lemma ConservedLength(r: Reader)
    requires Conserved(r)
    ensures Lost(r) == 0
  {
    assert |DataOf(r.answers) + r.rv + r.buf| == |r.received|;
  }

  /** Over any run, the bytes that are lost are those that some step overwrites in rv_ before their timer
      fires; every byte is delivered, about to be, or in the buffer exactly if no step does that. */
  lemma {:induction false} BytesExact(r: Reader, steps: seq<Step>, r': Reader)
    requires Run(r, steps, r')
    ensures Lost(r') == Lost(r) + AllOverwritten(r, steps)
    ensures Conserved(r) ==> (Conserved(r') <==> AllOverwritten(r, steps) == 0)
  {
    GoesRun(r, steps, r');
    if Conserved(r) { ConservedLength(r); }
    if Conserved(r') { ConservedLength(r'); }
  }

  /** Over any run, reads are forgotten exactly as often as one was started over another; every read is
      answered once, in order, or under way exactly if no two overlapped. */
  lemma {:induction false} OverlapsExact(r: Reader, steps: seq<Step>, r': Reader)
    requires Run(r, steps, r')
    ensures Forgotten(r') == Forgotten(r) + AllOverlaps(r, steps)
    ensures Accounted(r) ==> (Accounted(r') <==> AllOverlaps(r, steps) == 0)
  {
    GoesRun(r, steps, r');
    if Accounted(r) { AccountedLength(r); }
    if Accounted(r') { AccountedLength(r'); }
  }

  lemma AccountedLength(r: Reader)
    requires Accounted(r)
    ensures Forgotten(r) == 0
  {
    assert |Ids(r.started)| == |r.answers| + UnderWay(r);
  }

  // ---------------------------------------------------------------- answers that go to another read

  /** Every answer with data is what the read that got it asked for. */
  predicate OwnAnswers(r: Reader) {
    && |r.given| == |r.answers|
    && forall i :: 0 <= i < |r.answers| ==>
         && 0 < r.given[i].got <= |r.started|
         && r.started[r.given[i].got - 1].0 == r.answers[i].0
         && (r.answers[i].1.Data? ==> Fits(r.started[r.given[i].got - 1].1, r.answers[i].1.bytes))
  }

  lemma {:induction false} UncrossedAt(given: seq<Gift>, i: nat)
    requires Crossed(given) == 0 && i < |given|
    ensures given[i].taker == given[i].got
    decreases |given|
  {
    if i < |given| - 1 { UncrossedAt(given[..|given| - 1], i); }
  }

  lemma Uncrossed(r: Reader)
    requires Taken(r) && Crossed(r.given) == 0
    ensures OwnAnswers(r)
  {
    forall i | 0 <= i < |r.answers|
      ensures r.given[i].taker == r.given[i].got && Booked(r.started, r.answers[i], r.given[i])
    {
      UncrossedAt(r.given, i);
    }
  }

  /** `waiting` after step s: the latest read has found nothing in the buffer. */
  predicate Waits(waiting: bool, r: Reader, s: Step) {
    match s
    case Start(_, mode) => if r.open then Take(mode, r.buf).None? else waiting
    case _ => waiting
  }

  /** How often the timer fires while the read under way is one that had to wait. */
  function Misfires(waiting: bool, r: Reader, steps: seq<Step>): nat
    decreases |steps|
  {
    if |steps| == 0 then 0
    else
      (if steps[0].Timer? && r.co.Some? && waiting then 1 else 0)
      + Misfires(Waits(waiting, r, steps[0]), Apply(r, steps[0]), steps[1..])
  }

  /** What is in rv_ was taken by the read under way exactly if that did not have to wait. */
  predicate Knows(waiting: bool, r: Reader) {
    && r.taker <= |r.started|
    && (!r.open ==> !r.timer)
    && (r.open && r.co.Some? ==> (waiting <==> r.taker != |r.started|))
  }

  lemma KnowsStart(waiting: bool, r: Reader, again: Option<(Id, Mode)>)
    requires Knows(waiting, r)
    ensures Knows(if again.Some? then Waits(waiting, r, Start(again.value.0, again.value.1)) else waiting, Again(r, again))
         || r.dead
    ensures Again(r, again).taker <= |Again(r, again).started| && (Again(r, again).open <==> r.open)
    ensures r.open || Again(r, again).timer == r.timer
  {
  }

  lemma KnowsClosed(waiting: bool, r: Reader, err: int, last: Option<(Id, Mode)>)
    requires Knows(waiting, r)
    ensures Knows(waiting, Closed(r, err, last))
  {
    if !r.dead && r.co.Some? { KnowsStart(waiting, Answered(r, ClosingAnswer(err)), last); }
  }

  lemma KnowsEnded(waiting: bool, r: Reader, again: Option<(Id, Mode)>, last: Option<(Id, Mode)>)
    requires Knows(waiting, r)
    ensures Knows(waiting, Ended(r, again, last))
  {
    var s := r.(reading := false);
    if r.mode == ToEnd {
      var d := Delivered(Filled(s, s.buf, []));
      KnowsStart(waiting, d, again);
      var t := Again(d, again);
      if t.co.Some? && !t.dead {
        var w := if again.Some? then Waits(waiting, d, Start(again.value.0, again.value.1)) else waiting;
        KnowsClosed(w, t, 0, last);
        assert !Closed(t, 0, last).open || Closed(t, 0, last).dead;
      }
    } else {
      KnowsClosed(waiting, s, 0, last);
    }
  }

  lemma KnowsStep(waiting: bool, r: Reader, s: Step)
    requires Knows(waiting, r) && Enabled(r, s)
    ensures Knows(Waits(waiting, r, s), Apply(r, s))
  {
    match s {
      case Start(id, mode) => KnowsStart(waiting, r, Some((id, mode)));
      case Timer =>
      case Arrive(bytes) =>
      case EndOfFile(again, last) => KnowsEnded(waiting, r, again, last);
      case Close(err, last) => KnowsClosed(waiting, r, err, last);
    }
  }

  lemma {:induction false} CrossesRun(waiting: bool, r: Reader, steps: seq<Step>, r': Reader)
    requires Knows(waiting, r) && Run(r, steps, r')
    ensures AllCrosses(r, steps) == Misfires(waiting, r, steps)
    decreases |steps|
  {
    if |steps| != 0 {
      KnowsStep(waiting, r, steps[0]);
      CrossesRun(Waits(waiting, r, steps[0]), Apply(r, steps[0]), steps[1..], r');
    }
  }

  // ---------------------------------------------------------------- what is answered when the stream ends

  /** Closing answers a read with null, or with the error it was given; without a read under way it does
      nothing, and the reader stays open. */
  lemma ClosedAnswers(r: Reader, err: int, last: Option<(Id, Mode)>)
    requires !r.dead
    ensures r.co.Some? ==>
      Closed(r, err, last).answers == r.answers + [(r.co.value, if err == 0 then Null else Error(err))]
    ensures r.co.Some? && r.open ==> !Closed(r, err, last).open && !Closed(r, err, last).dead
    ensures r.co.None? ==> Closed(r, err, last) == r
  {
  }

  /** After closing, read() and its like are refused, and read_all uses the timer that is gone; an answer for
      nobody uses a coroutine that is not there. */
  lemma ClosedReads(r: Reader, id: Id, mode: Mode)
    requires !r.dead
    ensures !r.open && mode != ToEnd ==> Reads(r, id, mode) == r
    ensures !r.open && mode == ToEnd ==> Reads(r, id, mode).dead && Reads(r, id, mode).co == Some(id)
    ensures r.co.None? ==> Returned(r).dead && Returned(r).answers == r.answers
  {
  }

  /** At the end of the stream read_all gets all of the buffer; if its coroutine reads no more, the reader
      stays open.  Any other read gets null, and the reader is closed. */
  lemma EndedAnswers(r: Reader, again: Option<(Id, Mode)>, last: Option<(Id, Mode)>)
    requires r.open && r.co.Some? && !r.dead
    ensures r.mode == ToEnd && again.None? ==>
      var t := Ended(r, again, last);
      t.answers == r.answers + [(r.co.value, Data(r.buf))] && t.buf == [] && t.open && t.co.None? && !t.dead
    ensures r.mode == ToEnd && again.Some? ==>
      var t := Ended(r, again, last);
      t.answers == r.answers + [(r.co.value, Data(r.buf))] + [(again.value.0, Null)] && !t.open
    ensures r.mode != ToEnd ==>
      var t := Ended(r, again, last);
      t.answers == r.answers + [(r.co.value, Null)] && !t.open && (last.None? ==> t.buf == r.buf)
  {
  }

  // ---------------------------------------------------------------- reads in turn

  /** Where the reader is between callbacks when its reads do not overlap. */
  predicate Phase(r: Reader) {
    && (r.co.None? || !r.open ==> !r.timer && !r.reading)
    && (r.open && r.co.Some? ==> r.timer != r.reading)
    && (r.open && !r.timer ==> r.rv == [])
    && (r.reading ==> Take(r.mode, r.buf).None?)
    && (r.timer ==> r.taker == |r.started| && (Greedy(r.mode) ==> r.buf == []))
  }

  /** What was given to read() or read_all() was, with what was given before, all that had arrived by then. */
  predicate AllSeen(r: Reader) {
    && |r.given| == |r.answers|
    && forall i :: 0 <= i < |r.answers| ==> SeenAt(r, i)
  }

  predicate SeenAt(r: Reader, i: nat)
    requires i < |r.answers| == |r.given|
  {
    var g := r.given[i];
    && g.seen <= |r.received| && 0 < g.got <= |r.started|
    && (r.answers[i].1.Data? && Greedy(r.started[g.got - 1].1) ==> DataOf(r.answers[..i + 1]) == r.received[..g.seen])
  }

  /** More reads and more bytes, no further answer. */
  lemma SeenKeeps(r: Reader, s: Reader)
    requires AllSeen(r) && s.answers == r.answers && s.given == r.given
    requires r.started <= s.started && r.received <= s.received
    ensures AllSeen(s)
  {
    forall i | 0 <= i < |s.answers| ensures SeenAt(s, i) {
      assert SeenAt(r, i);
      var g := r.given[i];
      assert s.received[..g.seen] == r.received[..g.seen];
    }
  }

  lemma SeenReply(r: Reader, a: Answer, owner: nat)
    requires AllSeen(r) && r.co.Some? && |r.started| > 0
    requires a.Data? && Greedy(r.started[|r.started| - 1].1) ==> DataOf(r.answers) + a.bytes == r.received
    ensures AllSeen(Reply(r, a, owner))
  {
    var s := Reply(r, a, owner);
    forall i | 0 <= i < |s.answers| ensures SeenAt(s, i) {
      if i < |r.answers| {
        assert SeenAt(r, i) && s.given[i] == r.given[i] && s.answers[i] == r.answers[i];
        assert s.answers[..i + 1] == r.answers[..i + 1];
      } else {
        assert s.answers[..i + 1] == s.answers && s.received[..|s.received|] == s.received;
        ReplyCounts(r, a, owner);
      }
    }
  }

  lemma SeenAgain(r: Reader, again: Option<(Id, Mode)>)
    requires AllSeen(r)
    ensures AllSeen(Again(r, again))
  {
    SeenKeeps(r, Again(r, again));
  }

  lemma SeenClosed(r: Reader, err: int, last: Option<(Id, Mode)>)
    requires AllSeen(r) && (r.co.Some? ==> |r.started| > 0)
    ensures AllSeen(Closed(r, err, last))
  {
    if !r.dead && r.co.Some? {
      var a := ClosingAnswer(err);
      SeenReply(r, a, |r.started|);
      SeenAgain(Answered(r, a), last);
      SeenKeeps(Again(Answered(r, a), last), Closed(r, err, last));
    }
  }

  lemma SeenDelivered(r: Reader)
    requires AllSeen(r) && Taken(r) && Conserved(r)
    requires r.co.Some? && Greedy(r.mode) ==> r.buf == []
    ensures AllSeen(Delivered(r))
  {
    if r.co.Some? {
      if Greedy(r.mode) { assert DataOf(r.answers) + r.rv + [] == DataOf(r.answers) + r.rv; }
      SeenReply(r, Data(r.rv), r.taker);
      SeenKeeps(Reply(r, Data(r.rv), r.taker), Delivered(r));
    } else {
      SeenKeeps(r, Delivered(r));
    }
  }

  lemma SeenArrived(r: Reader, chunk: seq<byte>)
    requires AllSeen(r) && Taken(r) && Conserved(r) && r.rv == [] && r.co.Some?
    ensures AllSeen(Arrived(r, chunk))
  {
    var s := r.(buf := r.buf + chunk, received := r.received + chunk);
    SeenKeeps(r, s);
    if Take(r.mode, s.buf).Some? {
      TakeMeans(r.mode, s.buf);
      TakeExact(r.mode, s.buf);
      var (taken, left) := Take(r.mode, s.buf).value;
      var t := Filled(s, taken, left).(reading := false);
      GoesReceived(r, chunk);
      GoesFilled(s, taken, left);
      GoesFlags(Filled(s, taken, left), t);
      SeenKeeps(s, t);
      SeenDelivered(t);
    }
  }

  lemma SeenEnded(r: Reader, again: Option<(Id, Mode)>, last: Option<(Id, Mode)>)
    requires AllSeen(r) && Taken(r) && Conserved(r) && r.rv == [] && r.co.Some?
    ensures AllSeen(Ended(r, again, last))
  {
    var s := r.(reading := false);
    SeenKeeps(r, s);
    GoesFlags(r, s);
    if r.mode == ToEnd {
      var f := Filled(s, s.buf, []);
      assert s.buf + [] == s.buf;
      GoesFilled(s, s.buf, []);
      SeenKeeps(s, f);
      SeenDelivered(f);
      SeenAgain(Delivered(f), again);
      GoesFlushed(s, again);
      SeenClosed(Again(Delivered(f), again), 0, last);
    } else {
      SeenClosed(s, 0, last);
    }
  }

  lemma SeenStep(r: Reader, s: Step)
    requires Inv(r) && Enabled(r, s) && InTurn(r, s)
    ensures AllSeen(Apply(r, s))
  {
    match s {
      case Start(id, mode) => SeenAgain(r, Some((id, mode)));
      case Timer =>
        GoesFlags(r, r.(timer := false));
        SeenKeeps(r, r.(timer := false));
        SeenDelivered(r.(timer := false));
      case Arrive(bytes) => SeenArrived(r, bytes);
      case EndOfFile(again, last) => SeenEnded(r, again, last);
      case Close(err, last) => SeenClosed(r, err, last);
    }
  }

  predicate Inv(r: Reader) {
    Conserved(r) && Accounted(r) && Taken(r) && Crossed(r.given) == 0 && Phase(r) && AllSeen(r)
  }

  /** No read is started while another one, or its answer, is still to come. */
  predicate InTurn(r: Reader, s: Step) {
    match s
    case Start(_, mode) => Accepts(r, mode) ==> r.co.None?
    case Close(_, last) => last.Some? ==> !r.timer
    case _ => true
  }

  predicate AllInTurn(r: Reader, steps: seq<Step>)
    decreases |steps|
  {
    |steps| > 0 ==> InTurn(r, steps[0]) && AllInTurn(Apply(r, steps[0]), steps[1..])
  }

  lemma PhaseClosed(r: Reader, err: int, last: Option<(Id, Mode)>)
    requires r.dead || r.co.None? ==> Phase(r)
    requires !r.open ==> Phase(r)
    ensures Phase(Closed(r, err, last))
  {
  }

  lemma PhaseEnded(r: Reader, again: Option<(Id, Mode)>, last: Option<(Id, Mode)>)
    requires Phase(r) && r.reading && !r.dead
    ensures Phase(Ended(r, again, last))
    ensures r.rv == []
  {
    var s := r.(reading := false);
    if r.mode == ToEnd {
      PhaseClosed(Again(Delivered(Filled(s, s.buf, [])), again), 0, last);
    } else {
      PhaseClosed(s, 0, last);
    }
  }

  lemma PhaseStep(r: Reader, s: Step)
    requires Phase(r) && Enabled(r, s) && InTurn(r, s)
    ensures Phase(Apply(r, s))
    ensures Overwritten(r, s) == Overlaps(r, s) == Crosses(r, s) == 0
  {
    match s {
      case Start(id, mode) =>
      case Timer =>
      case Arrive(bytes) =>
      case EndOfFile(again, last) => PhaseEnded(r, again, last);
      case Close(err, last) => PhaseClosed(r, err, last);
    }
  }

  lemma InvStep(r: Reader, s: Step)
    requires Inv(r) && Enabled(r, s) && InTurn(r, s)
    ensures Inv(Apply(r, s))
  {
    PhaseStep(r, s);
    GoesStep(r, s);
    SeenStep(r, s);
  }

  /** The i-th answer went to the coroutine of the i-th read; data is what that read asked for, and for
      read() and read_all() it is all that had arrived and was not given before. */
  predicate AnsweredWell(r: Reader, i: nat) {
    && i < |r.answers| && i < |r.started| && i < |r.given|
    && r.answers[i].0 == r.started[i].0
    && (r.answers[i].1.Data? ==>
          && Fits(r.started[i].1, r.answers[i].1.bytes)
          && (Greedy(r.started[i].1) ==>
                r.given[i].seen <= |r.received| && DataOf(r.answers[..i + 1]) == r.received[..r.given[i].seen]))
  }

  lemma InOrder(r: Reader)
    requires Inv(r)
    ensures |r.answers| <= |r.started| <= |r.answers| + 1
    ensures forall i :: 0 <= i < |r.answers| ==> AnsweredWell(r, i)
  {
    AccountedLength(r);
    Uncrossed(r);
    forall i | 0 <= i < |r.answers| ensures AnsweredWell(r, i) {
      assert r.given[i].got == i + 1 && SeenAt(r, i);
    }
  }

  /** Over every interleaving of reads, arrivals, timers and closing in which reads do not overlap, no byte
      is lost or duplicated, and the i-th answer goes to the coroutine of the i-th read and, if it carries
      data, is what that read asked for. */
  lemma {:induction false} RunKeeps(r: Reader, steps: seq<Step>, r': Reader)
    requires Inv(r) && Run(r, steps, r') && AllInTurn(r, steps)
    ensures DataOf(r'.answers) + r'.rv + r'.buf == r'.received
    ensures |r'.answers| <= |r'.started| <= |r'.answers| + 1
    ensures forall i :: 0 <= i < |r'.answers| ==> AnsweredWell(r', i)
    ensures Inv(r')
    decreases |steps|
  {
    if |steps| == 0 {
      InOrder(r);
    } else {
      InvStep(r, steps[0]);
      RunKeeps(Apply(r, steps[0]), steps[1..], r');
    }
  }

  /** Starting a read keeps the books exactly if no other read is under way. */
  lemma StartExact(r: Reader, id: Id, mode: Mode)
    requires Inv(r) && r.open && !r.dead
    ensures Inv(Started(r, id, mode)) <==> r.co.None?
  {
    GoesStep(r, Start(id, mode));
    if r.co.Some? {
      if Accounted(Started(r, id, mode)) { AccountedLength(Started(r, id, mode)); }
      AccountedLength(r);
    } else {
      PhaseStep(r, Start(id, mode));
      SeenStep(r, Start(id, mode));
    }
  }

  /** Over any run of a reader that was at rest, every answer went to the read that had taken it exactly
      if the timer never fired for a read that had to wait; then each is what its own read asked for. */
  lemma {:induction false} AnswersExact(r: Reader, steps: seq<Step>, r': Reader)
    requires Inv(r) && r.co.None? && Run(r, steps, r')
    ensures Taken(r')
    ensures Crossed(r'.given) == 0 <==> Misfires(false, r, steps) == 0
    ensures Misfires(false, r, steps) == 0 ==> OwnAnswers(r')
  {
    GoesRun(r, steps, r');
    CrossesRun(false, r, steps, r');
    if Crossed(r'.given) == 0 { Uncrossed(r'); }
  }

  /** A second read that has to wait gets the answer of the first one, with no byte lost. */
  lemma Misdelivered() returns (r: Reader, steps: seq<Step>, r': Reader)
    ensures Inv(r) && r.co.None? && r.buf == [7]
    ensures steps == [Start(1, Any), Start(2, Size(5)), Timer] && Run(r, steps, r')
    ensures r'.answers == [(2, Data([7]))] && !OwnAnswers(r') && Conserved(r')
  {
    r := Reader(true, None, Any, [7], [], false, false, false, [7], [], [], 0, []);
    steps := [Start(1, Any), Start(2, Size(5)), Timer];
    var a := r.(co := Some(1), started := [(1, Any)], buf := [], rv := [7], timer := true, taker := 1);
    var b := a.(co := Some(2), mode := Size(5), started := [(1, Any), (2, Size(5))], reading := true);
    r' := b.(co := None, answers := [(2, Data([7]))], given := [Gift(1, 2, 1)], rv := [], taker := 0, timer := false);
    MisdeliveredSteps(r, a, b, r');
    assert steps[1..] == [Start(2, Size(5)), Timer] && steps[1..][1..] == [Timer] && steps[1..][1..][1..] == [];
    assert Run(b, [Timer], r') && Run(a, [Start(2, Size(5)), Timer], r');
    assert DataOf(r'.answers) == DataOf([]) + [7] by { assert r'.answers[..0] == []; }
  }

  lemma MisdeliveredSteps(r: Reader, a: Reader, b: Reader, r': Reader)
    requires r == Reader(true, None, Any, [7], [], false, false, false, [7], [], [], 0, [])
    requires a == r.(co := Some(1), started := [(1, Any)], buf := [], rv := [7], timer := true, taker := 1)
    requires b == a.(co := Some(2), mode := Size(5), started := [(1, Any), (2, Size(5))], reading := true)
    requires r' == b.(co := None, answers := [(2, Data([7]))], given := [Gift(1, 2, 1)], rv := [], taker := 0,
                      timer := false)
    ensures Apply(r, Start(1, Any)) == a && Apply(a, Start(2, Size(5))) == b && Apply(b, Timer) == r'
  {
  }

  // ---------------------------------------------------------------- reads that are never answered

  /** The answers that the coroutine id was given. */
  function AnswersTo(answers: seq<(Id, Answer)>, id: Id): nat {
    if |answers| == 0 then 0
    else AnswersTo(answers[..|answers| - 1], id) + if answers[|answers| - 1].0 == id then 1 else 0
  }

  predicate ReadBy(again: Option<(Id, Mode)>, id: Id) { again.Some? && again.value.0 == id }

  predicate StartsFor(s: Step, id: Id) {
    match s
    case Start(i, _) => i == id
    case EndOfFile(again, last) => ReadBy(again, id) || ReadBy(last, id)
    case Close(_, last) => ReadBy(last, id)
    case _ => false
  }

  /** From r to s the coroutine id is not under way and gets no answer. */
  predicate Passes(r: Reader, s: Reader, id: Id) {
    r.co != Some(id) ==> s.co != Some(id) && AnswersTo(s.answers, id) == AnswersTo(r.answers, id)
  }

  lemma ReplyOther(r: Reader, a: Answer, owner: nat, id: Id)
    requires r.co.Some?
    ensures Passes(r, Reply(r, a, owner), id)
  {
    assert Reply(r, a, owner).answers[..|r.answers|] == r.answers;
  }

  lemma DeliveredOther(r: Reader, id: Id)
    ensures Passes(r, Delivered(r), id)
  {
    if r.co.Some? { ReplyOther(r, Data(r.rv), r.taker, id); }
  }

  lemma AgainOther(r: Reader, again: Option<(Id, Mode)>, id: Id)
    requires !ReadBy(again, id)
    ensures Passes(r, Again(r, again), id)
  {
  }

  lemma ClosedOther(r: Reader, err: int, last: Option<(Id, Mode)>, id: Id)
    requires !ReadBy(last, id)
    ensures Passes(r, Closed(r, err, last), id)
  {
    if !r.dead && r.co.Some? {
      var a := ClosingAnswer(err);
      ReplyOther(r, a, |r.started|, id);
      AgainOther(Answered(r, a), last, id);
    }
  }

  lemma ArrivedOther(r: Reader, bytes: seq<byte>, id: Id)
    ensures Passes(r, Arrived(r, bytes), id)
  {
    var s := r.(buf := r.buf + bytes, received := r.received + bytes);
    if Take(r.mode, s.buf).Some? {
      var (taken, left) := Take(r.mode, s.buf).value;
      DeliveredOther(Filled(s, taken, left).(reading := false), id);
    }
  }

  lemma EndedOther(r: Reader, again: Option<(Id, Mode)>, last: Option<(Id, Mode)>, id: Id)
    requires !ReadBy(again, id) && !ReadBy(last, id)
    ensures Passes(r, Ended(r, again, last), id)
  {
    var s := r.(reading := false);
    if r.mode == ToEnd {
      var f := Filled(s, s.buf, []);
      DeliveredOther(f, id);
      AgainOther(Delivered(f), again, id);
      ClosedOther(Again(Delivered(f), again), 0, last, id);
    } else {
      ClosedOther(s, 0, last, id);
    }
  }

  lemma OtherStep(r: Reader, s: Step, id: Id)
    requires Enabled(r, s) && !StartsFor(s, id)
    ensures Passes(r, Apply(r, s), id)
  {
    match s {
      case Start(i, mode) => AgainOther(r, Some((i, mode)), id);
      case Timer => DeliveredOther(r.(timer := false), id);
      case Arrive(bytes) => ArrivedOther(r, bytes, id);
      case EndOfFile(again, last) => EndedOther(r, again, last, id);
      case Close(err, last) => ClosedOther(r, err, last, id);
    }
  }

  /** A coroutine that is not the one under way gets no answer, in any run in which it does not read again. */
  lemma {:induction false} NotUnderWay(r: Reader, steps: seq<Step>, r': Reader, id: Id)
    requires Run(r, steps, r') && r.co != Some(id)
    requires forall i :: 0 <= i < |steps| ==> !StartsFor(steps[i], id)
    ensures AnswersTo(r'.answers, id) == AnswersTo(r.answers, id)
    decreases |steps|
  {
    if |steps| != 0 {
      OtherStep(r, steps[0], id);
      NotUnderWay(Apply(r, steps[0]), steps[1..], r', id);
    }
  }

  /** A read that was under way when another one was started is never answered, whatever happens later. */
  lemma {:induction false} OverwrittenNeverAnswered(r: Reader, id: Id, other: Id, mode: Mode,
                                                    steps: seq<Step>, r': Reader)
    requires r.open && r.co == Some(id) && other != id && Run(Started(r, other, mode), steps, r')
    requires forall i :: 0 <= i < |steps| ==> !StartsFor(steps[i], id)
    ensures AnswersTo(r'.answers, id) == AnswersTo(r.answers, id)
  {
    NotUnderWay(Started(r, other, mode), steps, r', id);
  }

  predicate Closes(steps: seq<Step>) { exists i :: 0 <= i < |steps| && steps[i].Close? }

  /** A closed reader that has a read under way. */
  predicate Hanging(r: Reader, id: Id) {
    !r.open && !r.dead && r.co == Some(id) && !r.timer && !r.reading
  }

  lemma {:induction false} DeadEnds(r: Reader, steps: seq<Step>, r': Reader)
    requires r.dead && Run(r, steps, r')
    ensures steps == [] && r' == r
  {
  }

  lemma HangingClose(r: Reader, id: Id, err: int, last: Option<(Id, Mode)>)
    requires Hanging(r, id)
    ensures Closed(r, err, last).dead
    ensures Closed(r, err, last).answers == r.answers + [(id, ClosingAnswer(err))]
  {
  }

  lemma ClosesTail(steps: seq<Step>)
    requires |steps| > 0 && !steps[0].Close?
    ensures Closes(steps) <==> Closes(steps[1..])
    ensures Closes(steps) ==> |steps| > 1 && steps[1..][|steps| - 2] == steps[|steps| - 1]
  {
    if Closes(steps[1..]) {
      var i :| 0 <= i < |steps| - 1 && steps[1..][i].Close?;
      assert steps[i + 1].Close?;
    }
    if Closes(steps) {
      var i :| 0 <= i < |steps| && steps[i].Close?;
      assert steps[1..][i - 1].Close?;
    }
  }

  lemma {:induction false} HangingRun(r: Reader, id: Id, steps: seq<Step>, r': Reader)
    requires Hanging(r, id) && Run(r, steps, r')
    ensures Closes(steps) ==>
      && r'.dead && steps[|steps| - 1].Close?
      && exists err :: r'.answers == r.answers + [(id, ClosingAnswer(err))]
    ensures !Closes(steps) ==> r'.answers == r.answers
    decreases |steps|
  {
    if |steps| != 0 {
      var s, rest := Apply(r, steps[0]), steps[1..];
      match steps[0] {
        case Close(err, last) =>
          HangingClose(r, id, err, last);
          DeadEnds(s, rest, r');
          assert Closes(steps) && r'.answers == r.answers + [(id, ClosingAnswer(err))];
        case Start(_, mode) =>
          if mode == ToEnd {
            DeadEnds(s, rest, r');
          } else {
            HangingRun(r, id, rest, r');
            ClosesTail(steps);
          }
      }
    }
  }

  /** A read that is started while close() resumes the coroutine of the one before it is answered exactly
      if the reader is closed once more; it gets no data, and nothing can happen after that. */
  lemma {:induction false} ReadInsideCloseExact(r: Reader, err: int, id: Id, mode: Mode, steps: seq<Step>, r': Reader)
    requires r.open && !r.dead && r.co.Some? && Run(Closed(r, err, Some((id, mode))), steps, r')
    ensures var t := Closed(r, err, Some((id, mode)));
      && t.co == Some(id)
      && (AnswersTo(r'.answers, id) > AnswersTo(t.answers, id) <==> Closes(steps))
      && (Closes(steps) ==> r'.dead && steps[|steps| - 1].Close? && |r'.answers| == |t.answers| + 1
                            && !r'.answers[|t.answers|].1.Data?)
      && (!Closes(steps) ==> r'.answers == t.answers)
  {
    var t := Closed(r, err, Some((id, mode)));
    HangingRun(t, id, steps, r');
    if Closes(steps) {
      var e :| r'.answers == t.answers + [(id, ClosingAnswer(e))];
      assert r'.answers[..|t.answers|] == t.answers;
    }
  }

  // ---------------------------------------------------------------- the object

  /** What libuv reports to read_cb. */
  datatype Arrival = Chunk(bytes: seq<byte>) | Eof | Failure(err: int)

  class StreamReader {
    var open: bool
    var co: Option<Id>
    var mode: Mode
    var buf: seq<byte>
    var rv: seq<byte>
    var timer: bool
    var reading: bool
    var dead: bool
    ghost var received: seq<byte>
    ghost var started: seq<(Id, Mode)>
    var answers: seq<(Id, Answer)>
    ghost var taker: nat
    ghost var given: seq<Gift>

    ghost function S(): Reader
      reads this
    {
      Reader(open, co, mode, buf, rv, timer, reading, dead, received, started, answers, taker, given)
    }

    constructor ()
      ensures Inv(S()) && open && !dead && co == None && buf == [] && answers == []
    {
      open, co, mode, buf, rv, timer, reading, dead := true, None, Any, [], [], false, false, false;
      received, started, answers, taker, given := [], [], [], 0, [];
    }

    /** read_from_buf(): the buffer moves to rv_, and what is too much moves back. */
    method ReadFromBuf() returns (found: bool)
      modifies `buf, `rv, `taker
      ensures found == Take(mode, old(buf)).Some?
      ensures S() == match Take(mode, old(buf))
                     case Some((taken, left)) => Filled(old(S()), taken, left)
                     case None => old(S())
    {
      taker := if Take(mode, buf).Some? then |started| else taker;
      match mode
      case Any =>
        found := |buf| > 0;
        if found {
          rv, buf := buf, [];
        }
      case Size(n) =>
        found := |buf| >= n;
        if found {
          Split(n);
        }
      case Until(d) =>
        var i := Find(d);
        found := i != |buf|;
        if found {
          Split(i + |d|);
        }
      case ToEnd =>
        found := false;
    }

    method Split(n: nat)
      requires n <= |buf|
      modifies `buf, `rv
      ensures rv == old(buf)[..n] && buf == old(buf)[n..]
    {
      rv, buf := buf, [];
      if |rv| > n {
        buf := buf + rv[n..];
        rv := rv[..n];
      }
    }

    method Find(d: seq<byte>) returns (i: nat)
      ensures i == Search(buf, d, 0)
    {
      i := 0;
      while i != |buf| && !Matches(buf, d, i)
        invariant i <= |buf| && Search(buf, d, i) == Search(buf, d, 0)
        decreases |buf| - i
      {
        i := i + 1;
      }
    }

    /** read(), read(size), read(endl): they throw after close. */
    method ReadSome(id: Id, m: Mode) returns (ok: bool)
      requires !dead && m != ToEnd
      modifies this
      ensures ok == old(open) && S() == Reads(old(S()), id, m)
    {
      if !open {
        return false;
      }
      mode, co, started := m, Some(id), started + [(id, m)];
      ghost var begun := S();
      assert begun == old(S()).(co := Some(id), mode := m, started := old(started) + [(id, m)]);
      var found := ReadFromBuf();
      if found {
        timer := true;
      } else {
        reading := true;
      }
      ok := true;
    }

    /** read_all(): after close it arms a timer that is gone. */
    method ReadAll(id: Id)
      requires !dead
      modifies this
      ensures S() == Reads(old(S()), id, ToEnd)
    {
      mode, co, started := ToEnd, Some(id), started + [(id, ToEnd)];
      if open {
        reading := true;
      } else {
        dead := true;
      }
    }

    method Read(id: Id, m: Mode) returns (ok: bool)
      requires !dead
      modifies this
      ensures S() == Reads(old(S()), id, m) && ok == Accepts(old(S()), m)
    {
      if m == ToEnd {
        ReadAll(id);
        ok := true;
      } else {
        ok := ReadSome(id, m);
      }
    }

    /** What the coroutine does next, once it is resumed. */
    method ReadAgain(again: Option<(Id, Mode)>)
      modifies this
      ensures S() == Again(old(S()), again)
    {
      if again.Some? && !dead {
        var ok := Read(again.value.0, again.value.1);
      }
    }

    /** co_ is cleared before the coroutine runs, which may start its next read at once. */
    method ReturnCb(again: Option<(Id, Mode)>)
      requires !dead
      modifies this
      ensures S() == Again(Delivered(old(S())), again)
    {
      var c := co;
      co := None;
      if c.None? {
        dead := true;
        return;
      }
      answers, given := answers + [(c.value, Data(rv))], given + [Gift(taker, |started|, |received|)];
      rv, taker := [], 0;
      assert S() == Delivered(old(S()));
      ReadAgain(again);
    }

    /** libuv calls return_cb; the timer does not repeat. */
    method TimerFires(again: Option<(Id, Mode)>)
      requires timer && !dead
      modifies this
      ensures S() == Again(Returned(old(S())), again)
    {
      timer := false;
      ReturnCb(again);
    }

    /** The coroutine is resumed first; a read that it starts then is cut off.  The second time the
        coroutine of such a read is resumed, and then the timer is gone. */
    method Close(err: int, last: Option<(Id, Mode)>)
      modifies this
      ensures S() == Closed(old(S()), err, last)
    {
      if co.Some? && !dead {
        var c := co;
        co := None;
        answers := answers + [(c.value, ClosingAnswer(err))];
        given := given + [Gift(|started|, |started|, |received|)];
        assert S() == Answered(old(S()), ClosingAnswer(err));
        ReadAgain(last);
        if !open {
          dead := true;
          return;
        }
        timer := false;
        reading := false;
        open := false;
      }
    }

    /** read_cb with UV_EOF. */
    method EofCb(again: Option<(Id, Mode)>, last: Option<(Id, Mode)>)
      requires reading && !dead
      modifies this
      ensures S() == Ended(old(S()), again, last)
    {
      reading := false;
      if mode == ToEnd {
        rv, buf, taker := buf, [], |started|;
        assert S() == Filled(old(S()).(reading := false), old(buf), []);
        ReturnCb(again);
      }
      Close(0, last);
    }

    /** read_cb with data. */
    method DataCb(bytes: seq<byte>, again: Option<(Id, Mode)>)
      requires reading && !dead
      modifies this
      ensures S() == if old(Take(mode, buf + bytes)).Some? then Again(Arrived(old(S()), bytes), again)
                     else Arrived(old(S()), bytes)
    {
      buf, received := buf + bytes, received + bytes;
      assert S() == old(S()).(buf := old(buf) + bytes, received := old(received) + bytes);
      var found := ReadFromBuf();
      if found {
        ghost var filled := S();
        reading := false;
        assert S() == filled.(reading := false);
        ReturnCb(again);
      }
    }

    /** read_cb; nothing happens when no bytes came. */
    method ReadCb(a: Arrival, again: Option<(Id, Mode)>, last: Option<(Id, Mode)>)
      requires reading && !dead && (a.Failure? ==> a.err != 0)
      modifies this
      ensures a.Eof? ==> S() == Ended(old(S()), again, last)
      ensures a.Failure? ==> S() == Closed(old(S()), a.err, last)
      ensures a.Chunk? && a.bytes == [] ==> S() == old(S())
      ensures a.Chunk? && a.bytes != [] ==>
        S() == if old(Take(mode, buf + a.bytes)).Some? then Again(Arrived(old(S()), a.bytes), again)
               else Arrived(old(S()), a.bytes)
    {
      match a
      case Eof => EofCb(again, last);
      case Failure(err) => Close(err, last);
      case Chunk(bytes) =>
        if bytes != [] {
          DataCb(bytes, again);
        }
    }

    /** An arrival for the read under way. */
    method ServeArrival(bytes: seq<byte>) returns (got: Option<seq<byte>>)
      requires Inv(S()) && open && !dead && reading
      modifies this
      ensures Inv(S()) && open && !dead && mode == old(mode) && (co.None? <==> got.Some?) && !timer
      ensures match Take(old(mode), old(buf) + bytes)
              case Some((taken, left)) => got == Some(taken) && buf == left
              case None => got.None? && buf == old(buf) + bytes && reading
    {
      if bytes == [] { assert buf + bytes == buf; } else { InvStep(S(), Arrive(bytes)); }
      ReadCb(Chunk(bytes), None, None);
      got := None;
      if co.None? {
        got := Some(answers[|answers| - 1].1.bytes);
      }
    }

    /** One exact read, up to its answer or the end of the arrivals. */
    method ServeOne(m: Mode, chunks: seq<seq<byte>>) returns (got: Option<seq<byte>>, left: seq<seq<byte>>)
      requires Inv(S()) && open && !dead && co.None? && Exact(m)
      modifies this
      ensures Inv(S()) && open && !dead && (co.None? <==> got.Some?)
      ensures (got, buf, left) == First(m, old(buf), chunks)
    {
      got, left := None, chunks;
      InvStep(S(), Start(0, m));
      var ok := Read(0, m);
      while !timer && got.None? && |left| > 0
        invariant Inv(S()) && open && !dead && (co.None? <==> got.Some?)
        invariant co.Some? ==> mode == m
        invariant First(m, old(buf), chunks) ==
          if got.Some? then (got, buf, left) else if timer then (Some(rv), buf, left) else First(m, buf, left)
        decreases |left|
      {
        got := ServeArrival(left[0]);
        left := left[1..];
      }
      if timer {
        InvStep(S(), Timer);
        got := Some(rv);
        TimerFires(None);
      }
    }

    /** One coroutine that performs the reads `modes` while the stream arrives in `chunks`: it gets the
        same strings as when the whole stream is there at once. */
    method Serve(modes: seq<Mode>, chunks: seq<seq<byte>>) returns (out: seq<seq<byte>>)
      requires Inv(S()) && open && !dead && co.None? && buf == []
      requires forall i :: 0 <= i < |modes| ==> Exact(modes[i])
      modifies this
      ensures Inv(S())
      ensures out == Answers(Concat(chunks), modes, [])
    {
      ChunkingIndependent([], modes, chunks);
      assert [] + Concat(chunks) == Concat(chunks);
      out := [];
      var k, left := 0, chunks;
      while k < |modes| && co.None?
        invariant k <= |modes| && Inv(S()) && open && !dead
        invariant Answers([], modes, chunks) == out + if co.None? then Answers(buf, modes[k..], left) else []
      {
        AnswersTurn(out, buf, modes, k, left);
        var got;
        got, left := ServeOne(modes[k], left);
        if got.Some? {
          out := out + [got.value];
        }
        k := k + 1;
      }
    }
  }

  /** The first read alone: what it gets, and what is in the buffer and still to arrive after it. */
  function First(m: Mode, buf: seq<byte>, chunks: seq<seq<byte>>): (Option<seq<byte>>, seq<byte>, seq<seq<byte>>)
    decreases |chunks|
  {
    match Take(m, buf)
    case Some((taken, left)) => (Some(taken), left, chunks)
    case None => if |chunks| == 0 then (None, buf, chunks) else First(m, buf + chunks[0], chunks[1..])
  }

  lemma {:induction false} AnswersFirst(buf: seq<byte>, modes: seq<Mode>, chunks: seq<seq<byte>>)
    requires |modes| > 0
    ensures var (a, b, left) := First(modes[0], buf, chunks);
      Answers(buf, modes, chunks) == if a.Some? then [a.value] + Answers(b, modes[1..], left) else []
    decreases |chunks|
  {
    if Take(modes[0], buf).None? && |chunks| > 0 {
      AnswersFirst(buf + chunks[0], modes, chunks[1..]);
    }
  }

  /** One read out of many. */
  lemma AnswersTurn(out: seq<seq<byte>>, buf: seq<byte>, modes: seq<Mode>, k: nat, chunks: seq<seq<byte>>)
    requires k < |modes|
    ensures var (a, b, left) := First(modes[k], buf, chunks);
      out + Answers(buf, modes[k..], chunks) == if a.Some? then out + [a.value] + Answers(b, modes[k + 1..], left) else out
  {
    var rest := modes[k..];
    assert rest[1..] == modes[k + 1..];
    AnswersFirst(buf, rest, chunks);
    var (a, b, left) := First(modes[k], buf, chunks);
    if a.Some? {
      assert out + ([a.value] + Answers(b, modes[k + 1..], left)) == out + [a.value] + Answers(b, modes[k + 1..], left);
    } else {
      assert out + [] == out;
    }
  }
}

/** The FastCGI response printer, against a record decoder written from sections 3.3 and 5.5 of the
    FastCGI Specification. */
module FastCgi {
  import opened Options
  import opened Bytes

  const VERSION_1: byte := 1
  const END_REQUEST: byte := 3
  const STDOUT: byte := 6

  // ---------------------------------------------------------------- the specification's reader

  datatype Record = Record(version: byte, kind: byte, requestId: u16, content: seq<byte>)

  /** One record: an 8-byte header with big-endian lengths, the content, the padding. */
  function ReadRecord(s: seq<byte>): (r: Option<(Record, seq<byte>)>)
    ensures r.Some? ==> |r.value.1| <= |s| - 8
  {
    if |s| < 8 then None
    else
      var length := s[4] as int * 256 + s[5] as int;
      var padding := s[6] as int;
      if |s| < 8 + length + padding then None
      else Some((Record(s[0], s[1], s[2] as int * 256 + s[3] as int, s[8..8 + length]), s[8 + length + padding..]))
  }

  datatype Reply = Malformed | Stdout(data: seq<byte>)

  /** A whole response to request id, with version 1 and the types of section 8: STDOUT (6) records up to
      the empty one that closes the stream, then one END_REQUEST (3) with an 8-byte body saying
      "complete, status 0", then nothing. */
  function ReadReply(s: seq<byte>, id: u16): Reply
    decreases |s|
  {
    var r := ReadRecord(s);
    if r.None? || r.value.0.version != 1 || r.value.0.requestId != id || r.value.0.kind != 6 then Malformed
    else if r.value.0.content == [] then
      (if EndsRequest(r.value.1, id) then Stdout([]) else Malformed)
    else match ReadReply(r.value.1, id)
      case Malformed => Malformed
      case Stdout(data) => Stdout(r.value.0.content + data)
  }

  predicate EndsRequest(s: seq<byte>, id: u16) {
    ReadRecord(s) == Some((Record(1, 3, id, [0, 0, 0, 0, 0, 0, 0, 0]), []))
  }

  // ---------------------------------------------------------------- the printer

  /** A 16-bit value as the little-endian host stores it. */
  function HostBytes(x: u16): seq<byte> { [x % 256, x / 256] }

  /** (x & 0x00ff) << 8 | (x & 0xff00) >> 8 */
  function Swap(x: u16): (y: u16)
    ensures y % 256 == x / 256 && y / 256 == x % 256
  {
    x % 256 * 256 + x / 256
  }

  /** CACULATE_PADDING */
  function Padding(size: nat): (r: byte)
    ensures r < 8 && (size + r) % 8 == 0
  {
    if size % 8 == 0 then 0 else 8 - size % 8
  }

  function Zeros(n: nat): seq<byte> { seq(n, _ => 0) }

  /** The 8 bytes of header_ in memory; requestId is kept as it was parsed, in wire order. */
  function Header(kind: byte, requestId: u16, contentLength: u16, padding: byte): (h: seq<byte>)
    ensures |h| == 8
  {
    [VERSION_1, kind] + HostBytes(requestId) + HostBytes(contentLength) + [padding, 0]
  }

  /** A STDOUT record around content. */
  function StdoutRecord(requestId: u16, content: seq<byte>): (r: seq<byte>)
    requires |content| < 65536
    ensures |r| == 8 + |content| + Padding(|content|)
  {
    Header(STDOUT, requestId, Swap(|content|), Padding(|content|)) + content + Zeros(Padding(|content|))
  }

  function EndRecord(requestId: u16): seq<byte> {
    Header(END_REQUEST, requestId, 0x0800, 0) + Zeros(8)
  }

  /** What buffer_body puts out for a piece: the length has become an unsigned short. */
  function Piece(requestId: u16, data: seq<byte>): (r: seq<byte>)
  {
    StdoutRecord(requestId, data[..Truncate(|data|)])
  }

  /** Every byte of a response with the header block head and the body pieces ps. */
  function Response(requestId: u16, head: seq<byte>, ps: seq<seq<byte>>): seq<byte>
    requires |head| < 65536
  {
    StdoutRecord(requestId, head) + Body(requestId, ps)
  }

  function Body(requestId: u16, ps: seq<seq<byte>>): (r: seq<byte>)
  {
    if |ps| == 0 then Piece(requestId, []) + EndRecord(requestId) else Piece(requestId, ps[0]) + Body(requestId, ps[1..])
  }

  // ---------------------------------------------------------------- the reader undoes the printer

  lemma ReadStdoutRecord(requestId: u16, content: seq<byte>, rest: seq<byte>)
    requires |content| < 65536
    ensures ReadRecord(StdoutRecord(requestId, content) + rest)
         == Some((Record(VERSION_1, STDOUT, Swap(requestId), content), rest))
  {
    var s := StdoutRecord(requestId, content) + rest;
    var n, pad := |content|, Padding(|content|);
    var h := Header(STDOUT, requestId, Swap(n), pad);
    assert s == h + content + Zeros(pad) + rest;
    assert s[..8] == h;
    assert s[4] == h[4] == n / 256 && s[5] == h[5] == n % 256;
    assert s[8..8 + n] == content && s[8 + n + pad..] == rest;
  }

  lemma ReadEndRecord(requestId: u16)
    ensures EndsRequest(EndRecord(requestId), Swap(requestId))
  {
    var s := EndRecord(requestId);
    assert s[8..16] == [0, 0, 0, 0, 0, 0, 0, 0] && s[16..] == [];
  }

  /** The reader gets the truncated pieces, or refuses if one of them closes the stream early. */
  lemma {:induction false} ReadBody(requestId: u16, ps: seq<seq<byte>>)
    ensures ReadReply(Body(requestId, ps), Swap(requestId))
         == if [] in Carry(ps) then Malformed else Stdout(Concat(Carry(ps)))
    decreases |ps|
  {
    if |ps| == 0 {
      ReadStdoutRecord(requestId, [], EndRecord(requestId));
      ReadEndRecord(requestId);
    } else {
      var p := ps[0][..Truncate(|ps[0]|)];
      ReadStdoutRecord(requestId, p, Body(requestId, ps[1..]));
      ReadBody(requestId, ps[1..]);
      assert Carry(ps)[1..] == Carry(ps[1..]);
      if p == [] { NotAnEnd(requestId, ps[1..]); }
    }
  }

  /** What follows an empty piece starts with a STDOUT record. */
  lemma NotAnEnd(requestId: u16, ps: seq<seq<byte>>)
    ensures !EndsRequest(Body(requestId, ps), Swap(requestId))
  {
    var p: seq<byte> := if |ps| == 0 then [] else ps[0][..Truncate(|ps[0]|)];
    ReadStdoutRecord(requestId, p, if |ps| == 0 then EndRecord(requestId) else Body(requestId, ps[1..]));
  }

  lemma {:induction false} CarryKeeps(ps: seq<seq<byte>>)
    requires forall i :: 0 <= i < |ps| ==> Carried(ps[i])
    ensures Carry(ps) == ps && [] !in ps
  {
    if |ps| != 0 {
      assert ps == [ps[0]] + ps[1..] && Carried(ps[0]) && ps[0][..Truncate(|ps[0]|)] == ps[0];
      forall i | 0 <= i < |ps[1..]| ensures Carried(ps[1..][i]) { assert Carried(ps[i + 1]); }
      CarryKeeps(ps[1..]);
    }
  }

  lemma {:induction false} CarryLoses(ps: seq<seq<byte>>)
    ensures TotalLength(Carry(ps)) <= TotalLength(ps)
    ensures [] !in Carry(ps) && TotalLength(Carry(ps)) == TotalLength(ps) ==> forall i :: 0 <= i < |ps| ==> Carried(ps[i])
  {
    if |ps| != 0 {
      CarryLoses(ps[1..]);
      assert Carry(ps)[1..] == Carry(ps[1..]);
      if [] !in Carry(ps) && TotalLength(Carry(ps)) == TotalLength(ps) {
        assert [] !in Carry(ps[1..]) && Carry(ps)[0] in Carry(ps);
        forall i | 0 <= i < |ps| ensures Carried(ps[i]) {
          if i > 0 { assert Carried(ps[1..][i - 1]); }
        }
      }
    }
  }

  lemma CarryExact(ps: seq<seq<byte>>)
    ensures [] !in Carry(ps) && Concat(Carry(ps)) == Concat(ps) <==> AllCarried(ps)
  {
    if AllCarried(ps) { CarryKeeps(ps); }
    CarryLoses(ps);
    ConcatLength(ps);
    ConcatLength(Carry(ps));
  }

  lemma EightsAdd(m: nat, n: nat)
    requires m % 8 == 0 && n % 8 == 0
    ensures (m + n) % 8 == 0
  {
  }

  /** Every record occupies a multiple of 8 bytes. */
  lemma RecordAligned(requestId: u16, content: seq<byte>)
    requires |content| < 65536
    ensures |StdoutRecord(requestId, content)| % 8 == 0 && |EndRecord(requestId)| == 16
  {
  }

  lemma PieceAligned(requestId: u16, data: seq<byte>)
    ensures |Piece(requestId, data)| % 8 == 0
  {
    RecordAligned(requestId, data[..Truncate(|data|)]);
  }

  lemma {:induction false} BodyAligned(requestId: u16, ps: seq<seq<byte>>)
    ensures |Body(requestId, ps)| % 8 == 0
  {
    if |ps| == 0 {
      PieceAligned(requestId, []);
      assert |EndRecord(requestId)| == 16;
      EightsAdd(|Piece(requestId, [])|, 16);
    } else {
      PieceAligned(requestId, ps[0]);
      BodyAligned(requestId, ps[1..]);
      EightsAdd(|Piece(requestId, ps[0])|, |Body(requestId, ps[1..])|);
    }
  }

  lemma ResponseAligned(requestId: u16, head: seq<byte>, ps: seq<seq<byte>>)
    requires |head| < 65536
    ensures |Response(requestId, head, ps)| % 8 == 0
  {
    BodyAligned(requestId, ps);
    RecordAligned(requestId, head);
    EightsAdd(|StdoutRecord(requestId, head)|, |Body(requestId, ps)|);
  }

  /** The reader gets back the header block followed by the whole body exactly if no piece is empty or
      longer than 65535 bytes. */
  lemma {:induction false} ResponseExact(requestId: u16, head: seq<byte>, ps: seq<seq<byte>>)
    requires 0 < |head| < 65536
    ensures ReadReply(Response(requestId, head, ps), Swap(requestId)) == Stdout(head + Concat(ps)) <==> AllCarried(ps)
  {
    var body, id := Body(requestId, ps), Swap(requestId);
    ReadStdoutRecord(requestId, head, body);
    ReadBody(requestId, ps);
    CarryExact(ps);
    Cancel(head, Concat(Carry(ps)), Concat(ps));
  }

  lemma Reassociate(a: seq<byte>, b: seq<byte>, c: seq<byte>, d: seq<byte>)
    ensures a + (b + c + d) == (a + b) + c + d
  {
  }

  lemma Cancel(a: seq<byte>, x: seq<byte>, y: seq<byte>)
    ensures a + x == a + y <==> x == y
  {
    assert (a + x)[|a|..] == x && (a + y)[|a|..] == y;
  }

  function Pieces(requestId: u16, ps: seq<seq<byte>>): seq<byte> {
    if |ps| == 0 then [] else Piece(requestId, ps[0]) + Pieces(requestId, ps[1..])
  }

  lemma {:induction false} PiecesSnoc(requestId: u16, ps: seq<seq<byte>>, p: seq<byte>)
    ensures Pieces(requestId, ps + [p]) == Pieces(requestId, ps) + Piece(requestId, p)
  {
    if |ps| == 0 {
      assert ps + [p] == [p];
    } else {
      PiecesSnoc(requestId, ps[1..], p);
      assert (ps + [p])[1..] == ps[1..] + [p];
    }
  }

  /** The bytes after the header block and the pieces ps, before the end. */
  function Sent(requestId: u16, head: seq<byte>, ps: seq<seq<byte>>): seq<byte>
    requires |head| < 65536
  {
    StdoutRecord(requestId, head) + Pieces(requestId, ps)
  }

  lemma SentSnoc(requestId: u16, head: seq<byte>, ps: seq<seq<byte>>, p: seq<byte>)
    requires |head| < 65536
    ensures Sent(requestId, head, ps + [p]) == Sent(requestId, head, ps) + Piece(requestId, p)
  {
    PiecesSnoc(requestId, ps, p);
  }

  lemma {:induction false} BodySplit(requestId: u16, ps: seq<seq<byte>>)
    ensures Body(requestId, ps) == Pieces(requestId, ps) + (Piece(requestId, []) + EndRecord(requestId))
  {
    if |ps| != 0 { BodySplit(requestId, ps[1..]); }
  }

  lemma {:induction false} SentEnds(requestId: u16, head: seq<byte>, ps: seq<seq<byte>>)
    requires |head| < 65536
    ensures Sent(requestId, head, ps) + Piece(requestId, []) + EndRecord(requestId) == Response(requestId, head, ps)
  {
    BodySplit(requestId, ps);
  }

  // ---------------------------------------------------------------- the response object

  /** What buffer_header appends when the buffer already holds `used` bytes. */
  function HeadRecord(requestId: u16, used: nat, head: seq<byte>): seq<byte> {
    var length := Truncate(used + |head|);
    Header(STDOUT, requestId, Swap(length), Padding(length)) + head + Zeros(Padding(length))
  }

  lemma {:induction false} HeadRecordFits(requestId: u16, head: seq<byte>)
    requires |head| < 65536
    ensures HeadRecord(requestId, 0, head) == StdoutRecord(requestId, head)
  {
    var length := Truncate(0 + |head|);
    assert length == |head|;
  }

  lemma SentNone(requestId: u16, head: seq<byte>)
    requires |head| < 65536
    ensures Sent(requestId, head, []) == StdoutRecord(requestId, head)
  {
    var r := StdoutRecord(requestId, head);
    assert r + [] == r;
  }

  /** The length that a reader finds counts what was in the buffer before, and wraps. */
  lemma HeadRecordLength(requestId: u16, used: nat, head: seq<byte>)
    ensures var s := HeadRecord(requestId, used, head);
      && s[4] as int * 256 + s[5] as int == (used + |head|) % 65536
      && s[6] < 8 && (s[4] as int * 256 + s[5] as int + s[6] as int) % 8 == 0
    ensures var r := ReadRecord(HeadRecord(requestId, used, head));
      r.Some? ==> |r.value.0.content| == (used + |head|) % 65536
  {
    var s, length := HeadRecord(requestId, used, head), Truncate(used + |head|);
    var h := Header(STDOUT, requestId, Swap(length), Padding(length));
    assert s[4] == h[4] && s[5] == h[5] && s[6] == h[6];
  }

  /** The header record holds the header block exactly if the block fits an unsigned short. */
  lemma HeadRecordExact(requestId: u16, head: seq<byte>)
    ensures (ReadRecord(HeadRecord(requestId, 0, head)).Some?
             && ReadRecord(HeadRecord(requestId, 0, head)).value.0.content == head) <==> |head| < 65536
  {
    if |head| < 65536 {
      ReadStdoutRecord(requestId, head, []);
      HeadRecordFits(requestId, head);
      assert StdoutRecord(requestId, head) + [] == StdoutRecord(requestId, head);
    } else {
      HeadRecordLength(requestId, 0, head);
    }
  }

  /** What a call returns: an exception, false, or the marker of a write under way. */
  datatype Outcome = Thrown | Refused | Writing

  class ServerResponse {
    const requestId: u16
    const head: seq<byte>           // status line, header and cookie lines, blank line
    var buffer: seq<byte>           // buffer_
    var isHeadSent: bool
    var isBodySent: bool
    var isClosing: bool             // of the connection
    var wire: seq<byte>             // what the connection has accepted
    ghost var emitted: seq<byte>    // what it was given
    ghost var pieces: seq<seq<byte>>

    /** Between calls the buffer is empty, the connection was given what the calls so far amount to, and
        has accepted all of that up to the moment it began to close. */
    ghost predicate Valid()
      reads this
    {
      && 0 < |head| < 65536
      && buffer == [] && Accepted()
      && (if !isHeadSent then emitted == [] && pieces == [] && !isBodySent
          else if isBodySent then emitted == Response(requestId, head, pieces)
          else emitted == Sent(requestId, head, pieces))
    }

    ghost predicate Accepted()
      reads this
    {
      wire <= emitted && (!isClosing ==> wire == emitted)
    }

    constructor (requestId: u16, head: seq<byte>)
      requires 0 < |head| < 65536
      ensures Valid() && this.requestId == requestId && this.head == head && pieces == [] && !isBodySent && !isClosing
    {
      this.requestId, this.head := requestId, head;
      buffer, isHeadSent, isBodySent, isClosing, wire, emitted, pieces := [], false, false, false, [], [], [];
    }

    method BufferHeader()
      modifies `buffer
      ensures buffer == old(buffer) + HeadRecord(requestId, |old(buffer)|, head)
    {
      var at := |buffer|;
      buffer := buffer + Zeros(8);
      buffer := buffer + head;
      var length := Truncate(|buffer| - 8);
      var padding := Padding(length);
      var header := Header(STDOUT, requestId, Swap(length), padding);
      buffer := buffer[..at] + header + buffer[at + 8..];
      if padding > 0 {
        buffer := buffer + Zeros(padding);
      }
    }

    method BufferBody(data: seq<byte>, size: u16)
      requires size <= |data|
      modifies `buffer
      ensures buffer == old(buffer) + StdoutRecord(requestId, data[..size])
    {
      var padding := Padding(size);
      buffer := buffer + Header(STDOUT, requestId, Swap(size), padding);
      if size > 0 {
        buffer := buffer + data[..size];
      }
      if padding > 0 {
        buffer := buffer + Zeros(padding);
      }
    }

    method BufferEnding()
      modifies `buffer
      ensures buffer == old(buffer) + EndRecord(requestId)
    {
      buffer := buffer + Header(END_REQUEST, requestId, 0x0800, 0);
      buffer := buffer + Zeros(8);
    }

    /** The connection refuses everything once it is closing; the buffer is moved out all the same. */
    method WriteBuffer() returns (written: bool)
      requires Accepted()
      modifies `buffer, `wire, `emitted
      ensures Accepted() && written == !isClosing
      ensures buffer == [] && emitted == old(emitted + buffer)
      ensures wire == old(wire) + if written then old(buffer) else []
    {
      written := !isClosing;
      emitted := emitted + buffer;
      if written {
        wire := wire + buffer;
      }
      buffer := [];
    }

    /** close_ex() on the connection, by EOF or an error. */
    method ConnectionCloses()
      requires Valid()
      modifies `isClosing
      ensures Valid() && isClosing
    {
      isClosing := true;
    }

    /** In a call, once the header record is in the buffer or passed on. */
    ghost predicate Open()
      reads this
    {
      0 < |head| < 65536 && isHeadSent && Accepted() && emitted + buffer == Sent(requestId, head, pieces)
    }

    method HeaderOnce()
      requires 0 < |head| < 65536 && buffer == [] && Accepted()
      requires if isHeadSent then emitted == Sent(requestId, head, pieces) else emitted == [] && pieces == []
      modifies `buffer, `isHeadSent
      ensures Open()
    {
      if !isHeadSent {
        BufferHeader();
        isHeadSent := true;
        HeadRecordFits(requestId, head);
        SentNone(requestId, head);
      }
    }

    method BodyPiece(data: seq<byte>)
      requires Open()
      modifies `buffer, `pieces
      ensures Open() && pieces == old(pieces) + [data]
    {
      SentSnoc(requestId, head, pieces, data);
      BufferBody(data, Truncate(|data|));
      pieces := pieces + [data];
    }

    /** write_header(): throws once the header block is out. */
    method WriteHeader() returns (r: Outcome)
      requires Valid()
      modifies this
      ensures Valid() && isHeadSent && isClosing == old(isClosing)
      ensures r == if old(isHeadSent) then Thrown else if isClosing then Refused else Writing
      ensures pieces == old(pieces) && isBodySent == old(isBodySent)
      ensures !r.Writing? ==> wire == old(wire)
    {
      if isHeadSent || isBodySent {
        return Thrown;
      }
      HeaderOnce();
      var written := WriteBuffer();
      r := if written then Writing else Refused;
    }

    /** write(): throws once the body has ended. */
    method Write(data: seq<byte>) returns (r: Outcome)
      requires Valid()
      modifies this
      ensures Valid() && isBodySent == old(isBodySent) && isClosing == old(isClosing)
      ensures r == if old(isBodySent) then Thrown else if isClosing then Refused else Writing
      ensures pieces == if r.Thrown? then old(pieces) else old(pieces) + [data]
      ensures !r.Writing? ==> wire == old(wire)
    {
      if isBodySent {
        return Thrown;
      }
      HeaderOnce();
      BodyPiece(data);
      var written := WriteBuffer();
      r := if written then Writing else Refused;
    }

    method Finish()
      requires Open()
      modifies `buffer
      ensures emitted + buffer == Response(requestId, head, pieces)
    {
      SentEnds(requestId, head, pieces);
      ghost var before := buffer;
      BufferBody([], 0);
      BufferEnding();
      Reassociate(emitted, before, Piece(requestId, []), EndRecord(requestId));
    }

    /** The last piece if there is one, and the end. */
    method Ending(data: Option<seq<byte>>) returns (written: bool)
      requires Valid() && !isBodySent
      modifies this
      ensures Valid() && isBodySent && isClosing == old(isClosing) && written == !isClosing
      ensures pieces == old(pieces) + if data.Some? then [data.value] else []
      ensures !written ==> wire == old(wire)
    {
      isBodySent := true;
      HeaderOnce();
      if data.Some? {
        BodyPiece(data.value);
      }
      Finish();
      written := WriteBuffer();
    }

    /** end(): the last piece if there is one, the empty record, END_REQUEST.  If the connection has not
        begun to close, a FastCGI client reads the header block and every piece from the wire exactly if
        each piece could be carried; otherwise the wire is a first part of the response. */
    method End(data: Option<seq<byte>>) returns (r: Outcome)
      requires Valid()
      modifies this
      ensures Valid() && isBodySent && isClosing == old(isClosing)
      ensures r == if old(isBodySent) then Thrown else if isClosing then Refused else Writing
      ensures pieces == old(pieces) + if !r.Thrown? && data.Some? then [data.value] else []
      ensures !r.Writing? ==> wire == old(wire)
      ensures wire <= Response(requestId, head, pieces)
      ensures !isClosing ==>
        (ReadReply(wire, Swap(requestId)) == Stdout(head + Concat(pieces)) <==> AllCarried(pieces))
      ensures !isClosing ==> |wire| % 8 == 0
    {
      if isBodySent {
        r := Thrown;
      } else {
        var written := Ending(data);
        r := if written then Writing else Refused;
      }
      ResponseExact(requestId, head, pieces);
      ResponseAligned(requestId, head, pieces);
    }
  }
}

/** The body printer of the HTTP response, against a decoder for the chunked transfer coding of
    section 4.1 of RFC 7230. */
module HttpChunked {
  import opened Bytes

  const CR: byte := 13
  const LF: byte := 10

  // ---------------------------------------------------------------- hexadecimal sizes

  function Digit(d: nat): (c: byte)
    requires d < 16
  {
    if d < 10 then 48 + d else 87 + d
  }

  function DigitValue(c: byte): (d: int)
  {
    if 48 <= c <= 57 then c - 48
    else if 97 <= c <= 102 then c - 87
    else if 65 <= c <= 70 then c - 55
    else -1
  }

  /** sprintf("%x", n) */
  function Hex(n: nat): (s: seq<byte>)
    ensures s != []
    ensures forall i :: 0 <= i < |s| ==> 48 <= s[i] <= 57 || 97 <= s[i] <= 102
    ensures n > 0 ==> s[0] != 48
  {
    if n < 16 then [Digit(n)] else Hex(n / 16) + [Digit(n % 16)]
  }

  /** The digits of a chunk-size, most significant first, and what follows them. */
  function ReadHex(s: seq<byte>, acc: nat): (r: (nat, seq<byte>))
    ensures |r.1| <= |s|
  {
    if |s| == 0 || DigitValue(s[0]) < 0 then (acc, s) else ReadHex(s[1..], acc * 16 + DigitValue(s[0]))
  }

  /** acc with k more hexadecimal digits, all zero, after it. */
  function Shift(acc: nat, k: nat): nat { if k == 0 then acc else 16 * Shift(acc, k - 1) }

  lemma {:induction false} HexDigits(n: nat, acc: nat, rest: seq<byte>)
    ensures ReadHex(Hex(n) + rest, acc) == ReadHex(rest, Shift(acc, |Hex(n)|) + n)
    decreases n
  {
    var last := [Digit(n % 16)] + rest;
    assert last[1..] == rest && DigitValue(last[0]) == n % 16;
    if n < 16 {
      assert Hex(n) + rest == last;
      assert Shift(acc, 1) == 16 * Shift(acc, 0);
    } else {
      assert Hex(n) + rest == Hex(n / 16) + last;
      HexDigits(n / 16, acc, last);
      assert Shift(acc, |Hex(n)|) == 16 * Shift(acc, |Hex(n / 16)|);
    }
  }

  lemma {:induction false} ShiftZero(k: nat)
    ensures Shift(0, k) == 0
  {
    if k > 0 { ShiftZero(k - 1); }
  }

  /** Reading undoes printing, before anything that is not a digit. */
  lemma HexRoundTrip(n: nat, rest: seq<byte>)
    requires |rest| == 0 || DigitValue(rest[0]) < 0
    ensures ReadHex(Hex(n) + rest, 0) == (n, rest)
  {
    HexDigits(n, 0, rest);
    ShiftZero(|Hex(n)|);
  }

  // ---------------------------------------------------------------- the specification's decoder

  datatype Decoded = Malformed | Body(data: seq<byte>, rest: seq<byte>)

  /** chunked-body = *chunk last-chunk CRLF, without trailer fields or chunk extensions. */
  function Decode(s: seq<byte>): Decoded
    decreases |s|
  {
    if |s| == 0 || DigitValue(s[0]) < 0 then Malformed
    else
      var (size, t) := ReadHex(s, 0);
      if |t| < 2 || t[..2] != [13, 10] then Malformed
      else if size == 0 then
        (if |t| < 4 || t[2..4] != [13, 10] then Malformed else Body([], t[4..]))
      else if |t| < size + 4 || t[size + 2..size + 4] != [13, 10] then Malformed
      else match Decode(t[size + 4..])
        case Malformed => Malformed
        case Body(data, rest) => Body(t[2..size + 2] + data, rest)
  }

  // ---------------------------------------------------------------- the printer

  function Chunk(data: seq<byte>): seq<byte> { Hex(|data|) + [CR, LF] + data + [CR, LF] }

  /** What buffer_body puts out for a piece: its length has become an unsigned short. */
  function Piece(data: seq<byte>): seq<byte> { Chunk(data[..Truncate(|data|)]) }

  /** All bytes of a body that was written in the pieces ps and then ended. */
  function Emitted(ps: seq<seq<byte>>): seq<byte> {
    if |ps| == 0 then Piece([]) else Piece(ps[0]) + Emitted(ps[1..])
  }

  function Written(ps: seq<seq<byte>>): seq<byte> {
    if |ps| == 0 then [] else Written(ps[..|ps| - 1]) + Piece(ps[|ps| - 1])
  }

  class ServerResponse {
    var buffer: seq<byte>          // buffer_
    var isChunked: bool

    constructor ()
      ensures buffer == [] && isChunked
    {
      buffer, isChunked := [], true;
    }

    method BufferBody(data: seq<byte>, size: u16)
      requires size <= |data|
      modifies `buffer
      ensures buffer == old(buffer) + if isChunked then Chunk(data[..size]) else data[..size]
    {
      if isChunked {
        buffer := buffer + (Hex(size) + [CR, LF]);
        if size > 0 {
          buffer := buffer + data[..size];
        }
        buffer := buffer + [CR] + [LF];
      } else if size > 0 {
        buffer := buffer + data[..size];
      }
    }

    /** write() for each piece and then end(): chunked, or plain under a Content-Length. */
    method WriteAll(ps: seq<seq<byte>>)
      requires buffer == []
      modifies `buffer
      ensures isChunked ==> buffer == Emitted(ps)
      ensures !isChunked ==> buffer == Concat(Carry(ps))
    {
      for i := 0 to |ps|
        invariant isChunked ==> buffer == Written(ps[..i])
        invariant !isChunked ==> buffer == Concat(Carry(ps[..i]))
      {
        BufferBody(ps[i], Truncate(|ps[i]|));
        PrefixSnoc(ps, i);
      }
      assert ps[..|ps|] == ps;
      BufferBody([], 0);
      WrittenThenEnd(ps);
    }
  }

  /** The body grows by one piece. */
  lemma PrefixSnoc(ps: seq<seq<byte>>, i: nat)
    requires i < |ps|
    ensures Written(ps[..i + 1]) == Written(ps[..i]) + Piece(ps[i])
    ensures Concat(Carry(ps[..i + 1])) == Concat(Carry(ps[..i])) + ps[i][..Truncate(|ps[i]|)]
  {
    assert ps[..i + 1][..i] == ps[..i];
    assert ps[..i + 1] == ps[..i] + [ps[i]];
    CarrySnoc(ps[..i], ps[i]);
    ConcatSnoc(Carry(ps[..i]), ps[i][..Truncate(|ps[i]|)]);
  }

  lemma {:induction false} WrittenCons(p: seq<byte>, ps: seq<seq<byte>>)
    ensures Written([p] + ps) == Piece(p) + Written(ps)
    decreases |ps|
  {
    if |ps| == 0 {
      assert ([p] + ps)[..0] == [];
    } else {
      var front, last := ps[..|ps| - 1], Piece(ps[|ps| - 1]);
      assert ([p] + ps)[..|ps|] == [p] + front;
      WrittenCons(p, front);
      assert Written([p] + ps) == Written([p] + front) + last;
      assert Piece(p) + (Written(front) + last) == Piece(p) + Written(front) + last;
    }
  }

  lemma {:induction false} WrittenThenEnd(ps: seq<seq<byte>>)
    ensures Written(ps) + Piece([]) == Emitted(ps)
  {
    if |ps| != 0 {
      assert ps == [ps[0]] + ps[1..];
      WrittenCons(ps[0], ps[1..]);
      WrittenThenEnd(ps[1..]);
    }
  }

  // ---------------------------------------------------------------- the decoder undoes the printer

  lemma HexStarts(n: nat)
    ensures DigitValue(Hex(n)[0]) >= 0
  {
  }

  lemma DecodeChunk(data: seq<byte>, rest: seq<byte>)
    ensures Decode(Chunk(data) + rest)
         == if data == [] then Body([], rest)
            else match Decode(rest) case Malformed => Malformed case Body(d, r) => Body(data + d, r)
  {
    var s := Chunk(data) + rest;
    var t := [CR, LF] + data + [CR, LF] + rest;
    assert s == Hex(|data|) + t;
    HexStarts(|data|);
    assert s[0] == Hex(|data|)[0];
    HexRoundTrip(|data|, t);
    assert t[..2] == [CR, LF];
    assert t[2..|data| + 2] == data && t[|data| + 2..|data| + 4] == [CR, LF] && t[|data| + 4..] == rest;
  }

  /** The decoder never gets more than was written. */
  lemma {:induction false} DecodesAtMost(ps: seq<seq<byte>>)
    ensures var d := Decode(Emitted(ps));
      && d.Body? && |d.data| <= TotalLength(ps)
      && (d.rest == [] && |d.data| == TotalLength(ps) ==> AllCarried(ps))
  {
    if |ps| == 0 {
      DecodeChunk([], []);
      assert Piece([]) + [] == Piece([]);
    } else {
      DecodesAtMost(ps[1..]);
      DecodeChunk(ps[0][..Truncate(|ps[0]|)], Emitted(ps[1..]));
      assert Emitted(ps) == Piece(ps[0]) + Emitted(ps[1..]);
      assert |Emitted(ps[1..])| > 0;
      var d := Decode(Emitted(ps));
      if d.rest == [] && |d.data| == TotalLength(ps) {
        forall i | 0 <= i < |ps| ensures Carried(ps[i]) { if i > 0 { assert ps[i] == ps[1..][i - 1]; } }
      }
    }
  }

  lemma EmittedCons(ps: seq<seq<byte>>)
    requires |ps| > 0 && |ps[0]| < 65536
    ensures Emitted(ps) == Chunk(ps[0]) + Emitted(ps[1..])
  {
    assert ps[0][..Truncate(|ps[0]|)] == ps[0];
  }

  lemma {:induction false} DecodesAll(ps: seq<seq<byte>>)
    requires AllCarried(ps)
    ensures Decode(Emitted(ps)) == Body(Concat(ps), [])
  {
    if |ps| == 0 {
      DecodeChunk([], []);
      assert Piece([]) + [] == Piece([]);
    } else {
      forall i | 0 <= i < |ps[1..]| ensures Carried(ps[1..][i]) { assert ps[1..][i] == ps[i + 1]; }
      DecodesAll(ps[1..]);
      EmittedCons(ps);
      DecodeChunk(ps[0], Emitted(ps[1..]));
    }
  }

  /** The decoder consumes every byte and returns the concatenation of the pieces exactly if no piece
      is empty or longer than 65535 bytes. */
  lemma ChunkedExact(ps: seq<seq<byte>>)
    ensures Decode(Emitted(ps)) == Body(Concat(ps), []) <==> AllCarried(ps)
  {
    if AllCarried(ps) { DecodesAll(ps); }
    DecodesAtMost(ps);
    ConcatLength(ps);
  }

  // ---------------------------------------------------------------- a body under a Content-Length

  predicate AllFit(ps: seq<seq<byte>>) { forall i :: 0 <= i < |ps| ==> |ps[i]| < 65536 }

  lemma {:induction false} CarryFits(ps: seq<seq<byte>>)
    ensures TotalLength(Carry(ps)) <= TotalLength(ps)
    ensures TotalLength(Carry(ps)) == TotalLength(ps) ==> AllFit(ps)
    ensures AllFit(ps) ==> Carry(ps) == ps
  {
    if |ps| != 0 {
      CarryFits(ps[1..]);
      assert ps == [ps[0]] + ps[1..];
      if AllFit(ps) {
        forall i | 0 <= i < |ps[1..]| ensures |ps[1..][i]| < 65536 { assert ps[1..][i] == ps[i + 1]; }
        assert ps[0][..Truncate(|ps[0]|)] == ps[0];
      }
      if TotalLength(Carry(ps)) == TotalLength(ps) {
        assert Carry(ps)[1..] == Carry(ps[1..]);
        forall i | 0 <= i < |ps| ensures |ps[i]| < 65536 { if i > 0 { assert ps[i] == ps[1..][i - 1]; } }
      }
    }
  }

  /** Without the chunked coding the bytes are the body exactly if no piece is longer than 65535 bytes;
      empty pieces do no harm. */
  lemma PlainExact(ps: seq<seq<byte>>)
    ensures Concat(Carry(ps)) == Concat(ps) <==> AllFit(ps)
  {
    CarryFits(ps);
    ConcatLength(ps);
    ConcatLength(Carry(ps));
  }
}

/** `skip_trailing_space`, eight bytes at a time, and the byte-order functions it rests on. */
module SkipSpace {
  import opened Bytes

  type u32 = x: int | 0 <= x < 0x1_0000_0000
  type u64 = x: int | 0 <= x < 0x1_0000_0000_0000_0000

  const SPACE: byte := 0x20
  const SPACES: u64 := 0x2020202020202020

  // ---------------------------------------------------------------- byte order

  /** uint4korr: the sum is taken in 32 bits. */
  function Uint4korr(a: seq<byte>): (r: u32)
    requires |a| >= 4
    ensures r == a[0] as int + 0x100 * a[1] as int + 0x1_0000 * a[2] as int + 0x100_0000 * a[3] as int
  {
    (a[0] as int + a[1] as int * 0x100 + a[2] as int * 0x1_0000 + a[3] as int * 0x100_0000) % 0x1_0000_0000
  }

  /** uint8korr: two 32-bit halves, the upper one shifted in 64 bits. */
  function Uint8korr(a: seq<byte>): (r: u64)
    requires |a| >= 8
    ensures r == Uint4korr(a) as int + 0x1_0000_0000 * Uint4korr(a[4..]) as int
  {
    (Uint4korr(a) as int + Uint4korr(a[4..]) as int * 0x1_0000_0000) % 0x1_0000_0000_0000_0000
  }

  /** The four base-256 digits of a 32-bit value. */
  lemma Digits(x: u32)
    ensures x == x % 0x100 + 0x100 * (x / 0x100 % 0x100) + 0x1_0000 * (x / 0x1_0000 % 0x100)
               + 0x100_0000 * (x / 0x100_0000 % 0x100)
  {
    var q := x / 0x100;
    var r := q / 0x100;
    assert x / 0x1_0000 == r && x / 0x100_0000 == r / 0x100;
    assert r == 0x100 * (r / 0x100) + r % 0x100 && r / 0x100 < 0x100;
    assert q == 0x100 * r + q % 0x100;
  }

  method Int4Store(t: array<byte>, at: nat, x: u32)
    requires at + 4 <= t.Length
    modifies t
    ensures t[..at] == old(t[..at]) && t[at + 4..] == old(t[at + 4..])
    ensures Uint4korr(t[at..at + 4]) == x
  {
    t[at] := x % 0x100;
    t[at + 1] := x / 0x100 % 0x100;
    t[at + 2] := x / 0x1_0000 % 0x100;
    t[at + 3] := x / 0x100_0000 % 0x100;
    Digits(x);
  }

  /** int8store is undone by uint8korr. */
  method Int8Store(t: array<byte>, at: nat, x: u64)
    requires at + 8 <= t.Length
    modifies t
    ensures t[..at] == old(t[..at]) && t[at + 8..] == old(t[at + 8..])
    ensures Uint8korr(t[at..at + 8]) == x
  {
    Int4Store(t, at, x % 0x1_0000_0000);
    ghost var low := t[at..at + 4];
    Int4Store(t, at + 4, x / 0x1_0000_0000);
    assert t[..at] == t[..at + 4][..at];
    assert t[at..at + 4] == t[..at + 4][at..] == low;
    ghost var w := t[at..at + 8];
    assert w[..4] == t[at..at + 4];
    assert w[4..] == t[at + 4..at + 8];
    assert Uint4korr(w) == Uint4korr(low);
  }

  /** The lowest digit and the rest of a base-256 number are determined by the number. */
  lemma LowDigit(x: byte, y: nat, x': byte, y': nat)
    requires x as int + 0x100 * y == x' as int + 0x100 * y'
    ensures x == x' && y == y'
  {
  }

  lemma Uint4korrInjective(a: seq<byte>, b: seq<byte>)
    requires |a| == |b| == 4 && Uint4korr(a) == Uint4korr(b)
    ensures a == b
  {
    var a2, b2 := a[2] as int + 0x100 * a[3] as int, b[2] as int + 0x100 * b[3] as int;
    var a1, b1 := a[1] as int + 0x100 * a2, b[1] as int + 0x100 * b2;
    LowDigit(a[0], a1, b[0], b1);
    LowDigit(a[1], a2, b[1], b2);
    LowDigit(a[2], a[3], b[2], b[3]);
  }

  lemma Halves(l: u32, h: u32, l': u32, h': u32)
    requires l as int + 0x1_0000_0000 * h as int == l' as int + 0x1_0000_0000 * h' as int
    ensures l == l' && h == h'
  {
  }

  lemma Uint8korrInjective(a: seq<byte>, b: seq<byte>)
    requires |a| == |b| == 8 && Uint8korr(a) == Uint8korr(b)
    ensures a == b
  {
    Halves(Uint4korr(a), Uint4korr(a[4..]), Uint4korr(b), Uint4korr(b[4..]));
    assert Uint4korr(a[..4]) == Uint4korr(a) && Uint4korr(b[..4]) == Uint4korr(b);
    Uint4korrInjective(a[..4], b[..4]);
    Uint4korrInjective(a[4..], b[4..]);
    assert a == a[..4] + a[4..] && b == b[..4] + b[4..];
  }

  /** The word test is the test of all eight bytes. */
  lemma WordOfSpaces(a: seq<byte>)
    requires |a| == 8
    ensures Uint8korr(a) == SPACES <==> forall i :: 0 <= i < 8 ==> a[i] == SPACE
  {
    var s: seq<byte> := [SPACE, SPACE, SPACE, SPACE, SPACE, SPACE, SPACE, SPACE];
    assert Uint8korr(s) == SPACES;
    if Uint8korr(a) == SPACES { Uint8korrInjective(a, s); }
    if forall i :: 0 <= i < 8 ==> a[i] == SPACE { assert a == s; }
  }

  // ---------------------------------------------------------------- the two scans

  /** The byte-wise scan: the end of s without its trailing spaces. */
  function Trimmed(s: seq<byte>): (end: nat)
    ensures end <= |s|
    ensures forall i :: end <= i < |s| ==> s[i] == SPACE
    ensures end > 0 ==> s[end - 1] != SPACE
  {
    if |s| > 0 && s[|s| - 1] == SPACE then Trimmed(s[..|s| - 1]) else |s|
  }

  method SkipTrailingSpace(s: seq<byte>) returns (end: nat)
    ensures end == Trimmed(s)
  {
    end := |s|;
    while end >= 8
      invariant end <= |s| && forall i :: end <= i < |s| ==> s[i] == SPACE
    {
      var word := s[end - 8..end];
      WordOfSpaces(word);
      if Uint8korr(word) != SPACES {
        break;
      }
      forall i | end - 8 <= i < end ensures s[i] == SPACE { assert s[i] == word[i - (end - 8)]; }
      end := end - 8;
    }
    while end > 0 && s[end - 1] == SPACE
      invariant end <= |s| && forall i :: end <= i < |s| ==> s[i] == SPACE
    {
      end := end - 1;
    }
  }
}

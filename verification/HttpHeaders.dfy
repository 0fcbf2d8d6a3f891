/** The request headers of an HTTP connection, collected from parser callbacks that deliver names and
    values in fragments. */
module HttpHeaders {
  import opened Bytes

  type Headers = map<string, string>

  /** '_' becomes '-', upper case becomes lower case. */
  function NormalChar(c: char): char {
    if c == '_' then '-' else if 'A' <= c <= 'Z' then c - 'A' + 'a' else c
  }

  function Normal(s: string): (r: string)
    ensures |r| == |s|
  {
    seq(|s|, i requires 0 <= i < |s| => NormalChar(s[i]))
  }

  /** One header line as the parser reports it: its name in one or more pieces, then its value. */
  datatype Line = Line(names: seq<string>, values: seq<string>)
  {
    function Name(): string { Concat(names) }
    function Text(): string { Concat(values) }
  }

  // ---------------------------------------------------------------- what the headers mean

  /** Later duplicates win. */
  function Fold(m: Headers, pairs: seq<(string, string)>): Headers
    decreases |pairs|
  {
    if |pairs| == 0 then m else Fold(m[Normal(pairs[0].0) := pairs[0].1], pairs[1..])
  }

  function Pairs(lines: seq<Line>): seq<(string, string)> {
    if |lines| == 0 then [] else [(lines[0].Name(), lines[0].Text())] + Pairs(lines[1..])
  }

  /** What the connection makes of the lines: a line without a value leaves its name in front of the
      name of the next one. */
  function Glued(left: string, lines: seq<Line>): seq<(string, string)>
    decreases |lines|
  {
    if |lines| == 0 then []
    else
      var name := left + lines[0].Name();
      if lines[0].Text() == "" then Glued(name, lines[1..])
      else [(name, lines[0].Text())] + Glued("", lines[1..])
  }

  // ---------------------------------------------------------------- callbacks

  datatype State = State(key: string, val: string, headers: Headers)

  /** header_add, when a value is there. */
  function Flush(s: State): State {
    if |s.val| > 0 then State("", "", s.headers[Normal(s.key) := s.val]) else s
  }

  function OnNames(s: State, names: seq<string>): State
    decreases |names|
  {
    if |names| == 0 then s else OnNames(Flush(s).(key := Flush(s).key + names[0]), names[1..])
  }

  function OnValues(s: State, values: seq<string>): State
    decreases |values|
  {
    if |values| == 0 then s else OnValues(s.(val := s.val + values[0]), values[1..])
  }

  /** All callbacks of the lines, in order. */
  function OnLines(s: State, lines: seq<Line>): State
    decreases |lines|
  {
    if |lines| == 0 then s else OnLines(OnValues(OnNames(s, lines[0].names), lines[0].values), lines[1..])
  }

  predicate Reported(lines: seq<Line>) { forall i :: 0 <= i < |lines| ==> |lines[i].names| > 0 }

  class ServerConnection {
    var key: string            // key_
    var val: string            // val_
    var headers: Headers       // header_

    constructor ()
      ensures S() == State("", "", map[])
    {
      key, val, headers := "", "", map[];
    }

    function S(): State
      reads this
    {
      State(key, val, headers)
    }

    /** The name is normalised in place, byte by byte, and both buffers are moved into the map. */
    method HeaderAdd()
      requires |val| > 0
      modifies this
      ensures S() == Flush(old(S()))
    {
      var c := 0;
      while c < |key|
        invariant c <= |key| == |old(key)| && val == old(val) && headers == old(headers)
        invariant forall i :: 0 <= i < |key| ==> key[i] == if i < c then NormalChar(old(key)[i]) else old(key)[i]
      {
        if key[c] == '_' {
          key := key[c := '-'];
        } else if 'A' <= key[c] <= 'Z' {
          key := key[c := key[c] - 'A' + 'a'];
        }
        c := c + 1;
      }
      assert key == Normal(old(key));
      headers := headers[key := val];
      key, val := "", "";
    }

    method FieldCb(at: string)
      modifies this
      ensures S() == Flush(old(S())).(key := Flush(old(S())).key + at)
    {
      if |val| > 0 {
        HeaderAdd();
      }
      key := key + at;
    }

    method ValueCb(at: string)
      modifies this
      ensures S() == old(S()).(val := old(val) + at)
    {
      val := val + at;
    }

    method CompleteCb()
      modifies this
      ensures S() == Flush(old(S()))
    {
      if |val| > 0 {
        HeaderAdd();
      }
    }

    /** The parser's callbacks for a request with these lines. */
    method Parse(lines: seq<Line>)
      requires S() == State("", "", map[]) && Reported(lines)
      modifies this
      ensures headers == Fold(map[], Glued("", lines))
      ensures (forall i :: 0 <= i < |lines| ==> lines[i].Text() != "") ==> headers == Fold(map[], Pairs(lines))
    {
      for i := 0 to |lines|
        invariant OnLines(S(), lines[i..]) == OnLines(State("", "", map[]), lines)
      {
        var line := lines[i];
        ghost var s := S();
        for k := 0 to |line.names|
          invariant OnNames(S(), line.names[k..]) == OnNames(s, line.names)
        {
          FieldCb(line.names[k]);
        }
        ghost var t := S();
        for k := 0 to |line.values|
          invariant OnValues(S(), line.values[k..]) == OnValues(t, line.values)
        {
          ValueCb(line.values[k]);
        }
      }
      LinesGlued(State("", "", map[]), lines);
      GluedExact(lines);
      CompleteCb();
    }
  }

  // ---------------------------------------------------------------- fragments do not matter

  lemma {:induction false} NamesConcat(s: State, names: seq<string>)
    requires s.val == ""
    ensures OnNames(s, names) == s.(key := s.key + Concat(names))
    decreases |names|
  {
    if |names| == 0 {
      assert s.key + "" == s.key;
    } else {
      NamesConcat(s.(key := s.key + names[0]), names[1..]);
      assert s.key + names[0] + Concat(names[1..]) == s.key + Concat(names);
    }
  }

  lemma {:induction false} ValuesConcat(s: State, values: seq<string>)
    ensures OnValues(s, values) == s.(val := s.val + Concat(values))
    decreases |values|
  {
    if |values| == 0 {
      assert s.val + "" == s.val;
    } else {
      ValuesConcat(s.(val := s.val + values[0]), values[1..]);
      assert s.val + values[0] + Concat(values[1..]) == s.val + Concat(values);
    }
  }

  lemma LineConcat(s: State, line: Line)
    requires |line.names| > 0
    ensures OnValues(OnNames(s, line.names), line.values)
         == State(Flush(s).key + line.Name(), line.Text(), Flush(s).headers)
  {
    var f := Flush(s);
    assert f.val == "";
    NamesConcat(f, line.names);
    assert OnNames(s, line.names) == OnNames(f, line.names);
    ValuesConcat(OnNames(f, line.names), line.values);
    assert "" + Concat(line.values) == Concat(line.values);
  }

  /** The map is a function of the whole names and values, however they are cut. */
  lemma {:induction false} LinesGlued(s: State, lines: seq<Line>)
    requires Reported(lines)
    ensures Flush(OnLines(s, lines)).headers == Fold(Flush(s).headers, Glued(Flush(s).key, lines))
    decreases |lines|
  {
    if |lines| != 0 {
      LineConcat(s, lines[0]);
      var t := OnValues(OnNames(s, lines[0].names), lines[0].values);
      LinesGlued(t, lines[1..]);
      var g := Glued(Flush(s).key, lines);
      if lines[0].Text() != "" {
        assert g[1..] == Glued("", lines[1..]);
      }
    }
  }

  lemma {:induction false} GluedLength(left: string, lines: seq<Line>)
    ensures |Glued(left, lines)| <= |lines| == |Pairs(lines)|
    ensures |Glued(left, lines)| == |lines| ==> forall i :: 0 <= i < |lines| ==> lines[i].Text() != ""
    decreases |lines|
  {
    if |lines| != 0 {
      GluedLength(if lines[0].Text() == "" then left + lines[0].Name() else "", lines[1..]);
      if |Glued(left, lines)| == |lines| {
        forall i | 0 <= i < |lines| ensures lines[i].Text() != "" { if i > 0 { assert lines[i] == lines[1..][i - 1]; } }
      }
    }
  }

  lemma {:induction false} NothingGlued(lines: seq<Line>)
    requires forall i :: 0 <= i < |lines| ==> lines[i].Text() != ""
    ensures Glued("", lines) == Pairs(lines)
  {
    if |lines| != 0 {
      forall i | 0 <= i < |lines[1..]| ensures lines[1..][i].Text() != "" { assert lines[1..][i] == lines[i + 1]; }
      NothingGlued(lines[1..]);
      assert "" + lines[0].Name() == lines[0].Name();
    }
  }

  /** The lines are taken one by one exactly if none of them has an empty value. */
  lemma {:induction false} GluedExact(lines: seq<Line>)
    ensures Glued("", lines) == Pairs(lines) <==> forall i :: 0 <= i < |lines| ==> lines[i].Text() != ""
  {
    GluedLength("", lines);
    if forall i :: 0 <= i < |lines| ==> lines[i].Text() != "" { NothingGlued(lines); }
  }

  lemma GluedCons(left: string, line: Line, lines: seq<Line>)
    ensures Glued(left, [line] + lines) ==
      if line.Text() == "" then Glued(left + line.Name(), lines)
      else [(left + line.Name(), line.Text())] + Glued("", lines)
    ensures Pairs([line] + lines) == [(line.Name(), line.Text())] + Pairs(lines)
  {
    assert ([line] + lines)[1..] == lines;
  }

  lemma FoldCons(m: Headers, pair: (string, string), pairs: seq<(string, string)>)
    ensures Fold(m, [pair] + pairs) == Fold(m[Normal(pair.0) := pair.1], pairs)
  {
    assert ([pair] + pairs)[1..] == pairs;
  }

  // Four lines with one empty value.
  const NONE := Line(["a"], [])
  const ONE := Line(["a"], ["1"])
  const TWICE := Line(["aa"], ["1"])
  const END := [("a", "1")] + []

  lemma HarmlessLines(lines: seq<Line>)
    requires lines == [NONE] + ([ONE] + ([TWICE] + ([ONE] + [])))
    ensures NONE.Text() == ""
    ensures Glued("", lines) == [("aa", "1")] + ([("aa", "1")] + END)
    ensures Pairs(lines) == [("a", "")] + ([("a", "1")] + ([("aa", "1")] + END))
  {
    assert NONE.Name() == ONE.Name() == "a" && TWICE.Name() == "aa";
    assert NONE.Text() == "" && ONE.Text() == TWICE.Text() == "1";
    assert "" + "a" == "a" && "a" + "a" == "aa" && "" + "aa" == "aa";
    GluedCons("", NONE, [ONE] + ([TWICE] + ([ONE] + [])));
    GluedCons("a", ONE, [TWICE] + ([ONE] + []));
    GluedCons("", TWICE, [ONE] + []);
    GluedCons("", ONE, []);
  }

  lemma HarmlessFolds()
    ensures Fold(map[], [("aa", "1")] + ([("aa", "1")] + END)) == map["aa" := "1", "a" := "1"]
    ensures Fold(map[], [("a", "")] + ([("a", "1")] + ([("aa", "1")] + END))) == map["aa" := "1", "a" := "1"]
  {
    assert Normal("a") == "a" && Normal("aa") == "aa";
    FoldCons(map[], ("aa", "1"), [("aa", "1")] + END);
    FoldCons(map["aa" := "1"], ("aa", "1"), END);
    FoldCons(map["aa" := "1"], ("a", "1"), []);
    FoldCons(map[], ("a", ""), [("a", "1")] + ([("aa", "1")] + END));
    FoldCons(map["a" := ""], ("a", "1"), [("aa", "1")] + END);
    FoldCons(map["a" := "1"], ("aa", "1"), END);
    FoldCons(map["a" := "1", "aa" := "1"], ("a", "1"), []);
    assert map["aa" := "1"]["aa" := "1"] == map["aa" := "1"] && map["a" := ""]["a" := "1"] == map["a" := "1"];
    assert map["a" := "1", "aa" := "1"]["a" := "1"] == map["aa" := "1", "a" := "1"];
  }

  /** The map may come out right all the same. */
  lemma GluedHarmless() returns (lines: seq<Line>)
    ensures Reported(lines) && exists i :: 0 <= i < |lines| && lines[i].Text() == ""
    ensures Fold(map[], Glued("", lines)) == Fold(map[], Pairs(lines))
  {
    lines := [NONE] + ([ONE] + ([TWICE] + ([ONE] + [])));
    HarmlessLines(lines);
    HarmlessFolds();
    assert lines[0] == NONE && |lines| == 4 && lines[1] == ONE && lines[2] == TWICE && lines[3] == ONE;
  }

  // ---------------------------------------------------------------- what names and duplicates mean

  /** The same letter in either case, or the two separators. */
  predicate SameChar(c: char, d: char) {
    || c == d
    || (c in "-_" && d in "-_")
    || ('A' <= c <= 'Z' && d as int == c as int + 32)
    || ('A' <= d <= 'Z' && c as int == d as int + 32)
  }

  predicate SameName(a: string, b: string) { |a| == |b| && forall i :: 0 <= i < |a| ==> SameChar(a[i], b[i]) }

  lemma NormalCharMeans(c: char, d: char)
    ensures NormalChar(c) == NormalChar(d) <==> SameChar(c, d)
    ensures NormalChar(c) != '_' && !('A' <= NormalChar(c) <= 'Z') && SameChar(c, NormalChar(c))
  {
  }

  /** Two names are stored under one key exactly if they differ only in case and in '_' against '-'; the key is
      such a name itself, in lower case and with '-'. */
  lemma NormalMeans(a: string, b: string)
    ensures Normal(a) == Normal(b) <==> SameName(a, b)
    ensures SameName(a, Normal(a))
    ensures forall i :: 0 <= i < |a| ==> Normal(a)[i] != '_' && !('A' <= Normal(a)[i] <= 'Z')
  {
    forall i | 0 <= i < |a|
      ensures Normal(a)[i] != '_' && !('A' <= Normal(a)[i] <= 'Z') && SameChar(a[i], Normal(a)[i])
    {
      NormalCharMeans(a[i], a[i]);
    }
    if |a| == |b| {
      forall i | 0 <= i < |a| ensures Normal(a)[i] == Normal(b)[i] <==> SameChar(a[i], b[i]) {
        NormalCharMeans(a[i], b[i]);
      }
    }
  }

  /** pairs[i] is the last one with the name k. */
  predicate LastAt(pairs: seq<(string, string)>, k: string, i: int) {
    && 0 <= i < |pairs| && Normal(pairs[i].0) == k
    && forall j :: i < j < |pairs| ==> Normal(pairs[j].0) != k
  }

  /** Of several headers with the same name the last one is kept. */
  lemma {:induction false} LastWins(m: Headers, pairs: seq<(string, string)>, k: string)
    ensures k in Fold(m, pairs) <==> k in m || exists i :: 0 <= i < |pairs| && Normal(pairs[i].0) == k
    ensures (forall i :: 0 <= i < |pairs| ==> Normal(pairs[i].0) != k) && k in m ==> Fold(m, pairs)[k] == m[k]
    ensures forall i :: LastAt(pairs, k, i) ==> k in Fold(m, pairs) && Fold(m, pairs)[k] == pairs[i].1
    decreases |pairs|
  {
    if |pairs| != 0 {
      var rest, m' := pairs[1..], m[Normal(pairs[0].0) := pairs[0].1];
      assert forall i :: 0 <= i < |rest| ==> rest[i] == pairs[i + 1];
      LastWins(m', rest, k);
      if exists i :: 0 <= i < |pairs| && Normal(pairs[i].0) == k {
        var i :| 0 <= i < |pairs| && Normal(pairs[i].0) == k;
        if i > 0 { assert Normal(rest[i - 1].0) == k; }
      }
      forall i | LastAt(pairs, k, i) ensures k in Fold(m, pairs) && Fold(m, pairs)[k] == pairs[i].1 {
        if i > 0 {
          assert LastAt(rest, k, i - 1);
        } else {
          assert forall j :: 0 <= j < |rest| ==> Normal(rest[j].0) != k;
        }
      }
    }
  }
}

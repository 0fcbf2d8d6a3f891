/** The SQL that a WHERE clause is read as: tokens, a parser with AND binding tighter than OR, and
    three-valued truth. */
module SqlSyntax {
  import opened Options

  datatype Scalar = Null | Bool(b: bool) | Int(n: int) | Str(s: string)

  datatype Token =
    | WhereT | AndT | OrT | OpenT | CloseT | CommaT
    | FieldT(name: string)        // `name`
    | CmpT(op: Cmp)
    | IsNullT | IsNotNullT | InT
    | LitT(v: Scalar)
    | RawT(text: string)          // text that the caller wrote as SQL

  datatype Cmp = Eq | Ne | Gt | Ge | Lt | Le | Like

  datatype Expr =
    | And(l: Expr, r: Expr)
    | Or(l: Expr, r: Expr)
    | Compare(field: string, op: Cmp, v: Scalar)
    | In(field: string, vs: seq<Scalar>)
    | IsNull(field: string)
    | IsNotNull(field: string)

  // ---------------------------------------------------------------- truth

  datatype Truth = True | False | Unknown

  function And3(a: Truth, b: Truth): Truth {
    if a == False || b == False then False else if a == True && b == True then True else Unknown
  }

  function Or3(a: Truth, b: Truth): Truth {
    if a == True || b == True then True else if a == False && b == False then False else Unknown
  }

  function Of(b: bool): Truth { if b then True else False }

  /** A row, and how the server compares values that are not NULL. */
  datatype Db = Db(
    row: string -> Scalar,
    same: (Scalar, Scalar) -> bool,
    less: (Scalar, Scalar) -> bool,
    like: (Scalar, Scalar) -> bool)

  function Test(db: Db, x: Scalar, op: Cmp, y: Scalar): Truth {
    if x == Null || y == Null then Unknown
    else match op
      case Eq => Of(db.same(x, y))
      case Ne => Of(!db.same(x, y))
      case Gt => Of(db.less(y, x))
      case Ge => Of(db.less(y, x) || db.same(x, y))
      case Lt => Of(db.less(x, y))
      case Le => Of(db.less(x, y) || db.same(x, y))
      case Like => Of(db.like(x, y))
  }

  function AnyOf(db: Db, x: Scalar, vs: seq<Scalar>): Truth {
    if |vs| == 0 then False else Or3(Test(db, x, Eq, vs[0]), AnyOf(db, x, vs[1..]))
  }

  function Eval(e: Expr, db: Db): Truth {
    match e
    case And(l, r) => And3(Eval(l, db), Eval(r, db))
    case Or(l, r) => Or3(Eval(l, db), Eval(r, db))
    case Compare(f, op, v) => Test(db, db.row(f), op, v)
    case In(f, vs) => AnyOf(db, db.row(f), vs)
    case IsNull(f) => Of(db.row(f) == Null)
    case IsNotNull(f) => Of(db.row(f) != Null)
  }

  // ---------------------------------------------------------------- parser

  type Parsed = Option<(Expr, seq<Token>)>

  predicate Starts(s: seq<Token>, t: Token) { |s| > 0 && s[0] == t }

  /** disjunction: conjunction (OR conjunction)* */
  function ParseOr(s: seq<Token>): (r: Parsed)
    ensures r.Some? ==> |r.value.1| < |s|
    decreases |s|, 4
  {
    match ParseAnd(s)
    case None => None
    case Some((e, rest)) => ParseOrTail(e, rest)
  }

  function ParseOrTail(acc: Expr, s: seq<Token>): (r: Parsed)
    ensures r.Some? ==> |r.value.1| <= |s|
    decreases |s|, 3
  {
    if !Starts(s, OrT) then Some((acc, s))
    else match ParseAnd(s[1..])
      case None => None
      case Some((e, rest)) => ParseOrTail(Or(acc, e), rest)
  }

  /** conjunction: primary (AND primary)* */
  function ParseAnd(s: seq<Token>): (r: Parsed)
    ensures r.Some? ==> |r.value.1| < |s|
    decreases |s|, 2
  {
    match ParsePrimary(s)
    case None => None
    case Some((e, rest)) => ParseAndTail(e, rest)
  }

  function ParseAndTail(acc: Expr, s: seq<Token>): (r: Parsed)
    ensures r.Some? ==> |r.value.1| <= |s|
    decreases |s|, 1
  {
    if !Starts(s, AndT) then Some((acc, s))
    else match ParsePrimary(s[1..])
      case None => None
      case Some((e, rest)) => ParseAndTail(And(acc, e), rest)
  }

  /** primary: ( disjunction ) | field test */
  function ParsePrimary(s: seq<Token>): (r: Parsed)
    ensures r.Some? ==> |r.value.1| < |s|
    decreases |s|, 0
  {
    if Starts(s, OpenT) then
      match ParseOr(s[1..])
      case None => None
      case Some((e, rest)) => if Starts(rest, CloseT) then Some((e, rest[1..])) else None
    else if |s| >= 2 && s[0].FieldT? then
      match s[1]
      case IsNullT => Some((IsNull(s[0].name), s[2..]))
      case IsNotNullT => Some((IsNotNull(s[0].name), s[2..]))
      case CmpT(op) => if |s| >= 3 && s[2].LitT? then Some((Compare(s[0].name, op, s[2].v), s[3..])) else None
      case InT =>
        if |s| >= 3 && s[2] == OpenT then
          match ParseList(s[3..])
          case None => None
          case Some((vs, rest)) => Some((In(s[0].name, vs), rest))
        else None
      case _ => None
    else None
  }

  /** literal (, literal)* ) */
  function ParseList(s: seq<Token>): (r: Option<(seq<Scalar>, seq<Token>)>)
    ensures r.Some? ==> |r.value.1| < |s|
    decreases |s|
  {
    if |s| < 2 || !s[0].LitT? then None
    else if s[1] == CloseT then Some(([s[0].v], s[2..]))
    else if s[1] != CommaT then None
    else match ParseList(s[2..])
      case None => None
      case Some((vs, rest)) => Some(([s[0].v] + vs, rest))
  }

  // ---------------------------------------------------------------- a whole clause

  /** What a server makes of the tokens after the table. */
  datatype Clause =
    | Everything                 // no WHERE
    | Verbatim(sql: string)      // WHERE and text that the caller wrote
    | Filter(e: Expr)
    | Garbled

  function ReadClause(s: seq<Token>): Clause {
    if |s| == 0 then Everything
    else if s[0] != WhereT then Garbled
    else if |s| == 2 && s[1].RawT? then Verbatim(s[1].text)
    else match ParseOr(s[1..])
      case Some((e, rest)) => if |rest| == 0 then Filter(e) else Garbled
      case None => Garbled
  }

  // ---------------------------------------------------------------- the truth tables, by what they mean

  function Not3(a: Truth): Truth { match a case True => False case False => True case Unknown => Unknown }

  /** AND is true if both are, and false if one of them is; OR is its dual. */
  lemma TruthTables(a: Truth, b: Truth)
    ensures And3(a, b) == True <==> a == True && b == True
    ensures And3(a, b) == False <==> a == False || b == False
    ensures Or3(a, b) == Not3(And3(Not3(a), Not3(b)))
  {
  }

  /** A comparison of integers is the one its operator says, and one with NULL is unknown. */
  lemma TestMeans(db: Db, op: Cmp, x: int, y: int)
    requires forall a, b :: db.same(Int(a), Int(b)) == (a == b) && db.less(Int(a), Int(b)) == (a < b)
    requires op != Like
    ensures Test(db, Int(x), op, Int(y)) == True <==>
      match op case Eq => x == y case Ne => x != y case Gt => x > y case Ge => x >= y case Lt => x < y case Le => x <= y
    ensures Test(db, Int(x), op, Int(y)) != Unknown
  {
  }

  lemma TestNull(db: Db, op: Cmp, x: Scalar, y: Scalar)
    ensures Test(db, x, op, y) == Unknown <==> x == Null || y == Null
  {
  }

  /** LIKE asks the server, with the value first and the pattern second. */
  lemma LikeMeans(db: Db, x: string, y: string)
    ensures Test(db, Str(x), Like, Str(y)) == True <==> db.like(Str(x), Str(y))
  {
  }

  /** A value is in a list if it equals one of its members. */
  lemma {:induction false} AnyOfMeans(db: Db, x: Scalar, vs: seq<Scalar>)
    ensures AnyOf(db, x, vs) == True <==> exists i :: 0 <= i < |vs| && Test(db, x, Eq, vs[i]) == True
    ensures AnyOf(db, x, vs) == False <==> forall i :: 0 <= i < |vs| ==> Test(db, x, Eq, vs[i]) == False
  {
    if |vs| != 0 {
      AnyOfMeans(db, x, vs[1..]);
      assert forall i :: 0 <= i < |vs| - 1 ==> vs[1..][i] == vs[i + 1];
      if AnyOf(db, x, vs[1..]) == True {
        var i :| 0 <= i < |vs| - 1 && Test(db, x, Eq, vs[1..][i]) == True;
        assert Test(db, x, Eq, vs[i + 1]) == True;
      }
      if exists i :: 0 <= i < |vs| && Test(db, x, Eq, vs[i]) == True {
        var i :| 0 <= i < |vs| && Test(db, x, Eq, vs[i]) == True;
        if i > 0 { assert Test(db, x, Eq, vs[1..][i - 1]) == True; }
      }
      if forall i :: 0 <= i < |vs| ==> Test(db, x, Eq, vs[i]) == False {
        forall i | 0 <= i < |vs| - 1 ensures Test(db, x, Eq, vs[1..][i]) == False {
          assert Test(db, x, Eq, vs[i + 1]) == False;
        }
      } else {
        var i :| 0 <= i < |vs| && Test(db, x, Eq, vs[i]) != False;
        if i > 0 { assert Test(db, x, Eq, vs[1..][i - 1]) != False; }
      }
    }
  }

  /** AND binds tighter than OR, to its left and to its right. */
  lemma AndAfterOr(f: string, g: string, h: string)
    ensures ParseOr([FieldT(f), IsNullT, OrT, FieldT(g), IsNullT, AndT, FieldT(h), IsNullT])
         == Some((Or(IsNull(f), And(IsNull(g), IsNull(h))), []))
  {
    var c := [FieldT(h), IsNullT];
    var b := [FieldT(g), IsNullT];
    assert ParseAnd(c) == Some((IsNull(h), []));
    var s := [FieldT(f), IsNullT, OrT] + (b + ([AndT] + c));
    assert s == [FieldT(f), IsNullT, OrT, FieldT(g), IsNullT, AndT, FieldT(h), IsNullT];
    var s1 := b + ([AndT] + c);
    assert s1[2..] == [AndT] + c && s1[2..][1..] == c;
    assert ParsePrimary(s1) == Some((IsNull(g), [AndT] + c));
    assert ParseAndTail(IsNull(g), [AndT] + c) == ParseAndTail(And(IsNull(g), IsNull(h)), []);
    assert ParseAnd(s1) == Some((And(IsNull(g), IsNull(h)), []));
    assert s[2..] == [OrT] + s1 && s[2..][1..] == s1;
    assert ParseAnd(s) == Some((IsNull(f), [OrT] + s1));
    assert ParseOrTail(IsNull(f), [OrT] + s1) == ParseOrTail(Or(IsNull(f), And(IsNull(g), IsNull(h))), []);
  }

  lemma AndBeforeOr(f: string, g: string, h: string)
    ensures ParseOr([FieldT(f), IsNullT, AndT, FieldT(g), IsNullT, OrT, FieldT(h), IsNullT])
         == Some((Or(And(IsNull(f), IsNull(g)), IsNull(h)), []))
  {
    var c := [FieldT(h), IsNullT];
    var b := [FieldT(g), IsNullT];
    assert ParseAnd(c) == Some((IsNull(h), []));
    var t1 := b + ([OrT] + c);
    var t := [FieldT(f), IsNullT, AndT] + t1;
    assert t == [FieldT(f), IsNullT, AndT, FieldT(g), IsNullT, OrT, FieldT(h), IsNullT];
    assert t1[2..] == [OrT] + c && t1[2..][1..] == c;
    assert ([OrT] + c)[1..] == c;
    assert ParsePrimary(t1) == Some((IsNull(g), [OrT] + c));
    assert t[2..] == [AndT] + t1 && t[2..][1..] == t1 && ([AndT] + t1)[1..] == t1;
    assert ParsePrimary(t) == Some((IsNull(f), [AndT] + t1));
    assert ParseAndTail(IsNull(f), [AndT] + t1) == ParseAndTail(And(IsNull(f), IsNull(g)), [OrT] + c);
    assert ParseAnd(t) == Some((And(IsNull(f), IsNull(g)), [OrT] + c));
    assert ParseOrTail(And(IsNull(f), IsNull(g)), [OrT] + c) == ParseOrTail(Or(And(IsNull(f), IsNull(g)), IsNull(h)), []);
  }
}

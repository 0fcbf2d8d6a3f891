/** The WHERE printer of the MySQL client, at token level. */
module SqlWhere {
  import opened Options
  import opened PhpKeys
  import opened SqlSyntax

  /** A PHP value as the printer sees it; an array is its entries in the order of iteration. */
  datatype Val = One(v: Scalar) | Arr(items: Items)

  datatype Items = End | Entry(key: Key, val: Val, next: Items)

  /** cond.has(0) */
  predicate HasZero(items: Items) { items.Entry? && (items.key == Index(0) || HasZero(items.next)) }

  predicate Prefix(p: string, s: string) { p <= s }

  predicate IsOperator(key: string) { |key| > 0 && key[0] == '$' }

  predicate IsAnd(key: string) { Prefix("$and", key) || Prefix("$AND", key) }

  predicate IsOr(key: string) { Prefix("$or", key) || Prefix("$OR", key) }

  // ---------------------------------------------------------------- what is printed

  /** val_to_buffer: an empty array prints its closing parenthesis only. */
  function ValTokens(v: Val): seq<Token> {
    match v
    case One(s) => [LitT(s)]
    case Arr(items) => ListTokens(items, true) + [CloseT]
  }

  function ListTokens(items: Items, first: bool): seq<Token> {
    match items
    case End => []
    case Entry(_, v, next) => [if first then OpenT else CommaT] + ValTokens(v) + ListTokens(next, false)
  }

  /** condition_item; None where it throws "illegal sql where".  The groups cast their value to an array
      without looking; a value that is not an array is given the same outcome here. */
  function ItemTokens(key: string, val: Val): Option<seq<Token>>
    decreases val
  {
    if !IsOperator(key) then
      match val
      case Arr(items) =>
        if HasZero(items) then Some([FieldT(key), InT] + ValTokens(val))
        else Append(Some([FieldT(key)]), TailTokens([], items))
      case One(Null) => Some([FieldT(key), IsNullT])
      case One(_) => Some([FieldT(key), CmpT(Eq)] + ValTokens(val))
    else if IsAnd(key) || IsOr(key) then
      match val
      case One(_) => None
      case Arr(items) =>
        Append(Append(Some([OpenT]), JoinTokens([if IsAnd(key) then AndT else OrT], items)), Some([CloseT]))
    else if Prefix("$gt", key) then Some([CmpT(Gt)] + ValTokens(val))
    else if Prefix("$gte", key) then Some([CmpT(Ge)] + ValTokens(val))
    else if Prefix("$lt", key) then Some([CmpT(Lt)] + ValTokens(val))
    else if Prefix("$lte", key) then Some([CmpT(Le)] + ValTokens(val))
    else if Prefix("$ne", key) then
      (if val == One(Null) then Some([IsNotNullT]) else Some([CmpT(Ne)] + ValTokens(val)))
    else if Prefix("$in", key) then Some([InT] + ValTokens(val))
    else if Prefix("$like", key) then Some([CmpT(Like)] + ValTokens(val))
    else None
  }

  /** The items with sep between them. */
  function JoinTokens(sep: seq<Token>, items: Items): Option<seq<Token>>
    decreases items, 1
  {
    match items
    case End => Some([])
    case Entry(k, v, next) => Append(ItemTokens(Text(k), v), TailTokens(sep, next))
  }

  /** The items with sep before each. */
  function TailTokens(sep: seq<Token>, items: Items): Option<seq<Token>>
    decreases items, 0
  {
    match items
    case End => Some([])
    case Entry(k, v, next) => Append(Append(Some(sep), ItemTokens(Text(k), v)), TailTokens(sep, next))
  }

  function Append(a: Option<seq<Token>>, b: Option<seq<Token>>): Option<seq<Token>> {
    if a.None? || b.None? then None else Some(a.value + b.value)
  }

  /** sql_where */
  function WhereTokens(data: Val): Option<seq<Token>> {
    match data
    case One(Str(s)) => Some([WhereT, RawT(s)])
    case One(Null) => Some([])
    case One(_) => None
    case Arr(items) =>
      if HasZero(items) then None
      else Append(Some([WhereT]), JoinTokens([AndT], items))
  }

  // ---------------------------------------------------------------- conditions that the documentation describes

  predicate Scalars(items: Items) {
    items.Entry? ==> items.val.One? && Scalars(items.next)
  }

  function ScalarsOf(items: Items): seq<Scalar>
    requires Scalars(items)
  {
    match items case End => [] case Entry(_, v, next) => [v.v] + ScalarsOf(next)
  }

  /** A list of one or more scalars. */
  predicate List(v: Val) { v.Arr? && v.items.Entry? && Scalars(v.items) }

  /** An operator under a field, with what it is compared to. */
  predicate Operation(op: string, v: Val) {
    if Prefix("$in", op) then List(v)
    else v.One? && (Prefix("$gt", op) || Prefix("$lt", op) || Prefix("$ne", op) || Prefix("$like", op))
  }

  /** A field with a scalar, a non-empty list, or one operator; or a non-empty group of conditions. */
  predicate Condition(key: string, val: Val)
    decreases val
  {
    if !IsOperator(key) then
      match val
      case One(_) => true
      case Arr(items) =>
        if HasZero(items) then List(val)
        else items.Entry? && items.next.End? && Operation(Text(items.key), items.val)
    else (IsAnd(key) || IsOr(key)) && val.Arr? && val.items.Entry? && Conditions(val.items)
  }

  predicate Conditions(items: Items)
    decreases items
  {
    items.Entry? ==> Condition(Text(items.key), items.val) && Conditions(items.next)
  }

  /** The operator that the documentation gives for a key; "$gte" is not "$gt". */
  function Documented(op: string): Cmp
    requires Prefix("$gt", op) || Prefix("$lt", op) || Prefix("$ne", op) || Prefix("$like", op)
  {
    if Prefix("$gte", op) then Ge
    else if Prefix("$gt", op) then Gt
    else if Prefix("$lte", op) then Le
    else if Prefix("$lt", op) then Lt
    else if Prefix("$ne", op) then Ne
    else Like
  }

  function OperationMeaning(db: Db, field: string, op: string, v: Val): Truth
    requires Operation(op, v)
  {
    if Prefix("$in", op) then AnyOf(db, db.row(field), ScalarsOf(v.items))
    else if Prefix("$ne", op) && v.v == Null then Of(db.row(field) != Null)
    else Test(db, db.row(field), Documented(op), v.v)
  }

  /** What a condition says about a row. */
  function Meaning(db: Db, key: string, val: Val): Truth
    requires Condition(key, val)
    decreases val
  {
    if !IsOperator(key) then
      match val
      case One(Null) => Of(db.row(key) == Null)
      case One(v) => Test(db, db.row(key), Eq, v)
      case Arr(items) =>
        if HasZero(items) then AnyOf(db, db.row(key), ScalarsOf(items))
        else OperationMeaning(db, key, Text(items.key), items.val)
    else if IsAnd(key) then AllMeaning(db, val.items)
    else SomeMeaning(db, val.items)
  }

  function AllMeaning(db: Db, items: Items): Truth
    requires Conditions(items)
    decreases items
  {
    match items case End => True case Entry(k, v, next) => And3(Meaning(db, Text(k), v), AllMeaning(db, next))
  }

  function SomeMeaning(db: Db, items: Items): Truth
    requires Conditions(items)
    decreases items
  {
    match items case End => False case Entry(k, v, next) => Or3(Meaning(db, Text(k), v), SomeMeaning(db, next))
  }

  // ---------------------------------------------------------------- what the printed tokens are read as

  /** The operator that is printed for a key: the test for "$gt" comes first and takes "$gte" too. */
  function Printed(op: string): Cmp
    requires Prefix("$gt", op) || Prefix("$lt", op) || Prefix("$ne", op) || Prefix("$like", op)
  {
    if Prefix("$gt", op) then Gt else if Prefix("$lt", op) then Lt else if Prefix("$ne", op) then Ne else Like
  }

  function OperationExpr(field: string, op: string, v: Val): Expr
    requires Operation(op, v)
  {
    if Prefix("$in", op) then In(field, ScalarsOf(v.items))
    else if Prefix("$ne", op) && v.v == Null then IsNotNull(field)
    else Compare(field, Printed(op), v.v)
  }

  function ItemExpr(key: string, val: Val): Expr
    requires Condition(key, val)
    decreases val, 1
  {
    if !IsOperator(key) then
      match val
      case One(Null) => IsNull(key)
      case One(v) => Compare(key, Eq, v)
      case Arr(items) =>
        if HasZero(items) then In(key, ScalarsOf(items)) else OperationExpr(key, Text(items.key), items.val)
    else
      var items := val.items;
      assert Conditions(items);
      var first := ItemExpr(Text(items.key), items.val);
      if IsAnd(key) then AndFrom(first, items.next) else OrFrom(first, items.next)
  }

  function AndFrom(acc: Expr, items: Items): Expr
    requires Conditions(items)
    decreases items, 0
  {
    match items case End => acc case Entry(k, v, next) => AndFrom(And(acc, ItemExpr(Text(k), v)), next)
  }

  function OrFrom(acc: Expr, items: Items): Expr
    requires Conditions(items)
    decreases items, 0
  {
    match items case End => acc case Entry(k, v, next) => OrFrom(Or(acc, ItemExpr(Text(k), v)), next)
  }

  lemma {:induction false} ReadList(items: Items, first: bool, rest: seq<Token>)
    requires items.Entry? && Scalars(items)
    ensures ListTokens(items, first) != [] && ListTokens(items, first)[0] == if first then OpenT else CommaT
    ensures ParseList(ListTokens(items, first)[1..] + [CloseT] + rest) == Some((ScalarsOf(items), rest))
    decreases items
  {
    var ts := ListTokens(items, first);
    var more := ListTokens(items.next, false);
    assert ValTokens(items.val) == [LitT(items.val.v)];
    assert ts[1..] == [LitT(items.val.v)] + more;
    var s := ts[1..] + [CloseT] + rest;
    assert s == [LitT(items.val.v)] + (more + [CloseT] + rest);
    assert ScalarsOf(items) == [items.val.v] + ScalarsOf(items.next);
    if items.next.End? {
      assert s == [LitT(items.val.v), CloseT] + rest && s[2..] == rest;
      assert ScalarsOf(items) == [items.val.v];
    } else {
      ReadList(items.next, false, rest);
      assert s[1] == CommaT;
      assert s[2..] == more[1..] + [CloseT] + rest;
    }
  }

  lemma ReadIn(field: string, v: Val, rest: seq<Token>)
    requires List(v)
    ensures ParsePrimary([FieldT(field), InT] + ValTokens(v) + rest) == Some((In(field, ScalarsOf(v.items)), rest))
  {
    ReadList(v.items, true, rest);
    var s := [FieldT(field), InT] + ValTokens(v) + rest;
    var ts := ListTokens(v.items, true);
    assert s == [FieldT(field), InT] + (ts + [CloseT] + rest);
    assert s[2] == ts[0] && s[3..] == ts[1..] + [CloseT] + rest;
  }

  lemma ReadCompare(field: string, op: Cmp, v: Scalar, rest: seq<Token>)
    ensures ParsePrimary([FieldT(field), CmpT(op), LitT(v)] + rest) == Some((Compare(field, op, v), rest))
  {
  }

  /** The operators' first letters tell them from the groups and from each other. */
  lemma OperatorTokens(op: string, v: Val)
    requires Operation(op, v)
    ensures IsOperator(op) && !IsAnd(op) && !IsOr(op)
    ensures ItemTokens(op, v) == Some(
      if Prefix("$in", op) then [InT] + ValTokens(v)
      else if Prefix("$ne", op) && v.v == Null then [IsNotNullT]
      else [CmpT(Printed(op)), LitT(v.v)])
  {
    assert op[0] == '$';
    if Prefix("$in", op) {
      assert op[1] == 'i';
    } else {
      if Prefix("$gt", op) { assert op[1] == 'g'; }
      else if Prefix("$lt", op) { assert op[1] == 'l' && op[2] == 't'; }
      else if Prefix("$ne", op) { assert op[1] == 'n'; }
      else { assert op[1] == 'l' && op[2] == 'i'; }
      assert [CmpT(Printed(op))] + ValTokens(v) == [CmpT(Printed(op)), LitT(v.v)];
    }
  }

  /** A comparison, list test or null test under a field. */
  lemma ReadOperation(field: string, op: string, v: Val, rest: seq<Token>)
    requires Operation(op, v)
    ensures ItemTokens(op, v).Some?
    ensures ParsePrimary([FieldT(field)] + ItemTokens(op, v).value + rest) == Some((OperationExpr(field, op, v), rest))
  {
    OperatorTokens(op, v);
    var s := [FieldT(field)] + ItemTokens(op, v).value + rest;
    if Prefix("$in", op) {
      ReadIn(field, v, rest);
      assert s == [FieldT(field), InT] + ValTokens(v) + rest;
    } else if Prefix("$ne", op) && v.v == Null {
      assert s == [FieldT(field), IsNotNullT] + rest;
    } else {
      ReadCompare(field, Printed(op), v.v, rest);
      assert s == [FieldT(field), CmpT(Printed(op)), LitT(v.v)] + rest;
    }
  }

  lemma {:induction false} ReadField(key: string, val: Val, rest: seq<Token>)
    requires Condition(key, val) && !IsOperator(key)
    ensures ItemTokens(key, val).Some?
    ensures ParsePrimary(ItemTokens(key, val).value + rest) == Some((ItemExpr(key, val), rest))
  {
    match val {
      case One(Null) => assert ItemTokens(key, val).value + rest == [FieldT(key), IsNullT] + rest;
      case One(v) => assert ItemTokens(key, val).value + rest == [FieldT(key), CmpT(Eq), LitT(v)] + rest;
      case Arr(items) =>
        if HasZero(items) {
          ReadIn(key, val, rest);
        } else {
          ReadOneOperation(key, items, rest);
        }
    }
  }

  lemma ReadOneOperation(key: string, items: Items, rest: seq<Token>)
    requires items.Entry? && items.next.End? && Operation(Text(items.key), items.val)
    ensures TailTokens([], items).Some?
    ensures ParsePrimary([FieldT(key)] + TailTokens([], items).value + rest)
         == Some((OperationExpr(key, Text(items.key), items.val), rest))
  {
    var op := Text(items.key);
    ReadOperation(key, op, items.val, rest);
    assert TailTokens([], items.next) == Some([]);
    var ts := ItemTokens(op, items.val).value;
    assert [] + ts + [] == ts;
    assert TailTokens([], items) == Some(ts);
  }

  lemma Bracketed(ts: seq<Token>, rest: seq<Token>)
    ensures var s := [OpenT] + ts + [CloseT] + rest;
      Starts(s, OpenT) && s[1..] == ts + ([CloseT] + rest) && ([CloseT] + rest)[1..] == rest
  {
  }

  /** What is printed for a condition is read, as a primary, as its expression; what follows stays. */
  lemma {:induction false} ReadItem(key: string, val: Val, rest: seq<Token>)
    requires Condition(key, val)
    ensures ItemTokens(key, val).Some?
    ensures ParsePrimary(ItemTokens(key, val).value + rest) == Some((ItemExpr(key, val), rest))
    decreases val, 1
  {
    if !IsOperator(key) {
      ReadField(key, val, rest);
    } else {
      var items := val.items;
      assert Conditions(items);
      var sep := if IsAnd(key) then AndT else OrT;
      ReadGroup(IsAnd(key), items, [CloseT] + rest);
      var ts := JoinTokens([sep], items).value;
      assert ItemTokens(key, val).value == [OpenT] + ts + [CloseT];
      Bracketed(ts, rest);
    }
  }

  function GroupExpr(all: bool, items: Items): Expr
    requires items.Entry? && Conditions(items)
  {
    var first := ItemExpr(Text(items.key), items.val);
    if all then AndFrom(first, items.next) else OrFrom(first, items.next)
  }

  /** A printed list of conditions up to something that cannot continue it. */
  lemma {:induction false} ReadGroup(all: bool, items: Items, rest: seq<Token>)
    requires items.Entry? && Conditions(items)
    requires !Starts(rest, AndT) && !Starts(rest, OrT)
    ensures var ts := JoinTokens([if all then AndT else OrT], items);
      ts.Some? && ParseOr(ts.value + rest) == Some((GroupExpr(all, items), rest))
    decreases items, 1
  {
    var k, v, next := Text(items.key), items.val, items.next;
    var first := ItemExpr(k, v);
    if all {
      ReadAndTail(first, next, rest);
      var b := TailTokens([AndT], next).value;
      ReadItem(k, v, b + rest);
      Group1(items, AndT, b, rest);
    } else {
      ReadOrTail(first, next, rest);
      var b := TailTokens([OrT], next).value;
      ReadItem(k, v, b + rest);
      Group1(items, OrT, b, rest);
      OrTailStarts(next, rest);
      assert ParseAnd(ItemTokens(k, v).value + (b + rest)) == Some((first, b + rest));
    }
  }

  lemma Group1(items: Items, sep: Token, b: seq<Token>, rest: seq<Token>)
    requires items.Entry? && TailTokens([sep], items.next) == Some(b) && ItemTokens(Text(items.key), items.val).Some?
    ensures JoinTokens([sep], items).Some?
    ensures JoinTokens([sep], items).value + rest == ItemTokens(Text(items.key), items.val).value + (b + rest)
  {
  }

  /** The tail of an OR group does not go on with AND. */
  lemma OrTailStarts(items: Items, rest: seq<Token>)
    requires TailTokens([OrT], items).Some? && !Starts(rest, AndT)
    ensures !Starts(TailTokens([OrT], items).value + rest, AndT)
  {
    if items.Entry? { assert Starts(TailTokens([OrT], items).value, OrT); }
  }

  /** A printed tail is its separator, its first entry, and the rest of the tail. */
  lemma TailSplit(items: Items, sep: Token, b: seq<Token>, rest: seq<Token>)
    requires items.Entry? && TailTokens([sep], items.next) == Some(b) && ItemTokens(Text(items.key), items.val).Some?
    ensures var ts := TailTokens([sep], items);
      && ts.Some?
      && Starts(ts.value + rest, sep)
      && (ts.value + rest)[1..] == ItemTokens(Text(items.key), items.val).value + (b + rest)
  {
    var a := ItemTokens(Text(items.key), items.val).value;
    assert [sep] + a + b + rest == [sep] + (a + (b + rest));
  }

  lemma {:induction false} ReadAndTail(acc: Expr, items: Items, rest: seq<Token>)
    requires Conditions(items) && !Starts(rest, AndT)
    ensures var ts := TailTokens([AndT], items);
      ts.Some? && ParseAndTail(acc, ts.value + rest) == Some((AndFrom(acc, items), rest))
    decreases items, 0
  {
    match items {
      case End => assert [] + rest == rest;
      case Entry(key, v, next) =>
        var e := ItemExpr(Text(key), v);
        ReadAndTail(And(acc, e), next, rest);
        var b := TailTokens([AndT], next).value;
        ReadItem(Text(key), v, b + rest);
        TailSplit(items, AndT, b, rest);
    }
  }

  lemma {:induction false} ReadOrTail(acc: Expr, items: Items, rest: seq<Token>)
    requires Conditions(items) && !Starts(rest, AndT) && !Starts(rest, OrT)
    ensures var ts := TailTokens([OrT], items);
      ts.Some? && ParseOrTail(acc, ts.value + rest) == Some((OrFrom(acc, items), rest))
    decreases items, 0
  {
    match items {
      case End => assert [] + rest == rest;
      case Entry(key, v, next) =>
        var e := ItemExpr(Text(key), v);
        ReadOrTail(Or(acc, e), next, rest);
        var b := TailTokens([OrT], next).value;
        ReadItem(Text(key), v, b + rest);
        OrTailStarts(next, rest);
        TailSplit(items, OrT, b, rest);
        assert ParseAnd((TailTokens([OrT], items).value + rest)[1..]) == Some((e, b + rest));
    }
  }

  // ---------------------------------------------------------------- the meaning is kept

  /** No operator in the condition is one that the printer takes for a shorter one. */
  predicate Unshadowed(key: string, val: Val)
    requires Condition(key, val)
    decreases val
  {
    if !IsOperator(key) then
      val.Arr? && !HasZero(val.items) ==> OperationKept(Text(val.items.key), val.items.val)
    else AllUnshadowed(val.items)
  }

  predicate AllUnshadowed(items: Items)
    requires Conditions(items)
    decreases items
  {
    items.Entry? ==> Unshadowed(Text(items.key), items.val) && AllUnshadowed(items.next)
  }

  /** Neither "$gte" nor "$lte", unless it compares with NULL. */
  predicate OperationKept(op: string, v: Val) {
    (Prefix("$gte", op) || Prefix("$lte", op)) ==> v == One(Null)
  }

  lemma OperationKeeps(db: Db, field: string, op: string, v: Val)
    requires Operation(op, v) && OperationKept(op, v)
    ensures Eval(OperationExpr(field, op, v), db) == OperationMeaning(db, field, op, v)
  {
    if !Prefix("$in", op) && v.v != Null { assert Printed(op) == Documented(op); }
  }

  /** A row that holds exactly the bound tells ">=" from ">". */
  lemma ShadowedDiffers(field: string, op: string, v: Val) returns (db: Db)
    requires Operation(op, v) && !OperationKept(op, v)
    ensures Eval(OperationExpr(field, op, v), db) == False && OperationMeaning(db, field, op, v) == True
  {
    assert op[1] == (if Prefix("$gte", op) then 'g' else 'l') && op[2] == 't' && op[3] == 'e';
    assert !Prefix("$in", op) && !Prefix("$ne", op);
    db := Db(_ => v.v, (_, _) => true, (_, _) => false, (_, _) => false);
  }

  /** A single operator keeps its meaning on every row exactly if it is not "$gte" or "$lte", or if it
      compares with NULL. */
  lemma OperationExact(field: string, op: string, v: Val)
    requires Operation(op, v)
    ensures OperationKept(op, v) <==>
      forall db {:trigger OperationMeaning(db, field, op, v)} ::
        Eval(OperationExpr(field, op, v), db) == OperationMeaning(db, field, op, v)
  {
    if OperationKept(op, v) {
      forall db ensures Eval(OperationExpr(field, op, v), db) == OperationMeaning(db, field, op, v) {
        OperationKeeps(db, field, op, v);
      }
    } else {
      var db := ShadowedDiffers(field, op, v);
    }
  }

  lemma {:induction false} EvalItem(key: string, val: Val, db: Db)
    requires Condition(key, val) && Unshadowed(key, val)
    ensures Eval(ItemExpr(key, val), db) == Meaning(db, key, val)
    decreases val, 1
  {
    if !IsOperator(key) {
      if val.Arr? && !HasZero(val.items) { OperationKeeps(db, key, Text(val.items.key), val.items.val); }
    } else {
      var items := val.items;
      assert Conditions(items) && AllUnshadowed(items);
      EvalGroup(IsAnd(key), items, db);
    }
  }

  lemma {:induction false} EvalGroup(all: bool, items: Items, db: Db)
    requires items.Entry? && Conditions(items) && AllUnshadowed(items)
    ensures Eval(GroupExpr(all, items), db) == if all then AllMeaning(db, items) else SomeMeaning(db, items)
    decreases items, 1
  {
    EvalItem(Text(items.key), items.val, db);
    var first := ItemExpr(Text(items.key), items.val);
    if all { EvalAnd(first, items.next, db); } else { EvalOr(first, items.next, db); }
  }

  lemma {:induction false} EvalAnd(acc: Expr, items: Items, db: Db)
    requires Conditions(items) && AllUnshadowed(items)
    ensures Eval(AndFrom(acc, items), db) == And3(Eval(acc, db), AllMeaning(db, items))
    decreases items, 0
  {
    if items.Entry? {
      EvalItem(Text(items.key), items.val, db);
      EvalAnd(And(acc, ItemExpr(Text(items.key), items.val)), items.next, db);
    }
  }

  lemma {:induction false} EvalOr(acc: Expr, items: Items, db: Db)
    requires Conditions(items) && AllUnshadowed(items)
    ensures Eval(OrFrom(acc, items), db) == Or3(Eval(acc, db), SomeMeaning(db, items))
    decreases items, 0
  {
    if items.Entry? {
      EvalItem(Text(items.key), items.val, db);
      EvalOr(Or(acc, ItemExpr(Text(items.key), items.val)), items.next, db);
    }
  }

  /** The WHERE clause printed for a condition array parses completely, and its truth on every row is
      that of the condition. */
  lemma WhereKeepsMeaning(items: Items, db: Db)
    requires items.Entry? && Conditions(items) && !HasZero(items)
    ensures WhereTokens(Arr(items)).Some?
    ensures var ts := WhereTokens(Arr(items)).value;
      && ts[0] == WhereT
      && ParseOr(ts[1..]) == Some((GroupExpr(true, items), []))
      && (AllUnshadowed(items) ==> Eval(GroupExpr(true, items), db) == AllMeaning(db, items))
  {
    ReadGroup(true, items, []);
    var ts := JoinTokens([AndT], items).value;
    assert ts + [] == ts && ([WhereT] + ts)[1..] == ts;
    if AllUnshadowed(items) { EvalGroup(true, items, db); }
  }

  /** Next to a condition that decides the outcome, a shadowed operator does no harm. */
  lemma ShadowedHarmless() returns (items: Items)
    ensures items.Entry? && Conditions(items) && !HasZero(items) && !AllUnshadowed(items)
    ensures forall db {:trigger AllMeaning(db, items)} :: Eval(GroupExpr(true, items), db) == AllMeaning(db, items)
  {
    var atLeast := Entry(Name("$gte"), One(Int(1)), End);
    var field := Entry(Name("a"), Arr(atLeast), End);
    var group := Entry(Name("$or"), Arr(field), End);
    items := Entry(Name("a"), One(Null), group);
    assert "$gte"[1] == 'g' && "$or"[1] == 'o' && !Prefix("$in", "$gte") && !IsAnd("$or");
    assert Operation("$gte", One(Int(1)));
    assert Condition("a", Arr(atLeast)) && Conditions(field) && Condition("$or", Arr(field)) && Conditions(group);
    assert Unshadowed("a", One(Null)) && !OperationKept("$gte", One(Int(1)));
    assert !Unshadowed("a", Arr(atLeast)) && !AllUnshadowed(field) && !AllUnshadowed(group);
    forall db ensures Eval(GroupExpr(true, items), db) == AllMeaning(db, items) {
      var shadowed := Compare("a", Gt, Int(1));
      assert ItemExpr("a", Arr(atLeast)) == shadowed && ItemExpr("$or", Arr(field)) == shadowed;
      assert GroupExpr(true, items) == And(IsNull("a"), shadowed);
      assert SomeMeaning(db, field) == Or3(Test(db, db.row("a"), Ge, Int(1)), False);
      assert AllMeaning(db, group) == And3(SomeMeaning(db, field), True);
    }
  }

  // ---------------------------------------------------------------- the clause for any data

  predicate KnownOperator(key: string) {
    exists p :: p in ["$gt", "$lt", "$ne", "$in", "$like"] && Prefix(p, key)
  }

  /** No operator but those that the printer knows, and groups only over arrays. */
  predicate Known(key: string, val: Val)
    decreases val
  {
    if !IsOperator(key) then val.Arr? && !HasZero(val.items) ==> AllKnown(val.items)
    else if IsAnd(key) || IsOr(key) then val.Arr? && AllKnown(val.items)
    else KnownOperator(key)
  }

  predicate AllKnown(items: Items)
    decreases items
  {
    items.Entry? ==> Known(Text(items.key), items.val) && AllKnown(items.next)
  }

  lemma KnownPrefixes(key: string)
    ensures KnownOperator(key) <==>
      Prefix("$gt", key) || Prefix("$lt", key) || Prefix("$ne", key) || Prefix("$in", key) || Prefix("$like", key)
    ensures Prefix("$gte", key) ==> Prefix("$gt", key)
    ensures Prefix("$lte", key) ==> Prefix("$lt", key)
  {
    var all := ["$gt", "$lt", "$ne", "$in", "$like"];
    assert all[0] in all && all[1] in all && all[2] in all && all[3] in all && all[4] in all;
    if Prefix("$gte", key) { assert key[..3] == "$gte"[..3] == "$gt"; }
    if Prefix("$lte", key) { assert key[..3] == "$lte"[..3] == "$lt"; }
  }

  /** A condition is printed exactly if all its operators are known. */
  lemma {:induction false} ItemKnown(key: string, val: Val)
    ensures ItemTokens(key, val).Some? <==> Known(key, val)
    decreases val, 1
  {
    if !IsOperator(key) {
      if val.Arr? && !HasZero(val.items) { TailKnown([], val.items); }
    } else if IsAnd(key) || IsOr(key) {
      if val.Arr? { JoinKnown([if IsAnd(key) then AndT else OrT], val.items); }
    } else {
      KnownPrefixes(key);
    }
  }

  lemma {:induction false} TailKnown(sep: seq<Token>, items: Items)
    ensures TailTokens(sep, items).Some? <==> AllKnown(items)
    decreases items, 0
  {
    if items.Entry? {
      ItemKnown(Text(items.key), items.val);
      TailKnown(sep, items.next);
    }
  }

  lemma {:induction false} JoinKnown(sep: seq<Token>, items: Items)
    ensures JoinTokens(sep, items).Some? <==> AllKnown(items)
    decreases items, 1
  {
    if items.Entry? {
      ItemKnown(Text(items.key), items.val);
      TailKnown(sep, items.next);
    }
  }

  /** What a server should make of the clause for data. */
  ghost predicate Understood(data: Val, c: Clause) {
    match data
    case One(Str(s)) => c == Verbatim(s)
    case One(_) => c == Everything
    case Arr(items) =>
      if items.End? then c == Garbled
      else Conditions(items) ==>
        c.Filter? && (AllUnshadowed(items) ==> forall db :: Eval(c.e, db) == AllMeaning(db, items))
  }

  lemma WhereUnderstood(data: Val)
    ensures var ts := WhereTokens(data);
      && (ts.Some? <==> match data case One(v) => v.Str? || v.Null? case Arr(items) => !HasZero(items) && AllKnown(items))
      && (ts.Some? ==> Understood(data, ReadClause(ts.value)))
  {
    match data
    case One(v) =>
    case Arr(items) =>
      JoinKnown([AndT], items);
      if !HasZero(items) && AllKnown(items) {
        var ts := JoinTokens([AndT], items).value;
        assert ([WhereT] + ts)[1..] == ts;
        if items.End? {
          assert [WhereT] + ts == [WhereT];
        } else if Conditions(items) {
          ArrayUnderstood(items);
        }
      }
  }

  /** A condition does not begin with the caller's text. */
  lemma NotRaw(ts: seq<Token>)
    requires |ts| > 0 && ParseOr(ts[1..]).Some?
    ensures |ts| == 2 ==> !ts[1].RawT?
  {
    if |ts| == 2 && ts[1].RawT? {
      assert ts[1..] == [RawT(ts[1].text)];
      RawUnread(ts[1].text);
    }
  }

  lemma RawUnread(text: string)
    ensures ParseOr([RawT(text)]).None?
  {
    assert ParsePrimary([RawT(text)]).None?;
    assert ParseAnd([RawT(text)]).None?;
  }

  lemma ArrayUnderstood(items: Items)
    requires items.Entry? && Conditions(items) && !HasZero(items)
    ensures WhereTokens(Arr(items)).Some?
    ensures Understood(Arr(items), ReadClause(WhereTokens(Arr(items)).value))
  {
    var any := Db(_ => Null, (_, _) => false, (_, _) => false, (_, _) => false);
    WhereKeepsMeaning(items, any);
    var ts := WhereTokens(Arr(items)).value;
    NotRaw(ts);
    if AllUnshadowed(items) {
      forall db ensures Eval(GroupExpr(true, items), db) == AllMeaning(db, items) {
        WhereKeepsMeaning(items, db);
      }
    }
  }

  // ---------------------------------------------------------------- what the words of a condition mean

  lemma PrefixMeans(p: string, s: string)
    ensures Prefix(p, s) <==> exists rest :: s == p + rest
  {
    if Prefix(p, s) { assert s == p + s[|p|..]; }
  }

  lemma PrefixSlice(p: string, s: string)
    ensures Prefix(p, s) <==> |s| >= |p| && s[..|p|] == p
  {
    if |s| >= |p| { assert s == s[..|p|] + s[|p|..]; }
  }

  /** Keys are told apart by how they begin. */
  lemma KeysMean(key: string)
    ensures IsOperator(key) <==> |key| > 0 && key[0] == '$'
    ensures IsAnd(key) <==> |key| >= 4 && (key[..4] == "$and" || key[..4] == "$AND")
    ensures IsOr(key) <==> |key| >= 3 && (key[..3] == "$or" || key[..3] == "$OR")
  {
    PrefixSlice("$and", key);
    PrefixSlice("$AND", key);
    PrefixSlice("$or", key);
    PrefixSlice("$OR", key);
  }

  /** The documented comparisons. */
  predicate Comparison(op: string, c: Cmp) {
    match c
    case Gt => op == "$gt"
    case Ge => op == "$gte"
    case Lt => op == "$lt"
    case Le => op == "$lte"
    case Ne => op == "$ne"
    case Like => op == "$like"
    case Eq => false
  }

  lemma ComparisonMeans(op: string, c: Cmp, v: Scalar)
    requires Comparison(op, c)
    ensures Operation(op, One(v)) && !Prefix("$in", op) && Documented(op) == c
  {
    PrefixSlice("$gt", op);
    PrefixSlice("$gte", op);
    PrefixSlice("$lt", op);
    PrefixSlice("$lte", op);
    PrefixSlice("$ne", op);
    PrefixSlice("$like", op);
    PrefixSlice("$in", op);
    match c
    case Gt => assert op[1] == 'g' && op[..3] == op;
    case Ge => assert op[1] == 'g' && op[..3] == "$gt" && op[..4] == op;
    case Lt => assert op[1] == 'l' && op[2] == 't' && op[..3] == op;
    case Le => assert op[1] == 'l' && op[2] == 't' && op[..3] == "$lt" && op[..4] == op;
    case Ne => assert op[1] == 'n' && op[..3] == op;
    case Like => assert op[1] == 'l' && op[2] == 'i' && op[..5] == op;
  }

  function Under(op: string, v: Val): Val { Arr(Entry(Name(op), v, End)) }

  lemma UnderOperator(op: string, v: Val)
    ensures !HasZero(Under(op, v).items) && Text(Under(op, v).items.key) == op
  {
    assert !HasZero(End);
  }

  /** A documented comparison under a field compares the field's value with v. */
  lemma FieldComparison(db: Db, field: string, op: string, c: Cmp, v: Scalar)
    requires !IsOperator(field) && Comparison(op, c) && v != Null
    ensures Condition(field, Under(op, One(v)))
    ensures Meaning(db, field, Under(op, One(v))) == Test(db, db.row(field), c, v)
  {
    ComparisonMeans(op, c, v);
    UnderOperator(op, One(v));
  }

  /** "$in" asks for a member of the list, "$ne" with null for any value. */
  lemma FieldOthers(db: Db, field: string, list: Items)
    requires !IsOperator(field) && list.Entry? && Scalars(list)
    ensures Condition(field, Under("$in", Arr(list))) && Condition(field, Under("$ne", One(Null)))
    ensures Meaning(db, field, Under("$in", Arr(list))) == AnyOf(db, db.row(field), ScalarsOf(list))
    ensures Meaning(db, field, Under("$ne", One(Null))) == if db.row(field) == Null then False else True
  {
    PrefixSlice("$in", "$in");
    PrefixSlice("$in", "$ne");
    PrefixSlice("$ne", "$ne");
    assert "$in"[1] == 'i' && "$ne"[1] == 'n' && "$in"[..3] == "$in" && "$ne"[..3] == "$ne";
    assert Operation("$in", Arr(list)) && Operation("$ne", One(Null));
    UnderOperator("$in", Arr(list));
    UnderOperator("$ne", One(Null));
  }

  /** A value, and null, under a field; a list under a field. */
  lemma FieldValue(db: Db, field: string, v: Scalar, list: Items)
    requires !IsOperator(field) && Scalars(list) && HasZero(list)
    ensures Condition(field, One(v)) && Condition(field, Arr(list))
    ensures v != Null ==> Meaning(db, field, One(v)) == Test(db, db.row(field), Eq, v)
    ensures Meaning(db, field, One(Null)) == if db.row(field) == Null then True else False
    ensures Meaning(db, field, Arr(list)) == AnyOf(db, db.row(field), ScalarsOf(list))
  {
  }

  predicate Member(items: Items, k: Key, v: Val)
    decreases items
  {
    items.Entry? && ((items.key == k && items.val == v) || Member(items.next, k, v))
  }

  lemma {:induction false} ZeroMember(items: Items, v: Val)
    requires Member(items, Index(0), v)
    ensures HasZero(items)
    decreases items
  {
    if items.key != Index(0) { ZeroMember(items.next, v); }
  }

  lemma {:induction false} MemberZero(items: Items) returns (v: Val)
    requires HasZero(items)
    ensures Member(items, Index(0), v)
    decreases items
  {
    if items.key == Index(0) { v := items.val; } else { v := MemberZero(items.next); }
  }

  ghost predicate HasKey(items: Items, k: Key) { exists v :: Member(items, k, v) }

  /** cond.has(0) */
  lemma HasZeroMeans(items: Items)
    ensures HasZero(items) <==> HasKey(items, Index(0))
  {
    if HasZero(items) {
      var v := MemberZero(items);
      assert HasKey(items, Index(0));
    }
    if HasKey(items, Index(0)) {
      var v :| Member(items, Index(0), v);
      ZeroMember(items, v);
    }
  }

  lemma {:induction false} MemberMeaning(db: Db, items: Items, k: Key, v: Val)
    requires Conditions(items) && Member(items, k, v)
    ensures Condition(Text(k), v)
    ensures AllMeaning(db, items) == True ==> Meaning(db, Text(k), v) == True
    ensures Meaning(db, Text(k), v) == False ==> AllMeaning(db, items) == False
    ensures SomeMeaning(db, items) == False ==> Meaning(db, Text(k), v) == False
    ensures Meaning(db, Text(k), v) == True ==> SomeMeaning(db, items) == True
    decreases items
  {
    if !(items.key == k && items.val == v) { MemberMeaning(db, items.next, k, v); }
  }

  /** A member that keeps a conjunction from being true, or a disjunction from being false; it makes the
      conjunction false, or the disjunction true, if these are. */
  lemma {:induction false} Deciding(db: Db, all: bool, items: Items) returns (k: Key, v: Val)
    requires Conditions(items)
    requires if all then AllMeaning(db, items) != True else SomeMeaning(db, items) != False
    ensures Member(items, k, v) && Condition(Text(k), v)
    ensures all ==> Meaning(db, Text(k), v) != True
    ensures all && AllMeaning(db, items) == False ==> Meaning(db, Text(k), v) == False
    ensures !all ==> Meaning(db, Text(k), v) != False
    ensures !all && SomeMeaning(db, items) == True ==> Meaning(db, Text(k), v) == True
    decreases items
  {
    k, v := items.key, items.val;
    var here := Meaning(db, Text(k), v);
    if all {
      if here == True || (here == Unknown && AllMeaning(db, items) == False) { k, v := Deciding(db, all, items.next); }
    } else {
      if here == False || (here == Unknown && SomeMeaning(db, items) == True) { k, v := Deciding(db, all, items.next); }
    }
  }

  ghost predicate Has(db: Db, items: Items, t: Truth) {
    exists k, v :: Member(items, k, v) && Condition(Text(k), v) && Meaning(db, Text(k), v) == t
  }

  /** A conjunction is false if a member is, and true if no member is anything else; a disjunction is true if
      a member is, and false if no member is anything else. */
  lemma GroupsMean(db: Db, items: Items)
    requires Conditions(items)
    ensures AllMeaning(db, items) == False <==> Has(db, items, False)
    ensures AllMeaning(db, items) == True <==> !Has(db, items, False) && !Has(db, items, Unknown)
    ensures SomeMeaning(db, items) == True <==> Has(db, items, True)
    ensures SomeMeaning(db, items) == False <==> !Has(db, items, True) && !Has(db, items, Unknown)
  {
    forall k, v | Member(items, k, v)
      ensures Condition(Text(k), v)
      ensures AllMeaning(db, items) == True ==> Meaning(db, Text(k), v) == True
      ensures Meaning(db, Text(k), v) == False ==> AllMeaning(db, items) == False
      ensures SomeMeaning(db, items) == False ==> Meaning(db, Text(k), v) == False
      ensures Meaning(db, Text(k), v) == True ==> SomeMeaning(db, items) == True
    {
      MemberMeaning(db, items, k, v);
    }
    if AllMeaning(db, items) != True { var k, v := Deciding(db, true, items); }
    if SomeMeaning(db, items) != False { var k, v := Deciding(db, false, items); }
  }

  /** The groups of the documentation's example. */
  lemma GroupExample(db: Db, a: Scalar, b: Scalar, c: Scalar, d: Scalar)
    requires a != Null && b != Null && c != Null && d != Null
    ensures var or := Entry(Name("a"), One(a), Entry(Name("b"), One(b), End));
      var and := Entry(Name("c"), One(c), Entry(Name("d"), One(d), End));
      && Condition("$or", Arr(or)) && Condition("$and", Arr(and))
      && Meaning(db, "$or", Arr(or)) == Or3(Test(db, db.row("a"), Eq, a), Test(db, db.row("b"), Eq, b))
      && Meaning(db, "$and", Arr(and)) == And3(Test(db, db.row("c"), Eq, c), Test(db, db.row("d"), Eq, d))
  {
    var or := Entry(Name("a"), One(a), Entry(Name("b"), One(b), End));
    var and := Entry(Name("c"), One(c), Entry(Name("d"), One(d), End));
    KeysMean("$or");
    KeysMean("$and");
    TwoConditions(db, "a", a, "b", b);
    TwoConditions(db, "c", c, "d", d);
  }

  lemma TwoConditions(db: Db, f: string, x: Scalar, g: string, y: Scalar)
    requires !IsOperator(f) && !IsOperator(g) && x != Null && y != Null
    ensures var items := Entry(Name(f), One(x), Entry(Name(g), One(y), End));
      && Conditions(items)
      && AllMeaning(db, items) == And3(Test(db, db.row(f), Eq, x), Test(db, db.row(g), Eq, y))
      && SomeMeaning(db, items) == Or3(Test(db, db.row(f), Eq, x), Test(db, db.row(g), Eq, y))
  {
    var last := Entry(Name(g), One(y), End);
    assert Conditions(End) && AllMeaning(db, End) == True && SomeMeaning(db, End) == False;
    assert Text(Name(f)) == f && Text(Name(g)) == g;
    assert Conditions(last);
    assert Meaning(db, g, One(y)) == Test(db, db.row(g), Eq, y) && Meaning(db, f, One(x)) == Test(db, db.row(f), Eq, x);
    assert AllMeaning(db, last) == And3(Meaning(db, g, One(y)), True) == Meaning(db, g, One(y));
    assert SomeMeaning(db, last) == Or3(Meaning(db, g, One(y)), False) == Meaning(db, g, One(y));
  }

  // ---------------------------------------------------------------- parentheses

  /** Opening less closing parentheses. */
  function Balance(ts: seq<Token>): int {
    if |ts| == 0 then 0
    else (if ts[0] == OpenT then 1 else if ts[0] == CloseT then -1 else 0) + Balance(ts[1..])
  }

  lemma {:induction false} BalanceAppend(a: seq<Token>, b: seq<Token>)
    ensures Balance(a + b) == Balance(a) + Balance(b)
    decreases |a|
  {
    if |a| == 0 {
      assert a + b == b;
    } else {
      assert (a + b)[1..] == a[1..] + b;
      BalanceAppend(a[1..], b);
    }
  }

  /** The empty arrays in a value. */
  function Empties(v: Val): nat
    decreases v, 0
  {
    match v case One(_) => 0 case Arr(items) => (if items.End? then 1 else 0) + EmptiesOf(items)
  }

  function EmptiesOf(items: Items): nat
    decreases items, 1
  {
    match items case End => 0 case Entry(_, v, next) => Empties(v) + EmptiesOf(next)
  }

  /** A printed value closes one parenthesis too many for each empty array in it, and balances otherwise. */
  lemma {:induction false} ValBalance(v: Val)
    ensures Balance(ValTokens(v)) + Empties(v) == 0
    decreases v, 0
  {
    match v {
      case One(s) => assert [LitT(s)][1..] == [];
      case Arr(items) =>
        ListBalance(items, true);
        BalanceAppend(ListTokens(items, true), [CloseT]);
        assert Balance([CloseT]) == -1 by { assert [CloseT][1..] == []; }
    }
  }

  lemma {:induction false} ListBalance(items: Items, first: bool)
    ensures Balance(ListTokens(items, first)) == (if first && items.Entry? then 1 else 0) - EmptiesOf(items)
    decreases items, 1
  {
    match items {
      case End =>
      case Entry(_, v, next) =>
        var sep := [if first then OpenT else CommaT];
        ValBalance(v);
        ListBalance(next, false);
        BalanceAppend(sep + ValTokens(v), ListTokens(next, false));
        BalanceAppend(sep, ValTokens(v));
        assert sep[1..] == [];
    }
  }

  // ---------------------------------------------------------------- fields and values

  /** What a token says: a field name or a value; IS NULL stands for a null. */
  function Word(t: Token): seq<Token> {
    match t
    case FieldT(_) => [t]
    case LitT(_) => [t]
    case IsNullT => [LitT(Null)]
    case IsNotNullT => [LitT(Null)]
    case _ => []
  }

  /** The field names and values among tokens, in order. */
  function Values(ts: seq<Token>): seq<Token> {
    if |ts| == 0 then [] else Word(ts[0]) + Values(ts[1..])
  }

  lemma ValuesCons(t: Token, ts: seq<Token>)
    ensures Values([t] + ts) == Word(t) + Values(ts)
  {
    assert ([t] + ts)[1..] == ts;
  }

  lemma ValuesSnoc(ts: seq<Token>, t: Token)
    ensures Values(ts + [t]) == Values(ts) + Word(t)
  {
    ValuesAppend(ts, [t]);
    ValuesCons(t, []);
    assert [t] + [] == [t];
  }

  lemma {:induction false} ValuesAppend(a: seq<Token>, b: seq<Token>)
    ensures Values(a + b) == Values(a) + Values(b)
    decreases |a|
  {
    if |a| == 0 {
      assert a + b == b;
    } else {
      assert (a + b)[1..] == a[1..] + b;
      ValuesAppend(a[1..], b);
    }
  }

  function Leaves(v: Val): seq<Token>
    decreases v, 0
  {
    match v case One(s) => [LitT(s)] case Arr(items) => LeavesOf(items)
  }

  function LeavesOf(items: Items): seq<Token>
    decreases items, 1
  {
    match items case End => [] case Entry(_, v, next) => Leaves(v) + LeavesOf(next)
  }

  /** The fields and values of a condition in the order of iteration; keys inside a list do not count. */
  function Named(key: string, val: Val): seq<Token>
    decreases val
  {
    if !IsOperator(key) then
      [FieldT(key)] + (if val.Arr? && !HasZero(val.items) then NamedAll(val.items) else Leaves(val))
    else if val.Arr? && (IsAnd(key) || IsOr(key)) then NamedAll(val.items)
    else Leaves(val)
  }

  function NamedAll(items: Items): seq<Token>
    decreases items
  {
    match items case End => [] case Entry(k, v, next) => Named(Text(k), v) + NamedAll(next)
  }

  lemma {:induction false} ValSays(v: Val)
    ensures Values(ValTokens(v)) == Leaves(v)
    decreases v, 0
  {
    match v {
      case One(s) => ValuesCons(LitT(s), []);
      case Arr(items) =>
        ListSays(items, true);
        ValuesSnoc(ListTokens(items, true), CloseT);
    }
  }

  lemma {:induction false} ListSays(items: Items, first: bool)
    ensures Values(ListTokens(items, first)) == LeavesOf(items)
    decreases items, 1
  {
    match items {
      case End =>
      case Entry(_, v, next) =>
        ValSays(v);
        ListSays(next, false);
        Separated(if first then OpenT else CommaT, ValTokens(v), ListTokens(next, false));
    }
  }

  /** A token that names neither a field nor a value, in front of what does. */
  lemma Separated(t: Token, a: seq<Token>, b: seq<Token>)
    requires Word(t) == []
    ensures Values([t] + a + b) == Values(a) + Values(b)
  {
    ValuesAppend([t] + a, b);
    ValuesCons(t, a);
  }

  lemma AfterAny(sep: seq<Token>, a: seq<Token>, b: seq<Token>)
    requires |sep| <= 1 && (|sep| == 1 ==> Word(sep[0]) == [])
    ensures Values(sep + a + b) == Values(a) + Values(b)
  {
    if |sep| == 0 {
      assert sep + a + b == a + b;
      ValuesAppend(a, b);
    } else {
      assert sep == [sep[0]];
      Separated(sep[0], a, b);
    }
  }

  /** Whatever a condition is, if it is printed then all its fields and values are, once and in order. */
  lemma {:induction false} ItemSays(key: string, val: Val)
    requires ItemTokens(key, val).Some?
    ensures Values(ItemTokens(key, val).value) == Named(key, val)
    decreases val, 2
  {
    if !IsOperator(key) {
      FieldSays(key, val);
    } else if IsAnd(key) || IsOr(key) {
      var sep := if IsAnd(key) then AndT else OrT;
      var ts := JoinTokens([sep], val.items).value;
      JoinSays(sep, val.items);
      ValuesSnoc([OpenT] + ts, CloseT);
      ValuesCons(OpenT, ts);
    } else {
      OperatorSays(key, val);
    }
  }

  lemma {:induction false} FieldSays(key: string, val: Val)
    requires !IsOperator(key) && ItemTokens(key, val).Some?
    ensures Values(ItemTokens(key, val).value) == Named(key, val)
    decreases val, 1
  {
    if val == One(Null) {
      ValuesSnoc([FieldT(key)], IsNullT);
      ValuesCons(FieldT(key), []);
      assert [FieldT(key)] + [IsNullT] == [FieldT(key), IsNullT];
    } else if val.Arr? && !HasZero(val.items) {
      TailSays([], val.items);
      ValuesCons(FieldT(key), TailTokens([], val.items).value);
    } else {
      FieldThen(key, if val.Arr? then InT else CmpT(Eq), val);
    }
  }

  lemma FieldThen(key: string, t: Token, val: Val)
    requires Word(t) == []
    ensures Values([FieldT(key), t] + ValTokens(val)) == [FieldT(key)] + Leaves(val)
  {
    ValSays(val);
    ValuesCons(t, ValTokens(val));
    ValuesCons(FieldT(key), [t] + ValTokens(val));
    assert [FieldT(key)] + ([t] + ValTokens(val)) == [FieldT(key), t] + ValTokens(val);
  }

  lemma OperatorWord(key: string, val: Val)
    requires IsOperator(key) && !IsAnd(key) && !IsOr(key) && ItemTokens(key, val).Some?
    requires !(Prefix("$ne", key) && val == One(Null))
    ensures var ts := ItemTokens(key, val).value;
      |ts| > 0 && Word(ts[0]) == [] && ts == [ts[0]] + ValTokens(val)
  {
  }

  lemma OperatorSays(key: string, val: Val)
    requires IsOperator(key) && !IsAnd(key) && !IsOr(key) && ItemTokens(key, val).Some?
    ensures Values(ItemTokens(key, val).value) == Leaves(val)
  {
    var ts := ItemTokens(key, val).value;
    if Prefix("$ne", key) && val == One(Null) {
      ValuesCons(IsNotNullT, []);
    } else {
      OperatorWord(key, val);
      ValSays(val);
      ValuesCons(ts[0], ValTokens(val));
    }
  }

  lemma {:induction false} TailSays(sep: seq<Token>, items: Items)
    requires TailTokens(sep, items).Some? && |sep| <= 1 && (|sep| == 1 ==> Word(sep[0]) == [])
    ensures Values(TailTokens(sep, items).value) == NamedAll(items)
    decreases items, 0
  {
    if items.Entry? {
      ItemSays(Text(items.key), items.val);
      TailSays(sep, items.next);
      AfterAny(sep, ItemTokens(Text(items.key), items.val).value, TailTokens(sep, items.next).value);
    }
  }

  lemma {:induction false} JoinSays(sep: Token, items: Items)
    requires JoinTokens([sep], items).Some? && Word(sep) == []
    ensures Values(JoinTokens([sep], items).value) == NamedAll(items)
    decreases items, 1
  {
    if items.Entry? {
      ItemSays(Text(items.key), items.val);
      TailSays([sep], items.next);
      ValuesAppend(ItemTokens(Text(items.key), items.val).value, TailTokens([sep], items.next).value);
    }
  }

  lemma WhereSays(items: Items)
    requires WhereTokens(Arr(items)).Some?
    ensures Values(WhereTokens(Arr(items)).value) == NamedAll(items)
  {
    JoinSays(AndT, items);
    ValuesCons(WhereT, JoinTokens([AndT], items).value);
  }

  // ---------------------------------------------------------------- the printer's loops

  /** The buffer that all parts of the printer append to. */
  class Buffer {
    var toks: seq<Token>
    constructor ()
      ensures toks == []
    {
      toks := [];
    }

    method Add(t: Token)
      modifies this
      ensures toks == old(toks) + [t]
    {
      toks := toks + [t];
    }
  }

  ghost function Size(v: Val): nat { match v case One(_) => 1 case Arr(items) => 1 + SizeOf(items) }

  ghost function SizeOf(items: Items): nat {
    match items case End => 0 case Entry(_, v, next) => 1 + Size(v) + SizeOf(next)
  }

  method ValToBuffer(val: Val, buf: Buffer)
    modifies buf
    ensures buf.toks == old(buf.toks) + ValTokens(val)
    decreases Size(val)
  {
    match val
    case One(s) => buf.Add(LitT(s));
    case Arr(items) =>
      var j := -1;
      var i := items;
      while i.Entry?
        invariant j >= -1 && SizeOf(i) <= SizeOf(items)
        invariant buf.toks + ListTokens(i, j == -1) == old(buf.toks) + ListTokens(items, true)
        decreases SizeOf(i)
      {
        ghost var prev := i;
        j := j + 1;
        if j == 0 {
          buf.Add(OpenT);
        } else {
          buf.Add(CommaT);
        }
        ghost var before := buf.toks;
        ValToBuffer(i.val, buf);
        i := i.next;
        assert buf.toks + ListTokens(i, false) == before + (ValTokens(prev.val) + ListTokens(i, false));
      }
      assert buf.toks + [] == buf.toks;
      buf.Add(CloseT);
      assert old(buf.toks) + ListTokens(items, true) + [CloseT] == old(buf.toks) + ValTokens(val);
  }

  /** The printer may have written a part when it throws. */
  method ConditionItem(key: string, val: Val, buf: Buffer) returns (ok: bool)
    modifies buf
    ensures ok == ItemTokens(key, val).Some?
    ensures ok ==> buf.toks == old(buf.toks) + ItemTokens(key, val).value
    decreases Size(val), 1
  {
    if !IsOperator(key) {
      ok := FieldItem(key, val, buf);
    } else if IsAnd(key) || IsOr(key) {
      if val.One? {
        return false;
      }
      ok := GroupItem(key, val.items, buf);
    } else {
      ok := OperatorItem(key, val, buf);
    }
  }

  /** A key that is not an operator: a field with what is asked of it. */
  method FieldItem(key: string, val: Val, buf: Buffer) returns (ok: bool)
    requires !IsOperator(key)
    modifies buf
    ensures ok == ItemTokens(key, val).Some?
    ensures ok ==> buf.toks == old(buf.toks) + ItemTokens(key, val).value
    decreases Size(val), 0
  {
    ghost var before := buf.toks;
    buf.Add(FieldT(key));
    if val.Arr? {
      if HasZero(val.items) {
        buf.Add(InT);
        ValToBuffer(val, buf);
        ok := true;
        Group3(before, FieldT(key), InT, ValTokens(val));
      } else {
        ok := ConditionItems([], val.items, buf);
        SameWithoutSeparator(val.items);
        if ok { Group2(before, [FieldT(key)], TailTokens([], val.items).value); }
      }
    } else {
      ok := true;
      if val.v == Null {
        buf.Add(IsNullT);
        Group3(before, FieldT(key), IsNullT, []);
      } else {
        buf.Add(CmpT(Eq));
        ValToBuffer(val, buf);
        Group3(before, FieldT(key), CmpT(Eq), ValTokens(val));
      }
    }
  }

  lemma Group2(before: seq<Token>, a: seq<Token>, b: seq<Token>)
    ensures before + a + b == before + (a + b)
  {
  }

  lemma Group3(before: seq<Token>, a: Token, b: Token, c: seq<Token>)
    ensures before + [a] + [b] + c == before + ([a, b] + c)
    ensures c == [] ==> before + [a] + [b] == before + [a, b]
  {
  }

  /** The branches for "$and" and "$or". */
  method GroupItem(key: string, items: Items, buf: Buffer) returns (ok: bool)
    requires IsOperator(key) && (IsAnd(key) || IsOr(key))
    modifies buf
    ensures ok == ItemTokens(key, Arr(items)).Some?
    ensures ok ==> buf.toks == old(buf.toks) + ItemTokens(key, Arr(items)).value
    decreases SizeOf(items), 3
  {
    ghost var before := buf.toks;
    buf.Add(OpenT);
    ok := ConditionItems([if IsAnd(key) then AndT else OrT], items, buf);
    buf.Add(CloseT);
    if ok {
      var ts := JoinTokens([if IsAnd(key) then AndT else OrT], items).value;
      Group2(before, [OpenT], ts);
      Group2(before, [OpenT] + ts, [CloseT]);
    }
  }

  method OperatorItem(key: string, val: Val, buf: Buffer) returns (ok: bool)
    requires IsOperator(key) && !IsAnd(key) && !IsOr(key)
    modifies buf
    ensures ok == ItemTokens(key, val).Some?
    ensures ok ==> buf.toks == old(buf.toks) + ItemTokens(key, val).value
    decreases Size(val), 0
  {
    if Prefix("$ne", key) && val == One(Null) {
      buf.Add(IsNotNullT);
      return true;
    }
    var op :=
      if Prefix("$gt", key) then Some(CmpT(Gt))
      else if Prefix("$gte", key) then Some(CmpT(Ge))
      else if Prefix("$lt", key) then Some(CmpT(Lt))
      else if Prefix("$lte", key) then Some(CmpT(Le))
      else if Prefix("$ne", key) then Some(CmpT(Ne))
      else if Prefix("$in", key) then Some(InT)
      else if Prefix("$like", key) then Some(CmpT(Like))
      else None;
    if op.None? {
      return false;
    }
    buf.Add(op.value);
    ValToBuffer(val, buf);
    ok := true;
  }

  /** The loop over the entries of an array, with sep before each but the first. */
  method ConditionItems(sep: seq<Token>, items: Items, buf: Buffer) returns (ok: bool)
    requires |sep| <= 1
    modifies buf
    ensures ok == JoinTokens(sep, items).Some?
    ensures ok ==> buf.toks == old(buf.toks) + JoinTokens(sep, items).value
    decreases SizeOf(items), 2
  {
    var j := -1;
    var i := items;
    while i.Entry?
      invariant j >= -1 && SizeOf(i) <= SizeOf(items)
      invariant Append(Some(buf.toks), if j == -1 then JoinTokens(sep, i) else TailTokens(sep, i))
             == Append(Some(old(buf.toks)), JoinTokens(sep, items))
      decreases SizeOf(i)
    {
      j := j + 1;
      if j > 0 {
        AfterSeparator(buf.toks, sep, i);
        assert sep == if |sep| > 0 then [sep[0]] else [];
        assert buf.toks + [] == buf.toks;
        if |sep| > 0 {
          buf.Add(sep[0]);
        }
      }
      ghost var before := buf.toks;
      assert Append(Some(before), JoinTokens(sep, i)) == Append(Some(old(buf.toks)), JoinTokens(sep, items));
      var fine := ConditionItem(Text(i.key), i.val, buf);
      if !fine {
        return false;
      }
      Regroup(before, sep, Text(i.key), i.val, i.next);
      i := i.next;
    }
    ok := true;
  }

  lemma Regroup(before: seq<Token>, sep: seq<Token>, key: string, val: Val, next: Items)
    requires ItemTokens(key, val).Some?
    ensures Append(Some(before), Append(ItemTokens(key, val), TailTokens(sep, next)))
         == Append(Some(before + ItemTokens(key, val).value), TailTokens(sep, next))
  {
    if TailTokens(sep, next).Some? {
      assert before + (ItemTokens(key, val).value + TailTokens(sep, next).value)
          == before + ItemTokens(key, val).value + TailTokens(sep, next).value;
    }
  }

  /** Once the separator is printed, an entry is like the first one. */
  lemma AfterSeparator(before: seq<Token>, sep: seq<Token>, i: Items)
    requires i.Entry?
    ensures Append(Some(before), TailTokens(sep, i)) == Append(Some(before + sep), JoinTokens(sep, i))
  {
    var a, b := ItemTokens(Text(i.key), i.val), TailTokens(sep, i.next);
    if a.Some? && b.Some? {
      assert before + (sep + a.value + b.value) == before + sep + (a.value + b.value);
    }
  }

  lemma {:induction false} SameWithoutSeparator(items: Items)
    ensures JoinTokens([], items) == TailTokens([], items)
  {
    if items.Entry? {
      var a := ItemTokens(Text(items.key), items.val);
      if a.Some? { assert [] + a.value == a.value; }
    }
  }

  /** sql_where.  A string is put after WHERE as it is, null asks for everything, an array for the rows on which
      all its conditions are true; everything else is refused. */
  method Where(data: Val, buf: Buffer) returns (ok: bool)
    modifies buf
    ensures ok == WhereTokens(data).Some?
    ensures ok ==> buf.toks == old(buf.toks) + WhereTokens(data).value
    ensures ok == match data
                  case One(v) => v.Str? || v.Null?
                  case Arr(items) => !HasZero(items) && AllKnown(items)
    ensures ok ==> old(buf.toks) <= buf.toks
    ensures ok ==> Understood(data, ReadClause(buf.toks[|old(buf.toks)|..]))
    ensures ok && data.Arr? ==> Values(buf.toks[|old(buf.toks)|..]) == NamedAll(data.items)
  {
    WhereUnderstood(data);
    match data
    case One(Str(s)) =>
      buf.Add(WhereT);
      buf.Add(RawT(s));
      ok := true;
    case One(Null) =>
      ok := true;
    case One(_) =>
      ok := false;
    case Arr(items) =>
      if HasZero(items) {
        return false;
      }
      buf.Add(WhereT);
      ok := ConditionItems([AndT], items, buf);
      if ok {
        WhereSays(items);
        assert buf.toks[|old(buf.toks)|..] == [WhereT] + JoinTokens([AndT], items).value;
      }
  }
}

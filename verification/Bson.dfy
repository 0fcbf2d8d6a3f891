/** The translation between PHP arrays and BSON documents, and exactly which values survive the way
    there and back. */
module Bson {
  import opened Options
  import opened PhpKeys

  /** A PHP value. */
  datatype Value =
    | Undef
    | Null
    | Bool(b: bool)
    | Long(n: int)
    | Double(r: real)
    | Str(s: string)
    | ObjectId(oid: string)
    | DateTime(ms: int)
    | Object(name: string)       // an object of any other class
    | Other                      // a reference, a resource
    | Array(items: Items)

  /** The entries of a PHP array in order. */
  datatype Items = End | Entry(key: Key, val: Value, next: Items)

  datatype BValue =
    | BNull
    | BBool(b: bool)
    | BInt32(n: int)
    | BInt64(n: int)
    | BDouble(r: real)
    | BUtf8(s: string)
    | BOid(oid: string)
    | BDate(ms: int)
    | BArray(doc: Doc)
    | BDocument(doc: Doc)
    | BUnsupported

  datatype Doc = DEnd | Field(key: string, val: BValue, next: Doc)

  // ---------------------------------------------------------------- arrays

  function Length(items: Items): nat { match items case End => 0 case Entry(_, _, next) => 1 + Length(next) }

  function Size(doc: Doc): nat { match doc case DEnd => 0 case Field(_, _, next) => 1 + Size(next) }

  function Concat(a: Items, b: Items): Items {
    match a case End => b case Entry(k, v, next) => Entry(k, v, Concat(next, b))
  }

  predicate Has(items: Items, k: Key) { items.Entry? && (items.key == k || Has(items.next, k)) }

  /** Assignment to an element: in place if the key exists, otherwise at the end. */
  function Put(items: Items, k: Key, v: Value): Items {
    match items
    case End => Entry(k, v, End)
    case Entry(k', v', next) => if k' == k then Entry(k, v, next) else Entry(k', v', Put(next, k, v))
  }

  /** A real as int64: towards zero. */
  function ToLong(r: real): int { if r < 0.0 then -((-r).Floor) else r.Floor }

  // ---------------------------------------------------------------- to BSON

  /** One element; None for the kinds that no case of the switch takes. */
  function Encode(v: Value): Option<BValue>
    decreases v, 0
  {
    match v
    case Undef | Null => Some(BNull)
    case Bool(b) => Some(BBool(b))
    case Long(n) => Some(BInt64(n))
    case Double(r) => Some(BInt64(ToLong(r)))
    case Str(s) => Some(BUtf8(s))
    case ObjectId(oid) => Some(BOid(oid))
    case DateTime(ms) => Some(BDate(ms))
    case Object(_) => Some(BUtf8("<unknown object>"))
    case Other => None
    case Array(items) =>
      if items.End? || Has(items, Index(0)) then Some(BArray(EncodeAll(items))) else Some(BDocument(EncodeAll(items)))
  }

  /** fill_with(bson_t*, array) */
  function EncodeAll(items: Items): Doc
    decreases items, 1
  {
    match items
    case End => DEnd
    case Entry(k, v, next) =>
      match Encode(v)
      case None => EncodeAll(next)
      case Some(b) => Field(Text(k), b, EncodeAll(next))
  }

  // ---------------------------------------------------------------- and back

  /** What the PHP array makes of a string key is not in this repository: a parameter. */
  type KeyOf = string -> Key

  /** from() */
  function Decode(keyOf: KeyOf, b: BValue): Value
    decreases b, 0
  {
    match b
    case BNull => Null
    case BBool(b) => Bool(b)
    case BInt32(n) => Long(n)
    case BInt64(n) => Long(n)
    case BDouble(r) => Double(r)
    case BUtf8(s) => Str(s)
    case BOid(oid) => ObjectId(oid)
    case BDate(ms) => DateTime(ms)
    case BArray(doc) => Array(DecodeList(keyOf, 0, doc))
    case BDocument(doc) => Array(DecodeFields(keyOf, End, doc))
    case BUnsupported => Undef
  }

  /** a[x++] = from(&j) */
  function DecodeList(keyOf: KeyOf, x: nat, doc: Doc): Items
    decreases doc, 1
  {
    match doc
    case DEnd => End
    case Field(_, v, next) => Entry(Index(x), Decode(keyOf, v), DecodeList(keyOf, x + 1, next))
  }

  /** a[key] = from(&j), starting from the array acc. */
  function DecodeFields(keyOf: KeyOf, acc: Items, doc: Doc): Items
    decreases doc, 1
  {
    match doc
    case DEnd => acc
    case Field(k, v, next) => DecodeFields(keyOf, Put(acc, keyOf(k), Decode(keyOf, v)), next)
  }

  // ---------------------------------------------------------------- which values survive

  /** A PHP array holds each key once. */
  predicate Distinct(items: Items)
    decreases items, 1
  {
    items.Entry? ==> !Has(items.next, items.key) && Proper(items.val) && Distinct(items.next)
  }

  predicate Proper(v: Value)
    decreases v, 0
  {
    v.Array? ==> Distinct(v.items)
  }

  /** Null, bool, integer, string, object_id, date_time, empty arrays, lists keyed 0..n-1 in order, and
      arrays without a key 0 whose keys come back from their text, of such values. */
  predicate Survives(keyOf: KeyOf, v: Value)
    decreases v, 0
  {
    match v
    case Null | Bool(_) | Long(_) | Str(_) | ObjectId(_) | DateTime(_) => true
    case Array(items) => if Has(items, Index(0)) then ListSurvives(keyOf, 0, items) else MapSurvives(keyOf, items)
    case _ => false
  }

  predicate ListSurvives(keyOf: KeyOf, x: nat, items: Items)
    decreases items, 1
  {
    items.Entry? ==> items.key == Index(x) && Survives(keyOf, items.val) && ListSurvives(keyOf, x + 1, items.next)
  }

  predicate MapSurvives(keyOf: KeyOf, items: Items)
    decreases items, 1
  {
    items.Entry? ==> keyOf(Text(items.key)) == items.key && Survives(keyOf, items.val) && MapSurvives(keyOf, items.next)
  }

  // ---------------------------------------------------------------- lemmas about Put

  lemma {:induction false} PutFresh(items: Items, k: Key, v: Value)
    ensures !Has(items, k) ==> Put(items, k, v) == Concat(items, Entry(k, v, End))
    ensures Has(items, k) ==> Length(Put(items, k, v)) == Length(items)
    ensures !Has(items, k) ==> Length(Put(items, k, v)) == Length(items) + 1
  {
    if items.Entry? { PutFresh(items.next, k, v); }
  }

  lemma {:induction false} ConcatAssoc(a: Items, k: Key, v: Value, b: Items)
    ensures Concat(Concat(a, Entry(k, v, End)), b) == Concat(a, Entry(k, v, b))
  {
    if a.Entry? { ConcatAssoc(a.next, k, v, b); }
  }

  lemma {:induction false} ConcatEnd(a: Items)
    ensures Concat(a, End) == a
  {
    if a.Entry? { ConcatEnd(a.next); }
  }

  lemma {:induction false} HasConcat(a: Items, b: Items, k: Key)
    ensures Has(Concat(a, b), k) <==> Has(a, k) || Has(b, k)
  {
    if a.Entry? { HasConcat(a.next, b, k); }
  }

  /** Each field as an entry of its own. */
  function Entries(keyOf: KeyOf, doc: Doc): Items
    decreases doc
  {
    match doc case DEnd => End case Field(k, v, next) => Entry(keyOf(k), Decode(keyOf, v), Entries(keyOf, next))
  }

  /** Decoding a document loses length as soon as one key meets another. */
  lemma {:induction false} FieldsAppend(keyOf: KeyOf, acc: Items, doc: Doc)
    ensures Length(DecodeFields(keyOf, acc, doc)) <= Length(acc) + Size(doc)
    ensures Length(DecodeFields(keyOf, acc, doc)) == Length(acc) + Size(doc) ==>
      DecodeFields(keyOf, acc, doc) == Concat(acc, Entries(keyOf, doc))
    decreases doc
  {
    match doc {
      case DEnd => ConcatEnd(acc);
      case Field(k, v, next) =>
        PutFresh(acc, keyOf(k), Decode(keyOf, v));
        FieldsAppend(keyOf, Put(acc, keyOf(k), Decode(keyOf, v)), next);
        ConcatAssoc(acc, keyOf(k), Decode(keyOf, v), Entries(keyOf, next));
    }
  }

  lemma {:induction false} EncodeSize(items: Items)
    ensures Size(EncodeAll(items)) <= Length(items)
  {
    if items.Entry? { EncodeSize(items.next); }
  }

  // ---------------------------------------------------------------- the round trip

  /** A value comes back unchanged exactly if it is one that survives. */
  lemma {:induction false} RoundTripExact(keyOf: KeyOf, v: Value)
    requires Proper(v)
    ensures (Encode(v).Some? && Decode(keyOf, Encode(v).value) == v) <==> Survives(keyOf, v)
    decreases v, 1
  {
    if v.Array? {
      if v.items.End? {
      } else if Has(v.items, Index(0)) {
        ListExact(keyOf, 0, v.items);
      } else {
        MapExact(keyOf, v.items);
      }
    }
  }

  lemma {:induction false} ListExact(keyOf: KeyOf, x: nat, items: Items)
    requires Distinct(items)
    ensures DecodeList(keyOf, x, EncodeAll(items)) == items <==> ListSurvives(keyOf, x, items)
    decreases items, 2
  {
    if items.Entry? {
      RoundTripExact(keyOf, items.val);
      ListExact(keyOf, x + 1, items.next);
      if Encode(items.val).None? { ListLength(keyOf, x, EncodeAll(items.next)); EncodeSize(items.next); }
    }
  }

  lemma {:induction false} ListLength(keyOf: KeyOf, x: nat, doc: Doc)
    ensures Length(DecodeList(keyOf, x, doc)) == Size(doc)
    decreases doc
  {
    if doc.Field? { ListLength(keyOf, x + 1, doc.next); }
  }

  /** fill_with to a document and back: every array, as a whole, comes back unchanged exactly if its
      keys come back from their text and its values survive. */
  lemma {:induction false} MapExact(keyOf: KeyOf, items: Items)
    requires Distinct(items)
    ensures DecodeFields(keyOf, End, EncodeAll(items)) == items <==> MapSurvives(keyOf, items)
    decreases items, 3
  {
    EntriesExact(keyOf, items);
    FieldsAppend(keyOf, End, EncodeAll(items));
    EncodeSize(items);
    if MapSurvives(keyOf, items) { FieldsFresh(keyOf, End, items); }
  }

  lemma {:induction false} EntriesExact(keyOf: KeyOf, items: Items)
    requires Distinct(items)
    ensures Entries(keyOf, EncodeAll(items)) == items <==> MapSurvives(keyOf, items)
    decreases items, 2
  {
    if items.Entry? {
      RoundTripExact(keyOf, items.val);
      EntriesExact(keyOf, items.next);
      if Encode(items.val).None? { EntriesLength(keyOf, EncodeAll(items.next)); EncodeSize(items.next); }
    }
  }

  lemma {:induction false} EntriesLength(keyOf: KeyOf, doc: Doc)
    ensures Length(Entries(keyOf, doc)) == Size(doc)
    decreases doc
  {
    if doc.Field? { EntriesLength(keyOf, doc.next); }
  }

  /** Keys that are new each time are appended. */
  lemma {:induction false} FieldsFresh(keyOf: KeyOf, acc: Items, items: Items)
    requires Distinct(items) && MapSurvives(keyOf, items)
    requires forall k :: Has(items, k) ==> !Has(acc, k)
    ensures DecodeFields(keyOf, acc, EncodeAll(items)) == Concat(acc, items)
    decreases items, 2
  {
    match items {
      case End => ConcatEnd(acc);
      case Entry(k, v, next) =>
        RoundTripExact(keyOf, v);
        PutFresh(acc, k, v);
        var acc' := Concat(acc, Entry(k, v, End));
        forall k' | Has(next, k') ensures !Has(acc', k') { HasConcat(acc, Entry(k, v, End), k'); }
        FieldsFresh(keyOf, acc', next);
        ConcatAssoc(acc, k, v, next);
    }
  }

  // ---------------------------------------------------------------- what is stored, and what is read

  /** b stands for the value v, which is no array: the same number, text, time; a fraction is cut off, and
      there is nothing to say about objects of other classes but that they are such. */
  predicate Same(v: Value, b: BValue) {
    match (v, b)
    case (Undef, _) => b.BNull? || b.BUnsupported?
    case (Null, BNull) => true
    case (Bool(x), BBool(y)) => x == y
    case (Long(n), BInt32(m)) => n == m
    case (Long(n), BInt64(m)) => n == m
    case (Double(x), BDouble(y)) => x == y
    case (Double(x), BInt64(n)) => if x < 0.0 then x <= n as real <= 0.0 && n as real - x < 1.0
                                   else 0.0 <= n as real <= x && x - n as real < 1.0
    case (Str(x), BUtf8(y)) => x == y
    case (ObjectId(x), BOid(y)) => x == y
    case (DateTime(x), BDate(y)) => x == y
    case (Object(_), BUtf8(y)) => y == "<unknown object>"
    case _ => false
  }

  lemma EncodeSame(v: Value)
    requires !v.Array?
    ensures if v.Other? then Encode(v).None? else Encode(v).Some? && Same(v, Encode(v).value)
  {
  }

  lemma DecodeSame(keyOf: KeyOf, b: BValue)
    requires !b.BArray? && !b.BDocument?
    ensures Same(Decode(keyOf, b), b)
    ensures b.BUnsupported? ==> Decode(keyOf, b) == Undef
    ensures b.BNull? ==> Decode(keyOf, b) == Null
  {
  }

  predicate Member(items: Items, k: Key, v: Value) {
    items.Entry? && ((items.key == k && items.val == v) || Member(items.next, k, v))
  }

  ghost predicate HasKey(items: Items, k: Key) { exists v :: Member(items, k, v) }

  lemma {:induction false} MemberHas(items: Items, k: Key, v: Value)
    requires Member(items, k, v)
    ensures Has(items, k)
  {
    if items.key != k { MemberHas(items.next, k, v); }
  }

  lemma {:induction false} HasMember(items: Items, k: Key) returns (v: Value)
    requires Has(items, k)
    ensures Member(items, k, v)
  {
    if items.key == k { v := items.val; } else { v := HasMember(items.next, k); }
  }

  lemma HasMeans(items: Items, k: Key)
    ensures Has(items, k) <==> HasKey(items, k)
  {
    if Has(items, k) {
      var v := HasMember(items, k);
      assert HasKey(items, k);
    }
    if HasKey(items, k) {
      var v :| Member(items, k, v);
      MemberHas(items, k, v);
    }
  }

  /** An array is stored as a BSON array if it is empty or has a key 0, and as a document otherwise; its
      entries are stored in order under the text of their keys, but for references and resources. */
  lemma ArrayStored(items: Items)
    ensures Encode(Array(items)).Some?
    ensures var b := Encode(Array(items)).value;
      if items == End || HasKey(items, Index(0)) then b == BArray(EncodeAll(items)) else b == BDocument(EncodeAll(items))
  {
    HasMeans(items, Index(0));
  }

  function Nth(doc: Doc, i: nat): (string, BValue)
    requires i < Size(doc)
  {
    if i == 0 then (doc.key, doc.val) else Nth(doc.next, i - 1)
  }

  function NthEntry(items: Items, i: nat): (Key, Value)
    requires i < Length(items)
  {
    if i == 0 then (items.key, items.val) else NthEntry(items.next, i - 1)
  }

  /** The entries that have a BSON type. */
  function Storable(items: Items): Items {
    match items
    case End => End
    case Entry(k, v, next) => if v == Other then Storable(next) else Entry(k, v, Storable(next))
  }

  lemma {:induction false} EntriesStored(items: Items)
    ensures Size(EncodeAll(items)) == Length(Storable(items))
    ensures forall i :: 0 <= i < Size(EncodeAll(items)) ==>
              var (k, v) := NthEntry(Storable(items), i);
              Encode(v).Some? && Nth(EncodeAll(items), i) == (Text(k), Encode(v).value)
  {
    if items.Entry? {
      EntriesStored(items.next);
    }
  }

  function Lookup(items: Items, k: Key): Option<Value> {
    match items case End => None case Entry(k', v, next) => if k' == k then Some(v) else Lookup(next, k)
  }

  /** Assignment changes the one element. */
  lemma {:induction false} PutLookup(items: Items, k: Key, v: Value, k': Key)
    ensures Lookup(Put(items, k, v), k') == if k' == k then Some(v) else Lookup(items, k')
  {
    if items.Entry? { PutLookup(items.next, k, v, k'); }
  }

  // ---------------------------------------------------------------- BSON to PHP and back

  /** The same value with 32-bit integers as 64-bit ones. */
  function Widen(b: BValue): BValue
    decreases b, 0
  {
    match b
    case BInt32(n) => BInt64(n)
    case BArray(doc) => BArray(WidenAll(doc))
    case BDocument(doc) => BDocument(WidenAll(doc))
    case _ => b
  }

  function WidenAll(doc: Doc): Doc
    decreases doc, 1
  {
    match doc case DEnd => DEnd case Field(k, v, next) => Field(k, Widen(v), WidenAll(next))
  }

  /** Everything but doubles and unsupported types; arrays keyed "0", "1", ... in order; documents that are not
      empty and whose keys PHP keeps apart, does not take for 0, and gives back. */
  predicate Stable(keyOf: KeyOf, b: BValue)
    decreases b, 0
  {
    match b
    case BDouble(_) | BUnsupported => false
    case BArray(doc) => ListStable(keyOf, 0, doc)
    case BDocument(doc) =>
      doc.Field? && !FieldHas(keyOf, doc, Index(0)) && FieldsDistinct(keyOf, doc) && FieldsStable(keyOf, doc)
    case _ => true
  }

  predicate ListStable(keyOf: KeyOf, x: nat, doc: Doc)
    decreases doc, 1
  {
    doc.Field? ==> doc.key == Decimal(x) && Stable(keyOf, doc.val) && ListStable(keyOf, x + 1, doc.next)
  }

  predicate FieldsStable(keyOf: KeyOf, doc: Doc)
    decreases doc, 1
  {
    doc.Field? ==> Text(keyOf(doc.key)) == doc.key && Stable(keyOf, doc.val) && FieldsStable(keyOf, doc.next)
  }

  predicate FieldHas(keyOf: KeyOf, doc: Doc, k: Key) {
    doc.Field? && (keyOf(doc.key) == k || FieldHas(keyOf, doc.next, k))
  }

  predicate FieldsDistinct(keyOf: KeyOf, doc: Doc) {
    doc.Field? ==> !FieldHas(keyOf, doc.next, keyOf(doc.key)) && FieldsDistinct(keyOf, doc.next)
  }

  lemma {:induction false} PutHas(items: Items, k: Key, v: Value, k': Key)
    ensures Has(Put(items, k, v), k') <==> k' == k || Has(items, k')
  {
    if items.Entry? { PutHas(items.next, k, v, k'); }
  }

  lemma {:induction false} FieldsHas(keyOf: KeyOf, acc: Items, doc: Doc, k: Key)
    ensures Has(DecodeFields(keyOf, acc, doc), k) <==> Has(acc, k) || FieldHas(keyOf, doc, k)
    decreases doc
  {
    if doc.Field? {
      PutHas(acc, keyOf(doc.key), Decode(keyOf, doc.val), k);
      FieldsHas(keyOf, Put(acc, keyOf(doc.key), Decode(keyOf, doc.val)), doc.next, k);
    }
  }

  predicate Apart(keyOf: KeyOf, acc: Items, doc: Doc) {
    doc.Field? ==> !Has(acc, keyOf(doc.key)) && Apart(keyOf, acc, doc.next)
  }

  lemma {:induction false} PutApart(keyOf: KeyOf, acc: Items, k: Key, v: Value, doc: Doc)
    ensures Apart(keyOf, Put(acc, k, v), doc) <==> Apart(keyOf, acc, doc) && !FieldHas(keyOf, doc, k)
    decreases doc
  {
    if doc.Field? {
      PutHas(acc, k, v, keyOf(doc.key));
      PutApart(keyOf, acc, k, v, doc.next);
    }
  }

  /** No field is lost exactly if no two keys meet. */
  lemma {:induction false} FieldsLength(keyOf: KeyOf, acc: Items, doc: Doc)
    ensures Length(DecodeFields(keyOf, acc, doc)) == Length(acc) + Size(doc) <==>
      Apart(keyOf, acc, doc) && FieldsDistinct(keyOf, doc)
    decreases doc
  {
    if doc.Field? {
      var k, v := keyOf(doc.key), Decode(keyOf, doc.val);
      PutFresh(acc, k, v);
      PutApart(keyOf, acc, k, v, doc.next);
      FieldsLength(keyOf, Put(acc, k, v), doc.next);
      FieldsAppend(keyOf, Put(acc, k, v), doc.next);
    }
  }

  lemma {:induction false} ApartEnd(keyOf: KeyOf, doc: Doc)
    ensures Apart(keyOf, End, doc)
  {
    if doc.Field? { ApartEnd(keyOf, doc.next); }
  }

  predicate AllStorable(items: Items) { items.Entry? ==> Encode(items.val).Some? && AllStorable(items.next) }

  lemma {:induction false} StorableSize(items: Items)
    requires AllStorable(items)
    ensures Size(EncodeAll(items)) == Length(items)
  {
    if items.Entry? { StorableSize(items.next); }
  }

  lemma {:induction false} PutStorable(items: Items, k: Key, v: Value)
    requires AllStorable(items) && Encode(v).Some?
    ensures AllStorable(Put(items, k, v))
  {
    if items.Entry? { PutStorable(items.next, k, v); }
  }

  lemma {:induction false} FieldsStorable(keyOf: KeyOf, acc: Items, doc: Doc)
    requires AllStorable(acc)
    ensures AllStorable(DecodeFields(keyOf, acc, doc))
    decreases doc
  {
    if doc.Field? {
      PutStorable(acc, keyOf(doc.key), Decode(keyOf, doc.val));
      FieldsStorable(keyOf, Put(acc, keyOf(doc.key), Decode(keyOf, doc.val)), doc.next);
    }
  }

  lemma {:induction false} WidenSize(doc: Doc)
    ensures Size(WidenAll(doc)) == Size(doc)
  {
    if doc.Field? { WidenSize(doc.next); }
  }

  lemma {:induction false} ListBack(keyOf: KeyOf, x: nat, doc: Doc)
    ensures EncodeAll(DecodeList(keyOf, x, doc)) == WidenAll(doc) <==> ListStable(keyOf, x, doc)
    decreases doc, 1
  {
    if doc.Field? {
      BackExact(keyOf, doc.val);
      ListBack(keyOf, x + 1, doc.next);
    }
  }

  lemma {:induction false} EntriesBack(keyOf: KeyOf, doc: Doc)
    ensures EncodeAll(Entries(keyOf, doc)) == WidenAll(doc) <==> FieldsStable(keyOf, doc)
    decreases doc, 1
  {
    if doc.Field? {
      BackExact(keyOf, doc.val);
      EntriesBack(keyOf, doc.next);
    }
  }

  lemma {:induction false} FieldsBack(keyOf: KeyOf, doc: Doc)
    ensures EncodeAll(DecodeFields(keyOf, End, doc)) == WidenAll(doc) <==>
      FieldsDistinct(keyOf, doc) && FieldsStable(keyOf, doc)
    decreases doc, 2
  {
    var items := DecodeFields(keyOf, End, doc);
    FieldsStorable(keyOf, End, doc);
    StorableSize(items);
    WidenSize(doc);
    ApartEnd(keyOf, doc);
    FieldsLength(keyOf, End, doc);
    FieldsAppend(keyOf, End, doc);
    EntriesBack(keyOf, doc);
  }

  /** Read into PHP and written back, a BSON value is the same, but for the width of its integers, exactly if it
      is stable. */
  lemma {:induction false} BackExact(keyOf: KeyOf, b: BValue)
    ensures Encode(Decode(keyOf, b)).Some?
    ensures Encode(Decode(keyOf, b)) == Some(Widen(b)) <==> Stable(keyOf, b)
    decreases b, 0
  {
    match b {
      case BArray(doc) => ListBack(keyOf, 0, doc);
      case BDocument(doc) =>
        FieldsHas(keyOf, End, doc, Index(0));
        FieldsBack(keyOf, doc);
        FieldsAny(keyOf, End, doc);
      case _ =>
    }
  }

  lemma {:induction false} FieldsAny(keyOf: KeyOf, acc: Items, doc: Doc)
    ensures DecodeFields(keyOf, acc, doc).End? <==> acc.End? && doc.DEnd?
    decreases doc
  {
    if doc.Field? { FieldsAny(keyOf, Put(acc, keyOf(doc.key), Decode(keyOf, doc.val)), doc.next); }
  }

  // ---------------------------------------------------------------- the two loops

  function Join(a: Doc, b: Doc): Doc {
    match a case DEnd => b case Field(k, v, next) => Field(k, v, Join(next, b))
  }

  lemma {:induction false} JoinAssoc(a: Doc, k: string, v: BValue, b: Doc)
    ensures Join(Join(a, Field(k, v, DEnd)), b) == Join(a, Field(k, v, b))
  {
    if a.Field? { JoinAssoc(a.next, k, v, b); }
  }

  lemma {:induction false} JoinEnd(a: Doc)
    ensures Join(a, DEnd) == a
  {
    if a.Field? { JoinEnd(a.next); }
  }

  /** A bson_t that is being filled. */
  class Document {
    var fields: Doc
    constructor ()
      ensures fields == DEnd
    {
      fields := DEnd;
    }

    /** bson_append_*: at the end. */
    method Append(key: string, v: BValue)
      modifies this
      ensures fields == Join(old(fields), Field(key, v, DEnd))
    {
      fields := Join(fields, Field(key, v, DEnd));
    }
  }

  method FillDocument(doc: Document, items: Items)
    modifies doc
    ensures doc.fields == Join(old(doc.fields), EncodeAll(items))
    decreases items
  {
    var i := items;
    JoinEnd(doc.fields);
    while i.Entry?
      invariant i == items || i < items
      invariant Join(doc.fields, EncodeAll(i)) == Join(old(doc.fields), EncodeAll(items))
      decreases i
    {
      var key := Text(i.key);
      ghost var before := doc.fields;
      match i.val {
        case Undef => doc.Append(key, BNull);
        case Null => doc.Append(key, BNull);
        case Bool(b) => doc.Append(key, BBool(b));
        case Long(n) => doc.Append(key, BInt64(n));
        case Double(r) => doc.Append(key, BInt64(ToLong(r)));
        case Str(s) => doc.Append(key, BUtf8(s));
        case ObjectId(oid) => doc.Append(key, BOid(oid));
        case DateTime(ms) => doc.Append(key, BDate(ms));
        case Object(_) => doc.Append(key, BUtf8("<unknown object>"));
        case Other =>
        case Array(item) =>
          var child := new Document();
          if Length(item) > 0 {
            FillDocument(child, item);
            doc.Append(key, if Has(item, Index(0)) then BArray(child.fields) else BDocument(child.fields));
          } else {
            doc.Append(key, BArray(child.fields));
          }
      }
      if Encode(i.val).Some? { JoinAssoc(before, key, Encode(i.val).value, EncodeAll(i.next)); }
      i := i.next;
    }
    JoinEnd(doc.fields);
  }

  method FillArray(keyOf: KeyOf, arr: Items, doc: Doc) returns (r: Items)
    ensures r == DecodeFields(keyOf, arr, doc)
    decreases doc, 1
  {
    r := arr;
    var i := doc;
    while i.Field?
      invariant i == doc || i < doc
      invariant DecodeFields(keyOf, r, i) == DecodeFields(keyOf, arr, doc)
      decreases i
    {
      var v := From(keyOf, i.val);
      r := Put(r, keyOf(i.key), v);
      i := i.next;
    }
  }

  method From(keyOf: KeyOf, b: BValue) returns (v: Value)
    ensures v == Decode(keyOf, b)
    decreases b, 0
  {
    match b
    case BArray(doc) =>
      var a, x, j := End, 0, doc;
      ConcatEnd(DecodeList(keyOf, 0, doc));
      while j.Field?
        invariant j == doc || j < doc
        invariant Length(a) == x && (forall k :: Has(a, k) ==> k.Index? && k.i < x)
        invariant Concat(a, DecodeList(keyOf, x, j)) == DecodeList(keyOf, 0, doc)
        decreases j
      {
        var e := From(keyOf, j.val);
        PutFresh(a, Index(x), e);
        ConcatAssoc(a, Index(x), e, DecodeList(keyOf, x + 1, j.next));
        forall k ensures Has(Put(a, Index(x), e), k) <==> Has(a, k) || k == Index(x) {
          HasConcat(a, Entry(Index(x), e, End), k);
        }
        a := Put(a, Index(x), e);
        x := x + 1;
        j := j.next;
      }
      ConcatEnd(a);
      v := Array(a);
    case BDocument(doc) =>
      var a := FillArray(keyOf, End, doc);
      v := Array(a);
    case BNull => v := Null;
    case BBool(x) => v := Bool(x);
    case BInt32(n) => v := Long(n);
    case BInt64(n) => v := Long(n);
    case BDouble(r) => v := Double(r);
    case BUtf8(s) => v := Str(s);
    case BOid(oid) => v := ObjectId(oid);
    case BDate(ms) => v := DateTime(ms);
    case BUnsupported => v := Undef;
  }
}

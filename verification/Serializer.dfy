/**
 * The tagged binary format: what is written for a value of a type, and what is
 * read back from a stream at a position, including where the read position is
 * left when a read throws. Little-endian hosts; no floating point.
 */
module Serializer {

  type Byte = b: int | 0 <= b < 256

  const MAX_STRING: nat := 1048576
  const MAX_COUNT: nat := 16777216
  const MAX_TUPLE: nat := 64

  // ---- Types and values --------------------------------------------------

  datatype Kind = Bool | Char | UInt8 | Int16 | Int32 | Int64 | UInt16 | UInt32 | UInt64

  datatype Shape = Vector | List | Set | Map

  // A container's entry has one field, or a key and a value for a map.
  datatype Type =
    | Scalar(kind: Kind)
    | Text
    | Container(shape: Shape, entry: Fields)
    | Tuple(fields: Fields)
    | Class(fields: Fields)

  datatype Fields = NoFields | Field(head: Type, rest: Fields)

  datatype Value =
    | Number(n: int)
    | Chars(chars: seq<Byte>)
    | Items(items: seq<Values>)
    | Record(values: Values)

  datatype Values = NoValues | Values(head: Value, rest: Values)

  // The order of sets and of map keys.
  type Less = (Value, Value) -> bool

  function Tag(t: Type): Byte {
    match t
    case Scalar(k) =>
      (match k
       case Bool => 0 case Char => 9 case UInt8 => 21
       case Int16 => 1 case Int32 => 2 case Int64 => 3
       case UInt16 => 4 case UInt32 => 5 case UInt64 => 6)
    case Text => 10
    case Container(shape, _) =>
      (match shape case Vector => 13 case List => 14 case Set => 18 case Map => 15)
    case Tuple(_) => 16
    case Class(_) => 19
  }

  function Width(k: Kind): nat {
    match k
    case Bool => 1 case Char => 1 case UInt8 => 1
    case Int16 => 2 case UInt16 => 2
    case Int32 => 4 case UInt32 => 4
    case Int64 => 8 case UInt64 => 8
  }

  predicate Signed(k: Kind) {
    k.Char? || k.Int16? || k.Int32? || k.Int64?
  }

  function Range(k: Kind): nat {
    match Width(k)
    case 1 => 0x100
    case 2 => 0x1_0000
    case 4 => 0x1_0000_0000
    case _ => 0x1_0000_0000_0000_0000
  }

  predicate InRange(k: Kind, n: int) {
    if k.Bool? then n == 0 || n == 1
    else if Signed(k) then -(Range(k) as int) / 2 <= n < Range(k) / 2
    else 0 <= n < Range(k)
  }

  // ---- Numbers as bytes --------------------------------------------------

  function Low(n: nat, w: nat): (s: seq<Byte>)
    ensures |s| == w
  {
    if w == 0 then [] else [n % 256] + Low(n / 256, w - 1)
  }

  function FromLow(s: seq<Byte>): nat {
    if s == [] then 0 else s[0] + 256 * FromLow(s[1..])
  }

  function Power256(w: nat): nat {
    if w == 0 then 1 else 256 * Power256(w - 1)
  }

  lemma {:induction false} LowRoundTrip(n: nat, w: nat)
    requires n < Power256(w)
    ensures FromLow(Low(n, w)) == n
    decreases w
  {
    if w > 0 {
      LowRoundTrip(n / 256, w - 1);
      assert Low(n, w)[1..] == Low(n / 256, w - 1);
    }
  }

  lemma RangeIsPower(k: Kind)
    ensures Power256(Width(k)) == Range(k)
  {
    assert Power256(2) == 0x1_0000 && Power256(4) == 0x1_0000_0000;
    assert Power256(6) == 0x1_0000_0000_0000;
  }

  // The value the bytes of a scalar stand for.
  function Interpret(k: Kind, raw: nat): int {
    if k.Bool? then (if raw != 0 then 1 else 0)
    else if Signed(k) && raw >= Range(k) / 2 then raw - Range(k)
    else raw
  }

  function Pattern(k: Kind, n: int): (raw: nat)
    ensures raw < Range(k)
  {
    n % Range(k)
  }

  lemma ScalarRoundTrip(k: Kind, n: int)
    requires InRange(k, n)
    ensures Interpret(k, FromLow(Low(Pattern(k, n), Width(k)))) == n
  {
    hide Low, FromLow, Power256, Interpret, Pattern;
    RangeIsPower(k);
    LowRoundTrip(Pattern(k, n), Width(k));
    PatternMeaning(k, n);
  }

  lemma PatternMeaning(k: Kind, n: int)
    requires InRange(k, n)
    ensures Interpret(k, Pattern(k, n)) == n
  {
    match k {
      case Bool => case Char => case UInt8 => case Int16 => case Int32 => case Int64 =>
      case UInt16 => case UInt32 => case UInt64 =>
    }
  }

  // ---- Values that can be written ----------------------------------------

  function Length(fs: Fields): nat {
    if fs.NoFields? then 0 else 1 + Length(fs.rest)
  }

  predicate Sorted(shape: Shape) {
    shape.Set? || shape.Map?
  }

  // Set elements and map keys are kept in ascending order.
  predicate Ordered(items: seq<Values>, less: Less) {
    forall i, j :: 0 <= i < j < |items| ==>
      items[i].Values? && items[j].Values? && less(items[i].head, items[j].head)
  }

  ghost predicate IsOrder(less: Less) {
    forall a, b :: less(a, b) ==> !less(b, a)
  }

  predicate Typed(t: Type, v: Value, less: Less)
    decreases t, 0
  {
    match t
    case Scalar(k) => v.Number? && InRange(k, v.n)
    case Text => v.Chars? && |v.chars| <= MAX_STRING
    case Container(shape, entry) =>
      && v.Items? && |v.items| <= MAX_COUNT && Length(entry) == (if shape.Map? then 2 else 1)
      && (forall i :: 0 <= i < |v.items| ==> TypedFields(entry, v.items[i], less))
      && (Sorted(shape) ==> Ordered(v.items, less))
    case Tuple(fs) => v.Record? && Length(fs) <= MAX_TUPLE && TypedFields(fs, v.values, less)
    case Class(fs) => v.Record? && TypedFields(fs, v.values, less)
  }

  predicate TypedFields(fs: Fields, vs: Values, less: Less)
    decreases fs, 0
  {
    match fs
    case NoFields => vs.NoValues?
    case Field(h, r) => vs.Values? && Typed(h, vs.head, less) && TypedFields(r, vs.rest, less)
  }

  // ---- Writing -----------------------------------------------------------

  function Encode(t: Type, v: Value, less: Less): seq<Byte>
    requires Typed(t, v, less)
    decreases t, 0
  {
    match t
    case Scalar(k) => [Tag(t)] + Low(Pattern(k, v.n), Width(k))
    case Text => [Tag(t)] + Low(|v.chars|, 4) + v.chars
    case Container(shape, entry) => [Tag(t)] + Low(|v.items|, 4) + EncodeItems(entry, v.items, less)
    case Tuple(fs) =>
      if fs.NoFields? then [] else [Tag(t)] + Low(Length(fs), 2) + EncodeFields(fs, v.values, less)
    case Class(fs) => [Tag(t)] + EncodeFields(fs, v.values, less)
  }

  function EncodeFields(fs: Fields, vs: Values, less: Less): seq<Byte>
    requires TypedFields(fs, vs, less)
    decreases fs, 0
  {
    match fs
    case NoFields => []
    case Field(h, r) => Encode(h, vs.head, less) + EncodeFields(r, vs.rest, less)
  }

  function EncodeItems(entry: Fields, items: seq<Values>, less: Less): seq<Byte>
    requires forall i :: 0 <= i < |items| ==> TypedFields(entry, items[i], less)
    decreases entry, 1 + |items|
  {
    if items == [] then [] else EncodeFields(entry, items[0], less) + EncodeItems(entry, items[1..], less)
  }

  // ---- Writing with the limits checked -----------------------------------

  // A value of the type, of any size.
  predicate Shaped(t: Type, v: Value, less: Less)
    decreases t, 0
  {
    match t
    case Scalar(k) => v.Number? && InRange(k, v.n)
    case Text => v.Chars?
    case Container(shape, entry) =>
      && v.Items? && Length(entry) == (if shape.Map? then 2 else 1)
      && (forall i :: 0 <= i < |v.items| ==> ShapedFields(entry, v.items[i], less))
      && (Sorted(shape) ==> Ordered(v.items, less))
    case Tuple(fs) => v.Record? && ShapedFields(fs, v.values, less)
    case Class(fs) => v.Record? && ShapedFields(fs, v.values, less)
  }

  predicate ShapedFields(fs: Fields, vs: Values, less: Less)
    decreases fs, 0
  {
    match fs
    case NoFields => vs.NoValues?
    case Field(h, r) => vs.Values? && Shaped(h, vs.head, less) && ShapedFields(r, vs.rest, less)
  }

  // What a writer appends, and whether it returns or throws.
  datatype Written = Written(bytes: seq<Byte>, done: bool)

  function After(before: seq<Byte>, w: Written): Written {
    Written(before + w.bytes, w.done)
  }

  // A string over its limit is refused before anything is written, a container
  // or tuple over its limit after its tag.
  function Out(t: Type, v: Value, less: Less): Written
    requires Shaped(t, v, less)
    decreases t, 0
  {
    match t
    case Scalar(k) => Written([Tag(t)] + Low(Pattern(k, v.n), Width(k)), true)
    case Text =>
      if |v.chars| > MAX_STRING then Written([], false)
      else Written([Tag(t)] + Low(|v.chars|, 4) + v.chars, true)
    case Container(shape, entry) =>
      if |v.items| > MAX_COUNT then Written([Tag(t)], false)
      else After([Tag(t)] + Low(|v.items|, 4), OutItems(entry, v.items, less))
    case Tuple(fs) =>
      if fs.NoFields? then Written([], true)
      else if Length(fs) > MAX_TUPLE then Written([Tag(t)], false)
      else After([Tag(t)] + Low(Length(fs), 2), OutFields(fs, v.values, less))
    case Class(fs) => After([Tag(t)], OutFields(fs, v.values, less))
  }

  function OutFields(fs: Fields, vs: Values, less: Less): Written
    requires ShapedFields(fs, vs, less)
    decreases fs, 0
  {
    match fs
    case NoFields => Written([], true)
    case Field(h, r) =>
      var w := Out(h, vs.head, less);
      if w.done then After(w.bytes, OutFields(r, vs.rest, less)) else w
  }

  function OutItems(entry: Fields, items: seq<Values>, less: Less): Written
    requires forall i :: 0 <= i < |items| ==> ShapedFields(entry, items[i], less)
    decreases entry, 1 + |items|
  {
    if items == [] then Written([], true) else
    var w := OutFields(entry, items[0], less);
    if w.done then After(w.bytes, OutItems(entry, items[1..], less)) else w
  }

  // A writer returns if and only if every part of the value is within its
  // limit, and has then appended the encoding.
  lemma {:induction false} OutExact(t: Type, v: Value, less: Less)
    requires Shaped(t, v, less)
    ensures Out(t, v, less).done <==> Typed(t, v, less)
    ensures Typed(t, v, less) ==> Out(t, v, less).bytes == Encode(t, v, less)
    decreases t, 0
  {
    hide Low, Pattern, InRange, Ordered, TypedFields, ShapedFields, OutFields, OutItems, EncodeFields, EncodeItems;
    match t {
      case Scalar(_) =>
      case Text =>
      case Container(_, entry) => OutItemsExact(entry, v.items, less);
      case Tuple(fs) =>
        OutFieldsExact(fs, v.values, less);
        if fs.NoFields? { NoFieldsTyped(v.values, less); }
      case Class(fs) => OutFieldsExact(fs, v.values, less);
    }
  }

  lemma NoFieldsTyped(vs: Values, less: Less)
    requires ShapedFields(NoFields, vs, less)
    ensures TypedFields(NoFields, vs, less)
  {
  }

  lemma {:induction false} OutFieldsExact(fs: Fields, vs: Values, less: Less)
    requires ShapedFields(fs, vs, less)
    ensures OutFields(fs, vs, less).done <==> TypedFields(fs, vs, less)
    ensures TypedFields(fs, vs, less) ==> OutFields(fs, vs, less).bytes == EncodeFields(fs, vs, less)
    decreases fs, 0
  {
    hide Out, Encode, Typed, Shaped;
    if fs.Field? {
      OutExact(fs.head, vs.head, less);
      OutFieldsExact(fs.rest, vs.rest, less);
    }
  }

  lemma {:induction false} OutItemsExact(entry: Fields, items: seq<Values>, less: Less)
    requires forall i :: 0 <= i < |items| ==> ShapedFields(entry, items[i], less)
    ensures OutItems(entry, items, less).done <==> forall i :: 0 <= i < |items| ==> TypedFields(entry, items[i], less)
    ensures OutItems(entry, items, less).done ==> OutItems(entry, items, less).bytes == EncodeItems(entry, items, less)
    decreases entry, 1 + |items|
  {
    hide OutFields, EncodeFields, TypedFields, ShapedFields;
    if items != [] {
      OutFieldsExact(entry, items[0], less);
      OutItemsExact(entry, items[1..], less);
      assert forall i :: 0 < i < |items| ==> items[i] == items[1..][i - 1];
    }
  }

  // ---- Reading -----------------------------------------------------------

  // A read gives a value and the next position, or throws and leaves the
  // position somewhere, or runs past the end of the stream.
  datatype Read<T> = Ok(value: T, next: nat) | Fail(at: nat) | Stray

  // Inserting into the container being read: at the end of a vector or list,
  // at its place in a set (a duplicate is dropped) or map (a duplicate is
  // overwritten).
  function Insert(shape: Shape, items: seq<Values>, x: Values, less: Less): seq<Values> {
    if !Sorted(shape) || items == [] then items + [x]
    else if items[0].NoValues? || x.NoValues? then items
    else if less(x.head, items[0].head) then [x] + items
    else if less(items[0].head, x.head) then [items[0]] + Insert(shape, items[1..], x, less)
    else if shape.Map? then [Values(items[0].head, x.rest)] + items[1..]
    else items
  }

  function ReadValue(t: Type, s: seq<Byte>, pos: nat, less: Less): (r: Read<Value>)
    requires pos <= |s|
    ensures r.Ok? ==> pos <= r.next <= |s|
    decreases t, 0
  {
    match t
    case Scalar(k) =>
      if |s| - pos < 1 + Width(k) || s[pos] != Tag(t) then Fail(pos)
      else Ok(Number(Interpret(k, FromLow(s[pos + 1..pos + 1 + Width(k)]))), pos + 1 + Width(k))
    case Text =>
      if |s| - pos < 5 || s[pos] != Tag(t) then Fail(pos) else
      var n := FromLow(s[pos + 1..pos + 5]);
      if n > MAX_STRING || |s| - pos < n then Fail(pos)
      else if |s| - (pos + 5) < n then Stray
      else Ok(Chars(s[pos + 5..pos + 5 + n]), pos + 5 + n)
    case Container(shape, entry) =>
      if |s| - pos < 5 || s[pos] != Tag(t) then Fail(pos) else
      var n := FromLow(s[pos + 1..pos + 5]);
      if n > MAX_COUNT then Fail(pos) else
      var r := ReadItems(shape, entry, n, [], s, pos + 5, less);
      (match r
       case Ok(items, next) => Ok(Items(items), next)
       case Fail(_) => Fail(pos)
       case Stray => Stray)
    case Tuple(fs) =>
      if fs.NoFields? then Ok(Record(NoValues), pos) else
      if |s| - pos < 3 || s[pos] != Tag(t) then Fail(pos) else
      var n := FromLow(s[pos + 1..pos + 3]);
      if n > MAX_TUPLE || n != Length(fs) then Fail(pos) else
      var r := ReadFields(fs, s, pos + 3, less);
      (match r
       case Ok(vs, next) => Ok(Record(vs), next)
       case Fail(_) => Fail(pos)
       case Stray => Stray)
    case Class(fs) =>
      if pos == |s| || s[pos] != Tag(t) then Fail(pos) else
      var r := ReadFields(fs, s, pos + 1, less);
      (match r
       case Ok(vs, next) => Ok(Record(vs), next)
       case Fail(at) => Fail(at)
       case Stray => Stray)
  }

  function ReadFields(fs: Fields, s: seq<Byte>, pos: nat, less: Less): (r: Read<Values>)
    requires pos <= |s|
    ensures r.Ok? ==> pos <= r.next <= |s|
    decreases fs, 0
  {
    match fs
    case NoFields => Ok(NoValues, pos)
    case Field(h, rest) =>
      match ReadValue(h, s, pos, less)
      case Fail(at) => Fail(at)
      case Stray => Stray
      case Ok(v, next) =>
        match ReadFields(rest, s, next, less)
        case Fail(at) => Fail(at)
        case Stray => Stray
        case Ok(vs, end) => Ok(Values(v, vs), end)
  }

  function ReadItems(shape: Shape, entry: Fields, n: nat, items: seq<Values>, s: seq<Byte>, pos: nat, less: Less)
    : (r: Read<seq<Values>>)
    requires pos <= |s|
    ensures r.Ok? ==> pos <= r.next <= |s|
    decreases entry, 1 + n
  {
    if n == 0 then Ok(items, pos) else
    match ReadFields(entry, s, pos, less)
    case Fail(at) => Fail(at)
    case Stray => Stray
    case Ok(x, next) => ReadItems(shape, entry, n - 1, Insert(shape, items, x, less), s, next, less)
  }

  // ---- Round trip --------------------------------------------------------

  // The stream holds e at pos.
  predicate At(s: seq<Byte>, pos: nat, e: seq<Byte>) {
    pos + |e| <= |s| && s[pos..pos + |e|] == e
  }

  lemma AtSplit(s: seq<Byte>, pos: nat, a: seq<Byte>, b: seq<Byte>)
    requires At(s, pos, a + b)
    ensures At(s, pos, a) && At(s, pos + |a|, b)
  {
    var e := a + b;
    assert a == e[..|a|] && b == e[|a|..];
    assert s[pos..pos + |e|][..|a|] == s[pos..pos + |a|];
    assert s[pos..pos + |e|][|a|..] == s[pos + |a|..pos + |e|];
  }

  // A tag, a number of w bytes and a body, one after the other.
  lemma HeaderAt(s: seq<Byte>, pos: nat, tag: Byte, n: nat, w: nat, body: seq<Byte>)
    requires At(s, pos, [tag] + Low(n, w) + body) && n < Power256(w)
    ensures pos + 1 + w + |body| <= |s| && s[pos] == tag
    ensures FromLow(s[pos + 1..pos + 1 + w]) == n && At(s, pos + 1 + w, body)
  {
    AtSplit(s, pos, [tag] + Low(n, w), body);
    AtSplit(s, pos, [tag], Low(n, w));
    assert s[pos] == s[pos..pos + 1][0];
    LowRoundTrip(n, w);
  }

  lemma {:induction false} InsertLast(shape: Shape, items: seq<Values>, x: Values, less: Less)
    requires IsOrder(less) && x.Values?
    requires Sorted(shape) ==> forall i :: 0 <= i < |items| ==> items[i].Values? && less(items[i].head, x.head)
    ensures Insert(shape, items, x, less) == items + [x]
  {
    if Sorted(shape) && items != [] {
      InsertLast(shape, items[1..], x, less);
    }
  }

  lemma Powers()
    ensures Power256(4) == 0x1_0000_0000 && Power256(2) == 0x1_0000
  {
  }

  lemma ScalarBack(k: Kind, v: Value, s: seq<Byte>, pos: nat, less: Less)
    requires Typed(Scalar(k), v, less) && At(s, pos, Encode(Scalar(k), v, less))
    ensures ReadValue(Scalar(k), s, pos, less) == Ok(v, pos + |Encode(Scalar(k), v, less)|)
  {
    hide Low, FromLow, Power256, Pattern, Interpret, At;
    var tag, raw := Tag(Scalar(k)), Pattern(k, v.n);
    RangeIsPower(k);
    ScalarRoundTrip(k, v.n);
    LowRoundTrip(raw, Width(k));
    assert [tag] + Low(raw, Width(k)) == [tag] + Low(raw, Width(k)) + [];
    HeaderAt(s, pos, tag, raw, Width(k), []);
  }

  lemma TextBack(v: Value, s: seq<Byte>, pos: nat, less: Less)
    requires Typed(Text, v, less) && At(s, pos, Encode(Text, v, less))
    ensures ReadValue(Text, s, pos, less) == Ok(v, pos + |Encode(Text, v, less)|)
  {
    hide Low, FromLow, Power256;
    Powers();
    HeaderAt(s, pos, Tag(Text), |v.chars|, 4, v.chars);
  }

  // What is left to read of a container once its tag and count are read.
  lemma ContainerHeader(shape: Shape, entry: Fields, v: Value, s: seq<Byte>, pos: nat, less: Less)
    requires Typed(Container(shape, entry), v, less) && At(s, pos, Encode(Container(shape, entry), v, less))
    ensures var body := EncodeItems(entry, v.items, less);
      && |Encode(Container(shape, entry), v, less)| == 5 + |body| && At(s, pos + 5, body) && pos + 5 <= |s|
      && ReadValue(Container(shape, entry), s, pos, less) ==
         match ReadItems(shape, entry, |v.items|, [], s, pos + 5, less)
         case Ok(items, next) => Ok(Items(items), next)
         case Fail(_) => Fail(pos)
         case Stray => Stray
  {
    hide Low, FromLow, Power256, At, Ordered, TypedFields;
    Powers();
    HeaderAt(s, pos, Tag(Container(shape, entry)), |v.items|, 4, EncodeItems(entry, v.items, less));
  }

  lemma TupleHeader(fs: Fields, v: Value, s: seq<Byte>, pos: nat, less: Less)
    requires Typed(Tuple(fs), v, less) && At(s, pos, Encode(Tuple(fs), v, less)) && fs.Field?
    ensures var body := EncodeFields(fs, v.values, less);
      && |Encode(Tuple(fs), v, less)| == 3 + |body| && At(s, pos + 3, body) && pos + 3 <= |s|
      && ReadValue(Tuple(fs), s, pos, less) ==
         match ReadFields(fs, s, pos + 3, less)
         case Ok(vs, next) => Ok(Record(vs), next)
         case Fail(_) => Fail(pos)
         case Stray => Stray
  {
    hide Low, FromLow, Power256, At, EncodeFields, ReadFields;
    Powers();
    HeaderAt(s, pos, Tag(Tuple(fs)), Length(fs), 2, EncodeFields(fs, v.values, less));
  }

  lemma {:induction false} ReadBack(t: Type, v: Value, s: seq<Byte>, pos: nat, less: Less)
    requires IsOrder(less) && Typed(t, v, less) && At(s, pos, Encode(t, v, less))
    ensures ReadValue(t, s, pos, less) == Ok(v, pos + |Encode(t, v, less)|)
    decreases t, 0
  {
    hide Low, FromLow, Power256, At, IsOrder, Ordered;
    match t {
      case Scalar(k) => ScalarBack(k, v, s, pos, less);
      case Text => TextBack(v, s, pos, less);
      case Container(shape, entry) =>
        ContainerHeader(shape, entry, v, s, pos, less);
        assert v.items[0..] == v.items && v.items[..0] == [];
        ReadBackItems(shape, entry, v.items, 0, s, pos + 5, less);
      case Tuple(fs) =>
        if !fs.NoFields? {
          TupleHeader(fs, v, s, pos, less);
          ReadBackFields(fs, v.values, s, pos + 3, less);
        }
      case Class(fs) =>
        ClassAt(s, pos, Tag(t), EncodeFields(fs, v.values, less));
        ReadBackFields(fs, v.values, s, pos + 1, less);
    }
  }

  lemma ClassAt(s: seq<Byte>, pos: nat, tag: Byte, body: seq<Byte>)
    requires At(s, pos, [tag] + body)
    ensures pos < |s| && s[pos] == tag && At(s, pos + 1, body)
  {
    AtSplit(s, pos, [tag], body);
    assert s[pos] == s[pos..pos + 1][0];
  }

  lemma {:induction false} ReadBackFields(fs: Fields, vs: Values, s: seq<Byte>, pos: nat, less: Less)
    requires IsOrder(less) && TypedFields(fs, vs, less) && At(s, pos, EncodeFields(fs, vs, less))
    ensures ReadFields(fs, s, pos, less) == Ok(vs, pos + |EncodeFields(fs, vs, less)|)
    decreases fs, 0
  {
    hide At, Encode, ReadValue, Typed;
    match fs {
      case NoFields =>
      case Field(h, r) =>
        AtSplit(s, pos, Encode(h, vs.head, less), EncodeFields(r, vs.rest, less));
        ReadBack(h, vs.head, s, pos, less);
        ReadBackFields(r, vs.rest, s, pos + |Encode(h, vs.head, less)|, less);
    }
  }

  // The first k items have been read; the others are next in the stream.
  lemma {:induction false} ReadBackItems(shape: Shape, entry: Fields, items: seq<Values>, k: nat, s: seq<Byte>,
      pos: nat, less: Less)
    requires IsOrder(less) && k <= |items| && entry.Field?
    requires forall i :: 0 <= i < |items| ==> TypedFields(entry, items[i], less)
    requires Sorted(shape) ==> Ordered(items, less)
    requires At(s, pos, EncodeItems(entry, items[k..], less))
    ensures ReadItems(shape, entry, |items| - k, items[..k], s, pos, less)
         == Ok(items, pos + |EncodeItems(entry, items[k..], less)|)
    decreases entry, 1 + |items| - k
  {
    hide At, Encode, ReadValue, Typed;
    if k == |items| {
      assert items[..k] == items;
    } else {
      var x := items[k];
      assert items[k..][0] == x && items[k..][1..] == items[k + 1..];
      AtSplit(s, pos, EncodeFields(entry, x, less), EncodeItems(entry, items[k + 1..], less));
      ReadBackFields(entry, x, s, pos, less);
      InsertLast(shape, items[..k], x, less);
      assert items[..k] + [x] == items[..k + 1];
      ReadBackItems(shape, entry, items, k + 1, s, pos + |EncodeFields(entry, x, less)|, less);
    }
  }

  // Whatever precedes and follows it, an encoded value reads back as itself,
  // and the reader stops exactly at its end.
  lemma RoundTrip(t: Type, v: Value, before: seq<Byte>, after: seq<Byte>, less: Less)
    requires IsOrder(less) && Typed(t, v, less)
    ensures ReadValue(t, before + Encode(t, v, less) + after, |before|, less)
         == Ok(v, |before| + |Encode(t, v, less)|)
  {
    ReadBack(t, v, before + Encode(t, v, less) + after, |before|, less);
  }

  // So a stream starts with the encoding of at most one value of a type.
  lemma DecodesUniquely(t: Type, v: Value, w: Value, after: seq<Byte>, after': seq<Byte>, less: Less)
    requires IsOrder(less) && Typed(t, v, less) && Typed(t, w, less)
    requires Encode(t, v, less) + after == Encode(t, w, less) + after'
    ensures v == w && after == after'
  {
    hide *;
    RoundTrip(t, v, [], after, less);
    RoundTrip(t, w, [], after', less);
    var e, f := Encode(t, v, less), Encode(t, w, less);
    assert [] + e + after == e + after && [] + f + after' == f + after';
    assert after == (e + after)[|e|..] && after' == (f + after')[|f|..];
  }

  // ---- Failed reads ------------------------------------------------------

  // A read that throws never leaves the position before its start.
  lemma {:induction false} FailsAhead(t: Type, s: seq<Byte>, pos: nat, less: Less)
    requires pos <= |s|
    ensures ReadValue(t, s, pos, less).Fail? ==> ReadValue(t, s, pos, less).at >= pos
    decreases t, 0
  {
    hide ReadItems;
    if t.Class? && pos < |s| { FieldsFailAhead(t.fields, s, pos + 1, less); }
  }

  lemma {:induction false} FieldsFailAhead(fs: Fields, s: seq<Byte>, pos: nat, less: Less)
    requires pos <= |s|
    ensures ReadFields(fs, s, pos, less).Fail? ==> ReadFields(fs, s, pos, less).at >= pos
    decreases fs, 0
  {
    hide ReadValue;
    if fs.Field? {
      FailsAhead(fs.head, s, pos, less);
      var r := ReadValue(fs.head, s, pos, less);
      if r.Ok? { FieldsFailAhead(fs.rest, s, r.next, less); }
    }
  }

  // For every type and every stream: a read that throws leaves the position
  // where it was, unless it is the read of a class whose tag was found.
  // Containers and tuples put the position back whatever they hold.
  lemma FailedReadExact(t: Type, s: seq<Byte>, pos: nat, less: Less)
    requires pos <= |s|
    ensures var r := ReadValue(t, s, pos, less);
      r.Fail? ==> (r.at == pos <==> !t.Class? || pos == |s| || s[pos] != Tag(t))
  {
    hide ReadItems;
    if t.Class? && pos < |s| {
      FieldsFailAhead(t.fields, s, pos + 1, less);
    }
  }

  // A string read runs past the end exactly if the length written fits what is
  // left counted from the tag but not what is left after the length.
  lemma TextStraysExact(s: seq<Byte>, pos: nat, less: Less)
    requires pos <= |s|
    ensures ReadValue(Text, s, pos, less).Stray? <==>
      && |s| - pos >= 5 && s[pos] == Tag(Text)
      && var n := FromLow(s[pos + 1..pos + 5]);
         n <= MAX_STRING && |s| - pos - 5 < n <= |s| - pos
  {
  }

  // No string at any depth.
  predicate Textless(t: Type) {
    match t
    case Scalar(_) => true
    case Text => false
    case Container(_, entry) => TextlessFields(entry)
    case Tuple(fs) => TextlessFields(fs)
    case Class(fs) => TextlessFields(fs)
  }

  predicate TextlessFields(fs: Fields) {
    fs.Field? ==> Textless(fs.head) && TextlessFields(fs.rest)
  }

  // Without strings no read of any stream runs past its end.
  lemma {:induction false} NeverStrays(t: Type, s: seq<Byte>, pos: nat, less: Less)
    requires Textless(t) && pos <= |s|
    ensures !ReadValue(t, s, pos, less).Stray?
    decreases t, 0
  {
    match t {
      case Scalar(_) =>
      case Container(shape, entry) =>
        if |s| - pos >= 5 {
          ItemsNeverStray(shape, entry, FromLow(s[pos + 1..pos + 5]), [], s, pos + 5, less);
        }
      case Tuple(fs) =>
        if |s| - pos >= 3 { FieldsNeverStray(fs, s, pos + 3, less); }
      case Class(fs) =>
        if pos < |s| { FieldsNeverStray(fs, s, pos + 1, less); }
    }
  }

  lemma {:induction false} FieldsNeverStray(fs: Fields, s: seq<Byte>, pos: nat, less: Less)
    requires TextlessFields(fs) && pos <= |s|
    ensures !ReadFields(fs, s, pos, less).Stray?
    decreases fs, 0
  {
    hide ReadValue;
    if fs.Field? {
      NeverStrays(fs.head, s, pos, less);
      var r := ReadValue(fs.head, s, pos, less);
      if r.Ok? { FieldsNeverStray(fs.rest, s, r.next, less); }
    }
  }

  lemma {:induction false} ItemsNeverStray(shape: Shape, entry: Fields, n: nat, items: seq<Values>, s: seq<Byte>,
      pos: nat, less: Less)
    requires TextlessFields(entry) && pos <= |s|
    ensures !ReadItems(shape, entry, n, items, s, pos, less).Stray?
    decreases entry, 1 + n
  {
    hide ReadFields;
    if n > 0 {
      FieldsNeverStray(entry, s, pos, less);
      var r := ReadFields(entry, s, pos, less);
      if r.Ok? { ItemsNeverStray(shape, entry, n - 1, Insert(shape, items, r.value, less), s, r.next, less); }
    }
  }

  // So for any nesting without strings that is not itself a class, a read of
  // any stream succeeds or throws with the position where it was.
  lemma FailedReadIsNeutral(t: Type, s: seq<Byte>, pos: nat, less: Less)
    requires Textless(t) && !t.Class? && pos <= |s|
    ensures ReadValue(t, s, pos, less).Ok? || ReadValue(t, s, pos, less) == Fail(pos)
  {
    hide ReadValue;
    NeverStrays(t, s, pos, less);
    FailedReadExact(t, s, pos, less);
  }

  // A class is the exception: its tag stays consumed when a field fails.
  lemma FailedClassReadMoves(less: Less)
    ensures ReadValue(Class(Field(Scalar(Bool), NoFields)), [19], 0, less) == Fail(1)
  {
  }

  // And a string cut off by up to five bytes is read past the end.
  lemma CutStringStrays(less: Less)
    ensures ReadValue(Text, [10, 1, 0, 0, 0], 0, less) == Stray
  {
    assert [10, 1, 0, 0, 0][1..5] == Low(1, 4);
    Powers();
    LowRoundTrip(1, 4);
  }

  // ---- The serializer ----------------------------------------------------

  class BinarySerializer {
    const less: Less
    var bytes: seq<Byte>
    var pos: nat

    constructor (less: Less)
      ensures this.less == less && bytes == [] && pos == 0
    {
      this.less := less;
      bytes, pos := [], 0;
    }

    method Write(data: seq<Byte>)
      modifies this`bytes
      ensures bytes == old(bytes) + data
    {
      bytes := bytes + data;
    }

    // A tag and a number of w bytes.
    method WriteHeader(tag: Byte, n: nat, w: nat)
      modifies this`bytes
      ensures bytes == old(bytes) + ([tag] + Low(n, w))
    {
      hide Low;
      Write([tag]);
      Write(Low(n, w));
    }

    // Appends what the writer of the type writes; false where the code throws.
    method Input(t: Type, v: Value) returns (done: bool)
      requires Shaped(t, v, less)
      modifies this`bytes
      ensures bytes == old(bytes) + Out(t, v, less).bytes && done == Out(t, v, less).done
      decreases t, 0
    {
      hide Low, Pattern, ShapedFields, OutFields, OutItems, InRange, Ordered, Tag, Length;
      match t {
        case Scalar(k) =>
          WriteHeader(Tag(t), Pattern(k, v.n), Width(k));
          return true;
        case Text =>
          if |v.chars| > MAX_STRING {
            return false;
          }
          WriteHeader(Tag(t), |v.chars|, 4);
          Write(v.chars);
          return true;
        case Container(_, entry) =>
          done := InputContainer(Tag(t), entry, v.items);
        case Tuple(fs) =>
          done := InputTuple(Tag(t), fs, v.values);
        case Class(fs) =>
          Write([Tag(t)]);
          done := InputFields(fs, v.values);
      }
    }

    method InputContainer(tag: Byte, entry: Fields, items: seq<Values>) returns (done: bool)
      requires forall i :: 0 <= i < |items| ==> ShapedFields(entry, items[i], less)
      modifies this`bytes
      ensures var w := if |items| > MAX_COUNT then Written([tag], false)
                       else After([tag] + Low(|items|, 4), OutItems(entry, items, less));
        bytes == old(bytes) + w.bytes && done == w.done
      decreases entry, 2
    {
      hide Low, ShapedFields, OutItems;
      Write([tag]);
      if |items| > MAX_COUNT {
        return false;
      }
      Write(Low(|items|, 4));
      done := InputItems(entry, items);
    }

    method InputTuple(tag: Byte, fs: Fields, vs: Values) returns (done: bool)
      requires ShapedFields(fs, vs, less)
      modifies this`bytes
      ensures var w := if fs.NoFields? then Written([], true)
                       else if Length(fs) > MAX_TUPLE then Written([tag], false)
                       else After([tag] + Low(Length(fs), 2), OutFields(fs, vs, less));
        bytes == old(bytes) + w.bytes && done == w.done
      decreases fs, 2
    {
      hide Low, ShapedFields, OutFields, Length;
      if fs.NoFields? {
        return true;
      }
      Write([tag]);
      if Length(fs) > MAX_TUPLE {
        return false;
      }
      Write(Low(Length(fs), 2));
      done := InputFields(fs, vs);
    }

    method InputFields(fs: Fields, vs: Values) returns (done: bool)
      requires ShapedFields(fs, vs, less)
      modifies this`bytes
      ensures bytes == old(bytes) + OutFields(fs, vs, less).bytes && done == OutFields(fs, vs, less).done
      decreases fs, 0
    {
      hide Out, Shaped;
      if fs.NoFields? {
        return true;
      }
      done := Input(fs.head, vs.head);
      if done {
        done := InputFields(fs.rest, vs.rest);
      }
    }

    method InputItems(entry: Fields, items: seq<Values>) returns (done: bool)
      requires forall i :: 0 <= i < |items| ==> ShapedFields(entry, items[i], less)
      modifies this`bytes
      ensures bytes == old(bytes) + OutItems(entry, items, less).bytes && done == OutItems(entry, items, less).done
      decreases entry, 1
    {
      hide OutFields, ShapedFields;
      ghost var all := OutItems(entry, items, less);
      for i := 0 to |items|
        invariant After(bytes, OutItems(entry, items[i..], less)) == After(old(bytes), all)
      {
        assert items[i..][0] == items[i] && items[i..][1..] == items[i + 1..];
        var ok := InputFields(entry, items[i]);
        if !ok {
          return false;
        }
      }
      return true;
    }

    // Reads a value of the type at the position, or throws.
    method Output(t: Type) returns (r: Read<Value>)
      requires pos <= |bytes|
      modifies this`pos
      ensures r == ReadValue(t, bytes, old(pos), less)
      ensures r.Ok? ==> pos == r.next
      ensures r.Fail? ==> pos == r.at
      decreases t, 0
    {
      hide FromLow, Interpret;
      var default := pos;
      match t {
        case Scalar(k) =>
          if |bytes| - pos < 1 + Width(k) || bytes[pos] != Tag(t) {
            return Fail(pos);
          }
          pos := pos + 1;
          r := Ok(Number(Interpret(k, FromLow(bytes[pos..pos + Width(k)]))), pos + Width(k));
          pos := pos + Width(k);
        case Text =>
          r := OutputText();
        case Container(shape, entry) =>
          r := OutputContainer(shape, entry);
        case Tuple(fs) =>
          r := OutputTuple(fs);
        case Class(fs) =>
          if pos == |bytes| || bytes[pos] != Tag(t) {
            return Fail(pos);
          }
          pos := pos + 1;
          var vs := OutputFields(fs);
          match vs {
            case Ok(values, next) => r := Ok(Record(values), next);
            case Fail(at) => r := Fail(at);
            case Stray => r := Stray;
          }
      }
    }

    method OutputText() returns (r: Read<Value>)
      requires pos <= |bytes|
      modifies this`pos
      ensures r == ReadValue(Text, bytes, old(pos), less)
      ensures r.Ok? ==> pos == r.next
      ensures r.Fail? ==> pos == r.at
    {
      hide FromLow;
      var default := pos;
      if pos == |bytes| || bytes[pos] != Tag(Text) {
        return Fail(pos);
      }
      pos := pos + 1;
      if |bytes| - pos < 4 {
        pos := default;
        return Fail(pos);
      }
      var length := FromLow(bytes[pos..pos + 4]);
      pos := pos + 4;
      if length > MAX_STRING || |bytes| - default < length {
        pos := default;
        return Fail(pos);
      }
      if |bytes| - pos < length {
        return Stray;
      }
      r := Ok(Chars(bytes[pos..pos + length]), pos + length);
      pos := pos + length;
    }

    // The position is put back whenever an entry fails.
    method OutputContainer(shape: Shape, entry: Fields) returns (r: Read<Value>)
      requires pos <= |bytes|
      modifies this`pos
      ensures r == ReadValue(Container(shape, entry), bytes, old(pos), less)
      ensures r.Ok? ==> pos == r.next
      ensures r.Fail? ==> pos == r.at
      decreases entry, 2
    {
      hide FromLow, ReadFields, Insert;
      var default := pos;
      if pos == |bytes| || bytes[pos] != Tag(Container(shape, entry)) {
        return Fail(pos);
      }
      pos := pos + 1;
      if |bytes| - pos < 4 {
        pos := default;
        return Fail(pos);
      }
      var size := FromLow(bytes[pos..pos + 4]);
      pos := pos + 4;
      if size > MAX_COUNT {
        pos := default;
        return Fail(pos);
      }
      ghost var all := ReadItems(shape, entry, size, [], bytes, pos, less);
      var items: seq<Values> := [];
      for i := 0 to size
        invariant pos <= |bytes|
        invariant ReadItems(shape, entry, size - i, items, bytes, pos, less) == all
      {
        var x := OutputFields(entry);
        match x {
          case Ok(vs, _) => items := Insert(shape, items, vs, less);
          case Fail(_) => pos := default; return Fail(pos);
          case Stray => return Stray;
        }
      }
      return Ok(Items(items), pos);
    }

    method OutputTuple(fs: Fields) returns (r: Read<Value>)
      requires pos <= |bytes|
      modifies this`pos
      ensures r == ReadValue(Tuple(fs), bytes, old(pos), less)
      ensures r.Ok? ==> pos == r.next
      ensures r.Fail? ==> pos == r.at
      decreases fs, 2
    {
      hide FromLow, ReadFields;
      var default := pos;
      if fs.NoFields? {
        return Ok(Record(NoValues), pos);
      }
      if pos == |bytes| || bytes[pos] != Tag(Tuple(fs)) {
        return Fail(pos);
      }
      pos := pos + 1;
      if |bytes| - pos < 2 {
        pos := default;
        return Fail(pos);
      }
      var size := FromLow(bytes[pos..pos + 2]);
      pos := pos + 2;
      if size > MAX_TUPLE || size != Length(fs) {
        pos := default;
        return Fail(pos);
      }
      var vs := OutputFields(fs);
      match vs {
        case Ok(values, next) => r := Ok(Record(values), next);
        case Fail(_) => pos := default; r := Fail(pos);
        case Stray => r := Stray;
      }
    }

    method OutputFields(fs: Fields) returns (r: Read<Values>)
      requires pos <= |bytes|
      modifies this`pos
      ensures r == ReadFields(fs, bytes, old(pos), less)
      ensures r.Ok? ==> pos == r.next
      ensures r.Fail? ==> pos == r.at
      decreases fs, 0
    {
      if fs.NoFields? {
        return Ok(NoValues, pos);
      }
      var v := Output(fs.head);
      match v {
        case Fail(at) => return Fail(at);
        case Stray => return Stray;
        case Ok(first, _) =>
          var rest := OutputFields(fs.rest);
          match rest {
            case Fail(at) => r := Fail(at);
            case Stray => r := Stray;
            case Ok(others, end) => r := Ok(Values(first, others), end);
          }
      }
    }
  }

  // Writing a value and reading it at the place it was written gives it back;
  // the writer throws exactly for values over a limit.
  method WriteThenRead(serializer: BinarySerializer, t: Type, v: Value) returns (done: bool, r: Read<Value>)
    requires Shaped(t, v, serializer.less) && IsOrder(serializer.less)
    requires serializer.pos == |serializer.bytes|
    modifies serializer
    ensures done == Typed(t, v, serializer.less)
    ensures done ==> r.Ok? && r.value == v && serializer.pos == |serializer.bytes|
  {
    hide Typed, Out, Encode, ReadValue;
    ghost var before := serializer.bytes;
    done := serializer.Input(t, v);
    OutExact(t, v, serializer.less);
    r := Stray;
    if done {
      RoundTrip(t, v, before, [], serializer.less);
      assert serializer.bytes == before + Encode(t, v, serializer.less) + [];
      r := serializer.Output(t);
    }
  }

  // ---- The numbers of the format -----------------------------------------

  lemma TagNumbers(entry: Fields, fs: Fields)
    ensures Tag(Scalar(Bool)) == 0 && Tag(Scalar(Int16)) == 1 && Tag(Scalar(Int32)) == 2 && Tag(Scalar(Int64)) == 3
    ensures Tag(Scalar(UInt16)) == 4 && Tag(Scalar(UInt32)) == 5 && Tag(Scalar(UInt64)) == 6
    ensures Tag(Scalar(Char)) == 9 && Tag(Text) == 10 && Tag(Scalar(UInt8)) == 21
    ensures Tag(Container(Vector, entry)) == 13 && Tag(Container(List, entry)) == 14
    ensures Tag(Container(Map, entry)) == 15 && Tag(Container(Set, entry)) == 18
    ensures Tag(Tuple(fs)) == 16 && Tag(Class(fs)) == 19
  {
  }

  lemma LowBytes()
    ensures Low(258, 2) == [2, 1] && Low(65534, 2) == [254, 255] && Low(1, 1) == [1] && Low(1, 2) == [1, 0]
    ensures Low(2, 4) == [2, 0, 0, 0] && Low(1, 4) == [1, 0, 0, 0]
  {
    assert Low(1, 1) == [1] && Low(255, 1) == [255] && Low(0, 1) == [0];
    assert Low(258, 2) == [2] + Low(1, 1) && Low(65534, 2) == [254] + Low(255, 1) && Low(1, 2) == [1] + Low(0, 1);
    assert Low(0, 2) == [0] + Low(0, 1) && Low(0, 3) == [0] + Low(0, 2);
    assert Low(2, 4) == [2] + Low(0, 3) && Low(1, 4) == [1] + Low(0, 3);
  }

  // Numbers and strings byte by byte: the tag, then the number, the least
  // significant byte first; a string has its length in four bytes.
  lemma Layout(less: Less)
    ensures Encode(Scalar(UInt16), Number(258), less) == [4, 2, 1]
    ensures Encode(Scalar(Int16), Number(-2), less) == [1, 254, 255]
    ensures Encode(Text, Chars([65, 66]), less) == [10, 2, 0, 0, 0, 65, 66]
  {
    hide Low;
    LowBytes();
    assert Pattern(Int16, -2) == 65534;
  }

  // One flag alone in a vector, a tuple and a class: a count in four bytes, a
  // count in two bytes, and no count.
  lemma LayoutOfOne(less: Less)
    ensures var one, bit := Field(Scalar(Bool), NoFields), Values(Number(1), NoValues);
      && Encode(Container(Vector, one), Items([bit]), less) == [13, 1, 0, 0, 0, 0, 1]
      && Encode(Tuple(one), Record(bit), less) == [16, 1, 0, 0, 1]
      && Encode(Class(one), Record(bit), less) == [19, 0, 1]
  {
    hide Low;
    LowBytes();
    var one, bit := Field(Scalar(Bool), NoFields), Values(Number(1), NoValues);
    assert Encode(Scalar(Bool), Number(1), less) == [0, 1];
    assert EncodeFields(NoFields, NoValues, less) == [];
    assert EncodeFields(one, bit, less) == [0, 1];
    ItemsOfOne(one, bit, less);
    assert Length(one) == 1;
  }

  lemma ItemsOfOne(entry: Fields, x: Values, less: Less)
    requires TypedFields(entry, x, less)
    ensures EncodeItems(entry, [x], less) == EncodeFields(entry, x, less)
  {
    hide EncodeFields;
    assert [x][1..] == [] && EncodeItems(entry, [], less) == [];
  }

  // A value is read only where its tag is; elsewhere, and at the end of the
  // stream, the read throws and stays. The empty tuple alone has no tag.
  lemma ReadNeedsTag(t: Type, s: seq<Byte>, pos: nat, less: Less)
    requires pos <= |s| && t != Tuple(NoFields) && (pos == |s| || s[pos] != Tag(t))
    ensures ReadValue(t, s, pos, less) == Fail(pos)
  {
  }

  // So what was written as a type is not read as one with another tag.
  lemma OtherTypeThrows(t: Type, u: Type, v: Value, s: seq<Byte>, pos: nat, less: Less)
    requires Typed(t, v, less) && At(s, pos, Encode(t, v, less))
    requires t != Tuple(NoFields) && u != Tuple(NoFields) && Tag(u) != Tag(t)
    ensures ReadValue(u, s, pos, less) == Fail(pos)
  {
    hide ReadValue, Low, Pattern, EncodeFields, EncodeItems, TypedFields, Ordered;
    var e := Encode(t, v, less);
    assert |e| > 0 && e[0] == Tag(t);
    assert s[pos] == s[pos..pos + |e|][0];
    ReadNeedsTag(u, s, pos, less);
  }

  // ---- What a read gives -------------------------------------------------

  predicate WellFormed(t: Type)
    decreases t, 0
  {
    match t
    case Container(shape, entry) => Length(entry) == (if shape.Map? then 2 else 1) && WellFormedFields(entry)
    case Tuple(fs) => WellFormedFields(fs)
    case Class(fs) => WellFormedFields(fs)
    case _ => true
  }

  predicate WellFormedFields(fs: Fields)
    decreases fs, 0
  {
    fs.Field? ==> WellFormed(fs.head) && WellFormedFields(fs.rest)
  }

  // What std::set and std::map ask of their comparison.
  ghost predicate IsWeakOrder(less: Less) {
    && IsOrder(less)
    && (forall a, b, c :: less(a, b) && less(b, c) ==> less(a, c))
    && (forall a, b, c :: !less(a, b) && !less(b, a) && less(b, c) ==> less(a, c))
    && (forall a, b, c :: !less(a, b) && !less(b, a) && less(c, b) ==> less(c, a))
  }

  predicate Headed(items: seq<Values>) {
    forall i :: 0 <= i < |items| ==> items[i].Values?
  }

  // An element after an insertion: there before, new, or a key with its new value.
  predicate From(y: Values, items: seq<Values>, x: Values) {
    y in items || y == x || (x.Values? && exists z <- items :: z.Values? && y == Values(z.head, x.rest))
  }

  lemma {:induction false} InsertFrom(shape: Shape, items: seq<Values>, x: Values, less: Less)
    requires x.Values? && Sorted(shape) && Headed(items)
    ensures var r := Insert(shape, items, x, less);
      Headed(r) && forall y :: y in r ==> From(y, items, x)
  {
    if items != [] {
      InsertFrom(shape, items[1..], x, less);
      var r := Insert(shape, items, x, less);
      forall y | y in r ensures From(y, items, x) {
        if y !in items && y in Insert(shape, items[1..], x, less) { assert From(y, items[1..], x); }
      }
    }
  }

  lemma OrderedFront(y: Values, rest: seq<Values>, less: Less)
    requires y.Values? && Ordered(rest, less) && Headed(rest) && forall z :: z in rest ==> less(y.head, z.head)
    ensures Ordered([y] + rest, less)
  {
    var r := [y] + rest;
    forall i, j | 0 <= i < j < |r| ensures r[i].Values? && r[j].Values? && less(r[i].head, r[j].head) {
      assert r[j] == rest[j - 1] && r[j] in rest;
      if i > 0 { assert r[i] == rest[i - 1]; }
    }
  }

  // Inserting keeps the order of a set or map.
  lemma {:induction false} InsertOrders(shape: Shape, items: seq<Values>, x: Values, less: Less)
    requires IsWeakOrder(less) && x.Values? && Sorted(shape) && Headed(items) && Ordered(items, less)
    ensures Ordered(Insert(shape, items, x, less), less)
  {
    if items != [] {
      var y, rest := items[0], items[1..];
      hide Ordered, Headed;
      OrderedSplit(items, less);
      if less(y.head, x.head) {
        InsertFrom(shape, rest, x, less);
        InsertOrders(shape, rest, x, less);
        var r := Insert(shape, rest, x, less);
        forall z | z in r ensures z.Values? && less(y.head, z.head) {
          assert From(z, rest, x);
        }
        OrderedFront(y, r, less);
      } else if less(x.head, y.head) {
        OrderedFront(x, items, less);
      } else if shape.Map? {
        OrderedFront(Values(y.head, x.rest), rest, less);
      }
    } else {
      OrderedFront(x, items, less);
    }
  }

  lemma OrderedSplit(items: seq<Values>, less: Less)
    requires items != [] && Headed(items) && Ordered(items, less)
    ensures items[0].Values? && Headed(items[1..]) && Ordered(items[1..], less)
    ensures forall z :: z in items[1..] ==> less(items[0].head, z.head)
    ensures forall z :: z in items ==> z == items[0] || z in items[1..]
  {
    var rest := items[1..];
    assert forall i :: 0 <= i < |rest| ==> rest[i] == items[i + 1];
  }

  // An element that is there already is dropped from a set; in a map the key
  // that is there gets the new value.
  lemma {:induction false} InsertDuplicate(shape: Shape, items: seq<Values>, x: Values, i: nat, less: Less)
    requires IsWeakOrder(less) && x.Values? && Sorted(shape) && Headed(items) && Ordered(items, less)
    requires i < |items| && !less(x.head, items[i].head) && !less(items[i].head, x.head)
    ensures Insert(shape, items, x, less) == if shape.Map? then items[i := Values(items[i].head, x.rest)] else items
  {
    if i > 0 {
      assert less(items[0].head, items[i].head);
      assert forall j :: 0 <= j < |items| - 1 ==> items[1..][j] == items[j + 1];
      InsertDuplicate(shape, items[1..], x, i - 1, less);
      var y := Values(items[i].head, x.rest);
      assert [items[0]] + items[1..] == items && [items[0]] + items[1..][i - 1 := y] == items[i := y];
    }
  }

  lemma {:induction false} FromLowRange(s: seq<Byte>)
    ensures FromLow(s) < Power256(|s|)
  {
    if s != [] { FromLowRange(s[1..]); }
  }

  lemma InterpretInRange(k: Kind, raw: nat)
    requires raw < Range(k)
    ensures InRange(k, Interpret(k, raw))
  {
  }

  lemma ScalarIsTyped(k: Kind, s: seq<Byte>, pos: nat, less: Less)
    requires pos <= |s| && ReadValue(Scalar(k), s, pos, less).Ok?
    ensures Typed(Scalar(k), ReadValue(Scalar(k), s, pos, less).value, less)
  {
    hide FromLow, Interpret, InRange, Power256;
    var raw := s[pos + 1..pos + 1 + Width(k)];
    FromLowRange(raw);
    RangeIsPower(k);
    InterpretInRange(k, FromLow(raw));
  }

  // Whatever a read gives is a value of the type, within every limit, with sets
  // and maps in order.
  lemma {:induction false} ReadIsTyped(t: Type, s: seq<Byte>, pos: nat, less: Less)
    requires IsWeakOrder(less) && WellFormed(t) && pos <= |s| && ReadValue(t, s, pos, less).Ok?
    ensures Typed(t, ReadValue(t, s, pos, less).value, less)
    decreases t, 0
  {
    hide IsWeakOrder, Ordered, FromLow, Interpret;
    match t {
      case Scalar(k) => ScalarIsTyped(k, s, pos, less);
      case Text =>
      case Container(shape, entry) =>
        EmptyOrdered(less);
        ItemsAreTyped(shape, entry, FromLow(s[pos + 1..pos + 5]), [], s, pos + 5, less);
      case Tuple(fs) =>
        if fs.Field? { FieldsAreTyped(fs, s, pos + 3, less); }
      case Class(fs) => FieldsAreTyped(fs, s, pos + 1, less);
    }
  }

  lemma EmptyOrdered(less: Less)
    ensures Ordered([], less) && Headed([])
  {
  }

  lemma {:induction false} FieldsAreTyped(fs: Fields, s: seq<Byte>, pos: nat, less: Less)
    requires IsWeakOrder(less) && WellFormedFields(fs) && pos <= |s| && ReadFields(fs, s, pos, less).Ok?
    ensures TypedFields(fs, ReadFields(fs, s, pos, less).value, less)
    decreases fs, 0
  {
    hide IsWeakOrder, Typed, ReadValue, WellFormed;
    if fs.Field? {
      ReadIsTyped(fs.head, s, pos, less);
      FieldsAreTyped(fs.rest, s, ReadValue(fs.head, s, pos, less).next, less);
    }
  }

  ghost predicate GoodItems(shape: Shape, entry: Fields, items: seq<Values>, less: Less) {
    && (forall i :: 0 <= i < |items| ==> TypedFields(entry, items[i], less)) && Headed(items)
    && (Sorted(shape) ==> Ordered(items, less))
  }

  lemma InsertIsGood(shape: Shape, entry: Fields, items: seq<Values>, x: Values, less: Less)
    requires IsWeakOrder(less) && GoodItems(shape, entry, items, less) && TypedFields(entry, x, less) && x.Values?
    ensures GoodItems(shape, entry, Insert(shape, items, x, less), less)
    ensures |Insert(shape, items, x, less)| <= |items| + 1
  {
    hide IsWeakOrder, TypedFields, Ordered;
    if Sorted(shape) {
      InsertOrders(shape, items, x, less);
      InsertFrom(shape, items, x, less);
      var r := Insert(shape, items, x, less);
      forall i | 0 <= i < |r| ensures TypedFields(entry, r[i], less) {
        assert From(r[i], items, x);
        forall z | z in items ensures TypedFields(entry, Values(z.head, x.rest), less) {
          MixedIsTyped(entry, z, x, less);
        }
      }
    }
    InsertGrows(shape, items, x, less);
  }

  lemma MixedIsTyped(entry: Fields, z: Values, x: Values, less: Less)
    requires z.Values? && x.Values? && TypedFields(entry, z, less) && TypedFields(entry, x, less)
    ensures TypedFields(entry, Values(z.head, x.rest), less)
  {
  }

  lemma {:induction false} InsertGrows(shape: Shape, items: seq<Values>, x: Values, less: Less)
    ensures |Insert(shape, items, x, less)| <= |items| + 1
  {
    if items != [] { InsertGrows(shape, items[1..], x, less); }
  }

  lemma {:induction false} ItemsAreTyped(shape: Shape, entry: Fields, n: nat, items: seq<Values>, s: seq<Byte>,
      pos: nat,
      less: Less)
    requires IsWeakOrder(less) && WellFormedFields(entry) && Length(entry) > 0 && pos <= |s|
    requires ReadItems(shape, entry, n, items, s, pos, less).Ok? && GoodItems(shape, entry, items, less)
    ensures var r := ReadItems(shape, entry, n, items, s, pos, less).value;
      GoodItems(shape, entry, r, less) && |r| <= |items| + n
    decreases entry, 1 + n
  {
    hide IsWeakOrder, GoodItems, TypedFields, ReadFields, WellFormedFields, Insert;
    if n > 0 {
      FieldsAreTyped(entry, s, pos, less);
      var r := ReadFields(entry, s, pos, less);
      HasHead(entry, r.value, less);
      InsertIsGood(shape, entry, items, r.value, less);
      ItemsAreTyped(shape, entry, n - 1, Insert(shape, items, r.value, less), s, r.next, less);
    }
  }

  lemma HasHead(fs: Fields, vs: Values, less: Less)
    requires TypedFields(fs, vs, less) && Length(fs) > 0
    ensures vs.Values?
  {
  }

  // ---- What was read was written -----------------------------------------

  // Types whose values have one encoding: no flags, which read any byte but zero
  // as true, and no sets and maps, which may be written in any order.
  predicate Canonical(t: Type)
    decreases t, 0
  {
    match t
    case Scalar(k) => !k.Bool?
    case Text => true
    case Container(shape, entry) => !Sorted(shape) && CanonicalFields(entry)
    case Tuple(fs) => CanonicalFields(fs)
    case Class(fs) => CanonicalFields(fs)
  }

  predicate CanonicalFields(fs: Fields)
    decreases fs, 0
  {
    fs.Field? ==> Canonical(fs.head) && CanonicalFields(fs.rest)
  }

  lemma {:induction false} LowOfFromLow(s: seq<Byte>)
    ensures Low(FromLow(s), |s|) == s
  {
    if s != [] {
      LowOfFromLow(s[1..]);
      assert FromLow(s) % 256 == s[0] && FromLow(s) / 256 == FromLow(s[1..]);
    }
  }

  lemma PatternOfInterpret(k: Kind, raw: nat)
    requires raw < Range(k) && !k.Bool?
    ensures Pattern(k, Interpret(k, raw)) == raw
  {
  }

  lemma ScalarWasWritten(k: Kind, s: seq<Byte>, pos: nat, less: Less)
    requires pos <= |s| && !k.Bool? && ReadValue(Scalar(k), s, pos, less).Ok?
    ensures var r := ReadValue(Scalar(k), s, pos, less);
      Typed(Scalar(k), r.value, less) && s[pos..r.next] == Encode(Scalar(k), r.value, less)
  {
    hide FromLow, Low, Interpret, InRange, Pattern, Power256;
    ScalarIsTyped(k, s, pos, less);
    var raw := s[pos + 1..pos + 1 + Width(k)];
    FromLowRange(raw);
    RangeIsPower(k);
    PatternOfInterpret(k, FromLow(raw));
    LowOfFromLow(raw);
  }

  lemma TextWasWritten(s: seq<Byte>, pos: nat, less: Less)
    requires pos <= |s| && ReadValue(Text, s, pos, less).Ok?
    ensures var r := ReadValue(Text, s, pos, less);
      Typed(Text, r.value, less) && s[pos..r.next] == Encode(Text, r.value, less)
  {
    hide FromLow, Low;
    LowOfFromLow(s[pos + 1..pos + 5]);
  }

  lemma {:induction false} ContainerWasWritten(t: Type, s: seq<Byte>, pos: nat, less: Less)
    requires t.Container? && IsWeakOrder(less) && WellFormed(t) && Canonical(t) && pos <= |s|
    requires ReadValue(t, s, pos, less).Ok?
    ensures var r := ReadValue(t, s, pos, less);
      Typed(t, r.value, less) && s[pos..r.next] == Encode(t, r.value, less)
    decreases t, 0
  {
    hide IsWeakOrder, Ordered, FromLow, Low, ReadItems, EncodeItems, TypedFields, Insert, WellFormedFields;
    hide CanonicalFields;
    ReadIsTyped(t, s, pos, less);
    var count := s[pos + 1..pos + 5];
    LowOfFromLow(count);
    EmptyOrdered(less);
    NoItems(t.entry, less);
    ItemsWereWritten(t.shape, t.entry, FromLow(count), [], s, pos + 5, less);
    var end := ReadValue(t, s, pos, less).next;
    Spliced(s, pos, pos + 1, pos + 5, end);
  }

  lemma Spliced(s: seq<Byte>, a: nat, b: nat, c: nat, d: nat)
    requires a + 1 == b <= c <= d <= |s|
    ensures s[a..d] == [s[a]] + s[b..c] + s[c..d] && [s[a]] + s[b..b] == [s[a]]
  {
  }

  lemma {:induction false} RecordWasWritten(t: Type, s: seq<Byte>, pos: nat, less: Less)
    requires (t.Tuple? || t.Class?) && IsWeakOrder(less) && WellFormed(t) && Canonical(t) && pos <= |s|
    requires ReadValue(t, s, pos, less).Ok?
    ensures var r := ReadValue(t, s, pos, less);
      Typed(t, r.value, less) && s[pos..r.next] == Encode(t, r.value, less)
    decreases t, 0
  {
    hide IsWeakOrder, FromLow, Low, ReadFields, EncodeFields, TypedFields, WellFormedFields, CanonicalFields;
    ReadIsTyped(t, s, pos, less);
    var end := ReadValue(t, s, pos, less).next;
    if t.Class? {
      FieldsWereWritten(t.fields, s, pos + 1, less);
      Spliced(s, pos, pos + 1, pos + 1, end);
    } else if t.fields.Field? {
      var count := s[pos + 1..pos + 3];
      LowOfFromLow(count);
      FieldsWereWritten(t.fields, s, pos + 3, less);
      Spliced(s, pos, pos + 1, pos + 3, end);
    }
  }

  // For these types a read gives the value whose encoding it has gone over: so
  // there is nothing but encodings that can be read.
  lemma {:induction false} ReadWasWritten(t: Type, s: seq<Byte>, pos: nat, less: Less)
    requires IsWeakOrder(less) && WellFormed(t) && Canonical(t) && pos <= |s| && ReadValue(t, s, pos, less).Ok?
    ensures var r := ReadValue(t, s, pos, less);
      Typed(t, r.value, less) && s[pos..r.next] == Encode(t, r.value, less)
    decreases t, 1
  {
    hide IsWeakOrder, Encode, Typed, ReadValue, WellFormed;
    match t {
      case Scalar(k) => ScalarWasWritten(k, s, pos, less);
      case Text => TextWasWritten(s, pos, less);
      case Container(_, _) => ContainerWasWritten(t, s, pos, less);
      case _ => RecordWasWritten(t, s, pos, less);
    }
  }

  lemma NoItems(entry: Fields, less: Less)
    ensures EncodeItems(entry, [], less) == []
  {
  }

  lemma {:induction false} FieldsWereWritten(fs: Fields, s: seq<Byte>, pos: nat, less: Less)
    requires IsWeakOrder(less) && WellFormedFields(fs) && CanonicalFields(fs) && pos <= |s|
    requires ReadFields(fs, s, pos, less).Ok?
    ensures var r := ReadFields(fs, s, pos, less);
      TypedFields(fs, r.value, less) && s[pos..r.next] == EncodeFields(fs, r.value, less)
    decreases fs, 0
  {
    hide IsWeakOrder, Typed, ReadValue, WellFormed, Canonical, Encode;
    FieldsAreTyped(fs, s, pos, less);
    if fs.Field? {
      ReadWasWritten(fs.head, s, pos, less);
      var next := ReadValue(fs.head, s, pos, less).next;
      FieldsWereWritten(fs.rest, s, next, less);
      var end := ReadFields(fs, s, pos, less).next;
      assert s[pos..end] == s[pos..next] + s[next..end];
    }
  }

  lemma {:induction false} EncodeItemsJoin(entry: Fields, a: seq<Values>, b: seq<Values>, less: Less)
    requires forall i :: 0 <= i < |a| ==> TypedFields(entry, a[i], less)
    requires forall i :: 0 <= i < |b| ==> TypedFields(entry, b[i], less)
    ensures forall i :: 0 <= i < |a + b| ==> TypedFields(entry, (a + b)[i], less)
    ensures EncodeItems(entry, a + b, less) == EncodeItems(entry, a, less) + EncodeItems(entry, b, less)
  {
    hide TypedFields, EncodeFields;
    if a == [] {
      assert a + b == b;
    } else {
      assert (a + b)[1..] == a[1..] + b;
      EncodeItemsJoin(entry, a[1..], b, less);
    }
  }

  lemma {:induction false} ItemsWereWritten(shape: Shape, entry: Fields, n: nat, items: seq<Values>, s: seq<Byte>,
      pos: nat,
      less: Less)
    requires IsWeakOrder(less) && WellFormedFields(entry) && CanonicalFields(entry) && Length(entry) > 0 && pos <= |s|
    requires !Sorted(shape) && ReadItems(shape, entry, n, items, s, pos, less).Ok?
      && GoodItems(shape, entry, items, less)
    ensures var r := ReadItems(shape, entry, n, items, s, pos, less);
      && GoodItems(shape, entry, r.value, less) && |r.value| == |items| + n
      && EncodeItems(entry, items, less) + s[pos..r.next] == EncodeItems(entry, r.value, less)
    decreases entry, 1 + n
  {
    hide IsWeakOrder, TypedFields, ReadFields, WellFormedFields, CanonicalFields, EncodeFields, Ordered;
    if n > 0 {
      FieldsWereWritten(entry, s, pos, less);
      var x := ReadFields(entry, s, pos, less);
      HasHead(entry, x.value, less);
      InsertIsGood(shape, entry, items, x.value, less);
      ItemsWereWritten(shape, entry, n - 1, items + [x.value], s, x.next, less);
      EncodeItemsJoin(entry, items, [x.value], less);
      ItemsOfOne(entry, x.value, less);
      var end := ReadItems(shape, entry, n, items, s, pos, less).next;
      assert s[pos..end] == s[pos..x.next] + s[x.next..end];
    }
  }

  // ---- What a refused write leaves behind --------------------------------

  // A string over its limit leaves nothing, a container or tuple over its own
  // limit the tag alone.
  lemma RefusedAtOnce(t: Type, v: Value, less: Less)
    requires Shaped(t, v, less) && !Out(t, v, less).done
    ensures match t
      case Scalar(_) => false
      case Text => Out(t, v, less).bytes == []
      case Container(_, _) => |v.items| > MAX_COUNT ==> Out(t, v, less).bytes == [Tag(t)]
      case Tuple(fs) => Length(fs) > MAX_TUPLE ==> Out(t, v, less).bytes == [Tag(t)]
      case Class(_) => true
  {
  }

  // Whatever it is, a read that starts where the writer started fails on it.
  lemma {:induction false} RefusedNeverReads(t: Type, v: Value, s: seq<Byte>, pos: nat, less: Less)
    requires IsOrder(less) && Shaped(t, v, less) && !Out(t, v, less).done
    requires pos <= |s| && s[pos..] == Out(t, v, less).bytes
    ensures !ReadValue(t, s, pos, less).Ok?
    decreases t, 1
  {
    hide Out, Shaped, ReadValue, IsOrder;
    RefusedAtOnce(t, v, less);
    match t {
      case Text => TextNeverReads(s, pos, less);
      case Container(_, _) => ContainerNeverReads(t, v, s, pos, less);
      case Tuple(_) => RecordNeverReads(t, v, s, pos, less);
      case Class(_) => RecordNeverReads(t, v, s, pos, less);
      case Scalar(_) =>
    }
  }

  lemma TextNeverReads(s: seq<Byte>, pos: nat, less: Less)
    requires pos == |s|
    ensures !ReadValue(Text, s, pos, less).Ok?
  {
  }

  lemma {:induction false} ContainerNeverReads(t: Type, v: Value, s: seq<Byte>, pos: nat, less: Less)
    requires t.Container? && IsOrder(less) && Shaped(t, v, less) && !Out(t, v, less).done
    requires pos <= |s| && s[pos..] == Out(t, v, less).bytes
    ensures !ReadValue(t, s, pos, less).Ok?
    decreases t, 0
  {
    hide IsOrder, Ordered, Low, FromLow, ReadItems, OutItems, ShapedFields, Power256, Insert;
    if |v.items| <= MAX_COUNT {
      var count := Low(|v.items|, 4);
      assert Power256(4) > MAX_COUNT by { RangeIsPower(UInt32); }
      LowRoundTrip(|v.items|, 4);
      Headers(s, pos, [Tag(t)], count, OutItems(t.entry, v.items, less).bytes);
      ItemsNeverRead(t.shape, t.entry, v.items, [], s, pos + 5, less);
    }
  }

  lemma {:induction false} RecordNeverReads(t: Type, v: Value, s: seq<Byte>, pos: nat, less: Less)
    requires (t.Tuple? || t.Class?) && IsOrder(less) && Shaped(t, v, less) && !Out(t, v, less).done
    requires pos <= |s| && s[pos..] == Out(t, v, less).bytes
    ensures !ReadValue(t, s, pos, less).Ok?
    decreases t, 0
  {
    hide IsOrder, Low, FromLow, ReadFields, OutFields, ShapedFields, Power256;
    var fs := t.fields;
    if t.Class? {
      Headers(s, pos, [Tag(t)], [], OutFields(fs, v.values, less).bytes);
      FieldsNeverRead(fs, v.values, s, pos + 1, less);
    } else if Length(fs) <= MAX_TUPLE {
      assert Power256(2) > MAX_TUPLE by { RangeIsPower(UInt16); }
      LowRoundTrip(Length(fs), 2);
      Headers(s, pos, [Tag(t)], Low(Length(fs), 2), OutFields(fs, v.values, less).bytes);
      FieldsNeverRead(fs, v.values, s, pos + 3, less);
    }
  }

  lemma Headers(s: seq<Byte>, pos: nat, a: seq<Byte>, b: seq<Byte>, c: seq<Byte>)
    requires pos <= |s| && s[pos..] == a + b + c
    ensures pos + |a| + |b| <= |s| && s[pos..pos + |a|] == a && s[pos + |a|..pos + |a| + |b|] == b
    ensures s[pos + |a| + |b|..] == c
  {
    var r := s[pos..];
    assert s[pos..pos + |a|] == r[..|a|] && s[pos + |a|..pos + |a| + |b|] == r[|a|..|a| + |b|];
    assert s[pos + |a| + |b|..] == r[|a| + |b|..];
  }

  lemma {:induction false} FieldsNeverRead(fs: Fields, vs: Values, s: seq<Byte>, pos: nat, less: Less)
    requires IsOrder(less) && ShapedFields(fs, vs, less) && !OutFields(fs, vs, less).done
    requires pos <= |s| && s[pos..] == OutFields(fs, vs, less).bytes
    ensures !ReadFields(fs, s, pos, less).Ok?
    decreases fs, 0
  {
    hide IsOrder, Out, Shaped, Typed, ReadValue, Encode;
    if fs.Field? {
      var w := Out(fs.head, vs.head, less);
      if w.done {
        OutExact(fs.head, vs.head, less);
        Headers(s, pos, w.bytes, [], OutFields(fs.rest, vs.rest, less).bytes);
        ReadBack(fs.head, vs.head, s, pos, less);
        FieldsNeverRead(fs.rest, vs.rest, s, pos + |w.bytes|, less);
      } else {
        RefusedNeverReads(fs.head, vs.head, s, pos, less);
      }
    }
  }

  lemma {:induction false} ItemsNeverRead(shape: Shape, entry: Fields, items: seq<Values>, read: seq<Values>,
      s: seq<Byte>, pos: nat, less: Less)
    requires IsOrder(less) && (forall i :: 0 <= i < |items| ==> ShapedFields(entry, items[i], less))
    requires !OutItems(entry, items, less).done && pos <= |s| && s[pos..] == OutItems(entry, items, less).bytes
    ensures !ReadItems(shape, entry, |items|, read, s, pos, less).Ok?
    decreases entry, 1 + |items|
  {
    hide IsOrder, OutFields, ShapedFields, TypedFields, ReadFields, EncodeFields, Insert;
    if items != [] {
      var w, x := OutFields(entry, items[0], less), items[0];
      if w.done {
        OutFieldsExact(entry, x, less);
        Headers(s, pos, w.bytes, [], OutItems(entry, items[1..], less).bytes);
        ReadBackFields(entry, x, s, pos, less);
        ItemsNeverRead(shape, entry, items[1..], Insert(shape, read, x, less), s, pos + |w.bytes|, less);
      } else {
        FieldsNeverRead(entry, x, s, pos, less);
      }
    }
  }
}

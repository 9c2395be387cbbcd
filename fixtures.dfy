/**
 * The repository's test mappers as sample instances, and its test scenarios
 * stated as lemmas and client code: SimpleMapper with tags "A" and "B" under
 * the default key, TestMapper with the key override "tag", and TestWrapper,
 * whose `one` field is decoded through UnmarshalTaggedField.
 */
module Fixtures {
  import opened Wrappers
  import opened Json
  import opened TaggedValue
  import opened TaggedList
  import opened EmbeddedField

  /**
   * The variant structs of the tests; NilUnion is Go's nil. SimpleA{Type,
   * Count} and SimpleB{Type, Data} belong to SimpleMapper, TypeA{Tag, Data}
   * to TestMapper (its Data is `payload` here, since SimpleB already has a
   * string `data`).
   */
  datatype Value =
    | NilUnion
    | SimpleA(typ: string, count: int)
    | SimpleB(typ: string, data: string)
    | TypeA(tag: string, payload: int)

  /** Two values of the same Go struct type. */
  predicate SameVariant(a: Value, b: Value)
  {
    (a.NilUnion? <==> b.NilUnion?) && (a.SimpleA? <==> b.SimpleA?) &&
    (a.SimpleB? <==> b.SimpleB?) && (a.TypeA? <==> b.TypeA?)
  }

  /** encoding/json storing one member into a Go string: a string overwrites, null is skipped. */
  function StringInto(j: Json, cur: string): Decoded<string>
  {
    match j
    case JStr(s) => Ok(s)
    case JNull => Ok(cur)
    case _ => Err(TypeMismatch(j, "string"))
  }

  /** encoding/json storing one member into a Go int: a number overwrites, null is skipped. */
  function IntInto(j: Json, cur: int): Decoded<int>
  {
    match j
    case JNum(k) => Ok(k)
    case JNull => Ok(cur)
    case _ => Err(TypeMismatch(j, "int"))
  }

  /** Whether a member fits a struct depends only on the struct's type, not on its field values. */
  lemma FitsByVariant(a: Value, b: Value)
    requires SameVariant(a, b)
    ensures forall k, j :: SetMember(a, k, j).Ok? == SetMember(b, k, j).Ok?
  {
  }

  /** One member stored into a variant struct: a key the struct does not declare is skipped. */
  function SetMember(v: Value, k: string, j: Json): (r: Decoded<Value>)
    ensures r.Ok? ==> SameVariant(r.value, v)
  {
    match v
    case SimpleA(t, c) =>
      if k == "type" then (match StringInto(j, t) case Ok(s) => Ok(SimpleA(s, c)) case Err(e) => Err(e))
      else if k == "count" then (match IntInto(j, c) case Ok(x) => Ok(SimpleA(t, x)) case Err(e) => Err(e))
      else Ok(v)
    case SimpleB(t, d) =>
      if k == "type" then (match StringInto(j, t) case Ok(s) => Ok(SimpleB(s, d)) case Err(e) => Err(e))
      else if k == "data" then (match StringInto(j, d) case Ok(s) => Ok(SimpleB(t, s)) case Err(e) => Err(e))
      else Ok(v)
    case TypeA(t, x) =>
      if k == "tag" then (match StringInto(j, t) case Ok(s) => Ok(TypeA(s, x)) case Err(e) => Err(e))
      else if k == "data" then (match IntInto(j, x) case Ok(y) => Ok(TypeA(t, y)) case Err(e) => Err(e))
      else Ok(v)
    case NilUnion => Ok(v)
  }

  /**
   * The members of an object, in document order: a member of the wrong kind
   * leaves its field alone and the decode goes on; the first such error is
   * the one reported, next to the partly decoded struct.
   */
  function ScanStruct(ms: seq<(string, Json)>, v: Value, err: Option<Error>): (r: Returned<Value>)
    ensures SameVariant(r.value, v)
    ensures err.Some? ==> r.err == err
    ensures r.err.None? <==> err.None? && forall p :: 0 <= p < |ms| ==> SetMember(v, ms[p].0, ms[p].1).Ok?
    decreases |ms|
  {
    if ms == [] then Returned(v, err)
    else
      assert forall p :: 1 <= p < |ms| ==> ms[p] == ms[1..][p - 1];
      match SetMember(v, ms[0].0, ms[0].1)
      case Ok(w) => FitsByVariant(w, v); ScanStruct(ms[1..], w, err)
      case Err(e) => ScanStruct(ms[1..], v, if err.None? then Some(e) else err)
  }

  /** json.Unmarshal into a fresh variant struct, as every test mapper does. */
  function DecodeStruct(zero: Value, name: string, b: Json): (r: Returned<Value>)
    ensures SameVariant(r.value, zero)
  {
    match b
    case JNull => Returned(zero, None)
    case JObj(ms) => ScanStruct(ms, zero, None)
    case _ => Returned(zero, Some(TypeMismatch(b, name)))
  }

  /** SimpleMapper.Unmarshal: "A" and "B" select their variant, any other tag is an unknown tag. */
  function SimpleDispatch(b: Json, t: string): (r: Returned<Value>)
    ensures t == "A" ==> r.value.SimpleA?
    ensures t == "B" ==> r.value.SimpleB?
    ensures t != "A" && t != "B" ==> r == Returned(NilUnion, Some(UnknownTag(t)))
    ensures (t == "A" || t == "B") && b.JObj? ==>
              (r.err.None? <==> forall p :: 0 <= p < |b.members| ==> SetMember(r.value, b.members[p].0, b.members[p].1).Ok?)
  {
    if t == "A" then FitsByVariant(DecodeStruct(SimpleA("", 0), "SimpleA", b).value, SimpleA("", 0));
      DecodeStruct(SimpleA("", 0), "SimpleA", b)
    else if t == "B" then FitsByVariant(DecodeStruct(SimpleB("", ""), "SimpleB", b).value, SimpleB("", ""));
      DecodeStruct(SimpleB("", ""), "SimpleB", b)
    else Returned(NilUnion, Some(UnknownTag(t)))
  }

  const SimpleMapper: Mapper<Value> := Mapper(SimpleDispatch, None)

  /** SimpleMapper's dispatch behind a JSONTag() override that moves the tag to the key "tag". */
  const TagKeyMapper: Mapper<Value> := Mapper(SimpleDispatch, Some("tag"))

  /**
   * TestMapper.Unmarshal: "A" selects TypeA; "B" and "C" select TypeB and
   * TypeC, which are not part of this model and come back as an error.
   */
  function TestDispatch(b: Json, t: string): (r: Returned<Value>)
    ensures t == "A" ==> r.value.TypeA?
    ensures t == "A" && b.JObj? ==>
              (r.err.None? <==> forall p :: 0 <= p < |b.members| ==> SetMember(r.value, b.members[p].0, b.members[p].1).Ok?)
    ensures t != "A" ==> r.value == NilUnion && r.err.Some?
    ensures t != "A" && t != "B" && t != "C" ==> r.err == Some(UnknownTag(t))
  {
    if t == "A" then FitsByVariant(DecodeStruct(TypeA("", 0), "TypeA", b).value, TypeA("", 0));
      DecodeStruct(TypeA("", 0), "TypeA", b)
    else if t == "B" || t == "C" then Returned(NilUnion, Some(Other("recursive variant not modelled")))
    else Returned(NilUnion, Some(UnknownTag(t)))
  }

  /** TestMapper: its JSONTag() names the key "tag". */
  const TestMapper: Mapper<Value> := Mapper(TestDispatch, Some("tag"))

  function ObjA(n: int): Json { JObj([("type", JStr("A")), ("count", JNum(n))]) }
  function ObjB(s: string): Json { JObj([("type", JStr("B")), ("data", JStr(s))]) }
  function ObjTypeA(n: int): Json { JObj([("tag", JStr("A")), ("data", JNum(n))]) }

  /** TestList: an array of an "A" and a "B" document decodes to the two variants, in order. */
  lemma TestListDecodes()
    ensures DecodeList(JArr([ObjA(10), ObjB("hello")]), SimpleMapper) == Ok([SimpleA("A", 10), SimpleB("B", "hello")])
  {
    var es := [ObjA(10), ObjB("hello")];
    var vs := [SimpleA("A", 10), SimpleB("B", "hello")];
    forall i | 0 <= i < 2 ensures DecodeValue(es[i], SimpleMapper) == Ok(vs[i]) {
      if i == 0 {
        assert DecodeValue(ObjA(10), SimpleMapper) == Ok(SimpleA("A", 10));
      } else {
        assert DecodeValue(ObjB("hello"), SimpleMapper) == Ok(SimpleB("B", "hello"));
      }
    }
    DecodeAllOfDecoded(es, vs, SimpleMapper);
  }

  /** TestList as the test runs it: a fresh list receives both variants. */
  method TestList() returns (items: seq<Value>)
    ensures items == [SimpleA("A", 10), SimpleB("B", "hello")]
    ensures items[0].count == 10 && items[1].data == "hello"
  {
    var list := new UnionList<Value>([]);
    TestListDecodes();
    var err := list.UnmarshalJSON(JArr([ObjA(10), ObjB("hello")]), SimpleMapper);
    items := list.items;
  }

  /** Appending keeps what was there: decoding the same array twice into one list doubles it. */
  method DecodeTwice() returns (items: seq<Value>)
    ensures items == [SimpleA("A", 10), SimpleB("B", "hello"), SimpleA("A", 10), SimpleB("B", "hello")]
  {
    var list := new UnionList<Value>([]);
    TestListDecodes();
    var err := list.UnmarshalJSON(JArr([ObjA(10), ObjB("hello")]), SimpleMapper);
    err := list.UnmarshalJSON(JArr([ObjA(10), ObjB("hello")]), SimpleMapper);
    items := list.items;
  }

  /** A tag the mapper does not dispatch on is the mapper's error, and the list is left alone. */
  lemma UnknownTagRejected()
    ensures DecodeValue(JObj([("type", JStr("C")), ("x", JNum(1))]), SimpleMapper) == Err(UnknownTag("C"))
    ensures DecodeList(JArr([ObjA(10), JObj([("type", JStr("C"))])]), SimpleMapper) == Err(UnknownTag("C"))
  {
    assert DecodeValue(ObjA(10), SimpleMapper).Ok?;
    assert DecodeValue(JObj([("type", JStr("C"))]), SimpleMapper) == Err(UnknownTag("C"));
  }

  /**
   * With the key override, {"tag":"A","count":5} reaches the "A" variant;
   * without it the same document has no "type" member, so the mapper receives
   * the zero tag "" and rejects it as unknown.
   */
  lemma KeyOverrideSelects()
    ensures DecodeValue(JObj([("tag", JStr("A")), ("count", JNum(5))]), TagKeyMapper) == Ok(SimpleA("", 5))
    ensures DecodeValue(JObj([("tag", JStr("A")), ("count", JNum(5))]), SimpleMapper) == Err(UnknownTag(""))
  {
  }

  /**
   * A variant's own field error is reported as it is, in document order: a
   * member of the wrong kind does not stop the members after it, so the
   * mapper's value still carries the tag read after the bad member.
   */
  lemma VariantFieldError()
    ensures DecodeValue(JObj([("type", JStr("A")), ("count", JStr("x"))]), SimpleMapper)
         == Err(TypeMismatch(JStr("x"), "int"))
    ensures SimpleDispatch(JObj([("count", JStr("x")), ("type", JStr("A"))]), "A")
         == Returned(SimpleA("A", 0), Some(TypeMismatch(JStr("x"), "int")))
    ensures SimpleDispatch(JObj([("count", JStr("x")), ("type", JNum(1))]), "A")
         == Returned(SimpleA("", 0), Some(TypeMismatch(JStr("x"), "int")))
  {
  }

  // ---------------------------------------------------------------------------
  // TestWrapper{List, One}: a TestUnionList decoded normally, a single tagged
  // value decoded through UnmarshalTaggedField, both with TestMapper.
  // ---------------------------------------------------------------------------

  datatype WrapperType = ListType | UnionType

  /** Field values of TestWrapper as the host decoder produces them: a list of variants. */
  datatype WrapperValue = ListValue(items: seq<Value>) | NoValue

  function WrapperZero(t: WrapperType): WrapperValue
  {
    match t
    case ListType => ListValue([])
    case UnionType => NoValue
  }

  /** A TestUnionList field decodes through UnionList.UnmarshalJSON with TestMapper, appending to what it holds. */
  function WrapperDecodeInto(t: WrapperType, cur: WrapperValue, j: Json): Decoded<WrapperValue>
  {
    match (t, cur)
    case (ListType, ListValue(old_items)) =>
      (match DecodeList(j, TestMapper)
       case Ok(vs) => Ok(ListValue(old_items + vs))
       case Err(e) => Err(e))
    case _ => Err(Other("not decoded by the host in this example"))
  }

  const WrapperHost: HostCodec<WrapperType, WrapperValue> := HostCodec(WrapperZero, WrapperDecodeInto)

  const WrapperFields: seq<StructField<WrapperType>> := [StructField("list", ListType), StructField("one", UnionType)]

  const WrapperDoc: Json := JObj([("list", JArr([ObjTypeA(1)])), ("one", ObjTypeA(2))])

  /** The `list` member goes through the list decoder with TestMapper, appended to the zero (empty) list. */
  lemma WrapperListMember()
    ensures WrapperHost.decodeInto(ListType, ListValue([]), JArr([ObjTypeA(1)])) == Ok(ListValue([TypeA("A", 1)]))
  {
    assert DecodeValue(ObjTypeA(1), TestMapper) == Ok(TypeA("A", 1));
    DecodeAllOfDecoded([ObjTypeA(1)], [TypeA("A", 1)], TestMapper);
    assert [] + [TypeA("A", 1)] == [TypeA("A", 1)];
  }

  /** The first pass over TestWrapper: `list` goes through the list decoder, `one` is captured raw. */
  lemma WrapperFirstPass()
    ensures FirstPass<WrapperType, WrapperValue, Value>(WrapperFields, Reshape(WrapperFields, UnionType), WrapperDoc, WrapperHost)
         == Ok([Native(ListValue([TypeA("A", 1)])), Raw(Some(ObjTypeA(2)))])
  {
    var shape := Reshape(WrapperFields, UnionType);
    assert shape == [AsDeclared(ListType), AsRaw];
    var ms := WrapperDoc.members;
    var zero: seq<Slot<WrapperValue, Value>> := ZeroSlots(shape, WrapperHost);
    assert zero == [Native(ListValue([])), Raw(None)];
    var afterList := zero[0 := Native(ListValue([TypeA("A", 1)]))];
    var afterOne := afterList[1 := Raw(Some(ObjTypeA(2)))];
    assert DecodeMembers(WrapperFields, shape, ms, zero, WrapperHost)
        == DecodeMembers(WrapperFields, shape, ms[1..], afterList, WrapperHost) by {
      assert ms[0] == ("list", JArr([ObjTypeA(1)]));
      assert FieldFor(WrapperFields, "list") == 0;
      WrapperListMember();
    }
    assert DecodeMembers(WrapperFields, shape, ms[1..], afterList, WrapperHost)
        == DecodeMembers(WrapperFields, shape, ms[1..][1..], afterOne, WrapperHost) by {
      assert ms[1..][0] == ("one", ObjTypeA(2));
      assert FieldFor(WrapperFields, "one") == 1;
    }
    assert ms[1..][1..] == [];
    assert afterOne == [Native(ListValue([TypeA("A", 1)])), Raw(Some(ObjTypeA(2)))];
  }

  /** TestWrapper{List, One}: the list through the list decoder, `one` through the tagged-value decoder, merged. */
  lemma WrapperDecodes()
    ensures HasFieldOfType(WrapperFields, UnionType)
    ensures DecodeEmbedded<WrapperType, WrapperValue, Value>(WrapperFields, UnionType, WrapperDoc, TestMapper, WrapperHost)
         == Ok([Native(ListValue([TypeA("A", 1)])), Variant(TypeA("A", 2))])
  {
    assert WrapperFields[1].typ == UnionType;
    assert LastIndexOf(WrapperFields, UnionType) == 1;
    WrapperFirstPass();
    assert DecodeValue(ObjTypeA(2), TestMapper) == Ok(TypeA("A", 2));
    var first: seq<Slot<WrapperValue, Value>> := [Native(ListValue([TypeA("A", 1)])), Raw(Some(ObjTypeA(2)))];
    assert first[1 := Variant(TypeA("A", 2))] == [Native(ListValue([TypeA("A", 1)])), Variant(TypeA("A", 2))];
  }

  /**
   * TestMapper reads its tag from "tag": a `one` member that carries its tag
   * under "type" reaches the mapper with the zero tag and fails the whole
   * TestWrapper decode as an unknown tag.
   */
  lemma WrapperNeedsTagKey()
    ensures HasFieldOfType(WrapperFields, UnionType)
    ensures DecodeEmbedded<WrapperType, WrapperValue, Value>(WrapperFields, UnionType,
              JObj([("one", JObj([("type", JStr("A")), ("data", JNum(2))]))]), TestMapper, WrapperHost)
         == Err(UnknownTag(""))
  {
    assert WrapperFields[1].typ == UnionType;
    var one := JObj([("type", JStr("A")), ("data", JNum(2))]);
    var ms := [("one", one)];
    var shape := Reshape(WrapperFields, UnionType);
    assert shape == [AsDeclared(ListType), AsRaw];
    assert LastIndexOf(WrapperFields, UnionType) == 1;
    var zero: seq<Slot<WrapperValue, Value>> := ZeroSlots(shape, WrapperHost);
    assert zero == [Native(ListValue([])), Raw(None)];
    assert DecodeMembers(WrapperFields, shape, ms, zero, WrapperHost) == Ok(zero[1 := Raw(Some(one))]) by {
      assert FieldFor(WrapperFields, "one") == 1;
      assert ms[1..] == [];
    }
    assert ReadTag(one, "tag") == Ok("");
  }

  /**
   * TestWrapper.UnmarshalJSON on a struct that already holds values: every
   * field is replaced, the list by what the document holds rather than
   * appended to, since the first pass decodes into a fresh struct.
   */
  method DecodeWrapper() returns (values: seq<Slot<WrapperValue, Value>>, err: Option<Error>)
    ensures err.None?
    ensures values == [Native(ListValue([TypeA("A", 1)])), Variant(TypeA("A", 2))]
  {
    var rec := new Record<WrapperType, WrapperValue, Value>(WrapperFields, [Native(ListValue([TypeA("A", 9)])), Variant(NilUnion)]);
    WrapperDecodes();
    err := UnmarshalTaggedField(rec, UnionType, WrapperDoc, TestMapper, WrapperHost);
    values := rec.values[..];
  }
}

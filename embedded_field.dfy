/**
 * The embedded-field decoder (UnmarshalTaggedField): decode a struct one of
 * whose fields holds a tagged value. The struct is decoded once with every
 * field of the tagged field's type captured as raw JSON, the capture of the
 * selected field goes through the tagged-value decoder, and only then is the
 * struct written, field by field.
 *
 * Go's reflection is replaced by explicit data: a struct type is its
 * sequence of fields, and how encoding/json decodes one declared field type
 * (including any UnmarshalJSON method of that type) is a parameter.
 */
module EmbeddedField {
  import opened Wrappers
  import opened Json
  import opened TaggedValue

  /** A struct field as encoding/json sees it: the member key it decodes from and its declared type. */
  datatype StructField<Ty> = StructField(key: string, typ: Ty)

  /** How the reshaped struct of the first pass holds a field: with its declared type, or as a json.RawMessage. */
  datatype Capture<Ty> = AsDeclared(typ: Ty) | AsRaw

  /** The value held by one field of a struct. */
  datatype Slot<F, V> =
    | Native(f: F)            // a value of the field's declared type
    | Raw(doc: Option<Json>)  // a json.RawMessage; None when nothing was captured
    | Variant(v: V)           // a union value produced by the tagged-value decoder

  /**
   * encoding/json for the declared field types: the zero value of a type, and
   * decoding a member into a field that already holds a value (an UnionList
   * field appends, for instance).
   */
  datatype HostCodec<!Ty, !F> = HostCodec(zero: Ty -> F, decodeInto: (Ty, F, Json) -> Decoded<F>)

  // ---------------------------------------------------------------------------
  // Choosing the tagged field and reshaping the struct.
  // ---------------------------------------------------------------------------

  /** The last field whose declared type is `t`, or -1 when none is. */
  function LastIndexOf<Ty(==)>(fields: seq<StructField<Ty>>, t: Ty): (r: int)
    ensures -1 <= r < |fields|
    ensures r >= 0 ==> fields[r].typ == t
    ensures forall i :: r < i < |fields| ==> fields[i].typ != t
    decreases |fields|
  {
    if fields == [] then -1
    else if fields[|fields| - 1].typ == t then |fields| - 1
    else LastIndexOf(fields[..|fields| - 1], t)
  }

  ghost predicate HasFieldOfType<Ty>(fields: seq<StructField<Ty>>, t: Ty)
  {
    exists i :: 0 <= i < |fields| && fields[i].typ == t
  }

  /** Every field of the tagged field's type becomes a raw capture; the others keep their types. */
  function CaptureOf<Ty(==)>(f: StructField<Ty>, t: Ty): Capture<Ty>
  {
    if f.typ == t then AsRaw else AsDeclared(f.typ)
  }

  ghost function Reshape<Ty>(fields: seq<StructField<Ty>>, t: Ty): (shape: seq<Capture<Ty>>)
    ensures |shape| == |fields|
    ensures forall i :: 0 <= i < |fields| ==> (shape[i] == AsRaw <==> fields[i].typ == t)
    ensures forall i :: 0 <= i < |fields| && fields[i].typ != t ==> shape[i] == AsDeclared(fields[i].typ)
  {
    seq(|fields|, i requires 0 <= i < |fields| => CaptureOf(fields[i], t))
  }

  // ---------------------------------------------------------------------------
  // The first pass: encoding/json decoding into the reshaped struct.
  // ---------------------------------------------------------------------------

  /** The field a member with key `k` decodes into: the first with that key, or |fields| when there is none. */
  function FieldFor<Ty>(fields: seq<StructField<Ty>>, k: string): (i: nat)
    ensures i <= |fields|
    ensures i < |fields| ==> fields[i].key == k
    ensures forall j :: 0 <= j < i ==> fields[j].key != k
    decreases |fields|
  {
    if fields == [] then 0
    else if fields[0].key == k then 0
    else 1 + FieldFor(fields[1..], k)
  }

  /** Each slot holds the kind of value its field is decoded as. */
  ghost predicate Conforms<Ty, F, V>(shape: seq<Capture<Ty>>, slots: seq<Slot<F, V>>)
  {
    |slots| == |shape| &&
    forall i :: 0 <= i < |shape| ==> (shape[i].AsRaw? ==> slots[i].Raw?) && (shape[i].AsDeclared? ==> slots[i].Native?)
  }

  /** A freshly allocated reshaped struct: zero values, and raw captures that hold nothing. */
  function ZeroSlot<Ty, F, V>(c: Capture<Ty>, host: HostCodec<Ty, F>): Slot<F, V>
  {
    match c
    case AsRaw => Raw(None)
    case AsDeclared(t) => Native(host.zero(t))
  }

  function ZeroSlots<Ty, F, V>(shape: seq<Capture<Ty>>, host: HostCodec<Ty, F>): (slots: seq<Slot<F, V>>)
    ensures Conforms(shape, slots)
    ensures forall i :: 0 <= i < |shape| ==> slots[i] == ZeroSlot(shape[i], host)
  {
    seq(|shape|, i requires 0 <= i < |shape| => ZeroSlot(shape[i], host))
  }

  /**
   * The members of an object, in order: a member whose key names no field is
   * skipped, a raw capture takes the member's value as it is, a declared
   * field decodes it over its current value, and the first failure stops.
   */
  function DecodeMembers<Ty, F, V>(fields: seq<StructField<Ty>>, shape: seq<Capture<Ty>>,
                                   ms: seq<(string, Json)>, slots: seq<Slot<F, V>>,
                                   host: HostCodec<Ty, F>): (r: Decoded<seq<Slot<F, V>>>)
    requires |fields| == |shape| && Conforms(shape, slots)
    ensures r.Ok? ==> Conforms(shape, r.value)
    decreases |ms|
  {
    if ms == [] then Ok(slots)
    else
      var i := FieldFor(fields, ms[0].0);
      if i == |fields| then DecodeMembers(fields, shape, ms[1..], slots, host)
      else match shape[i]
        case AsRaw => DecodeMembers(fields, shape, ms[1..], slots[i := Raw(Some(ms[0].1))], host)
        case AsDeclared(t) =>
          match host.decodeInto(t, slots[i].f, ms[0].1)
          case Err(e) => Err(e)
          case Ok(f) => DecodeMembers(fields, shape, ms[1..], slots[i := Native(f)], host)
  }

  /** The first pass over a whole document: null leaves every field zero, anything but an object is a type error. */
  function FirstPass<Ty, F, V>(fields: seq<StructField<Ty>>, shape: seq<Capture<Ty>>, doc: Json,
                               host: HostCodec<Ty, F>): (r: Decoded<seq<Slot<F, V>>>)
    requires |fields| == |shape|
    ensures r.Ok? ==> Conforms(shape, r.value)
  {
    match doc
    case JNull => Ok(ZeroSlots(shape, host))
    case JObj(ms) => DecodeMembers(fields, shape, ms, ZeroSlots(shape, host), host)
    case _ => Err(TypeMismatch(doc, "struct"))
  }

  /** A field that no member names keeps the value it started with. */
  lemma {:induction false} UnnamedFieldKept<Ty, F, V>(fields: seq<StructField<Ty>>, shape: seq<Capture<Ty>>,
                                                     ms: seq<(string, Json)>, slots: seq<Slot<F, V>>,
                                                     host: HostCodec<Ty, F>, i: nat)
    requires |fields| == |shape| && Conforms(shape, slots) && i < |fields|
    requires forall p :: 0 <= p < |ms| ==> ms[p].0 != fields[i].key
    ensures DecodeMembers(fields, shape, ms, slots, host).Ok? ==>
              DecodeMembers(fields, shape, ms, slots, host).value[i] == slots[i]
    decreases |ms|
  {
    if ms != [] {
      var j := FieldFor(fields, ms[0].0);
      assert j != i;
      assert forall p :: 0 <= p < |ms[1..]| ==> ms[1..][p] == ms[p + 1];
      if j == |fields| {
        UnnamedFieldKept(fields, shape, ms[1..], slots, host, i);
      } else if shape[j].AsRaw? {
        UnnamedFieldKept(fields, shape, ms[1..], slots[j := Raw(Some(ms[0].1))], host, i);
      } else {
        var d := host.decodeInto(shape[j].typ, slots[j].f, ms[0].1);
        if d.Ok? {
          UnnamedFieldKept(fields, shape, ms[1..], slots[j := Native(d.value)], host, i);
        }
      }
    }
  }

  /** No field before field `i` has its key, so members under that key decode into field `i`. */
  ghost predicate OwnsKey<Ty>(fields: seq<StructField<Ty>>, i: nat)
  {
    i < |fields| && forall j :: 0 <= j < i ==> fields[j].key != fields[i].key
  }

  /** Reference for a raw capture: the value of the last member under `key`, or None when no member has it. */
  ghost function LastMember(ms: seq<(string, Json)>, key: string): Option<Json>
    decreases |ms|
  {
    if ms == [] then None
    else if ms[|ms| - 1].0 == key then Some(ms[|ms| - 1].1)
    else LastMember(ms[..|ms| - 1], key)
  }

  /** Peeling the first member off LastMember: it only counts when no later member has the key. */
  lemma {:induction false} LastMemberFront(ms: seq<(string, Json)>, key: string)
    requires |ms| > 0
    ensures LastMember(ms, key)
         == if LastMember(ms[1..], key).Some? then LastMember(ms[1..], key)
            else if ms[0].0 == key then Some(ms[0].1) else None
    decreases |ms|
  {
    if |ms| > 1 {
      var init := ms[..|ms| - 1];
      LastMemberFront(init, key);
      assert init[0] == ms[0];
      assert init[1..] == ms[1..][..|ms[1..]| - 1];
      assert ms[1..][|ms[1..]| - 1] == ms[|ms| - 1];
    }
  }

  /**
   * A raw capture whose key no earlier field takes ends up holding the value
   * of the LAST member under that key: each such member overwrites it. With
   * no such member it keeps the value it started with.
   */
  lemma {:induction false} RawCaptureIsLastMember<Ty, F, V>(fields: seq<StructField<Ty>>, shape: seq<Capture<Ty>>,
                                                           ms: seq<(string, Json)>, slots: seq<Slot<F, V>>,
                                                           host: HostCodec<Ty, F>, i: nat)
    requires |fields| == |shape| && Conforms(shape, slots) && i < |fields|
    requires shape[i].AsRaw? && OwnsKey(fields, i)
    ensures DecodeMembers(fields, shape, ms, slots, host).Ok? ==>
              DecodeMembers(fields, shape, ms, slots, host).value[i]
              == match LastMember(ms, fields[i].key) case Some(j) => Raw(Some(j)) case None => slots[i]
    decreases |ms|
  {
    if ms != [] {
      var key := fields[i].key;
      LastMemberFront(ms, key);
      var j := FieldFor(fields, ms[0].0);
      if ms[0].0 == key {
        assert j == i;
        RawCaptureIsLastMember(fields, shape, ms[1..], slots[i := Raw(Some(ms[0].1))], host, i);
      } else {
        assert j != i;
        if j == |fields| {
          RawCaptureIsLastMember(fields, shape, ms[1..], slots, host, i);
        } else if shape[j].AsRaw? {
          RawCaptureIsLastMember(fields, shape, ms[1..], slots[j := Raw(Some(ms[0].1))], host, i);
        } else {
          var d := host.decodeInto(shape[j].typ, slots[j].f, ms[0].1);
          if d.Ok? {
            RawCaptureIsLastMember(fields, shape, ms[1..], slots[j := Native(d.value)], host, i);
          }
        }
      }
    }
  }

  /**
   * A declared field whose key no earlier field takes, named by exactly one
   * member p, holds its type's decode of that member over its starting value.
   */
  lemma {:induction false} DeclaredFieldSingleMember<Ty, F, V>(fields: seq<StructField<Ty>>, shape: seq<Capture<Ty>>,
                                                              ms: seq<(string, Json)>, slots: seq<Slot<F, V>>,
                                                              host: HostCodec<Ty, F>, i: nat, p: nat)
    requires |fields| == |shape| && Conforms(shape, slots) && i < |fields|
    requires shape[i].AsDeclared? && OwnsKey(fields, i)
    requires p < |ms| && ms[p].0 == fields[i].key
    requires forall q :: 0 <= q < |ms| && q != p ==> ms[q].0 != fields[i].key
    ensures DecodeMembers(fields, shape, ms, slots, host).Ok? ==>
              && host.decodeInto(shape[i].typ, slots[i].f, ms[p].1).Ok?
              && DecodeMembers(fields, shape, ms, slots, host).value[i]
                 == Native(host.decodeInto(shape[i].typ, slots[i].f, ms[p].1).value)
    decreases |ms|
  {
    var key := fields[i].key;
    var j := FieldFor(fields, ms[0].0);
    if p == 0 {
      assert j == i;
      var d := host.decodeInto(shape[i].typ, slots[i].f, ms[0].1);
      if d.Ok? {
        assert forall q :: 0 <= q < |ms[1..]| ==> ms[1..][q] == ms[q + 1];
        UnnamedFieldKept(fields, shape, ms[1..], slots[i := Native(d.value)], host, i);
      }
    } else {
      assert ms[0].0 != key && j != i;
      assert ms[1..][p - 1] == ms[p];
      assert forall q :: 0 <= q < |ms[1..]| ==> ms[1..][q] == ms[q + 1];
      if j == |fields| {
        DeclaredFieldSingleMember(fields, shape, ms[1..], slots, host, i, p - 1);
      } else if shape[j].AsRaw? {
        DeclaredFieldSingleMember(fields, shape, ms[1..], slots[j := Raw(Some(ms[0].1))], host, i, p - 1);
      } else {
        var d := host.decodeInto(shape[j].typ, slots[j].f, ms[0].1);
        if d.Ok? {
          DeclaredFieldSingleMember(fields, shape, ms[1..], slots[j := Native(d.value)], host, i, p - 1);
        }
      }
    }
  }

  // ---------------------------------------------------------------------------
  // The decoder as a specification function.
  // ---------------------------------------------------------------------------

  /**
   * The fields UnmarshalTaggedField writes into the struct, or the error it
   * returns: the first-pass values everywhere except at the selected field,
   * which gets the union value decoded from its raw capture.
   */
  ghost function DecodeEmbedded<Ty, F, V>(fields: seq<StructField<Ty>>, fieldType: Ty, doc: Json,
                                              m: Mapper<V>, host: HostCodec<Ty, F>): (r: Decoded<seq<Slot<F, V>>>)
    requires HasFieldOfType(fields, fieldType)
    ensures r.Ok? ==> |r.value| == |fields| && r.value[LastIndexOf(fields, fieldType)].Variant?
    ensures r.Ok? ==> forall i :: 0 <= i < |fields| && i != LastIndexOf(fields, fieldType) ==> !r.value[i].Variant?
    ensures doc.JNull? ==> r == Err(EndOfInput)
    ensures !doc.JNull? && !doc.JObj? ==> r == Err(TypeMismatch(doc, "struct"))
  {
    var shape := Reshape(fields, fieldType);
    var index := LastIndexOf(fields, fieldType);
    match FirstPass(fields, shape, doc, host)
    case Err(e) => Err(e)
    case Ok(slots) =>
      match slots[index].doc
      case None => Err(EndOfInput)
      case Some(raw) =>
        match DecodeValue(raw, m)
        case Err(e) => Err(e)
        case Ok(v) => Ok(slots[index := Variant(v)])
  }

  /**
   * On success the struct gets one value per field: the union value, decoded
   * from the raw capture of the LAST field of the tagged type, at that field;
   * every other field exactly as the first pass left it, so another field of
   * the same type keeps its raw capture; and on failure there is nothing to
   * write.
   */
  lemma EmbeddedSplice<Ty, F, V>(fields: seq<StructField<Ty>>, fieldType: Ty, doc: Json,
                                     m: Mapper<V>, host: HostCodec<Ty, F>)
    requires HasFieldOfType(fields, fieldType)
    ensures var r: Decoded<seq<Slot<F, V>>> := DecodeEmbedded(fields, fieldType, doc, m, host);
            var index := LastIndexOf(fields, fieldType);
            var first: Decoded<seq<Slot<F, V>>> := FirstPass(fields, Reshape(fields, fieldType), doc, host);
            r.Ok? <==> first.Ok? && first.value[index].doc.Some? && DecodeValue(first.value[index].doc.value, m).Ok?
    ensures var r: Decoded<seq<Slot<F, V>>> := DecodeEmbedded(fields, fieldType, doc, m, host);
            var index := LastIndexOf(fields, fieldType);
            var first: Decoded<seq<Slot<F, V>>> := FirstPass(fields, Reshape(fields, fieldType), doc, host);
            r.Ok? ==>
              && 0 <= index < |fields| && fields[index].typ == fieldType
              && (forall i :: index < i < |fields| ==> fields[i].typ != fieldType)
              && |r.value| == |fields|
              && r.value[index] == Variant(DecodeValue(first.value[index].doc.value, m).value)
              && (forall i :: 0 <= i < |fields| && i != index ==> r.value[i] == first.value[i])
              && (forall i :: 0 <= i < |fields| && i != index && fields[i].typ == fieldType ==> r.value[i].Raw?)
  {
    var shape := Reshape(fields, fieldType);
    var index := LastIndexOf(fields, fieldType);
    assert shape[index] == AsRaw;
  }

  /**
   * A sibling field that no member of the object names is written back as
   * the zero value of its type, whatever the struct held before: the first
   * pass starts from a fresh struct.
   */
  lemma AbsentSiblingIsZero<Ty, F, V>(fields: seq<StructField<Ty>>, fieldType: Ty, ms: seq<(string, Json)>,
                                          m: Mapper<V>, host: HostCodec<Ty, F>, i: nat)
    requires HasFieldOfType(fields, fieldType)
    requires i < |fields| && fields[i].typ != fieldType
    requires forall p :: 0 <= p < |ms| ==> ms[p].0 != fields[i].key
    ensures var r: Decoded<seq<Slot<F, V>>> := DecodeEmbedded(fields, fieldType, JObj(ms), m, host);
            r.Ok? ==> r.value[i] == Native(host.zero(fields[i].typ))
  {
    var shape := Reshape(fields, fieldType);
    UnnamedFieldKept<Ty, F, V>(fields, shape, ms, ZeroSlots(shape, host), host, i);
  }

  /**
   * When the object has no member for the tagged field, its raw capture stays
   * empty and decoding it fails with "unexpected end of JSON input".
   */
  lemma MissingTaggedMemberFails<Ty, F, V>(fields: seq<StructField<Ty>>, fieldType: Ty, ms: seq<(string, Json)>,
                                               m: Mapper<V>, host: HostCodec<Ty, F>)
    requires HasFieldOfType(fields, fieldType)
    requires forall p :: 0 <= p < |ms| ==> ms[p].0 != fields[LastIndexOf(fields, fieldType)].key
    ensures DecodeEmbedded<Ty, F, V>(fields, fieldType, JObj(ms), m, host).Err?
  {
    var shape := Reshape(fields, fieldType);
    var index := LastIndexOf(fields, fieldType);
    UnnamedFieldKept<Ty, F, V>(fields, shape, ms, ZeroSlots(shape, host), host, index);
  }

  /**
   * Decoding an object, stated against the document itself: when the
   * selected field's key is not taken by an earlier field, the decoder
   * succeeds exactly when the first pass does, some member has that key, and
   * the LAST such member decodes as a tagged value; that union value is then
   * what the field holds.
   */
  lemma EmbeddedTaggedMember<Ty, F, V>(fields: seq<StructField<Ty>>, fieldType: Ty, ms: seq<(string, Json)>,
                                       m: Mapper<V>, host: HostCodec<Ty, F>)
    requires HasFieldOfType(fields, fieldType)
    requires OwnsKey(fields, LastIndexOf(fields, fieldType))
    ensures var r: Decoded<seq<Slot<F, V>>> := DecodeEmbedded(fields, fieldType, JObj(ms), m, host);
            var last := LastMember(ms, fields[LastIndexOf(fields, fieldType)].key);
            var first: Decoded<seq<Slot<F, V>>> := FirstPass(fields, Reshape(fields, fieldType), JObj(ms), host);
            r.Ok? <==> first.Ok? && last.Some? && DecodeValue(last.value, m).Ok?
    ensures var r: Decoded<seq<Slot<F, V>>> := DecodeEmbedded(fields, fieldType, JObj(ms), m, host);
            var last := LastMember(ms, fields[LastIndexOf(fields, fieldType)].key);
            r.Ok? ==> r.value[LastIndexOf(fields, fieldType)] == Variant(DecodeValue(last.value, m).value)
  {
    var shape := Reshape(fields, fieldType);
    var index := LastIndexOf(fields, fieldType);
    RawCaptureIsLastMember<Ty, F, V>(fields, shape, ms, ZeroSlots(shape, host), host, index);
  }

  /**
   * A declared sibling whose key no earlier field takes, named by exactly one
   * member p, is written back as its type's decode of that member over the
   * zero value.
   */
  lemma EmbeddedSiblingMember<Ty, F, V>(fields: seq<StructField<Ty>>, fieldType: Ty, ms: seq<(string, Json)>,
                                        m: Mapper<V>, host: HostCodec<Ty, F>, i: nat, p: nat)
    requires HasFieldOfType(fields, fieldType)
    requires OwnsKey(fields, i) && fields[i].typ != fieldType
    requires p < |ms| && ms[p].0 == fields[i].key
    requires forall q :: 0 <= q < |ms| && q != p ==> ms[q].0 != fields[i].key
    ensures var r: Decoded<seq<Slot<F, V>>> := DecodeEmbedded(fields, fieldType, JObj(ms), m, host);
            var d := host.decodeInto(fields[i].typ, host.zero(fields[i].typ), ms[p].1);
            r.Ok? ==> d.Ok? && r.value[i] == Native(d.value)
  {
    var shape := Reshape(fields, fieldType);
    var zero: seq<Slot<F, V>> := ZeroSlots(shape, host);
    assert shape[i] == AsDeclared(fields[i].typ);
    assert zero[i] == Native(host.zero(fields[i].typ));
    DeclaredFieldSingleMember<Ty, F, V>(fields, shape, ms, zero, host, i, p);
  }

  // ---------------------------------------------------------------------------
  // The struct and the decoder that writes it.
  // ---------------------------------------------------------------------------

  /** A struct value behind a pointer: its fields and their current values. */
  class Record<Ty, F, V> {
    const fields: seq<StructField<Ty>>
    const values: array<Slot<F, V>>

    predicate Valid()
    {
      values.Length == |fields|
    }

    constructor (fields: seq<StructField<Ty>>, initial: seq<Slot<F, V>>)
      requires |initial| == |fields|
      ensures Valid() && this.fields == fields && values[..] == initial && fresh(values)
    {
      this.fields := fields;
      values := new Slot<F, V>[|initial|](i requires 0 <= i < |initial| => initial[i]);
    }
  }

  /**
   * UnmarshalTaggedField: `fieldType` is the type of the field the caller
   * points at. The struct is written only once both decodes have succeeded,
   * and then every one of its fields is written.
   */
  method UnmarshalTaggedField<Ty(==), F, V>(rec: Record<Ty, F, V>, fieldType: Ty, bytes: Json,
                                            m: Mapper<V>, host: HostCodec<Ty, F>) returns (err: Option<Error>)
    requires rec.Valid()
    requires HasFieldOfType(rec.fields, fieldType)
    modifies rec.values
    ensures DecodeEmbedded(rec.fields, fieldType, bytes, m, host).Ok? ==>
              err.None? && rec.values[..] == DecodeEmbedded(rec.fields, fieldType, bytes, m, host).value
    ensures DecodeEmbedded(rec.fields, fieldType, bytes, m, host).Err? ==>
              err == Some(DecodeEmbedded(rec.fields, fieldType, bytes, m, host).error)
              && rec.values[..] == old(rec.values[..])
  {
    var fields := rec.fields;
    var n := |fields|;
    var index := 0;
    var shape: seq<Capture<Ty>> := [];
    for i := 0 to n
      invariant |shape| == i
      invariant forall k :: 0 <= k < i ==> shape[k] == CaptureOf(fields[k], fieldType)
      invariant index == if LastIndexOf(fields[..i], fieldType) < 0 then 0 else LastIndexOf(fields[..i], fieldType)
    {
      assert fields[..i + 1][..i] == fields[..i];
      if fields[i].typ == fieldType {
        shape := shape + [AsRaw];
        index := i;
      } else {
        shape := shape + [AsDeclared(fields[i].typ)];
      }
    }
    assert fields[..n] == fields;
    assert shape == Reshape(fields, fieldType);
    assert index == LastIndexOf(fields, fieldType);
    ghost var spec := DecodeEmbedded(fields, fieldType, bytes, m, host);

    var first: Decoded<seq<Slot<F, V>>> := FirstPass(fields, shape, bytes, host);
    if first.Err? {
      assert spec == Err(first.error);
      return Some(first.error);
    }
    var slots := first.value;
    assert shape[index] == AsRaw;
    var fieldBytes := slots[index].doc;
    var temp := new TempUnion<V>();
    if fieldBytes.None? {
      assert spec == Err(EndOfInput);
      return Some(EndOfInput);
    }
    err := temp.UnmarshalJSON(fieldBytes.value, m);
    if err.Some? {
      assert spec == Err(err.value);
      return;
    }

    var union := temp.out.value;
    assert spec == Ok(slots[index := Variant(union)]);
    WriteBack(rec, slots, index, union);
  }

  /** The final loop of UnmarshalTaggedField: every field of the struct, the union value at `index`. */
  method WriteBack<Ty, F, V>(rec: Record<Ty, F, V>, slots: seq<Slot<F, V>>, index: nat, union: V)
    requires rec.Valid() && |slots| == |rec.fields| && index < |slots|
    modifies rec.values
    ensures rec.values[..] == slots[index := Variant(union)]
  {
    var n := |slots|;
    for i := 0 to n
      invariant forall k :: 0 <= k < i ==> rec.values[k] == if k == index then Variant(union) else slots[k]
    {
      if i == index {
        rec.values[i] := Variant(union);
      } else {
        rec.values[i] := slots[i];
      }
    }
  }
}

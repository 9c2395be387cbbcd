/**
 * The tagged-value decoder (tempUnionAlias.UnmarshalJSON) and the capability
 * contracts it relies on: the mapper, which turns a whole document and its
 * tag into a concrete variant, and the optional JSONTag() override of the key
 * that carries the tag.
 *
 * Tags are Go string kinds here, as in every mapper of the repository.
 */
module TaggedValue {
  import opened Wrappers
  import opened Json

  /** Go's (value, error) pair, as a mapper returns it: the value is there even when the error is. */
  datatype Returned<V> = Returned(value: V, err: Option<Error>)

  /**
   * A mapper: `dispatch` is its Unmarshal(b, t) method, and `tagKey` is the
   * key named by its JSONTag() method when it implements `tagger` (None when
   * it does not).
   */
  datatype Mapper<V> = Mapper(dispatch: (Json, string) -> Returned<V>, tagKey: Option<string>)

  const DefaultTagKey: string := "type"

  /** The key the first pass reads the tag from. */
  function TagKey<V>(m: Mapper<V>): (key: string)
    ensures m.tagKey.None? ==> key == DefaultTagKey
    ensures m.tagKey.Some? ==> key == m.tagKey.value
  {
    match m.tagKey
    case Some(key) => key
    case None => DefaultTagKey
  }

  // ---------------------------------------------------------------------------
  // First pass: decode only the tag field of the reshaped tempUnion struct.
  // ---------------------------------------------------------------------------

  /**
   * encoding/json decoding the members of an object into a struct whose only
   * field is a string under `key`: other members are skipped, a string member
   * overwrites the field, a null member leaves it alone, and a member of any
   * other kind is a type error.
   */
  function ScanTag(ms: seq<(string, Json)>, key: string, tag: string): Decoded<string>
    decreases |ms|
  {
    if ms == [] then Ok(tag)
    else if ms[0].0 != key then ScanTag(ms[1..], key, tag)
    else match ms[0].1
      case JStr(s) => ScanTag(ms[1..], key, s)
      case JNull => ScanTag(ms[1..], key, tag)
      case other => Err(TypeMismatch(other, "string"))
  }

  /** The first pass: a null document leaves the tag at its zero value, anything but an object is a type error. */
  function ReadTag(doc: Json, key: string): Decoded<string>
  {
    match doc
    case JNull => Ok("")
    case JObj(ms) => ScanTag(ms, key, "")
    case _ => Err(TypeMismatch(doc, "struct"))
  }

  /** Every member under `key` holds something a Go string accepts: a string or null. */
  ghost predicate TagWellTyped(ms: seq<(string, Json)>, key: string)
  {
    forall i :: 0 <= i < |ms| && ms[i].0 == key ==> ms[i].1.JStr? || ms[i].1.JNull?
  }

  /** Reference for the tag read: the string of the last member under `key` that holds one, else `dflt`. */
  ghost function LastTag(ms: seq<(string, Json)>, key: string, dflt: string): string
    decreases |ms|
  {
    if ms == [] then dflt
    else if ms[|ms| - 1].0 == key && ms[|ms| - 1].1.JStr? then ms[|ms| - 1].1.s
    else LastTag(ms[..|ms| - 1], key, dflt)
  }

  /** Peeling the first member off LastTag: it only matters as the new default. */
  lemma {:induction false} LastTagFront(ms: seq<(string, Json)>, key: string, dflt: string)
    requires |ms| > 0
    ensures LastTag(ms, key, dflt)
         == LastTag(ms[1..], key, if ms[0].0 == key && ms[0].1.JStr? then ms[0].1.s else dflt)
    decreases |ms|
  {
    if |ms| > 1 {
      var init := ms[..|ms| - 1];
      LastTagFront(init, key, dflt);
      assert init[0] == ms[0];
      assert init[1..] == ms[1..][..|ms[1..]| - 1];
    }
  }

  /** The scan succeeds exactly when every member under `key` is a string or null, and then yields the last string. */
  lemma {:induction false} ScanTagIsLastTag(ms: seq<(string, Json)>, key: string, tag: string)
    ensures ScanTag(ms, key, tag).Ok? <==> TagWellTyped(ms, key)
    ensures ScanTag(ms, key, tag).Ok? ==> ScanTag(ms, key, tag).value == LastTag(ms, key, tag)
    decreases |ms|
  {
    if ms != [] {
      LastTagFront(ms, key, tag);
      var next := if ms[0].0 == key && ms[0].1.JStr? then ms[0].1.s else tag;
      ScanTagIsLastTag(ms[1..], key, next);
      if ms[0].0 == key && !ms[0].1.JStr? && !ms[0].1.JNull? {
        assert !TagWellTyped(ms, key);
      } else {
        assert TagWellTyped(ms, key) <==> TagWellTyped(ms[1..], key) by {
          if TagWellTyped(ms[1..], key) {
            forall i | 0 <= i < |ms| && ms[i].0 == key
              ensures ms[i].1.JStr? || ms[i].1.JNull?
            {
              if i > 0 { assert ms[i] == ms[1..][i - 1]; }
            }
          }
          if TagWellTyped(ms, key) {
            forall i | 0 <= i < |ms[1..]| && ms[1..][i].0 == key
              ensures ms[1..][i].1.JStr? || ms[1..][i].1.JNull?
            {
              assert ms[1..][i] == ms[i + 1];
            }
          }
        }
      }
    }
  }

  // ---------------------------------------------------------------------------
  // The decoder as a specification function, and the object that runs it.
  // ---------------------------------------------------------------------------

  /** What one tagged decode does: either the first pass failed, or the mapper was asked and answered. */
  datatype Outcome<V> = FirstPassFailed(error: Error) | Dispatched(returned: Returned<V>)

  function DecodeTagged<V>(doc: Json, m: Mapper<V>): (r: Outcome<V>)
    ensures r.FirstPassFailed? <==> ReadTag(doc, TagKey(m)).Err?
    ensures r.FirstPassFailed? ==> r.error == ReadTag(doc, TagKey(m)).error
    ensures r.Dispatched? ==> r.returned == m.dispatch(doc, ReadTag(doc, TagKey(m)).value)
  {
    match ReadTag(doc, TagKey(m))
    case Err(e) => FirstPassFailed(e)
    case Ok(tag) => Dispatched(m.dispatch(doc, tag))
  }

  /** The tagged decode seen as a value or an error, as the list and field decoders consume it. */
  function DecodeValue<V>(doc: Json, m: Mapper<V>): (r: Decoded<V>)
    ensures r.Ok? <==> ReadTag(doc, TagKey(m)).Ok? && m.dispatch(doc, ReadTag(doc, TagKey(m)).value).err.None?
    ensures r.Ok? ==> r.value == m.dispatch(doc, ReadTag(doc, TagKey(m)).value).value
    ensures ReadTag(doc, TagKey(m)).Err? ==> r == Err(ReadTag(doc, TagKey(m)).error)
    ensures ReadTag(doc, TagKey(m)).Ok? && m.dispatch(doc, ReadTag(doc, TagKey(m)).value).err.Some? ==>
              r == Err(m.dispatch(doc, ReadTag(doc, TagKey(m)).value).err.value)
  {
    match DecodeTagged(doc, m)
    case FirstPassFailed(e) => Err(e)
    case Dispatched(Returned(v, None)) => Ok(v)
    case Dispatched(Returned(_, Some(e))) => Err(e)
  }

  /**
   * On an object: the mapper is consulted exactly when every member under the
   * chosen key ("type", or the JSONTag() override when there is one) is a
   * string or null; it then receives the whole document unchanged, tag member
   * included, and the last string under that key, or "" when there is none.
   */
  lemma DecodeTaggedObject<V>(ms: seq<(string, Json)>, m: Mapper<V>)
    ensures m.tagKey.None? ==>
      (DecodeTagged(JObj(ms), m).Dispatched? <==> TagWellTyped(ms, "type"))
    ensures m.tagKey.Some? ==>
      (DecodeTagged(JObj(ms), m).Dispatched? <==> TagWellTyped(ms, m.tagKey.value))
    ensures m.tagKey.None? && TagWellTyped(ms, "type") ==>
      DecodeTagged(JObj(ms), m) == Dispatched(m.dispatch(JObj(ms), LastTag(ms, "type", "")))
    ensures m.tagKey.Some? && TagWellTyped(ms, m.tagKey.value) ==>
      DecodeTagged(JObj(ms), m) == Dispatched(m.dispatch(JObj(ms), LastTag(ms, m.tagKey.value, "")))
  {
    ScanTagIsLastTag(ms, TagKey(m), "");
  }

  /** Documents other than objects: null reaches the mapper with the zero tag, every other kind fails the first pass. */
  lemma DecodeTaggedNonObject<V>(doc: Json, m: Mapper<V>)
    requires !doc.JObj?
    ensures doc.JNull? ==> DecodeTagged(doc, m) == Dispatched(m.dispatch(JNull, ""))
    ensures !doc.JNull? ==> DecodeTagged(doc, m) == FirstPassFailed(TypeMismatch(doc, "struct"))
  {
  }

  /**
   * The decoder never makes up a variant: a decoded value is one the mapper
   * returned without error for this very document, and a mapper error comes
   * back as it is.
   */
  lemma NoDefaultVariant<V>(doc: Json, m: Mapper<V>)
    ensures DecodeValue(doc, m).Ok? ==>
      exists tag :: ReadTag(doc, TagKey(m)) == Ok(tag) && m.dispatch(doc, tag) == Returned(DecodeValue(doc, m).value, None)
    ensures forall tag, v, e :: ReadTag(doc, TagKey(m)) == Ok(tag) && m.dispatch(doc, tag) == Returned(v, Some(e)) ==>
      DecodeValue(doc, m) == Err(e)
  {
    if DecodeValue(doc, m).Ok? {
      var tag := ReadTag(doc, TagKey(m)).value;
      assert m.dispatch(doc, tag) == Returned(DecodeValue(doc, m).value, None);
    }
  }

  /**
   * tempUnion: the `Tag` field it is named after, and `out`, the decoded
   * variant (None is Go's nil interface before anything was stored).
   */
  class TempUnion<V> {
    var tag: string
    var out: Option<V>

    constructor ()
      ensures tag == "" && out == None
    {
      tag := "";
      out := None;
    }

    /**
     * Read the tag under the chosen key, then hand the original document and
     * that tag to the mapper and keep what it returns. The tag is read into a
     * separate reshaped struct, so `tag` itself is never written.
     */
    method UnmarshalJSON(b: Json, m: Mapper<V>) returns (err: Option<Error>)
      modifies this`out
      ensures ReadTag(b, TagKey(m)).Err? ==> err == Some(ReadTag(b, TagKey(m)).error) && out == old(out)
      ensures ReadTag(b, TagKey(m)).Ok? ==>
        var r := m.dispatch(b, ReadTag(b, TagKey(m)).value);
        out == Some(r.value) && err == r.err
      ensures err.None? <==> DecodeValue(b, m).Ok?
      ensures err.None? ==> out == Some(DecodeValue(b, m).value)
      ensures err.Some? ==> DecodeValue(b, m) == Err(err.value)
    {
      var key := TagKey(m);
      var first := ReadTag(b, key);
      if first.Err? {
        return Some(first.error);
      }
      var r := m.dispatch(b, first.value);
      out := Some(r.value);
      err := r.err;
    }
  }
}

/**
 * The tagged-list decoder (UnionList.UnmarshalJSON): decode a JSON array
 * whose every element is a tagged value, then append the decoded variants to
 * the list, in array order.
 */
module TaggedList {
  import opened Wrappers
  import opened Json
  import opened TaggedValue

  /**
   * encoding/json decoding the elements of an array into a fresh slice of
   * tempUnion values, one UnmarshalJSON call per element, stopping at the
   * first element that fails.
   */
  function DecodeAll<V>(es: seq<Json>, m: Mapper<V>): (r: Decoded<seq<V>>)
    ensures r.Ok? <==> forall i :: 0 <= i < |es| ==> DecodeValue(es[i], m).Ok?
    ensures r.Ok? ==> |r.value| == |es|
    ensures r.Ok? ==> forall i :: 0 <= i < |es| ==> r.value[i] == DecodeValue(es[i], m).value
    ensures r.Err? ==> exists i :: 0 <= i < |es| && DecodeValue(es[i], m) == Err(r.error)
                                && forall j :: 0 <= j < i ==> DecodeValue(es[j], m).Ok?
    decreases |es|
  {
    if es == [] then Ok([])
    else match DecodeValue(es[0], m)
      case Err(e) => Err(e)
      case Ok(v) =>
        match DecodeAll(es[1..], m)
        case Err(e) =>
          var i :| 0 <= i < |es[1..]| && DecodeValue(es[1..][i], m) == Err(e)
                   && forall j :: 0 <= j < i ==> DecodeValue(es[1..][j], m).Ok?;
          assert es[i + 1] == es[1..][i];
          assert forall j :: 1 <= j < i + 1 ==> es[j] == es[1..][j - 1];
          Err(e)
        case Ok(vs) =>
          assert forall i :: 1 <= i < |es| ==> es[i] == es[1..][i - 1];
          Ok([v] + vs)
  }

  /** The whole list decode: null decodes to no elements, anything but an array or null is a type error. */
  function DecodeList<V>(doc: Json, m: Mapper<V>): (r: Decoded<seq<V>>)
    ensures doc.JNull? ==> r == Ok([])
    ensures doc.JArr? ==> (r.Ok? <==> forall i :: 0 <= i < |doc.items| ==> DecodeValue(doc.items[i], m).Ok?)
    ensures doc.JArr? && r.Ok? ==>
              |r.value| == |doc.items| && forall i :: 0 <= i < |doc.items| ==> r.value[i] == DecodeValue(doc.items[i], m).value
    ensures !doc.JNull? && !doc.JArr? ==> r == Err(TypeMismatch(doc, "slice"))
  {
    match doc
    case JNull => Ok([])
    case JArr(es) => DecodeAll(es, m)
    case _ => Err(TypeMismatch(doc, "slice"))
  }

  /** A failing element fails the whole array with its own error when every element before it decoded. */
  lemma FirstFailureWins<V>(es: seq<Json>, m: Mapper<V>, i: nat)
    requires i < |es| && DecodeValue(es[i], m).Err?
    requires forall j :: 0 <= j < i ==> DecodeValue(es[j], m).Ok?
    ensures DecodeAll(es, m) == Err(DecodeValue(es[i], m).error)
  {
  }

  /** Conversely, when each element decodes to the matching value, the array decodes to exactly those values. */
  lemma DecodeAllOfDecoded<V>(es: seq<Json>, vs: seq<V>, m: Mapper<V>)
    requires |es| == |vs|
    requires forall i :: 0 <= i < |es| ==> DecodeValue(es[i], m) == Ok(vs[i])
    ensures DecodeAll(es, m) == Ok(vs)
  {
    var r := DecodeAll(es, m);
    assert r.Ok?;
    assert |r.value| == |vs|;
    assert forall i :: 0 <= i < |vs| ==> r.value[i] == vs[i];
    assert r.value == vs;
  }

  /** Elements are decoded independently: the decode of a concatenation is the concatenation of the decodes. */
  lemma {:induction false} DecodeAllAppend<V>(a: seq<Json>, b: seq<Json>, m: Mapper<V>)
    ensures DecodeAll(a + b, m).Ok? <==> DecodeAll(a, m).Ok? && DecodeAll(b, m).Ok?
    ensures DecodeAll(a + b, m).Ok? ==> DecodeAll(a + b, m).value == DecodeAll(a, m).value + DecodeAll(b, m).value
    decreases |a|
  {
    if a == [] {
      assert a + b == b;
    } else {
      assert (a + b)[1..] == a[1..] + b;
      DecodeAllAppend(a[1..], b, m);
    }
  }

  /** The receiver: a slice of decoded variants that decoding appends to. */
  class UnionList<V> {
    var items: seq<V>

    constructor (items: seq<V>)
      ensures this.items == items
    {
      this.items := items;
    }

    /**
     * Decode the array completely into temporaries first; only when every
     * element has decoded are their variants appended, so a failure leaves
     * the list as it was.
     */
    method UnmarshalJSON(data: Json, m: Mapper<V>) returns (err: Option<Error>)
      modifies this
      ensures DecodeList(data, m).Ok? ==> err.None? && items == old(items) + DecodeList(data, m).value
      ensures DecodeList(data, m).Err? ==> err == Some(DecodeList(data, m).error) && items == old(items)
    {
      err := None;
      var factTypes: seq<TempUnion<V>> := [];
      match data {
        case JNull =>
        case JArr(es) =>
          var i := 0;
          while i < |es|
            invariant 0 <= i <= |es| && |factTypes| == i
            invariant items == old(items)
            invariant forall k :: 0 <= k < i ==>
              DecodeValue(es[k], m).Ok? && factTypes[k].out == Some(DecodeValue(es[k], m).value)
          {
            var temp := new TempUnion();
            var e := temp.UnmarshalJSON(es[i], m);
            if e.Some? {
              FirstFailureWins(es, m, i);
              return e;
            }
            factTypes := factTypes + [temp];
            i := i + 1;
          }
        case _ =>
          return Some(TypeMismatch(data, "slice"));
      }
      ghost var decoded := DecodeList(data, m).value;
      assert |decoded| == |factTypes|;
      var j := 0;
      while j < |factTypes|
        invariant 0 <= j <= |factTypes|
        invariant forall k :: 0 <= k < |factTypes| ==> factTypes[k].out == Some(decoded[k])
        invariant items == old(items) + decoded[..j]
      {
        items := items + [factTypes[j].out.value];
        j := j + 1;
      }
      assert decoded[..j] == decoded;
    }
  }
}

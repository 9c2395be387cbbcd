/**
 * The JSON documents the decoders consume, as already-parsed trees, and the
 * errors that decoding reports. Turning bytes into a tree (the syntax check
 * done by encoding/json) is not part of this model; a "raw message" is the
 * tree of the sub-document it captured.
 */
module Json {
  import opened Wrappers

  /** An object keeps its members in document order, duplicates included. */
  datatype Json =
    | JNull
    | JBool(b: bool)
    | JNum(n: int)
    | JStr(s: string)
    | JArr(items: seq<Json>)
    | JObj(members: seq<(string, Json)>)

  datatype Error =
    /** encoding/json's UnmarshalTypeError: a JSON value of the wrong kind for the Go type named by `target` */
    | TypeMismatch(got: Json, target: string)
    /** "unexpected end of JSON input": decoding an empty (never captured) raw message */
    | EndOfInput
    /** what the example mappers report for a tag they do not dispatch on */
    | UnknownTag(tag: string)
    /** any other error a mapper or a field decoder chooses to return */
    | Other(msg: string)

  type Decoded<T> = Result<T, Error>
}

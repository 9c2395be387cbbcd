# jtug: decoding JSON tagged unions, modelled in Dafny

jtug decodes JSON values whose concrete shape is chosen by a discriminant
member (`"type"` unless the mapper names another key). The library has three
decoders, all in `tagged_union.go`, and this project models each one:

- **Tagged-value decoder** (`tempUnionAlias.UnmarshalJSON`). A first pass reads
  only the tag, from the key `"type"` or the key named by the mapper's
  `JSONTag()`. The mapper then gets the original document and that tag, and its
  value and error are kept as they are.
- **Tagged-list decoder** (`UnionList.UnmarshalJSON`). It decodes a whole array
  of tagged values into temporaries. Only then does it append their variants to
  the receiver, in array order.
- **Embedded-field decoder** (`UnmarshalTaggedField`). It decodes a struct once
  with the tagged field captured as raw JSON. The capture goes through the
  tagged-value decoder. Only after both passes succeed is every field of the
  struct written.

Files:

- `wrappers.dfy`: `Option` and `Result`.
- `json.dfy`: JSON documents as parsed trees, and the decode errors.
- `tagged_value.dfy`: mappers, the key choice, the first pass, the tagged-value
  decoder and the `TempUnion` object that runs it.
- `tagged_list.dfy`: the list decoder as a function and as the `UnionList`
  object.
- `embedded_field.dfy`: struct fields, the reshaped first pass and
  `UnmarshalTaggedField` over a `Record` object.
- `fixtures.dfy`: the repository's test mappers and test scenarios.

How the Go constructs are represented:

- A mapper is a datatype holding its dispatch function, `(document, tag) ->
  (value, error)`. It also holds an optional key override, which stands for the
  `tagger` capability.
- `encoding/json` is modelled only as far as the decoders depend on it. Decoding
  a struct scans the object's members in order. A member with an unknown key is
  skipped. A null leaves a Go string as it is. A value of the wrong kind is a
  type error. Decoding one declared field type, including any `UnmarshalJSON`
  that type has, is a parameter (`HostCodec`).
- Go reflection is replaced by data: a struct type is its sequence of
  `(key, type)` fields, and a struct value is an array of slots.

Behaviour of the code that the model makes explicit:

- A document with no discriminant member does not fail the first pass. The
  mapper receives the zero tag `""`, and the example mappers reject it as an
  unknown tag (`Fixtures.KeyOverrideSelects`).
- The embedded-field decoder always sends the captured field through the
  tagged-value decoder, never the list decoder (tagged_union.go:43-44). A
  `UnionList` field is decoded by its own `UnmarshalJSON` during the first pass.
- A JSON `null` given to the list decoder succeeds and appends nothing.
- The mapper's value is stored in `out` even when the mapper also returns an
  error.
- Every field whose type equals the tagged field's type is captured raw. Only
  the last such field is decoded. The others are written back holding their raw
  capture.
- The first pass decodes into a fresh struct. Fields that the object does not
  mention are therefore written back as zero values, and a list field is
  replaced rather than appended to.
- When the object has no member for the tagged field, the empty capture fails
  with "unexpected end of JSON input".
- When several members carry the tagged field's key, the raw capture keeps the
  last of them, and that is the one decoded as the union value.

## Model

| member | source | states |
|---|---|---|
| `TaggedValue.TagKey` | tagged_union.go:102-105 | the tag is read from "type" when the mapper has no JSONTag() override, and from exactly the override's key when it has one |
| `TaggedValue.ScanTagIsLastTag` | tagged_union.go:106-115 | the tag pass succeeds exactly when every member under the key is a string or null, and then yields the last string under that key (the tag's previous value when there is none) |
| `TaggedValue.DecodeTagged` | tagged_union.go:92-121 | the first pass fails exactly when reading the tag under the chosen key fails, with that error; otherwise the mapper receives the original document, unchanged, and the tag that was read |
| `TaggedValue.DecodeValue` | tagged_union.go:112-120 | a value exactly when the tag pass succeeds and the mapper returns no error, and then the mapper's value; otherwise the first-pass error, or the mapper's error unchanged |
| `TaggedValue.DecodeTaggedObject` | tagged_union.go:102-119 | the key is "type" without an override and exactly the override with one; the mapper is consulted exactly when the tag pass succeeds, and receives the whole original object and the last string under that key, or "" |
| `TaggedValue.DecodeTaggedNonObject` | tagged_union.go:112-119 | null reaches the mapper with the zero tag; any other non-object fails the first pass with a type error and the mapper is not consulted |
| `TaggedValue.NoDefaultVariant` | tagged_union.go:118-120 | a decoded value is one the mapper returned without error for this document and its tag; a mapper error is returned unchanged |
| `TaggedValue.TempUnion.constructor` | tagged_union.go:85-88 | a fresh tempUnion holds the zero tag and a nil `out` |
| `TaggedValue.TempUnion.UnmarshalJSON` | tagged_union.go:92-121 | a failed tag pass returns its error and leaves `out` unchanged; otherwise `out` is the mapper's value, even when the mapper also failed, and the error is the mapper's error |
| `TaggedList.DecodeAll` | tagged_union.go:63-67 | an array decodes exactly when every element does; the result then has one value per element, in order, and the i-th value is the tagged decode of element i; otherwise the error is that of the first failing element |
| `TaggedList.DecodeList` | tagged_union.go:63-67 | null decodes to no elements; an array decodes exactly when every element does, to one value per element, in order; anything else is a slice type error |
| `TaggedList.FirstFailureWins` | tagged_union.go:64-66 | an element that fails after only successful elements fails the whole array with its own error |
| `TaggedList.DecodeAllOfDecoded` | tagged_union.go:63-67 | when each element decodes to the matching value, the array decodes to exactly those values |
| `TaggedList.DecodeAllAppend` | tagged_union.go:63-67 | elements decode independently: decoding a concatenation succeeds exactly when both halves do, and gives the concatenated results |
| `TaggedList.UnionList.constructor` | tagged_union.go:12 | a list starts with the given variants |
| `TaggedList.UnionList.UnmarshalJSON` | tagged_union.go:62-72 | on success the decoded variants are appended after the old contents, in array order; on any failure the error is returned and the list is unchanged |
| `EmbeddedField.LastIndexOf` | tagged_union.go:24-34 | the selected field has the tagged field's type and no later field has it; -1 means no field has it |
| `EmbeddedField.Reshape` | tagged_union.go:26-34 | one capture per field: a field becomes a raw capture exactly when its type is the tagged field's type, and every other field keeps its declared type |
| `EmbeddedField.FirstPass` | tagged_union.go:35-40 | a successful first pass gives every captured field a raw capture and every other field a value of its declared type (what each field holds is stated by the next three rows) |
| `EmbeddedField.RawCaptureIsLastMember` | tagged_union.go:35-40 | a raw capture whose key no earlier field takes holds the value of the last member under that key, or its starting value when no member has the key |
| `EmbeddedField.DeclaredFieldSingleMember` | tagged_union.go:35-40 | a declared field named by exactly one member holds its type's decode of that member over its starting value |
| `EmbeddedField.UnnamedFieldKept` | tagged_union.go:36-37 | a field that no member of the object names keeps the value it started the pass with |
| `EmbeddedField.DecodeEmbedded` | tagged_union.go:15-59 | on success one value per field, with a union value at the selected field and at no other; a null document fails with "unexpected end of JSON input"; any other non-object fails the first pass with a type error |
| `EmbeddedField.EmbeddedSplice` | tagged_union.go:28-58 | success exactly when the first pass and the tagged decode of the last matching field's capture both succeed; the struct then gets the union value at that field and the first-pass value at every other field, so other same-typed fields keep their raw captures |
| `EmbeddedField.AbsentSiblingIsZero` | tagged_union.go:36-57 | a sibling field that the object does not mention is written back as its type's zero value |
| `EmbeddedField.MissingTaggedMemberFails` | tagged_union.go:42-47 | an object without a member for the tagged field makes the decoder fail |
| `EmbeddedField.EmbeddedTaggedMember` | tagged_union.go:35-53 | on an object, the decoder succeeds exactly when the first pass succeeds, some member has the tagged field's key and the last such member decodes as a tagged value; the field then holds that union value |
| `EmbeddedField.EmbeddedSiblingMember` | tagged_union.go:35-57 | a declared sibling named by exactly one member is written back as its type's decode of that member over the zero value |
| `EmbeddedField.UnmarshalTaggedField` | tagged_union.go:15-59 | on success every field of the struct is written with the spliced values; on any error the struct is not written at all |
| `EmbeddedField.WriteBack` | tagged_union.go:49-57 | after the write loop the struct holds the union value at the selected index and the first-pass value everywhere else |
| `Fixtures.ScanStruct` | simple_test.go:34-35 | json.Unmarshal into a variant struct: the struct keeps its type, an earlier error is kept, and an error is reported exactly when some member has the wrong kind for its field |
| `Fixtures.SimpleDispatch` | simple_test.go:31-42 | "A" always yields a SimpleA and "B" a SimpleB, with an error exactly when some member of the object has the wrong kind; any other tag yields nil and the unknown-tag error |
| `Fixtures.TestDispatch` | nested_test.go:24-38 | "A" always yields a TypeA, with an error exactly when some member of the object has the wrong kind; any other tag yields nil and an error, the unknown-tag error for tags other than "B" and "C" |
| `Fixtures.TestListDecodes` | simple_test.go:44-59 | the array of an "A" and a "B" document decodes to SimpleA{A, 10} then SimpleB{B, hello} |
| `Fixtures.TestList` | simple_test.go:44-59 | decoding that array into an empty list leaves count 10 in the first item and data "hello" in the second |
| `Fixtures.DecodeTwice` | tagged_union.go:68-70 | decoding the same array twice into one list leaves both copies, the first one first |
| `Fixtures.UnknownTagRejected` | simple_test.go:31-41 | tag "C" is the mapper's unknown-tag error, for a single value and inside an array |
| `Fixtures.KeyOverrideSelects` | tagged_union.go:102-115 | with the key override "tag" the document reaches variant A; without it the mapper gets the zero tag and rejects it |
| `Fixtures.VariantFieldError` | simple_test.go:33-35 | a string under "count" is variant A's own type error, returned as it is; the members after it are still decoded in document order |
| `Fixtures.WrapperListMember` | nested_test.go:63-64 | TestWrapper's `list` member, decoded with TestMapper over the empty zero list, holds the one decoded TypeA |
| `Fixtures.WrapperFirstPass` | nested_test.go:63-70 | TestWrapper's first pass decodes `list` with the list decoder and captures `one` raw |
| `Fixtures.WrapperDecodes` | nested_test.go:63-70 | TestWrapper decodes `list` through the list decoder and `one` through the tagged-value decoder, both with TestMapper, merged into one struct |
| `Fixtures.WrapperNeedsTagKey` | nested_test.go:40-42 | TestMapper reads the tag from "tag": a `one` member tagged under "type" fails TestWrapper's decode as the unknown tag "" |
| `Fixtures.DecodeWrapper` | nested_test.go:68-70 | UnmarshalTaggedField on a TestWrapper that already holds values replaces every field, including the list |

## Left out

- Byte-level JSON is not modelled. Documents are parsed trees, so syntax errors and byte-exact formatting are out of scope.
- Numbers are integers; Go's float64 numbers and number literal forms are not modelled.
- Go's key matching is exact here. Go also matches keys case-insensitively; that library behaviour is not modelled.
- The struct-tag string syntax is not modelled. `JSONTag()` returns a whole struct tag such as `json:"tag"`; the model keeps only the key it names.
- When two struct fields share one JSON key, a member decodes into the first of them. Go's field-dominance rules are not modelled.
- When several members of a struct with a tagged field fail to decode, the first pass reports the first failure and stops. Go saves type errors and keeps decoding, so it may report a later direct error instead. The fixtures' variant structs do keep decoding after a type error.
- Tag types other than Go string kinds are not modelled. Every mapper in the repository uses a string kind.
- `EmbeddedField.UnmarshalTaggedField` requires that some field has the tagged field's type. Without one, Go reads field 0's bytes and panics (tagged_union.go:24, 42).
- A mapper that returns a nil value and no error makes the write-back panic in Go (tagged_union.go:53). The model stores the value instead.
- A struct with an unexported field makes the write-back panic in Go, because reflect cannot set that field (tagged_union.go:55). The model has no unexported fields and writes every slot.
- The type assertion at tagged_union.go:118 cannot fail, because the reshaped field has type T. It is not modelled.
- `UnmarshalTaggedField` takes a pointer to a field, but the code uses only that field's type, so the model takes the type.
- The type construction done by `reflect.StructOf` and `reflect.New` is not modelled as such; the reshaped struct is a sequence of captures.
- Fixtures.TestDispatch: tags "B" and "C" are answered with nil and an error. The recursive fixtures TypeB and TypeC decode through the library from inside the mapper, and they are not modelled.
- The round-trip test (nested_test.go:79-96) is not modelled. It reads a file and compares re-encoded bytes, which is I/O and encoding outside this library.
- Concurrency is not modelled. Each call is sequential and the mappers are stateless.

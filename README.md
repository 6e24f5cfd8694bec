# poly — a verified model of the polymorphic JSON container

`poly` (Go) offers `Poly[I, T]`, a struct whose field `Value` holds one value
of an interface `I`. The concrete type of that value is drawn from a closed,
ordered registry `T.Types()`. Each registry entry is a `Type{Name, ReflectType}`:
the name the type reports through its `TypeName()` method, and the type itself.
The registry is built with `Types1` … `Types9` or with the recursive
`TypeList[First, Rest]` ended by `TypeListLast`.

- `MarshalJSON` writes the held value as a JSON object whose first member is
  the discriminator `"type"`.
- `UnmarshalJSON` reads the discriminator and looks it up in the registry,
  first match wins. It then replaces the held value with a fresh instance, or
  patches the held value when the names agree.

This project models that core in Dafny:

- `wrappers.dfy`: `Option` and `Result`.
- `json_codec.dfy` (module `JsonCodec`): the part of `encoding/json` the
  container relies on, over structs whose fields are `omitempty` strings.
  - A struct value is a map from JSON field name to string.
  - Decoding an object overrides the fields the object assigns and keeps the
    others.
  - Encoding writes the non-empty fields in declaration order.
- `poly.dfy` (module `Poly`): the registry descriptor, first-match lookup,
  the marshal splice, and the unmarshal state machine.
  - The state machine is a specification function `Resolve`, which returns
    the `Effect` of one call.
  - It is also an imperative class `Poly` whose `UnmarshalJSON` and
    `MarshalJSON` are proved against `Resolve` and `Marshal`.
  - A variant held by value is a datatype value.
  - A variant held through a pointer is a heap object `Cell`, so that
    aliasing of the pointed-to struct is visible.
- `types.dfy` (module `TypeLists`): the registry builders.
- `poly_properties.dfy` (module `PolyProperties`): what marshalling and
  unmarshalling promise.
  - The discriminator comes first.
  - Encoding and decoding a registered variant round-trip.
  - A type change leaves nothing of the old value.
  - A same-name decode is a merge-patch, committed differently for values and
    for pointers.
- `poly_scenarios.dfy` (module `PolyScenarios`): the package example, and a
  pointer shared by two containers, expressed through the class's methods.

## Model

| member | source | states |
|---|---|---|
| Poly.Lookup | poly.go:63-70 | the registry search returns the position of the first entry with that name (no earlier entry has it), and none exactly when no entry has it |
| Poly.EncodeValue | poly.go:47-54 | the plain encoding of the held value is `null` exactly for the nil interface and for a typed nil pointer |
| Poly.Marshal | poly.go:46-86 | a `null` encoding is returned as is, with no TypeName or registry check; otherwise marshalling fails exactly when the value has no `TypeName` or its name is not registered, and the error says which |
| Poly.Poly.MarshalJSON | poly.go:46-86 | the loop-based method returns exactly what `Marshal` specifies for the held value and the struct it points to |
| Poly.ReadDiscriminator | poly.go:105-117 | the discriminator is never empty on success; input that is not an object fails with a discriminator error |
| Poly.Decide | poly.go:122-154 | a pointer patch happens only for a non-nil pointer, and a value patch only for a value of the matched type, both only when the held name equals the matched name; a replacement is an instance of the matched type and happens only when the held name is empty or differs |
| Poly.Resolve | poly.go:90-159 | `null` input is a no-op; a held value without `TypeName` fails before anything else; discriminator errors and unknown names fail and keep the value |
| Poly.Poly.UnmarshalJSON | poly.go:90-159 | the method performs the effect `Resolve` specifies: kept errors change nothing; a replacement stores a new value (a newly allocated struct for pointer types); a pointer patch rewrites the shared struct and keeps the handle; a value patch stores the patched copy |
| Poly.Poly.DecodeAs | poly.go:122-154 | the body of the search loop for the matching entry performs the effect `Decide` specifies |
| TypeLists.Types | types.go:7-18 | `TypeList[First, Rest]` yields one descriptor per type argument in declaration order, each named by its type's `TypeName()`; `TypeListLast` yields none |
| TypeLists.TypesN | types.go:20-135 | `TypesN` yields exactly N descriptors, the i-th built from the i-th type argument |
| TypeLists.RegistryAccepts | poly.go:24-30 | since each descriptor is named by its type's `TypeName()`, the registry search for the name of any type in a fixed-arity list finds it at its own position or at an earlier one with the same name, so any non-null value of a listed type marshals without error |
| TypeLists.TypeListAccepts | types.go:7-11 | the same for a type-level list: every listed type is found by name, and a non-null value of it marshals without error |
| TypeLists.TypeListIsTypesN | types.go:7-48 | a type-level list of one to nine arguments builds the same registry as the fixed-arity list of those arguments |
| JsonCodec.DecodeMembers | poly.go:124-125 | decoding reports an error exactly when a declared field is given a non-string, non-null value; members the struct does not declare change nothing |
| JsonCodec.DecodeIsOverride | poly.go:136 | decoding onto existing fields equals the existing fields overridden by the decoding of the input alone |
| JsonCodec.DecodeIgnoresUndeclared | poly.go:105-113 | members whose keys the struct does not declare are skipped without error |
| JsonCodec.DecodeMembersAppend | poly.go:111 | decoding two runs of members in turn is decoding the first run and then the second onto its result, and an error in either is reported |
| JsonCodec.DecodeKeepsUntouched | poly.go:111 | a key that no member assigns a string to keeps its old value, or stays absent |
| JsonCodec.FieldMembers | poly.go:47 | the encoder writes only declared fields, as strings |
| JsonCodec.ObjectText | poly.go:76-83 | an object's text starts with `{` and ends with `}`, and is `{}` exactly when it has no members |
| JsonCodec.DecodeFieldMembers | poly.go:47 | decoding what the encoder wrote for some declared fields sets exactly those fields, without error |
| JsonCodec.DecodeEncode | poly.go:124 | decoding the members the encoder writes for a struct into a zero struct gives the struct back, for any declared, non-empty string values |
| PolyProperties.SpliceTypeFirst | poly.go:76-85 | both branches of the splice give the text of the object with the discriminator as first member: `{"type":"<name>"}` for `{}`, else the prefix followed by the inner text minus its first byte |
| PolyProperties.SpliceObject | poly.go:80-83 | splicing into a non-empty object writes `{"type":"<name>",` followed by the object's members |
| PolyProperties.MarshalPutsTypeFirst | poly.go:46-86 | a successful marshal of a non-null value is the discriminator followed by the value's own fields |
| PolyProperties.DecodeSkipsTypeMember | poly.go:124 | a leading `"type"` member, where the splice puts it, is ignored by a variant that does not declare it |
| PolyProperties.DiscriminatorDefaultsToCurrent | poly.go:95-117 | without a `"type"` member the discriminator is the held value's name, and is missing if that is empty |
| PolyProperties.DiscriminatorKept | poly.go:105-117 | when no member assigns a string to `"type"` (it is absent or `null`), the discriminator is the held name, missing if that is empty, unless a `"type"` of another kind makes the decoder fail |
| PolyProperties.DiscriminatorOverride | poly.go:105-117 | when some member assigns a string to `"type"`, the held name plays no part: the result is what the input alone gives |
| PolyProperties.LastTypeMemberWins | poly.go:105-117 | the last `"type"` member holding a string decides the discriminator, wherever it stands and whatever is held; an empty one leaves it missing |
| PolyProperties.TrailingTypeOverrides | poly.go:105-117 | `{"url":"u","type":<name>}` yields `<name>` over any held name |
| PolyProperties.EmptyTypeIsMissing | poly.go:111-117 | `{"type":""}` fails as a missing discriminator over any held name |
| PolyProperties.NullTypeKeepsName | poly.go:105-117 | `{"type":null}` keeps the held name, and is missing when nothing is held |
| PolyProperties.DiscriminatorFromInput | poly.go:105-113 | a non-empty leading `"type"` member, with no other `"type"` member, overrides the held value's name |
| PolyProperties.RoundTripDecode | poly.go:119-132 | decoding `{"type":"n",…fields}` into an empty container or one holding another type yields the first type registered as `n` with exactly those fields, for any string values |
| PolyProperties.RoundTrip | poly_test.go:209-252 | the decoding half, and marshalling the new instance gives back the text of the input; the text is Go's when the field keys and values need no escapes |
| PolyProperties.TypeChangeIgnoresOldValue | poly.go:122-132 | a decode that names another type behaves exactly as a decode into an empty container |
| PolyProperties.ValuePatchMerges | poly.go:140-153 | a same-name decode of a value stores the old fields overridden by the input's, and only when decoding succeeded |
| PolyProperties.PointerPatchMerges | poly.go:134-139 | a same-name decode through a pointer rewrites the pointed-to struct with the old fields overridden by the input's, also when the decoder reports an error |
| PolyProperties.PatchMayOmitType | poly.go:105-109 | a patch without `"type"` of a container holding a value stores the old fields overridden by the input's, instead of failing |
| PolyProperties.PointerPatchMayOmitType | poly.go:105-139 | a patch without `"type"` of a container holding a non-nil pointer rewrites the pointed-to struct with the old fields overridden by the input's, instead of failing |
| PolyScenarios.DeepLinkText | example_test.go:57-80 | a deep link whose url needs no escapes is written as the discriminator followed by its url |
| PolyScenarios.ActionExample | example_test.go:35-80 | the package example: every decode succeeds; `{"type":"dismiss"}` is written back unchanged; `{"type":"deep-link","url":"url"}` replaces it; the patch `{"url":"url-2"}` changes only the url |
| PolyScenarios.ItemText | poly_test.go:441-448 | a pointer to a struct whose key needs no escapes is written as the discriminator `item-pointer-2` followed by the key |
| PolyScenarios.PatchShared | poly_test.go:436-448 | the patch `{"key":"k2"}` rewrites the pointed-to struct in place, keeps the handle, and the container is then written as `{"type":"item-pointer-2","key":"k2"}` |
| PolyScenarios.SharedPointerExample | poly.go:122-139 | after a same-name patch through one container, which then writes `{"type":"item-pointer-2","key":"k2"}`, a second container sharing the pointer sees the new key; a later type change, as in the test at poly_test.go:523-534, allocates a new struct and leaves the shared one alone |

## Left out

- JSON text: the input of `UnmarshalJSON` is an abstract document (`null`, an object with its members in order, or anything else). Lexing, whitespace and byte-level parsing are not modelled.
- JSON escaping: decoding and the member-level round trip (DecodeEncode, RoundTripDecode) work on members, where escaping plays no part. The texts the model writes hold names and values as they are. The splice at poly.go:77 and poly.go:82 writes the type name raw, as the model does. `json.Marshal` at poly.go:47 escapes field values, though: quotes, backslashes, control characters, `<`, `>`, `&`, U+2028 and U+2029 (the last five as `\u003c` and so on). `json.Marshal` escapes field keys (JSON names from struct tags) the same way. So the lemmas that state text require `Plain` keys and values, for which the model's text is Go's: RoundTrip requires it of the schema and the values, DeepLinkText and ItemText of the value, their keys `url` and `key` being plain.
- Go's case-insensitive matching of object keys to struct fields is not modelled: keys match exactly.
- Variant structs are modelled as flat structs of `omitempty` string fields. Other field kinds, non-`omitempty` fields and nested structs are not modelled. The package example's `url` field is not `omitempty`, and the scenario only gives it non-empty values.
- A container nested in a struct field or behind a pointer field (poly_test.go:362-389, 545-572) is decoded by `encoding/json` itself. It is not part of this model.
- The error returned by `json.Marshal` at poly.go:47-50 cannot occur for string fields. It is not modelled.
- Reflection is replaced by a description of each type (`GoType`): its identity, pointer-ness, `TypeName` result and method names. `reflect.New`, `Elem`, `Set` and the `.(I)` assertion are modelled by their effect. The settability checks of poly_test.go:353-360 and 536-543 are reflection artefacts and are left out.
- Poly.NewType: a type whose `TypeName` has a value receiver, instantiated at a pointer type, makes Go panic on the nil receiver. The model assumes `TypeName` can be called on the zero value.
- Poly.Resolve: the same nil-receiver panic in `TypeName()` at poly.go:99 is not modelled. The model reads the name from the type.
- Poly.Resolve: a `Set` of a value of another type at poly.go:143 panics in Go. It is modelled as the error `AssignPanic`, leaving `Value` untouched.
- Error messages are modelled as error kinds (`PolyError`), not text.
- The model follows the code in these behaviours. Decoding `null` leaves `Value` as it was. A patch may omit `"type"`. Registry names are not checked for uniqueness, although the comment at poly.go:12 asks for unique names, so a later entry with the same name is never reached. A failed pointer patch keeps the fields already written; nothing is rolled back.
- TypeLists.Types: in Go the `Rest` of a `TypeList` may be any `Types`, such as `TypeList[A, Types2[B, C]]`, which yields A, B, C. The model's `TypeList` only ends in `TypeListLast`; a tail that is a fixed-arity list is not modelled.
- PolyProperties.MarshalPutsTypeFirst: it says the discriminator comes first, not that it comes only once. A variant that declares its own `"type"` field has it written a second time.
- Concurrency is not modelled: `Poly` has no synchronisation, and the model is sequential.

/**
  The part of Go's `encoding/json` that the polymorphic container relies on,
  restricted to what the variants use: flat JSON objects whose struct fields
  are `omitempty` strings.

  A struct value is its `Fields`: JSON field name to value, where a missing
  key stands for the empty string (an `omitempty` field that is empty is
  neither written nor distinguishable from an absent one). A struct type is
  described by its `schema`, the JSON names of its fields in declaration
  order.
*/
module JsonCodec {

  type Fields = map<string, string>

  /** A member value as it appears in a document. `JOther` is any JSON value
      that is neither a string nor `null` (number, boolean, array, object),
      kept as its raw text. */
  datatype JValue = JString(s: string) | JNullValue | JOther(raw: string)

  datatype Member = Member(key: string, value: JValue)

  /** A document handed to a decoder: the literal `null`, an object with its
      members in document order, or anything else (another JSON value, or text
      that is not JSON at all). */
  datatype Json = JNull | JObject(members: seq<Member>) | JNotObject(raw: string)

  /** What decoding into a struct yields: the struct's new fields, and whether
      the decoder reported no error. */
  datatype Decoded = Decoded(fields: Fields, ok: bool)

  /** Keys of the schema that some member assigns a string to. */
  function Touched(ms: seq<Member>, schema: seq<string>): (t: set<string>)
    ensures forall k :: k in t ==> k in schema
  {
    if ms == [] then {}
    else TouchedBy(ms[0], schema) + Touched(ms[1..], schema)
  }

  /** Decoding one member into a struct: a string sets the field (the empty
      string empties it), `null` leaves it alone, any other value is a type
      error that skips the field, and a key the struct does not declare is
      ignored. */
  function DecodeMember(base: Fields, m: Member, schema: seq<string>): Decoded
  {
    if m.key !in schema then Decoded(base, true)
    else match m.value
      case JString(s) => Decoded(if s == "" then base - {m.key} else base[m.key := s], true)
      case JNullValue => Decoded(base, true)
      case JOther(_) => Decoded(base, false)
  }

  /** Decoding an object's members, in document order, into a struct that
      already holds `base`; like Go's decoder, a type error does not stop the
      remaining members from being decoded. */
  function DecodeMembers(base: Fields, ms: seq<Member>, schema: seq<string>): (r: Decoded)
    decreases |ms|
    ensures r.ok <==> forall i :: 0 <= i < |ms| && ms[i].key in schema ==> !ms[i].value.JOther?
    ensures forall k :: k !in schema ==> (k in r.fields <==> k in base) && (k in base ==> r.fields[k] == base[k])
  {
    if ms == [] then Decoded(base, true)
    else
      var first := DecodeMember(base, ms[0], schema);
      var rest := DecodeMembers(first.fields, ms[1..], schema);
      assert forall i :: 1 <= i < |ms| ==> ms[i] == ms[1..][i - 1];
      Decoded(rest.fields, first.ok && rest.ok)
  }

  /** `json.Unmarshal` of a document into a struct holding `base`: `null` is a
      no-op, a document that is not an object fails before anything is
      written, and an object is decoded member by member. */
  function Decode(base: Fields, j: Json, schema: seq<string>): Decoded
  {
    match j
    case JNull => Decoded(base, true)
    case JObject(ms) => DecodeMembers(base, ms, schema)
    case JNotObject(_) => Decoded(base, false)
  }

  /** A string `json.Marshal` writes between quotes as it is: it holds no
      quote, backslash or control character, which would be escaped, and none
      of `<`, `>`, `&`, U+2028 and U+2029, which `json.Marshal` writes as
      `\u003c`-style escapes. */
  predicate Plain(s: string)
  {
    forall i :: 0 <= i < |s| ==> ' ' <= s[i] && s[i] !in "\"\\<>&\U{2028}\U{2029}"
  }

  /** A field map that an encoded struct can hold: only declared keys, and no
      empty values (those are the absent ones). */
  ghost predicate Canonical(schema: seq<string>, f: Fields)
  {
    forall k :: k in f ==> k in schema && f[k] != ""
  }

  /** The members `json.Marshal` writes for a struct: its declared fields in
      declaration order, leaving out the empty ones. */
  function FieldMembers(schema: seq<string>, f: Fields): (ms: seq<Member>)
    ensures forall i :: 0 <= i < |ms| ==> ms[i].key in schema && ms[i].value.JString?
  {
    if schema == [] then []
    else
      var k := schema[0];
      var rest := FieldMembers(schema[1..], f);
      if k in f && f[k] != "" then [Member(k, JString(f[k]))] + rest else rest
  }

  function ValueText(v: JValue): string
  {
    match v
    case JString(s) => "\"" + s + "\""
    case JNullValue => "null"
    case JOther(raw) => raw
  }

  function MemberText(m: Member): (t: string)
    ensures |t| > 0 && t[0] == '"'
  {
    "\"" + m.key + "\":" + ValueText(m.value)
  }

  function MembersText(ms: seq<Member>): string
  {
    if ms == [] then ""
    else if |ms| == 1 then MemberText(ms[0])
    else MemberText(ms[0]) + "," + MembersText(ms[1..])
  }

  /** The compact text of an object. Keys and strings are written as they
      are: this is the text `json.Marshal` writes only when they are `Plain`. */
  function ObjectText(ms: seq<Member>): (t: string)
    ensures |t| >= 2 && t[0] == '{' && t[|t| - 1] == '}'
    ensures t == "{}" <==> ms == []
  {
    var inner := MembersText(ms);
    assert ms != [] ==> inner[0] == '"';
    "{" + inner + "}"
  }

  /** `json.Marshal` of a struct. */
  function Encode(schema: seq<string>, f: Fields): string
  {
    ObjectText(FieldMembers(schema, f))
  }

  function Restrict(f: Fields, s: seq<string>): Fields
  {
    map k | k in f && k in s && f[k] != "" :: f[k]
  }

  /** The keys one member assigns a string to. */
  function TouchedBy(m: Member, schema: seq<string>): set<string>
  {
    if m.key in schema && m.value.JString? then {m.key} else {}
  }

  /** One member decoded onto `base` overrides exactly the key it assigns. */
  lemma DecodeMemberIsOverride(base: Fields, m: Member, schema: seq<string>)
    ensures DecodeMember(base, m, schema).fields
         == (base - TouchedBy(m, schema)) + DecodeMember(map[], m, schema).fields
    ensures DecodeMember(map[], m, schema).fields.Keys <= TouchedBy(m, schema)
    ensures DecodeMember(base, m, schema).ok == DecodeMember(map[], m, schema).ok
  {
  }

  lemma OverrideCompose(base: Fields, b1: Fields, e1: Fields, t0: set<string>, t: set<string>, tail: Fields)
    requires b1 == (base - t0) + e1 && e1.Keys <= t0
    ensures (b1 - t) + tail == (base - (t0 + t)) + ((e1 - t) + tail)
  {
    var lhs := (b1 - t) + tail;
    var rhs := (base - (t0 + t)) + ((e1 - t) + tail);
    assert lhs.Keys == rhs.Keys;
    forall k | k in lhs
      ensures lhs[k] == rhs[k]
    {
    }
  }

  /** Decoding a patch onto `base` is `base` with every key the patch assigns
      replaced by what decoding the patch alone yields: present fields
      overwrite, absent ones keep their values. */
  lemma {:induction false} DecodeIsOverride(base: Fields, ms: seq<Member>, schema: seq<string>)
    ensures DecodeMembers(base, ms, schema).fields
         == (base - Touched(ms, schema)) + DecodeMembers(map[], ms, schema).fields
    ensures DecodeMembers(base, ms, schema).ok == DecodeMembers(map[], ms, schema).ok
    decreases |ms|
  {
    if ms != [] {
      var m, rest := ms[0], ms[1..];
      var b1 := DecodeMember(base, m, schema).fields;
      var e1 := DecodeMember(map[], m, schema).fields;
      DecodeMemberIsOverride(base, m, schema);
      DecodeIsOverride(b1, rest, schema);
      DecodeIsOverride(e1, rest, schema);
      assert Touched(ms, schema) == TouchedBy(m, schema) + Touched(rest, schema);
      OverrideCompose(base, b1, e1, TouchedBy(m, schema), Touched(rest, schema),
                      DecodeMembers(map[], rest, schema).fields);
    }
  }

  /** Decoding two runs of members one after the other is decoding the first
      run and then the second onto its result; an error in either is kept. */
  lemma {:induction false} DecodeMembersAppend(base: Fields, a: seq<Member>, b: seq<Member>, schema: seq<string>)
    ensures var x := DecodeMembers(base, a, schema);
            var y := DecodeMembers(x.fields, b, schema);
            DecodeMembers(base, a + b, schema) == Decoded(y.fields, x.ok && y.ok)
    decreases |a|
  {
    if a != [] {
      var first := DecodeMember(base, a[0], schema);
      assert (a + b)[0] == a[0] && (a + b)[1..] == a[1..] + b;
      DecodeMembersAppend(first.fields, a[1..], b, schema);
    } else {
      assert a + b == b;
    }
  }

  /** The keys two runs of members assign are those each assigns. */
  lemma {:induction false} TouchedAppend(a: seq<Member>, b: seq<Member>, schema: seq<string>)
    ensures Touched(a + b, schema) == Touched(a, schema) + Touched(b, schema)
    decreases |a|
  {
    if a != [] {
      assert (a + b)[0] == a[0] && (a + b)[1..] == a[1..] + b;
      TouchedAppend(a[1..], b, schema);
    } else {
      assert a + b == b;
    }
  }

  /** A key that no member assigns a string to keeps its value, or its
      absence. */
  lemma {:induction false} DecodeKeepsUntouched(base: Fields, ms: seq<Member>, schema: seq<string>, k: string)
    requires k !in Touched(ms, schema)
    ensures var r := DecodeMembers(base, ms, schema).fields;
            (k in r <==> k in base) && (k in base ==> r[k] == base[k])
    decreases |ms|
  {
    if ms != [] {
      assert Touched(ms, schema) == TouchedBy(ms[0], schema) + Touched(ms[1..], schema);
      DecodeKeepsUntouched(DecodeMember(base, ms[0], schema).fields, ms[1..], schema, k);
    }
  }

  /** Members whose keys the struct does not declare change nothing. */
  lemma {:induction false} DecodeIgnoresUndeclared(base: Fields, ms: seq<Member>, schema: seq<string>)
    requires forall i :: 0 <= i < |ms| ==> ms[i].key !in schema
    ensures DecodeMembers(base, ms, schema) == Decoded(base, true)
    decreases |ms|
  {
    if ms != [] {
      DecodeIgnoresUndeclared(base, ms[1..], schema);
    }
  }

  lemma RestrictCons(base: Fields, s: seq<string>, f: Fields)
    requires s != []
    ensures s[0] in f && f[s[0]] != "" ==> base[s[0] := f[s[0]]] + Restrict(f, s[1..]) == base + Restrict(f, s)
    ensures !(s[0] in f && f[s[0]] != "") ==> Restrict(f, s[1..]) == Restrict(f, s)
  {
    var k := s[0];
    assert forall x :: x in s <==> x == k || x in s[1..];
    if k in f && f[k] != "" {
      var lhs := base[k := f[k]] + Restrict(f, s[1..]);
      var rhs := base + Restrict(f, s);
      assert lhs.Keys == rhs.Keys;
      forall x | x in lhs ensures lhs[x] == rhs[x] { }
    }
  }

  /** Decoding what the encoder wrote for the fields named in `s` sets exactly
      those fields, without error. */
  lemma {:induction false} DecodeFieldMembers(base: Fields, s: seq<string>, f: Fields, schema: seq<string>)
    requires forall k :: k in s ==> k in schema
    ensures DecodeMembers(base, FieldMembers(s, f), schema) == Decoded(base + Restrict(f, s), true)
    decreases |s|
  {
    if s != [] {
      var k := s[0];
      var rest := FieldMembers(s[1..], f);
      RestrictCons(base, s, f);
      assert forall x :: x in s[1..] ==> x in s;
      if k in f && f[k] != "" {
        var m := Member(k, JString(f[k]));
        var ms := [m] + rest;
        assert FieldMembers(s, f) == ms;
        assert ms[0] == m && ms[1..] == rest;
        DecodeFieldMembers(base[k := f[k]], s[1..], f, schema);
      } else {
        DecodeFieldMembers(base, s[1..], f, schema);
      }
    }
  }

  /** Round trip of the codec: decoding the encoding of a canonical struct
      into a zero struct gives that struct back. */
  lemma DecodeEncode(schema: seq<string>, f: Fields)
    requires Canonical(schema, f)
    ensures Decode(map[], JObject(FieldMembers(schema, f)), schema) == Decoded(f, true)
  {
    DecodeFieldMembers(map[], schema, f, schema);
    assert map[] + Restrict(f, schema) == f;
  }
}

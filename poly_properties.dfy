/**
  What MarshalJSON and UnmarshalJSON promise, stated over the specification
  functions of module Poly: the splice puts the discriminator first, encoding
  and decoding a registered variant round-trip, a type change decodes as if
  the container were empty, and a same-name decode is a merge-patch.
*/
module PolyProperties {
  import opened Wrappers
  import opened JsonCodec
  import opened Poly

  /** The discriminator member. */
  function TypeMember(name: string): Member
  {
    Member("type", JString(name))
  }

  /** No member of `ms` is the discriminator. */
  ghost predicate NoTypeMember(ms: seq<Member>)
  {
    forall i :: 0 <= i < |ms| ==> ms[i].key != "type"
  }

  /** The text of members with one more in front. */
  lemma MembersTextCons(m: Member, ms: seq<Member>)
    ensures MembersText([m] + ms) == if ms == [] then MemberText(m) else MemberText(m) + "," + MembersText(ms)
  {
    var all := [m] + ms;
    assert all[0] == m && all[1..] == ms;
  }

  /** The text of the discriminator member, and the prefix the splice writes. */
  lemma TypeMemberText(name: string)
    ensures MemberText(TypeMember(name)) == "\"type\":\"" + name + "\""
    ensures "{\"type\":\"" + name + "\"," == "{" + MemberText(TypeMember(name)) + ","
    ensures "{\"type\":\"" + name + "\"}" == "{" + MemberText(TypeMember(name)) + "}"
  {
  }

  /** The text of an object with one more member in front. */
  lemma ObjectTextCons(m: Member, ms: seq<Member>)
    ensures ObjectText([m] + ms)
         == if ms == [] then "{" + MemberText(m) + "}" else "{" + MemberText(m) + "," + MembersText(ms) + "}"
  {
    MembersTextCons(m, ms);
  }

  /** Splicing the name into an object's text gives the text of the object
      with the discriminator as its first member, in both branches. */
  lemma SpliceTypeFirst(name: string, ms: seq<Member>)
    ensures Splice(name, ObjectText(ms)) == ObjectText([TypeMember(name)] + ms)
  {
    ObjectTextCons(TypeMember(name), ms);
    if ms == [] {
      TypeMemberText(name);
      assert Splice(name, ObjectText(ms)) == "{\"type\":\"" + name + "\"}";
    } else {
      SpliceObject(name, ObjectText(ms), MembersText(ms));
    }
  }

  /** Splicing into the text of a non-empty object. */
  lemma SpliceObject(name: string, implData: string, inner: string)
    requires implData == "{" + inner + "}" && inner != ""
    ensures Splice(name, implData) == "{" + MemberText(TypeMember(name)) + "," + inner + "}"
  {
    assert |implData| > 2;
    assert implData[1..] == inner + "}";
    var prefix := "{\"type\":\"" + name + "\",";
    assert Splice(name, implData) == prefix + (inner + "}");
    TypeMemberText(name);
  }

  /** A successful MarshalJSON of a non-null value writes the value's own
      fields behind the discriminator, which comes first. It comes only once
      when the type declares no field called "type"; otherwise that field is
      written as well. */
  lemma MarshalPutsTypeFirst(types: seq<Type>, held: Held, referent: Fields)
    requires !held.IsNull() && Marshal(types, held, referent).Ok?
    ensures held.t.typeName.Some?
    ensures Marshal(types, held, referent).value
         == ObjectText([TypeMember(held.t.typeName.value)]
                       + FieldMembers(held.t.schema, if held.Val? then held.fields else referent))
  {
    SpliceTypeFirst(held.t.typeName.value,
                    FieldMembers(held.t.schema, if held.Val? then held.fields else referent));
  }

  /** Decoding an object that begins with the discriminator into a struct
      that does not declare "type" decodes the rest alone. */
  lemma DecodeSkipsTypeMember(base: Fields, name: string, ms: seq<Member>, schema: seq<string>)
    requires "type" !in schema
    ensures DecodeMembers(base, [TypeMember(name)] + ms, schema) == DecodeMembers(base, ms, schema)
  {
    var all := [TypeMember(name)] + ms;
    assert all[0] == TypeMember(name) && all[1..] == ms;
  }

  /** Without a "type" member the discriminator is the current name. */
  lemma DiscriminatorDefaultsToCurrent(typeName: string, ms: seq<Member>)
    requires NoTypeMember(ms)
    ensures ReadDiscriminator(typeName, JObject(ms))
         == if typeName == "" then Err(MissingDiscriminator) else Ok(typeName)
  {
    DecodeIgnoresUndeclared(if typeName == "" then map[] else map["type" := typeName], ms, ["type"]);
  }

  /** When no member assigns a string to "type" (it is absent, or `null`),
      the discriminator is the current name, unless a "type" member of
      another kind makes the decoder fail. */
  lemma DiscriminatorKept(typeName: string, ms: seq<Member>)
    requires "type" !in Touched(ms, ["type"])
    ensures ReadDiscriminator(typeName, JObject(ms))
         == if !DecodeMembers(map[], ms, ["type"]).ok then Err(BadDiscriminator)
            else if typeName == "" then Err(MissingDiscriminator)
            else Ok(typeName)
  {
    var base: Fields := if typeName == "" then map[] else map["type" := typeName];
    DecodeIsOverride(base, ms, ["type"]);
    DecodeKeepsUntouched(base, ms, ["type"], "type");
  }

  /** When some member assigns a string to "type", the current name plays no
      part: the discriminator is what the input alone gives. */
  lemma DiscriminatorOverride(typeName: string, ms: seq<Member>)
    requires "type" in Touched(ms, ["type"])
    ensures ReadDiscriminator(typeName, JObject(ms)) == ReadDiscriminator("", JObject(ms))
  {
    var base: Fields := if typeName == "" then map[] else map["type" := typeName];
    DecodeIsOverride(base, ms, ["type"]);
    DecodeIsOverride(map[], ms, ["type"]);
    assert base - Touched(ms, ["type"]) == map[];
  }

  /** The last "type" member holding a string decides the discriminator,
      wherever it stands, whatever is held; an empty one leaves it missing. */
  lemma LastTypeMemberWins(typeName: string, pre: seq<Member>, name: string, post: seq<Member>)
    requires DecodeMembers(map[], pre, ["type"]).ok && DecodeMembers(map[], post, ["type"]).ok
    requires "type" !in Touched(post, ["type"])
    ensures ReadDiscriminator(typeName, JObject(pre + [TypeMember(name)] + post))
         == if name == "" then Err(MissingDiscriminator) else Ok(name)
  {
    var ms := pre + [TypeMember(name)] + post;
    var x := DecodeMembers(map[], pre, ["type"]);
    var y := DecodeMember(x.fields, TypeMember(name), ["type"]);
    DecodeMembersAppend(map[], pre, [TypeMember(name)], ["type"]);
    DecodeMembersAppend(map[], pre + [TypeMember(name)], post, ["type"]);
    DecodeKeepsUntouched(y.fields, post, ["type"], "type");
    assert "type" in Touched(ms, ["type"]) by {
      TouchedAppend(pre + [TypeMember(name)], post, ["type"]);
      TouchedAppend(pre, [TypeMember(name)], ["type"]);
      assert Touched([TypeMember(name)], ["type"]) == {"type"};
    }
    DiscriminatorOverride(typeName, ms);
  }

  /** `{"url":"u","type":<name>}` over a held name: the "type" member need
      not come first to override it. */
  lemma TrailingTypeOverrides(typeName: string, name: string)
    requires name != ""
    ensures ReadDiscriminator(typeName, JObject([Member("url", JString("u")), TypeMember(name)])) == Ok(name)
  {
    var pre := [Member("url", JString("u"))];
    assert pre + [TypeMember(name)] + [] == [Member("url", JString("u")), TypeMember(name)];
    LastTypeMemberWins(typeName, pre, name, []);
  }

  /** `{"type":""}` empties the discriminator whatever is held. */
  lemma EmptyTypeIsMissing(typeName: string)
    ensures ReadDiscriminator(typeName, JObject([TypeMember("")])) == Err(MissingDiscriminator)
  {
    assert [] + [TypeMember("")] + [] == [TypeMember("")];
    LastTypeMemberWins(typeName, [], "", []);
  }

  /** `{"type":null}` keeps the held name. */
  lemma NullTypeKeepsName(typeName: string)
    ensures ReadDiscriminator(typeName, JObject([Member("type", JNullValue)]))
         == if typeName == "" then Err(MissingDiscriminator) else Ok(typeName)
  {
    var ms := [Member("type", JNullValue)];
    assert ms[1..] == [];
    DiscriminatorKept(typeName, ms);
  }

  /** A leading "type" member names the discriminator whatever is held. */
  lemma DiscriminatorFromInput(typeName: string, name: string, ms: seq<Member>)
    requires name != "" && NoTypeMember(ms)
    ensures ReadDiscriminator(typeName, JObject([TypeMember(name)] + ms)) == Ok(name)
  {
    var base: Fields := if typeName == "" then map[] else map["type" := typeName];
    var all := [TypeMember(name)] + ms;
    assert all[0] == TypeMember(name) && all[1..] == ms;
    DecodeIgnoresUndeclared(base["type" := name], ms, ["type"]);
  }

  /** Round trip, decoding half: decoding `{"type":"<name>", ...fields}` into
      a container that holds no value, or a value of another name, produces a
      new instance of the first type registered under that name holding
      exactly those fields. Escaping plays no part: the document is given as
      its members. */
  lemma RoundTripDecode(types: seq<Type>, iface: set<string>, held: Held, referent: Fields,
                        i: nat, fields: Fields)
    requires i < |types| && Lookup(types, types[i].name) == Some(i) && types[i].name != ""
    requires "type" !in types[i].reflectType.schema
    requires Canonical(types[i].reflectType.schema, fields)
    requires iface <= types[i].reflectType.methods
    requires CurrentName(held).Ok? && CurrentName(held).value != types[i].name
    ensures var t := types[i].reflectType;
            var ms := [TypeMember(types[i].name)] + FieldMembers(t.schema, fields);
            Resolve(types, iface, held, referent, JObject(ms)) == Replace(t, fields)
  {
    var name, t := types[i].name, types[i].reflectType;
    var fm := FieldMembers(t.schema, fields);
    var ms := [TypeMember(name)] + fm;
    forall j | 0 <= j < |fm| ensures fm[j].key != "type" {
      assert fm[j].key in t.schema;
    }
    DiscriminatorFromInput(CurrentName(held).value, name, fm);
    DecodeSkipsTypeMember(map[], name, fm, t.schema);
    DecodeEncode(t.schema, fields);
    assert Fresh(types[i], iface, JObject(ms)) == Replace(t, fields);
  }

  /** Round trip: the decoding half, and marshalling the new instance
      reproduces the text of the input. The text is the one `json.Marshal`
      writes when the field keys and values need no escapes. */
  lemma RoundTrip(types: seq<Type>, iface: set<string>, held: Held, referent: Fields,
                  i: nat, fields: Fields, c: Cell)
    requires i < |types| && Lookup(types, types[i].name) == Some(i) && types[i].name != ""
    requires types[i].reflectType.typeName == Some(types[i].name)
    requires "type" !in types[i].reflectType.schema
    requires Canonical(types[i].reflectType.schema, fields)
    requires forall j :: 0 <= j < |types[i].reflectType.schema| ==> Plain(types[i].reflectType.schema[j])
    requires forall k :: k in fields ==> Plain(fields[k])
    requires iface <= types[i].reflectType.methods
    requires CurrentName(held).Ok? && CurrentName(held).value != types[i].name
    ensures var t := types[i].reflectType;
            var ms := [TypeMember(types[i].name)] + FieldMembers(t.schema, fields);
            && Resolve(types, iface, held, referent, JObject(ms)) == Replace(t, fields)
            && Marshal(types, if t.pointer then Ptr(t, c) else Val(t, fields), fields) == Ok(ObjectText(ms))
  {
    RoundTripDecode(types, iface, held, referent, i, fields);
    SpliceTypeFirst(types[i].name, FieldMembers(types[i].reflectType.schema, fields));
  }

  /** A decode that names a type other than the held one behaves exactly as
      a decode into an empty container: nothing of the old value survives. */
  lemma TypeChangeIgnoresOldValue(types: seq<Type>, iface: set<string>, held: Held, referent: Fields,
                                  input: Json)
    requires CurrentName(held).Ok?
    requires var d := ReadDiscriminator(CurrentName(held).value, input);
             d.Ok? && d.value != CurrentName(held).value
    ensures Resolve(types, iface, held, referent, input) == Resolve(types, iface, Nil, map[], input)
  {
    var cur := CurrentName(held).value;
    var base: Fields := if cur == "" then map[] else map["type" := cur];
    assert input.JObject?;
    DecodeIsOverride(base, input.members, ["type"]);
    DecodeIsOverride(map[], input.members, ["type"]);
  }

  /** A decode whose discriminator equals the name of a value held by value:
      the decoded copy, i.e. the old fields overridden by the fields the input
      assigns, is stored back, and only when decoding succeeded. */
  lemma ValuePatchMerges(types: seq<Type>, iface: set<string>, held: Held, referent: Fields,
                         ms: seq<Member>)
    requires held.Val? && held.t.typeName.Some? && iface <= held.t.methods
    requires var n := held.t.typeName.value;
             && ReadDiscriminator(n, JObject(ms)) == Ok(n)
             && Lookup(types, n).Some? && types[Lookup(types, n).value].reflectType == held.t
    ensures var schema := held.t.schema;
            var alone := DecodeMembers(map[], ms, schema);
            Resolve(types, iface, held, referent, JObject(ms))
            == (if alone.ok then StoreBack((held.fields - Touched(ms, schema)) + alone.fields)
                else Keep(Some(CodecFailure(held.t))))
  {
    DecodeIsOverride(held.fields, ms, held.t.schema);
  }

  /** A decode whose discriminator equals the name of a value held through a
      non-nil pointer patches the pointed-to struct in place: the fields the
      input assigns are overwritten, the others kept, and they are written
      even when the decoder also reports an error. */
  lemma PointerPatchMerges(types: seq<Type>, iface: set<string>, held: Held, referent: Fields,
                           ms: seq<Member>)
    requires held.Ptr? && held.target != null && held.t.typeName.Some?
    requires var n := held.t.typeName.value;
             ReadDiscriminator(n, JObject(ms)) == Ok(n) && Lookup(types, n).Some?
    ensures var schema := held.t.schema;
            var alone := DecodeMembers(map[], ms, schema);
            var e := Resolve(types, iface, held, referent, JObject(ms));
            && e.PatchReferent?
            && e.fields == (referent - Touched(ms, schema)) + alone.fields
            && (e.err.None? <==> alone.ok)
  {
    DecodeIsOverride(referent, ms, held.t.schema);
  }

  /** A decode that carries no "type" member patches the held value rather
      than failing for want of a discriminator. */
  lemma PatchMayOmitType(types: seq<Type>, iface: set<string>, held: Held, referent: Fields,
                         ms: seq<Member>)
    requires held.Val? && held.t.typeName.Some? && held.t.typeName.value != ""
    requires iface <= held.t.methods && NoTypeMember(ms)
    requires var n := held.t.typeName.value;
             Lookup(types, n).Some? && types[Lookup(types, n).value].reflectType == held.t
    requires DecodeMembers(map[], ms, held.t.schema).ok
    ensures Resolve(types, iface, held, referent, JObject(ms))
         == StoreBack((held.fields - Touched(ms, held.t.schema)) + DecodeMembers(map[], ms, held.t.schema).fields)
  {
    DiscriminatorDefaultsToCurrent(held.t.typeName.value, ms);
    ValuePatchMerges(types, iface, held, referent, ms);
  }

  /** A decode that carries no "type" member patches the struct a non-nil
      pointer refers to, in place, rather than failing for want of a
      discriminator. */
  lemma PointerPatchMayOmitType(types: seq<Type>, iface: set<string>, held: Held, referent: Fields,
                                ms: seq<Member>)
    requires held.Ptr? && held.target != null && held.t.typeName.Some? && held.t.typeName.value != ""
    requires NoTypeMember(ms) && Lookup(types, held.t.typeName.value).Some?
    ensures var e := Resolve(types, iface, held, referent, JObject(ms));
            && e.PatchReferent?
            && e.fields == (referent - Touched(ms, held.t.schema)) + DecodeMembers(map[], ms, held.t.schema).fields
  {
    DiscriminatorDefaultsToCurrent(held.t.typeName.value, ms);
    PointerPatchMerges(types, iface, held, referent, ms);
  }
}

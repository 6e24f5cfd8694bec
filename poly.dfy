/**
  The polymorphic container of poly.go: `Poly` holds one value drawn from a
  closed, ordered registry of variant types and encodes it to, and decodes it
  from, a JSON object whose first member is the discriminator `"type"`.

  Reflection is replaced by a description of each Go type (`GoType`); a
  variant held by value is a datatype value, a variant held through a pointer
  is a `Cell` on the heap, so that aliasing of the referent is visible.
*/
module Poly {
  import opened Wrappers
  import opened JsonCodec

  /** A Go type as the container sees it through reflection. */
  datatype GoType = GoType(
    ident: string,            // the type's identity (package path and name)
    pointer: bool,            // a pointer to a struct, rather than the struct itself
    typeName: Option<string>, // what TypeName() returns, when the method set has TypeName
    methods: set<string>,     // the other methods of its method set
    schema: seq<string>)      // the JSON names of the struct's fields, in declaration order

  /** A registered variant: its discriminator and its type. */
  datatype Type = Type(name: string, reflectType: GoType)

  /** The descriptor of a type that satisfies the `TypeName` constraint: the
      name its zero value reports, and the type itself. */
  function NewType(t: GoType): (r: Type)
    requires t.typeName.Some?
  {
    Type(t.typeName.value, t)
  }

  /** The position of the first registered type called `name`. Nothing makes
      names unique: a later entry with the same name is never reached. */
  function Lookup(types: seq<Type>, name: string): (r: Option<nat>)
    ensures r.Some? ==> r.value < |types| && types[r.value].name == name
    ensures r.Some? ==> forall j :: 0 <= j < r.value ==> types[j].name != name
    ensures r.None? <==> forall j :: 0 <= j < |types| ==> types[j].name != name
  {
    if types == [] then None
    else if types[0].name == name then Some(0)
    else match Lookup(types[1..], name)
      case None => None
      case Some(i) => Some(i + 1)
  }

  /** The struct a pointer-held variant points to. */
  class Cell {
    var fields: Fields

    constructor (fields: Fields)
      ensures this.fields == fields
    {
      this.fields := fields;
    }
  }

  /** What the interface field `Value` holds: nothing (the nil interface), a
      struct by value, or a pointer to a struct (`null` being a typed nil
      pointer). */
  datatype Held = Nil | Val(t: GoType, fields: Fields) | Ptr(t: GoType, target: Cell?)
  {
    /** `json.Marshal` writes `null` for it. */
    predicate IsNull()
    {
      Nil? || (Ptr? && target == null)
    }

    /** The dynamic type agrees with the way the value is held. */
    predicate WellFormed()
    {
      (Val? ==> !t.pointer) && (Ptr? ==> t.pointer)
    }

    /** The dynamic type has every method of the interface `I`, whose method
        names are `iface`. */
    predicate Implements(iface: set<string>)
    {
      Nil? || iface <= t.methods
    }
  }

  datatype PolyError =
    | MissingTypeName              // the held value has no TypeName method
    | UnknownTypeName(name: string) // the name is not in the registry
    | BadDiscriminator             // the input's "type" could not be decoded
    | MissingDiscriminator         // neither the input nor the held value gives a name
    | CodecFailure(t: GoType)      // the decoder rejected the input for that type
    | NotImplemented(t: GoType)    // a decoded value of that type is not an I
    | AssignPanic(t: GoType)       // reflect's Set panics: the held value is not of that type

  /** `json.Marshal` of the held value; a pointer's referent holds `referent`. */
  function EncodeValue(held: Held, referent: Fields): (r: string)
    ensures r == "null" <==> held.IsNull()
    ensures |r| >= 2
  {
    match held
    case Nil => "null"
    case Val(t, fields) => Encode(t.schema, fields)
    case Ptr(t, target) => if target == null then "null" else Encode(t.schema, referent)
  }

  /** Puts the discriminator in front of the value's own object text. */
  function Splice(name: string, implData: string): string
    requires implData != ""
  {
    if implData == "{}" then "{\"type\":\"" + name + "\"}"
    else "{\"type\":\"" + name + "\"," + implData[1..]
  }

  /** What MarshalJSON returns for the held value: `null` passes through with
      no further check; otherwise the value must report a registered name. */
  function Marshal(types: seq<Type>, held: Held, referent: Fields): (r: Result<string, PolyError>)
    ensures held.IsNull() ==> r == Ok("null")
    ensures !held.IsNull() ==>
              (r.Err? <==> held.t.typeName.None? || Lookup(types, held.t.typeName.value).None?)
    ensures r.Err? ==>
              && !held.IsNull()
              && r.error == (if held.t.typeName.None? then MissingTypeName
                             else UnknownTypeName(held.t.typeName.value))
  {
    var implData := EncodeValue(held, referent);
    if implData == "null" then Ok(implData)
    else if held.t.typeName.None? then Err(MissingTypeName)
    else
      var typeName := held.t.typeName.value;
      if Lookup(types, typeName).None? then Err(UnknownTypeName(typeName))
      else Ok(Splice(typeName, implData))
  }

  /** The name of the held value before decoding: empty when nothing is held. */
  function CurrentName(held: Held): Result<string, PolyError>
  {
    if held.Nil? then Ok("")
    else if held.t.typeName.Some? then Ok(held.t.typeName.value)
    else Err(MissingTypeName)
  }

  /** The discriminator of a decode: the current name, overridden by the
      input's "type" member; an empty result is missing. */
  function ReadDiscriminator(typeName: string, input: Json): (r: Result<string, PolyError>)
    ensures r.Ok? ==> r.value != ""
    ensures input.JNotObject? ==> r == Err(BadDiscriminator)
  {
    var d := Decode(if typeName == "" then map[] else map["type" := typeName], input, ["type"]);
    if !d.ok then Err(BadDiscriminator)
    else
      var name := if "type" in d.fields then d.fields["type"] else "";
      if name == "" then Err(MissingDiscriminator) else Ok(name)
  }

  /** What one UnmarshalJSON call does to the container. */
  datatype Effect =
    | Keep(err: Option<PolyError>)                        // Value and its referent untouched
    | Replace(rtype: GoType, fields: Fields)              // Value := a new instance of rtype
    | PatchReferent(fields: Fields, err: Option<PolyError>) // the pointed-to struct is rewritten in place
    | StoreBack(fields: Fields)                           // Value := the patched copy
  {
    function Error(): Option<PolyError>
    {
      match this
      case Keep(e) => e
      case PatchReferent(_, e) => e
      case _ => None
    }
  }

  /** A new instance of the matched type, decoded from the input alone. */
  function Fresh(typ: Type, iface: set<string>, input: Json): Effect
  {
    var rt := typ.reflectType;
    var d := Decode(map[], input, rt.schema);
    if !d.ok then Keep(Some(CodecFailure(rt)))
    else if !(iface <= rt.methods) then Keep(Some(NotImplemented(rt)))
    else Replace(rt, d.fields)
  }

  /** What decoding does once the discriminator has matched `typ`, the held
      value being called `typeName`: a fresh instance when that name is empty
      or another one, otherwise a patch of the held value. */
  function Decide(typ: Type, iface: set<string>, typeName: string, held: Held, referent: Fields, input: Json): (e: Effect)
    requires held.Nil? ==> typeName == ""
    ensures e.PatchReferent? ==> held.Ptr? && held.target != null && typeName == typ.name != ""
    ensures e.StoreBack? ==> held.Val? && held.t == typ.reflectType && typeName == typ.name != ""
    ensures e.Replace? ==> e.rtype == typ.reflectType && (typeName == "" || typeName != typ.name)
  {
    if typeName == "" || typeName != typ.name then Fresh(typ, iface, input)
    else match held
      case Ptr(t, target) =>
        if target == null then Keep(Some(CodecFailure(typ.reflectType)))
        else
          var d := Decode(referent, input, t.schema);
          PatchReferent(d.fields, if d.ok then None else Some(CodecFailure(typ.reflectType)))
      case Val(t, fields) =>
        if typ.reflectType != t then Keep(Some(AssignPanic(typ.reflectType)))
        else
          var d := Decode(fields, input, t.schema);
          if !d.ok then Keep(Some(CodecFailure(typ.reflectType)))
          else if !(iface <= t.methods) then Keep(Some(NotImplemented(typ.reflectType)))
          else StoreBack(d.fields)
  }

  /** The effect of UnmarshalJSON on a container holding `held`, whose
      pointer (if any) refers to a struct holding `referent`. */
  function Resolve(types: seq<Type>, iface: set<string>, held: Held, referent: Fields, input: Json): (e: Effect)
    ensures input == JNull ==> e == Keep(None)
    ensures input != JNull && CurrentName(held).Err? ==> e == Keep(Some(MissingTypeName))
    ensures input != JNull && CurrentName(held).Ok? ==>
              var d := ReadDiscriminator(CurrentName(held).value, input);
              && (d.Err? ==> e == Keep(Some(d.error)))
              && (d.Ok? && Lookup(types, d.value).None? ==> e == Keep(Some(UnknownTypeName(d.value))))
  {
    if input == JNull then Keep(None)
    else match CurrentName(held)
      case Err(err) => Keep(Some(err))
      case Ok(typeName) =>
        match ReadDiscriminator(typeName, input)
        case Err(err) => Keep(Some(err))
        case Ok(name) =>
          match Lookup(types, name)
          case None => Keep(Some(UnknownTypeName(name)))
          case Some(i) => Decide(types[i], iface, typeName, held, referent, input)
  }

  /** `Poly[I, T]`: `types` is `T.Types()`, `iface` the methods of `I`. */
  class Poly {
    const types: seq<Type>
    const iface: set<string>
    var value: Held

    /** Go's typing: `Value` is an `I`. */
    ghost predicate Valid()
      reads this
    {
      value.WellFormed() && value.Implements(iface)
    }

    constructor (types: seq<Type>, iface: set<string>, value: Held)
      requires value.WellFormed() && value.Implements(iface)
      ensures Valid()
      ensures this.types == types && this.iface == iface && this.value == value
    {
      this.types := types;
      this.iface := iface;
      this.value := value;
    }

    /** The struct `Value` points to, if it is a non-nil pointer. */
    function Referents(): set<object>
      reads this
    {
      if value.Ptr? && value.target != null then {value.target} else {}
    }

    function ReferentFields(): Fields
      reads this, Referents()
    {
      if value.Ptr? && value.target != null then value.target.fields else map[]
    }

    method MarshalJSON() returns (r: Result<string, PolyError>)
      ensures r == Marshal(types, value, ReferentFields())
    {
      var implData := EncodeValue(value, ReferentFields());
      if implData == "null" {
        return Ok(implData);
      }
      if value.t.typeName.None? {
        return Err(MissingTypeName);
      }
      var typeName := value.t.typeName.value;
      var found := false;
      var i := 0;
      while i < |types|
        invariant 0 <= i <= |types|
        invariant forall j :: 0 <= j < i ==> types[j].name != typeName
      {
        if typeName == types[i].name {
          found := true;
          break;
        }
        i := i + 1;
      }
      if !found {
        return Err(UnknownTypeName(typeName));
      }
      if implData == "{}" {
        return Ok("{\"type\":\"" + typeName + "\"}");
      }
      return Ok("{\"type\":\"" + typeName + "\"," + implData[1..]);
    }

    method UnmarshalJSON(b: Json) returns (err: Option<PolyError>)
      requires Valid()
      modifies this, Referents()
      ensures Valid()
      ensures var e := Resolve(types, iface, old(value), old(ReferentFields()), b);
        && err == e.Error()
        && (e.Keep? ==> value == old(value) && unchanged(old(Referents())))
        && (e.Replace? ==>
              unchanged(old(Referents())) &&
              if e.rtype.pointer
              then value.Ptr? && value.t == e.rtype && value.target != null
                   && fresh(value.target) && value.target.fields == e.fields
              else value == Val(e.rtype, e.fields))
        && (e.PatchReferent? ==>
              value == old(value) && value.Ptr? && value.target != null && value.target.fields == e.fields)
        && (e.StoreBack? ==>
              old(value).Val? && value == Val(old(value).t, e.fields) && unchanged(old(Referents())))
    {
      if b == JNull {
        return None;
      }
      var typeName := "";
      if !value.Nil? {
        if value.t.typeName.None? {
          return Some(MissingTypeName);
        }
        typeName := value.t.typeName.value;
      }
      var disc := ReadDiscriminator(typeName, b);
      if disc.Err? {
        return Some(disc.error);
      }
      var name := disc.value;
      for i := 0 to |types|
        invariant forall j :: 0 <= j < i ==> types[j].name != name
      {
        if types[i].name == name {
          assert Lookup(types, name) == Some(i);
          err := DecodeAs(types[i], typeName, b);
          return;
        }
      }
      return Some(UnknownTypeName(name));
    }

    /** The body of the search loop for the registered type that matched. */
    method DecodeAs(typ: Type, typeName: string, b: Json) returns (err: Option<PolyError>)
      requires Valid() && (value.Nil? ==> typeName == "")
      modifies this, Referents()
      ensures Valid()
      ensures var e := Decide(typ, iface, typeName, old(value), old(ReferentFields()), b);
        && err == e.Error()
        && (e.Keep? ==> value == old(value) && unchanged(old(Referents())))
        && (e.Replace? ==>
              unchanged(old(Referents())) &&
              if e.rtype.pointer
              then value.Ptr? && value.t == e.rtype && value.target != null
                   && fresh(value.target) && value.target.fields == e.fields
              else value == Val(e.rtype, e.fields))
        && (e.PatchReferent? ==>
              value == old(value) && value.Ptr? && value.target != null && value.target.fields == e.fields)
        && (e.StoreBack? ==>
              old(value).Val? && value == Val(old(value).t, e.fields) && unchanged(old(Referents())))
    {
      if typeName == "" || typeName != typ.name {
        var rt := typ.reflectType;
        var d := Decode(map[], b, rt.schema);
        if !d.ok {
          return Some(CodecFailure(rt));
        }
        if !(iface <= rt.methods) {
          return Some(NotImplemented(rt));
        }
        if rt.pointer {
          var c := new Cell(d.fields);
          value := Ptr(rt, c);
        } else {
          value := Val(rt, d.fields);
        }
        return None;
      } else if value.Ptr? {
        // the struct is decoded in place, through the handle Value holds
        if value.target == null {
          return Some(CodecFailure(typ.reflectType));
        }
        var d := Decode(value.target.fields, b, value.t.schema);
        value.target.fields := d.fields;
        if !d.ok {
          return Some(CodecFailure(typ.reflectType));
        }
        return None;
      } else {
        // a copy is decoded and stored back only when decoding succeeds
        if typ.reflectType != value.t {
          return Some(AssignPanic(typ.reflectType));
        }
        var d := Decode(value.fields, b, value.t.schema);
        if !d.ok {
          return Some(CodecFailure(typ.reflectType));
        }
        if !(iface <= value.t.methods) {
          return Some(NotImplemented(typ.reflectType));
        }
        value := Val(value.t, d.fields);
        return None;
      }
    }
  }
}

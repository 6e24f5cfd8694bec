/**
  The registry builders of types.go. A registry is the ordered list of
  descriptors `T.Types()` returns; it is built either by a recursive
  type-level list (`TypeList[First, Rest]` ended by `TypeListLast`) or by one
  of the fixed-arity lists `Types1` ... `Types9`.
*/
module TypeLists {
  import opened JsonCodec
  import opened Poly

  /** `TypeList[First, Rest]`, ended by `TypeListLast`. */
  datatype TypeList = TypeListLast | TypeList(first: GoType, rest: TypeList)

  /** The type arguments of a list, in declaration order. */
  function Args(l: TypeList): seq<GoType>
  {
    match l
    case TypeListLast => []
    case TypeList(first, rest) => [first] + Args(rest)
  }

  /** Every type argument satisfies the `TypeName` constraint. */
  predicate Named(ts: seq<GoType>)
  {
    forall i :: 0 <= i < |ts| ==> ts[i].typeName.Some?
  }

  /** `Types()` of a type-level list: the descriptors of its type arguments,
      in declaration order (none for `TypeListLast`). */
  function Types(l: TypeList): (r: seq<Type>)
    requires Named(Args(l))
    ensures |r| == |Args(l)|
    ensures forall i :: 0 <= i < |r| ==>
              r[i].name == Args(l)[i].typeName.value && r[i].reflectType == Args(l)[i]
  {
    match l
    case TypeListLast => []
    case TypeList(first, rest) =>
      assert Args(l)[0] == first && Args(rest) == Args(l)[1..];
      [NewType(first)] + Types(rest)
  }

  /** `Types()` of `Types1[T1]` ... `Types9[T1, ..., T9]`: one descriptor per
      type argument, in the order the arguments are written. */
  function TypesN(args: seq<GoType>): (r: seq<Type>)
    requires 1 <= |args| <= 9 && Named(args)
    ensures |r| == |args|
    ensures forall i :: 0 <= i < |r| ==> r[i].name == args[i].typeName.value && r[i].reflectType == args[i]
  {
    seq(|args|, i requires 0 <= i < |args| => NewType(args[i]))
  }

  /** A type-level list of one to nine type arguments builds the same
      registry as the fixed-arity list over the same arguments. */
  lemma TypeListIsTypesN(l: TypeList)
    requires 1 <= |Args(l)| <= 9 && Named(Args(l))
    ensures Types(l) == TypesN(Args(l))
  {
  }

  /** Every type a fixed-arity list names is found by the registry search at
      its own position or at an earlier one with the same name, so a value of
      that type marshals without error. */
  lemma RegistryAccepts(args: seq<GoType>, k: nat, held: Held, referent: Fields)
    requires 1 <= |args| <= 9 && Named(args) && k < |args|
    requires !held.IsNull() && held.t == args[k]
    ensures var n := args[k].typeName.value;
            Lookup(TypesN(args), n).Some? && Lookup(TypesN(args), n).value <= k
    ensures Marshal(TypesN(args), held, referent).Ok?
  {
    var types := TypesN(args);
    assert types[k].name == args[k].typeName.value;
  }

  /** The same for a type-level list. */
  lemma TypeListAccepts(l: TypeList, k: nat, held: Held, referent: Fields)
    requires Named(Args(l)) && k < |Args(l)|
    requires !held.IsNull() && held.t == Args(l)[k]
    ensures var n := Args(l)[k].typeName.value;
            Lookup(Types(l), n).Some? && Lookup(Types(l), n).value <= k
    ensures Marshal(Types(l), held, referent).Ok?
  {
    var types := Types(l);
    assert types[k].name == Args(l)[k].typeName.value;
  }
}

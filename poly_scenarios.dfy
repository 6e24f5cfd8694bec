/**
  The container used as the repository's examples use it: a registry built
  with `Types2`, values decoded, patched and encoded in turn, and a pointer
  shared by two containers.
*/
module PolyScenarios {
  import opened Wrappers
  import opened JsonCodec
  import opened Poly
  import opened TypeLists
  import opened PolyProperties

  /** `ActionDismiss`, a struct with no fields, held by value. */
  const Dismiss := GoType("poly_test.ActionDismiss", false, Some("dismiss"), {"IsAction"}, [])

  /** `ActionDeepLink`, a struct with one field `url`, held by value. The Go
      field is not `omitempty`; the scenario below only gives it non-empty
      values, for which the two agree. */
  const DeepLink := GoType("poly_test.ActionDeepLink", false, Some("deep-link"), {"IsAction"}, ["url"])

  /** `Types2[ActionDismiss, ActionDeepLink]` */
  const Actions := [Type("dismiss", Dismiss), Type("deep-link", DeepLink)]

  /** `Types()` of `Types2[ActionDismiss, ActionDeepLink]`. */
  lemma ActionsRegistry()
    ensures TypesN([Dismiss, DeepLink]) == Actions
  {
  }

  /** `{"type":"dismiss"}` into an empty container creates a dismiss action. */
  lemma CreateDismiss()
    ensures Resolve(Actions, {"IsAction"}, Nil, map[], JObject([Member("type", JString("dismiss"))]))
         == Replace(Dismiss, map[])
  {
    assert ReadDiscriminator("", JObject([Member("type", JString("dismiss"))])) == Ok("dismiss");
    assert Lookup(Actions, "dismiss") == Some(0);
  }

  /** A different discriminator replaces the dismiss action by a deep link. */
  lemma ReplaceByDeepLink(url: string)
    requires url != ""
    ensures Resolve(Actions, {"IsAction"}, Val(Dismiss, map[]), map[],
                    JObject([Member("type", JString("deep-link")), Member("url", JString(url))]))
         == Replace(DeepLink, map["url" := url])
  {
    var rest := [Member("url", JString(url))];
    DiscriminatorFromInput("dismiss", "deep-link", rest);
    DecodeSkipsTypeMember(map[], "deep-link", rest, ["url"]);
    assert Lookup(Actions, "deep-link") == Some(1);
  }

  /** A patch without discriminator overwrites the deep link's url. */
  lemma PatchDeepLink(url: string, url2: string)
    requires url != "" && url2 != ""
    ensures Resolve(Actions, {"IsAction"}, Val(DeepLink, map["url" := url]), map[],
                    JObject([Member("url", JString(url2))]))
         == StoreBack(map["url" := url2])
  {
    assert Lookup(Actions, "deep-link") == Some(1);
    PatchMayOmitType(Actions, {"IsAction"}, Val(DeepLink, map["url" := url]), map[], [Member("url", JString(url2))]);
  }

  /** The dismiss action is written as `{"type":"dismiss"}`. */
  lemma DismissText()
    ensures Marshal(Actions, Val(Dismiss, map[]), map[]) == Ok("{\"type\":\"dismiss\"}")
  {
    assert Lookup(Actions, "dismiss") == Some(0);
    assert EncodeValue(Val(Dismiss, map[]), map[]) == "{}";
    assert Splice("dismiss", "{}") == "{\"type\":\"dismiss\"}";
  }

  /** The deep link is written as `{"type":"deep-link","url":<url>}`. */
  lemma DeepLinkText(url: string)
    requires url != "" && Plain(url)
    ensures Marshal(Actions, Val(DeepLink, map["url" := url]), map[])
         == Ok(ObjectText([TypeMember("deep-link"), Member("url", JString(url))]))
  {
    var held := Val(DeepLink, map["url" := url]);
    assert Lookup(Actions, "deep-link").Some?;
    MarshalPutsTypeFirst(Actions, held, map[]);
    var ms := [TypeMember("deep-link"), Member("url", JString(url))];
    assert FieldMembers(["url"], map["url" := url]) == ms[1..];
    assert ms == [TypeMember("deep-link")] + ms[1..];
  }

  /** The urls of the example are written without escapes. */
  lemma ExampleUrlsPlain()
    ensures Plain("url") && Plain("url-2")
  {
  }

  /** Create a dismiss action, replace it by a deep link, then patch the
      deep link's url without repeating its discriminator. Each decode
      succeeds, as the example demands. */
  method ActionExample() returns (first: Result<string, PolyError>, second: Result<string, PolyError>,
                                  third: Result<string, PolyError>,
                                  err1: Option<PolyError>, err2: Option<PolyError>, err3: Option<PolyError>)
    ensures err1 == None && err2 == None && err3 == None
    ensures first == Ok("{\"type\":\"dismiss\"}")
    ensures second == Ok(ObjectText([TypeMember("deep-link"), Member("url", JString("url"))]))
    ensures third == Ok(ObjectText([TypeMember("deep-link"), Member("url", JString("url-2"))]))
  {
    ActionsRegistry();
    var action := new Poly(TypesN([Dismiss, DeepLink]), {"IsAction"}, Nil);

    CreateDismiss();
    err1 := action.UnmarshalJSON(JObject([Member("type", JString("dismiss"))]));
    DismissText();
    first := action.MarshalJSON();

    var url, url2 := "url", "url-2";
    ExampleUrlsPlain();
    ReplaceByDeepLink(url);
    err2 := action.UnmarshalJSON(JObject([Member("type", JString("deep-link")), Member("url", JString(url))]));
    DeepLinkText(url);
    second := action.MarshalJSON();

    PatchDeepLink(url, url2);
    err3 := action.UnmarshalJSON(JObject([Member("url", JString(url2))]));
    DeepLinkText(url2);
    third := action.MarshalJSON();
  }

  /** `*ItemPointer1`, a pointer to a struct with no fields. */
  const ItemPointer1 := GoType("*poly_test.ItemPointer1", true, Some("item-pointer-1"), {"IsItemPointer"}, [])

  /** `*ItemPointer2`, a pointer to a struct with fields `key` and `key2`. */
  const ItemPointer2 := GoType("*poly_test.ItemPointer2", true, Some("item-pointer-2"), {"IsItemPointer"}, ["key", "key2"])

  /** `Types2[*ItemPointer1, *ItemPointer2]` */
  const Items := [Type("item-pointer-1", ItemPointer1), Type("item-pointer-2", ItemPointer2)]

  /** `{"type":"item-pointer-2","key":<key>}` into an empty container
      allocates a new struct holding that key. */
  lemma CreateItem(key: string)
    requires key != ""
    ensures Resolve(Items, {"IsItemPointer"}, Nil, map[],
                    JObject([TypeMember("item-pointer-2"), Member("key", JString(key))]))
         == Replace(ItemPointer2, map["key" := key])
  {
    var rest := [Member("key", JString(key))];
    DiscriminatorFromInput("", "item-pointer-2", rest);
    DecodeSkipsTypeMember(map[], "item-pointer-2", rest, ["key", "key2"]);
    assert Lookup(Items, "item-pointer-2") == Some(1);
  }

  /** `{"key":<key>}` patches the struct the container points to. */
  lemma PatchItem(c: Cell, old_key: string, key: string)
    requires key != ""
    ensures Resolve(Items, {"IsItemPointer"}, Ptr(ItemPointer2, c), map["key" := old_key],
                    JObject([Member("key", JString(key))]))
         == PatchReferent(map["key" := key], None)
  {
    var ms := [Member("key", JString(key))];
    DiscriminatorDefaultsToCurrent("item-pointer-2", ms);
    assert Lookup(Items, "item-pointer-2") == Some(1);
    assert ms[1..] == [];
    assert DecodeMembers(map["key" := old_key], ms, ["key", "key2"]) == Decoded(map["key" := key], true);
  }

  /** `{"type":"item-pointer-1"}` replaces the pointer by a new one. */
  lemma ChangeItem(c: Cell, fields: Fields)
    ensures Resolve(Items, {"IsItemPointer"}, Ptr(ItemPointer2, c), fields,
                    JObject([TypeMember("item-pointer-1")]))
         == Replace(ItemPointer1, map[])
  {
    DiscriminatorFromInput("item-pointer-2", "item-pointer-1", []);
    assert Lookup(Items, "item-pointer-1") == Some(0);
  }

  /** A pointer to a struct holding `key` is written as
      `{"type":"item-pointer-2","key":<key>}`. */
  lemma ItemText(c: Cell, key: string)
    requires key != "" && Plain(key)
    ensures Marshal(Items, Ptr(ItemPointer2, c), map["key" := key])
         == Ok(ObjectText([TypeMember("item-pointer-2"), Member("key", JString(key))]))
  {
    var held := Ptr(ItemPointer2, c);
    assert Lookup(Items, "item-pointer-2").Some?;
    MarshalPutsTypeFirst(Items, held, map["key" := key]);
    var ms := [TypeMember("item-pointer-2"), Member("key", JString(key))];
    var schema := ["key", "key2"];
    assert schema[1..] == ["key2"] && ["key2"][1..] == [];
    assert FieldMembers(["key2"], map["key" := key]) == [];
    assert FieldMembers(schema, map["key" := key]) == ms[1..];
    assert ms == [TypeMember("item-pointer-2")] + ms[1..];
  }

  /** Decodes `{"type":"item-pointer-2","key":"k"}` into a new container
      and makes a second container holding the same pointer. */
  method ShareItem() returns (item: Poly, alias: Poly, err: Option<PolyError>)
    ensures err == None
    ensures fresh(item) && fresh(alias) && item != alias
    ensures item.Valid() && item.types == Items && item.iface == {"IsItemPointer"}
    ensures item.value.Ptr? && item.value.t == ItemPointer2 && item.value.target != null
    ensures fresh(item.value.target) && item.value.target.fields == map["key" := "k"]
    ensures alias.value == item.value
  {
    item := new Poly(Items, {"IsItemPointer"}, Nil);
    CreateItem("k");
    err := item.UnmarshalJSON(JObject([TypeMember("item-pointer-2"), Member("key", JString("k"))]));
    alias := new Poly(Items, {"IsItemPointer"}, item.value);
  }

  /** Patches the struct a container points to with `{"key":"k2"}` and
      marshals the container. */
  method PatchShared(item: Poly) returns (patched: Result<string, PolyError>, err: Option<PolyError>)
    requires item.Valid() && item.types == Items && item.iface == {"IsItemPointer"}
    requires item.value.Ptr? && item.value.t == ItemPointer2 && item.value.target != null
    requires item.value.target.fields == map["key" := "k"]
    modifies item, item.value.target
    ensures item.Valid() && item.value == old(item.value)
    ensures item.value.target.fields == map["key" := "k2"]
    ensures err == None
    ensures patched == Ok(ObjectText([TypeMember("item-pointer-2"), Member("key", JString("k2"))]))
  {
    var shared := item.value.target;
    PatchItem(shared, "k", "k2");
    err := item.UnmarshalJSON(JObject([Member("key", JString("k2"))]));
    ItemText(shared, "k2");
    patched := item.MarshalJSON();
  }

  /** Two containers share one pointer. A same-name patch through the first
      is seen through the second; a later type change in the first allocates
      a new struct and leaves the shared one, and the second, as they were. */
  method SharedPointerExample() returns (item: Poly, alias: Poly, patched: Result<string, PolyError>,
                                          err1: Option<PolyError>, err2: Option<PolyError>, err3: Option<PolyError>)
    ensures err1 == None && err2 == None && err3 == None
    ensures patched == Ok(ObjectText([TypeMember("item-pointer-2"), Member("key", JString("k2"))]))
    ensures item.value.Ptr? && item.value.t == ItemPointer1
    ensures alias.value.Ptr? && alias.value.t == ItemPointer2 && alias.value.target != null
    ensures alias.value.target.fields == map["key" := "k2"]
    ensures item.value.target != alias.value.target
  {
    item, alias, err1 := ShareItem();
    var shared := item.value.target;

    patched, err2 := PatchShared(item);

    ChangeItem(shared, shared.fields);
    err3 := item.UnmarshalJSON(JObject([TypeMember("item-pointer-1")]));
  }
}

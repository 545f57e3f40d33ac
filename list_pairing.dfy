/**
 * How the two links the expansion makes from one GET "List" link come out of
 * the route builder: the Get route sits one `/{id}` segment below the List
 * route, carries the `id` parameter, and its response component is the one the
 * List response's array items refer to.
 */
module ListPairing {
  import opened Wrappers
  import opened Json
  import opened Strings
  import opened PathInfos
  import opened Links
  import opened Routes

  /** The placeholder contains no `/`. */
  lemma NoSlashInPlaceholder()
    ensures forall k :: 0 <= k < |IdentityPlaceholder| ==> IdentityPlaceholder[k] != '/'
  {
  }

  /**
   * An href without the placeholder is its own path key, and the Get link's
   * href (the List href plus `/` and the placeholder) has that path key plus
   * `/{id}`.
   */
  lemma {:induction false} GetPathKey(href: string)
    requires forall j: nat :: !OccursAt(href, IdentityPlaceholder, j)
    ensures PathKey(href) == href
    ensures PathKey(href + "/" + IdentityPlaceholder) == href + "/{id}"
  {
    var P := IdentityPlaceholder;
    var s := href + "/" + P;
    var n := |href|;
    NoSlashInPlaceholder();
    forall j: nat | j < n + 1
      ensures !OccursAt(s, P, j)
    {
      if j + |P| <= n {
        assert s[j..j + |P|] == href[j..j + |P|];
        assert !OccursAt(href, P, j);
      } else if j + |P| <= |s| {
        assert s[j..j + |P|][n - j] == s[n] == '/';
        assert P[n - j] != '/';
        assert s[j..j + |P|] != P;
      }
    }
    assert s[n + 1..n + 1 + |P|] == P;
    assert OccursAt(s, P, n + 1);
    assert s[..n + 1] == href + "/" && s[n + 1 + |P|..] == [];
  }

  /** The Get link's path key always contains `{id}`, whatever the List href holds. */
  lemma GetPathHasId(href: string)
    ensures Includes(PathKey(href + "/" + IdentityPlaceholder), "{id}")
  {
    var P := IdentityPlaceholder;
    var s := href + "/" + P;
    assert OccursAt(s, P, |href| + 1) by {
      assert s[|href| + 1..|href| + 1 + |P|] == P;
    }
    var k := IndexOf(s, P).value;
    var r := PathKey(s);
    assert r == s[..k] + "{id}" + s[k + |P|..];
    assert r[k..k + 4] == "{id}";
    assert OccursAt(r, "{id}", k);
  }

  /** The lowered method of a Get link. */
  lemma LowerGet()
    ensures ToLower("GET") == "get"
  {
  }

  /** "Get" has no spaces, so its Pascal form is itself. */
  lemma GetTitlePascal()
    ensures RemoveSpaces("Get") == "Get"
  {
    assert ' ' !in "Get";
  }

  /** In a prefix-free table, the Get link resolves to the List link's resource. */
  lemma GetLinkResolves(table: Table, item: Link)
    requires WellFormed(table)
    requires IsListLink(item) && MakeGet(item).Ok?
    requires GetPathInfo(table, item.href).Some?
    ensures GetPathInfo(table, MakeGet(item).value.href) == GetPathInfo(table, item.href)
  {
    var get := MakeGet(item).value;
    assert StartsWith(get.href, item.href);
    PrefixFreeExtend(table, item.href, get.href);
  }

  /**
   * For a GET "List" link whose href resolves in a prefix-free table, the Get
   * link resolves to the same resource; its operation is `get` + single + `Get`,
   * it carries the required `id` parameter, and its response component is
   * single + `Get` + `Response` holding the List target schema's items wrapped as an
   * object schema.
   */
  lemma {:induction false} GetRouteOfList(table: Table, item: Link)
    requires WellFormed(table)
    requires IsListLink(item) && MakeGet(item).Ok?
    requires GetPathInfo(table, item.href).Some?
    ensures var get, info := MakeGet(item).value, GetPathInfo(table, item.href).value;
      && BuildRoute(table, get).Ok?
      && var g := BuildRoute(table, get).value;
      && g.methodKey == "get"
      && g.operation.operationId == "get" + info.single + "Get"
      && g.operation.parameters == Some([IdParameter(info)])
      && g.component == Some((info.single + "Get" + "Response", ObjectOf(Member(item.targetSchema.value, "items"))))
  {
    var get, info := MakeGet(item).value, GetPathInfo(table, item.href).value;
    GetLinkResolves(table, item);
    var r := BuildRoute(table, get);
    assert r.Ok?;
    var g := r.value;
    LowerGet();
    assert g.methodKey == "get";
    GetTitlePascal();
    assert g.operation.operationId == "get" + info.single + "Get";
    GetPathHasId(item.href);
    assert g.operation.parameters == Some([IdParameter(info)]);
    assert Truthy(get.targetSchema);
  }

  /**
   * The List route of an href without the placeholder sits at that href, and
   * the Get route one `/{id}` segment below it.
   */
  lemma GetPathBelowList(table: Table, item: Link)
    requires IsListLink(item) && MakeGet(item).Ok?
    requires forall j: nat :: !OccursAt(item.href, IdentityPlaceholder, j)
    requires BuildRoute(table, MakeGet(item).value).Ok? && BuildRoute(table, ListCopy(item)).Ok?
    ensures BuildRoute(table, ListCopy(item)).value.pathKey == item.href
    ensures BuildRoute(table, MakeGet(item).value).value.pathKey == item.href + "/{id}"
  {
    GetPathKey(item.href);
  }

  /**
   * When the List target schema is an array, the List response component is
   * that array with its items replaced by a `$ref` to the paired Get route's
   * response component.
   */
  lemma {:induction false} ListItemsReferToGet(table: Table, item: Link)
    requires WellFormed(table)
    requires IsListLink(item) && MakeGet(item).Ok?
    requires GetPathInfo(table, item.href).Some?
    requires IsArraySchema(item.targetSchema.value)
    ensures var get := MakeGet(item).value;
      && BuildRoute(table, get).Ok? && BuildRoute(table, ListCopy(item)).Ok?
      && var g, l := BuildRoute(table, get).value, BuildRoute(table, ListCopy(item)).value;
      && g.component.Some? && l.component.Some?
      && l.component.value.1 == JObj(item.targetSchema.value.fields["items" := Ref(SchemaRef(g.component.value.0))])
  {
    GetRouteOfList(table, item);
    var info := GetPathInfo(table, item.href).value;
    var list := ListCopy(item);
    assert Truthy(list.targetSchema);
    GetTitlePascal();
    assert ResponseSchema(list, info) ==
      JObj(item.targetSchema.value.fields["items" := Ref(SchemaRef(info.single + "Get" + "Response"))]);
  }
}

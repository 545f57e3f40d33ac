/**
 * Link descriptors and the first two stages over them: flattening the
 * per-resource `x-links` lists and expanding every GET "List" link into a
 * synthetic "Get" link followed by a marked copy of the List link.
 */
module Links {
  import opened Wrappers
  import opened Json
  import opened Strings

  /**
   * One entry of a resource's `x-links` as the converter hands it over. Only
   * the fields the generator reads are kept; `None` is an absent field.
   */
  datatype Link = Link(
    title: string,
    httpMethod: string,
    href: string,
    description: Option<string>,
    access: Option<string>,
    schema: Option<Json>,
    targetSchema: Option<Json>,
    getRouteTitle: Option<string>)

  /** The ways the run aborts with a TypeError before anything is written. */
  datatype Error =
    | MissingLinks(resource: nat)           // a resource without `x-links`
    | ListWithoutDescription(href: string)  // `item.description.replace` on undefined
    | ListWithoutTargetSchema(href: string) // `item.targetSchema.items` on undefined or null
    | UnknownResource(href: string)         // `pathInfo.single` when no prefix matches

  /** The template token that stands for a resource's identity in an href. */
  const IdentityPlaceholder: string := "{definitions.identity.example}"

  /** Number of links over all resources. */
  function TotalLinks(resources: seq<Option<seq<Link>>>): nat
    requires forall k :: 0 <= k < |resources| ==> resources[k].Some?
  {
    if resources == [] then 0
    else TotalLinks(resources[..|resources| - 1]) + |resources[|resources| - 1].value|
  }

  /**
   * The `x-links` arrays of all resources concatenated in order. A resource
   * without `x-links` makes the run abort.
   */
  function Flatten(resources: seq<Option<seq<Link>>>): (r: Result<seq<Link>, Error>)
    ensures r.Ok? <==> forall k :: 0 <= k < |resources| ==> resources[k].Some?
    ensures r.Ok? ==> |r.value| == TotalLinks(resources)
    ensures r.Err? ==> r.error.MissingLinks? && r.error.resource < |resources|
                       && resources[r.error.resource].None?
  {
    if resources == [] then Ok([])
    else
      var init := resources[..|resources| - 1];
      match Flatten(init)
      case Err(e) => Err(e)
      case Ok(acc) =>
        match resources[|resources| - 1]
        case None => Err(MissingLinks(|resources| - 1))
        case Some(links) => Ok(acc + links)
  }

  /** Flattening two runs of resources is flattening each and concatenating. */
  lemma {:induction false} FlattenAppend(a: seq<Option<seq<Link>>>, b: seq<Option<seq<Link>>>)
    requires Flatten(a).Ok? && Flatten(b).Ok?
    ensures Flatten(a + b) == Ok(Flatten(a).value + Flatten(b).value)
  {
    if b == [] {
      assert a + b == a;
      assert Flatten(a).value + [] == Flatten(a).value;
    } else {
      var b' := b[..|b| - 1];
      assert (a + b)[..|a + b| - 1] == a + b';
      assert (a + b)[|a + b| - 1] == b[|b| - 1];
      assert Flatten(b').Ok?;
      FlattenAppend(a, b');
      var fa, fb', last := Flatten(a).value, Flatten(b').value, b[|b| - 1].value;
      assert Flatten(b) == Ok(fb' + last);
      assert Flatten(a + b) == Ok((fa + fb') + last);
      assert (fa + fb') + last == fa + (fb' + last);
    }
  }

  /**
   * Flattening keeps every resource's links in order: link `j` of resource `k`
   * lands right after the links of the resources before it.
   */
  lemma {:induction false} FlattenAt(resources: seq<Option<seq<Link>>>, k: int, j: int)
    requires Flatten(resources).Ok?
    requires 0 <= k < |resources| && 0 <= j < |resources[k].value|
    ensures forall i :: 0 <= i < k ==> resources[..k][i].Some?
    ensures TotalLinks(resources[..k]) + j < |Flatten(resources).value|
    ensures Flatten(resources).value[TotalLinks(resources[..k]) + j] == resources[k].value[j]
  {
    var init := resources[..|resources| - 1];
    var acc := Flatten(init).value;
    assert Flatten(resources).value == acc + resources[|resources| - 1].value;
    if k == |resources| - 1 {
      assert init == resources[..k];
    } else {
      assert init[..k] == resources[..k] && init[k] == resources[k];
      FlattenAt(init, k, j);
    }
  }

  /** The link the expansion acts on. */
  predicate IsListLink(link: Link) {
    link.title == "List" && link.httpMethod == "GET"
  }

  /**
   * The synthetic "Get" link derived from a List link: every other field of the
   * List link kept, title "Get", method "GET", the first "list of" removed from
   * the description and its last character dropped, the placeholder appended to
   * the href, and the array's item schema wrapped as an object schema.
   */
  function MakeGet(item: Link): (r: Result<Link, Error>)
    ensures r.Ok? <==> item.description.Some? && item.targetSchema.Some? && item.targetSchema.value != JNull
    ensures r.Ok? ==>
      && r.value.title == "Get" && r.value.httpMethod == "GET"
      && r.value.href == item.href + "/" + IdentityPlaceholder
      && r.value.description == Some(DropLast(ReplaceFirst(item.description.value, "list of", "")))
      && r.value.targetSchema == Some(ObjectOf(Member(item.targetSchema.value, "items")))
      && r.value.access == item.access && r.value.schema == item.schema
      && r.value.getRouteTitle == item.getRouteTitle
    ensures r.Err? ==> r.error == (if item.description.None? then ListWithoutDescription(item.href)
                                   else ListWithoutTargetSchema(item.href))
  {
    match item.description
    case None => Err(ListWithoutDescription(item.href))
    case Some(d) =>
      if item.targetSchema.None? || item.targetSchema.value == JNull then Err(ListWithoutTargetSchema(item.href))
      else
        Ok(item.(
          title := "Get",
          httpMethod := "GET",
          description := Some(DropLast(ReplaceFirst(d, "list of", ""))),
          href := item.href + "/" + IdentityPlaceholder,
          targetSchema := Some(ObjectOf(Member(item.targetSchema.value, "items")))))
  }

  /** The List link re-emitted with the marker naming its paired Get link. */
  function ListCopy(item: Link): (r: Link)
    ensures r.getRouteTitle == Some("Get")
    ensures r.(getRouteTitle := item.getRouteTitle) == item
    ensures IsListLink(r) == IsListLink(item)
  {
    item.(getRouteTitle := Some("Get"))
  }

  /** What one link of the input becomes. */
  function ExpandOne(item: Link): (r: Result<seq<Link>, Error>)
  {
    if IsListLink(item) then
      match MakeGet(item)
      case Err(e) => Err(e)
      case Ok(get) => Ok([get, ListCopy(item)])
    else Ok([item])
  }

  /** The expansion reduce: each link's expansion appended in input order. */
  function ExpandAll(links: seq<Link>): Result<seq<Link>, Error>
  {
    if links == [] then Ok([])
    else
      match ExpandAll(links[..|links| - 1])
      case Err(e) => Err(e)
      case Ok(acc) =>
        match ExpandOne(links[|links| - 1])
        case Err(e) => Err(e)
        case Ok(out) => Ok(acc + out)
  }

  /** Number of GET "List" links. */
  function CountList(links: seq<Link>): nat
  {
    if links == [] then 0
    else CountList(links[..|links| - 1]) + if IsListLink(links[|links| - 1]) then 1 else 0
  }

  /**
   * `paths.reduce(...)` at the expansion: a GET "List" link pushes its Get link
   * and then its marked copy, every other link is pushed unchanged.
   */
  method Expand(links: seq<Link>) returns (r: Result<seq<Link>, Error>)
    ensures r == ExpandAll(links)
  {
    var items: seq<Link> := [];
    var i := 0;
    while i < |links|
      invariant 0 <= i <= |links|
      invariant ExpandAll(links[..i]) == Ok(items)
    {
      var item := links[i];
      assert links[..i + 1][..i] == links[..i] && links[..i + 1][i] == item;
      if item.title == "List" && item.httpMethod == "GET" {
        var getItem := MakeGet(item);
        if getItem.Err? {
          assert ExpandAll(links[..i + 1]).Err?;
          ExpandErrExtends(links, i + 1);
          return Err(getItem.error);
        }
        var listItem := ListCopy(item);
        assert ExpandOne(item) == Ok([getItem.value, listItem]);
        assert items + [getItem.value] + [listItem] == items + [getItem.value, listItem];
        items := items + [getItem.value];
        items := items + [listItem];
      } else {
        assert ExpandOne(item) == Ok([item]);
        items := items + [item];
      }
      i := i + 1;
    }
    assert links[..i] == links;
    r := Ok(items);
  }

  /** Once a prefix of the links fails, the whole expansion fails the same way. */
  lemma {:induction false} ExpandErrExtends(links: seq<Link>, n: nat)
    requires n <= |links| && ExpandAll(links[..n]).Err?
    ensures ExpandAll(links) == ExpandAll(links[..n])
    decreases |links| - n
  {
    if n == |links| {
      assert links[..n] == links;
    } else {
      assert links[..n + 1][..n] == links[..n];
      ExpandErrExtends(links, n + 1);
    }
  }

  /** The expansion fails exactly when some List link lacks a description or a target schema. */
  lemma {:induction false} ExpandOk(links: seq<Link>)
    ensures ExpandAll(links).Ok? <==>
              forall i :: 0 <= i < |links| && IsListLink(links[i]) ==> MakeGet(links[i]).Ok?
  {
    if links != [] {
      var init := links[..|links| - 1];
      ExpandOk(init);
      assert forall i :: 0 <= i < |init| ==> init[i] == links[i];
    }
  }

  /** The output has one more element than the input for every GET "List" link. */
  lemma {:induction false} ExpandLength(links: seq<Link>)
    requires ExpandAll(links).Ok?
    ensures |ExpandAll(links).value| == |links| + CountList(links)
  {
    if links != [] {
      ExpandLength(links[..|links| - 1]);
    }
  }

  /** Expanding a concatenation is concatenating the expansions. */
  lemma {:induction false} ExpandAppend(a: seq<Link>, b: seq<Link>)
    requires ExpandAll(a + b).Ok?
    ensures ExpandAll(a).Ok? && ExpandAll(b).Ok?
    ensures ExpandAll(a + b).value == ExpandAll(a).value + ExpandAll(b).value
  {
    if b == [] {
      assert a + b == a;
    } else {
      var b', last := b[..|b| - 1], b[|b| - 1];
      assert (a + b)[..|a + b| - 1] == a + b';
      assert (a + b)[|a + b| - 1] == last;
      ExpandAppend(a, b');
      var ea, eb, one := ExpandAll(a).value, ExpandAll(b').value, ExpandOne(last).value;
      assert ExpandAll(a + b).value == (ea + eb) + one;
      assert ExpandAll(b).value == eb + one;
      assert (ea + eb) + one == ea + (eb + one);
    }
  }

  /**
   * Expansion keeps order: link `i` lands at position `i + CountList(links[..i])`,
   * as itself when it is not a GET "List" link, and otherwise as its Get link
   * immediately followed by its marked copy.
   */
  lemma ExpandAt(links: seq<Link>, i: int)
    requires ExpandAll(links).Ok?
    requires 0 <= i < |links|
    ensures var out, p := ExpandAll(links).value, i + CountList(links[..i]);
      if IsListLink(links[i]) then
        p + 1 < |out| && MakeGet(links[i]).Ok? && out[p] == MakeGet(links[i]).value && out[p + 1] == ListCopy(links[i])
      else
        p < |out| && out[p] == links[i]
  {
    var pre, rest := links[..i], links[i..];
    assert links == pre + rest;
    ExpandAppend(pre, rest);
    ExpandLength(pre);
    var one, post := rest[..1], rest[1..];
    assert rest == one + post;
    ExpandAppend(one, post);
    assert one == [] + [links[i]];
  }
}

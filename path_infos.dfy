/**
 * The resource table and its lookup: an href belongs to the resource whose
 * prefix it starts with, the first such prefix in declaration order winning.
 */
module PathInfos {
  import opened Wrappers
  import opened Strings

  /** Display names of one resource and the type of its `{id}` path parameter. */
  datatype PathInfo = PathInfo(single: string, plural: string, idType: Option<string>)

  /** An object literal keyed by href prefix, as a sequence of entries in declaration order. */
  type Table = seq<(string, PathInfo)>

  /** The generator's resource table. */
  const PathInfoTable: Table := [
    ("/tokens", PathInfo("Token", "Tokens", None)),
    ("/users", PathInfo("User", "Users", None)),
    ("/settings", PathInfo("Setting", "Settings", Some("string"))),
    ("/nginx/proxy-hosts", PathInfo("ProxyHost", "ProxyHosts", None)),
    ("/nginx/redirection-hosts", PathInfo("RedirectionHost", "RedirectionHosts", None)),
    ("/nginx/dead-hosts", PathInfo("DeadHost", "DeadHosts", None)),
    ("/nginx/streams", PathInfo("Stream", "Streams", None)),
    ("/nginx/certificates", PathInfo("Certificate", "Certificates", None)),
    ("/nginx/access-lists", PathInfo("AccessList", "AccessLists", None))
  ]

  /** Entry `i` of `table` is the first one whose key `href` starts with. */
  ghost predicate FirstMatchAt(table: Table, href: string, i: int) {
    && 0 <= i < |table|
    && StartsWith(href, table[i].0)
    && forall j :: 0 <= j < i ==> !StartsWith(href, table[j].0)
  }

  /**
   * `Object.keys(table).filter((key) => href.startsWith(key))`, with one
   * element per matching table entry: a repeated key, which `Object.keys`
   * lists once, appears once per entry. Only the first element is read, and
   * it is the same either way.
   */
  function MatchingKeys(table: Table, href: string): (r: seq<string>)
    ensures r == [] <==> forall j :: 0 <= j < |table| ==> !StartsWith(href, table[j].0)
    ensures forall i :: FirstMatchAt(table, href, i) ==> r != [] && r[0] == table[i].0
    ensures forall k :: k in r ==> StartsWith(href, k)
  {
    if table == [] then []
    else if StartsWith(href, table[0].0) then [table[0].0] + MatchingKeys(table[1..], href)
    else
      var rest := MatchingKeys(table[1..], href);
      assert forall i :: FirstMatchAt(table, href, i) ==> FirstMatchAt(table[1..], href, i - 1);
      rest
  }

  /**
   * `table[key]`: an object literal that repeats a key keeps the value of its
   * last entry, and a key it does not have reads as `undefined`.
   */
  function InfoOf(table: Table, key: string): (r: Option<PathInfo>)
    ensures r.None? <==> forall j :: 0 <= j < |table| ==> table[j].0 != key
    ensures forall i :: 0 <= i < |table| && table[i].0 == key && (forall j :: i < j < |table| ==> table[j].0 != key) ==>
              r == Some(table[i].1)
  {
    if table == [] then None
    else if table[|table| - 1].0 == key then Some(table[|table| - 1].1)
    else
      var init := table[..|table| - 1];
      assert forall j :: 0 <= j < |init| ==> init[j] == table[j];
      InfoOf(init, key)
  }

  /**
   * `getPathInfo(href)`: the info under the first key, in declaration order,
   * that `href` starts with. When no key matches, the lookup reads
   * `pathInfos[undefined]`, the entry under the key `"undefined"`, which is
   * `undefined` unless the table has such a key.
   */
  function GetPathInfo(table: Table, href: string): (r: Option<PathInfo>)
    ensures (forall j :: 0 <= j < |table| ==> !StartsWith(href, table[j].0)) ==> r == InfoOf(table, "undefined")
    ensures forall i :: FirstMatchAt(table, href, i) ==> r == InfoOf(table, table[i].0)
    ensures r.None? <==>
      && (forall j :: 0 <= j < |table| ==> !StartsWith(href, table[j].0))
      && (forall j :: 0 <= j < |table| ==> table[j].0 != "undefined")
  {
    var keys := MatchingKeys(table, href);
    if keys == [] then InfoOf(table, "undefined")
    else
      FirstMatchExists(table, href);
      InfoOf(table, keys[0])
  }

  /** Some entry is a prefix of `href`, so a first one is. */
  lemma {:induction false} FirstMatchExists(table: Table, href: string)
    requires exists j :: 0 <= j < |table| && StartsWith(href, table[j].0)
    ensures exists i :: FirstMatchAt(table, href, i)
  {
    if StartsWith(href, table[0].0) {
      assert FirstMatchAt(table, href, 0);
    } else {
      var j :| 0 <= j < |table| && StartsWith(href, table[j].0);
      assert StartsWith(href, table[1..][j - 1].0);
      FirstMatchExists(table[1..], href);
      var i :| FirstMatchAt(table[1..], href, i);
      assert FirstMatchAt(table, href, i + 1);
    }
  }

  /** No key of the table is a prefix of another one. */
  ghost predicate PrefixFree(table: Table) {
    forall i, j :: 0 <= i < |table| && 0 <= j < |table| && i != j ==> !StartsWith(table[j].0, table[i].0)
  }

  /**
   * A table whose keys are hrefs (they start with `/`, so none is the key
   * `"undefined"`) and none of which is a prefix of another.
   */
  ghost predicate WellFormed(table: Table) {
    && PrefixFree(table)
    && forall i :: 0 <= i < |table| ==> StartsWith(table[i].0, "/")
  }

  /** In a well-formed table, an href resolves exactly when some key is a prefix of it. */
  lemma WellFormedResolves(table: Table, href: string)
    requires WellFormed(table)
    ensures GetPathInfo(table, href).Some? <==> exists j :: 0 <= j < |table| && StartsWith(href, table[j].0)
  {
    forall j | 0 <= j < |table|
      ensures table[j].0 != "undefined"
    {
      assert table[j].0[0] == '/';
    }
  }

  /**
   * When no key is a prefix of another, declaration order does not matter:
   * an href that starts with a key resolves to that key's info.
   */
  lemma PrefixFreeLookup(table: Table, href: string, i: int)
    requires PrefixFree(table)
    requires 0 <= i < |table| && StartsWith(href, table[i].0)
    ensures GetPathInfo(table, href) == Some(table[i].1)
  {
    forall j | 0 <= j < i
      ensures !StartsWith(href, table[j].0)
    {
      if StartsWith(href, table[j].0) {
        PrefixesOfOneString(href, table[i].0, table[j].0);
      }
    }
    assert FirstMatchAt(table, href, i);
    forall j | i < j < |table|
      ensures table[j].0 != table[i].0
    {
      assert StartsWith(table[j].0, table[j].0);
    }
  }

  /** Two prefixes of one string are prefixes of each other. */
  lemma PrefixesOfOneString(s: string, a: string, b: string)
    requires StartsWith(s, a) && StartsWith(s, b)
    ensures StartsWith(a, b) || StartsWith(b, a)
  {
    if |a| <= |b| {
      assert a == b[..|a|];
    } else {
      assert b == a[..|b|];
    }
  }

  /** The generator's own table has no overlapping prefixes. */
  lemma PathInfoTablePrefixFree()
    ensures PrefixFree(PathInfoTable)
  {
    var t := PathInfoTable;
    forall i, j | 0 <= i < |t| && 0 <= j < |t| && i != j
      ensures !StartsWith(t[j].0, t[i].0)
    {
      var a, b := t[i].0, t[j].0;
      assert |a| > 1 && |b| > 1;
      if a[1] != b[1] {
        DifferentCharNotPrefix(b, a, 1);
      } else {
        assert |a| > 7 && |b| > 7 && a[7] != b[7];
        DifferentCharNotPrefix(b, a, 7);
      }
    }
  }

  /** The generator's own table is well formed. */
  lemma PathInfoTableWellFormed()
    ensures WellFormed(PathInfoTable)
  {
    PathInfoTablePrefixFree();
    var t := PathInfoTable;
    forall i | 0 <= i < |t|
      ensures StartsWith(t[i].0, "/")
    {
      assert t[i].0[0] == '/';
    }
  }

  /** A string is not a prefix of one that differs from it at some index. */
  lemma DifferentCharNotPrefix(s: string, p: string, k: nat)
    requires k < |s| && k < |p| && s[k] != p[k]
    ensures !StartsWith(s, p)
  {
  }

  /**
   * With a well-formed table, extending an href that already resolves does not
   * change the resource it resolves to.
   */
  lemma PrefixFreeExtend(table: Table, href: string, longer: string)
    requires WellFormed(table)
    requires GetPathInfo(table, href).Some?
    requires StartsWith(longer, href)
    ensures GetPathInfo(table, longer) == GetPathInfo(table, href)
  {
    WellFormedResolves(table, href);
    FirstMatchExists(table, href);
    var i :| FirstMatchAt(table, href, i);
    assert longer[..|table[i].0|] == href[..|table[i].0|];
    PrefixFreeLookup(table, longer, i);
  }

  /** Every resource of the generator's table has its own singular name. */
  lemma PathInfoTableSinglesDistinct()
    ensures forall i, j :: 0 <= i < j < |PathInfoTable| ==> PathInfoTable[i].1.single != PathInfoTable[j].1.single
  {
    var t := PathInfoTable;
    forall i, j | 0 <= i < j < |t|
      ensures t[i].1.single != t[j].1.single
    {
      var a, b := t[i].1.single, t[j].1.single;
      assert |a| > 1 && |b| > 1;
      assert a[0] != b[0] || a[1] != b[1];
    }
  }
}

# OpenAPI generator for the Nginx Proxy Manager API, modelled in Dafny

The generator reads a JSON Schema whose resources carry `x-links` descriptors.
It turns them into one OpenAPI 3.0.0 document. This project models the
transformation in the middle of that pipeline. It starts from the per-resource
`x-links` lists that the schema converter returns, and it ends with the
assembled document, before serialisation. It has five stages:

1. **Flatten** (`Links.Flatten`). The `x-links` lists of all resources are
   concatenated in resource order.
2. **Resolve** (`PathInfos.GetPathInfo`). An href belongs to the first entry of
   the resource table, in declaration order, whose key is a prefix of the href.
3. **Expand** (`Links.Expand`). Every `GET` link titled `List` becomes two links:
   a synthetic `Get` link, then a copy of the List link marked with
   `getRouteTitle = "Get"`.
4. **Build routes** (`Routes.BuildRoutes`). For each link, `Routes.BuildRoute`
   derives the path key, the operation id, the tags, the response and request
   body components, the `BearerAuth` requirement and the `id` path parameter.
   The loop then writes the operation into a path → method table, and the
   components into two name-keyed tables. A later write to the same key
   overwrites the earlier one.
5. **Assemble** (`Assembly.Generate`). The fixed health route `GET /` is added
   below the built paths, so a resource path `/` replaces it. The schema and
   request-body tables are re-emitted with their keys in strictly ascending
   order.

JSON values are the datatype `Json.Json`. Objects are maps, so the key order
inside a schema is not modelled. A JavaScript `undefined` is `Option.None`. Each
`TypeError` that aborts the run is an `Err` carrying a `Links.Error`:

- a resource without `x-links`;
- a `GET` List link without a description;
- a `GET` List link whose target schema is `undefined` or `null`;
- an href that matches no resource prefix.

The JavaScript string methods are modelled by what they do to a sequence of characters:

- `replace` with a string pattern changes only the first occurrence (`Strings.ReplaceFirst`);
- `replaceAll(" ", "")` removes every space (`Strings.RemoveSpaces`);
- `slice(0, -1)` drops the last character and leaves `""` unchanged (`Strings.DropLast`).

The resource table is an object literal: a repeated key keeps its last value,
and a lookup that matches no key reads `pathInfos[undefined]`, the entry under
the key `"undefined"` (index.js:46-50). Resource lookup takes the first
declared key that the href starts with (index.js:46-50).
`PathInfos.PathInfoTableWellFormed` shows that the shipped table has no key
that is a prefix of another and no key `"undefined"`, so at most one key
matches any href, and an href that matches none is reported as unknown.

The Get link's target schema wraps the whole item schema of the List link,
including its own `type` key (index.js:78-81).

## Model

| member | source | states |
|---|---|---|
| `Strings.StartsWith` | index.js:48 | `href.startsWith(key)` holds exactly when `key` occurs in `href` at index 0 |
| `Strings.IndexOf` | index.js:138-141 | returns the first index where the pattern occurs, and `None` exactly when it occurs nowhere |
| `Strings.Includes` | index.js:223 | `includes` holds exactly when the pattern occurs somewhere |
| `Strings.ReplaceFirst` | index.js:138-141 | returns the string unchanged when the pattern does not occur; otherwise replaces only the first occurrence and keeps everything before and after it |
| `Strings.RemoveSpaces` | index.js:52-54 | the result has no space, is shorter than the input by exactly its number of spaces, and equals the input when the input has no space |
| `Strings.RemoveSpacesAppend` | index.js:53 | removing spaces distributes over concatenation, so every space is removed wherever it is and all other characters stay in order |
| `Strings.DropLast` | index.js:76 | `slice(0, -1)` gives the input minus its last character, and `""` for `""` |
| `Strings.ToLower` | index.js:146 | same length, every character lowered, and no upper-case ASCII letter left |
| `Strings.LessIrreflexive` | index.js:286-287 | the sort order never puts a key before itself |
| `Strings.LessTransitive` | index.js:286-287 | the sort order is transitive |
| `Strings.LessTotal` | index.js:286-287 | any two distinct keys are ordered one way or the other |
| `Strings.LessAsymmetric` | index.js:286-287 | two keys are never ordered both ways |
| `PathInfos.MatchingKeys` | index.js:48 | the filtered keys are empty exactly when no key is a prefix of the href; otherwise the first one is the first matching key in declaration order; every listed key is a prefix |
| `PathInfos.InfoOf` | index.js:47 | `pathInfos[key]` is the info of the last entry with that key, as in an object literal that repeats a key, and `undefined` exactly when there is none |
| `PathInfos.GetPathInfo` | index.js:46-50 | returns the table's info under the first declared key that is a prefix of the href; when no key is a prefix, returns the entry under the key `"undefined"`; `undefined` exactly when no key is a prefix and the table has no key `"undefined"` |
| `PathInfos.WellFormedResolves` | index.js:46-50 | in a table whose keys start with `/` and are prefix-free, an href resolves exactly when some key is a prefix of it |
| `PathInfos.FirstMatchExists` | index.js:48 | if some key is a prefix of the href, a first such key exists |
| `PathInfos.PrefixFreeLookup` | index.js:46-50 | when no key is a prefix of another, an href that starts with a key resolves to that key's info, whatever the declaration order |
| `PathInfos.PathInfoTablePrefixFree` | index.js:6-44 | no key of the shipped table is a prefix of another key |
| `PathInfos.PrefixFreeExtend` | index.js:46-50 | with a well-formed table, extending an href that resolves does not change its resource |
| `PathInfos.PathInfoTableWellFormed` | index.js:6-44 | the shipped table's keys all start with `/` and none is a prefix of another |
| `PathInfos.PathInfoTableSinglesDistinct` | index.js:6-44 | every resource of the shipped table has its own singular name |
| `Links.Flatten` | index.js:64-69 | succeeds exactly when every resource has `x-links`; its length is the total number of links; a failure names a resource without links |
| `Links.FlattenAt` | index.js:64-69 | link `j` of resource `k` sits at position (links of the resources before `k`) + `j` of the flattened list |
| `Links.FlattenAppend` | index.js:64-69 | flattening two runs of resources concatenates their flattenings in order |
| `Links.MakeGet` | index.js:72-82 | the Get link has title `Get`, method `GET`, href + `/{definitions.identity.example}`, the description with its first `list of` removed and its last character dropped, and the items wrapped as an object schema; all other fields are kept; it fails exactly when the description or target schema is missing |
| `Links.ListCopy` | index.js:83-86 | the List copy has `getRouteTitle = "Get"` and equals the original in every other field |
| `Links.Expand` | index.js:70-93 | the push loop computes the expansion fold, including its first failure |
| `Links.ExpandErrExtends` | index.js:70-93 | once a prefix of the links fails, the whole expansion fails with the same error |
| `Links.ExpandOk` | index.js:71-81 | the expansion succeeds exactly when every GET List link has a description and a non-null target schema |
| `Links.ExpandLength` | index.js:70-93 | the output length is the input length plus the number of GET List links |
| `Links.ExpandAppend` | index.js:70-93 | expanding a concatenation concatenates the expansions |
| `Links.ExpandAt` | index.js:70-93 | link `i` lands at position `i + (GET List links before it)`; a non-List link appears there unchanged, and a GET List link appears as its Get link followed by its List copy |
| `Routes.BuildRoute` | index.js:137-235 | path key = href with its first placeholder replaced by `{id}`; operationId = lowercase method + single + title without spaces; tags = `[plural]`; a response component and a 200 `$ref` to it exactly when the target schema is truthy; a request body exactly for a truthy schema on a non-GET link; `[BearerAuth: ["users"]]` exactly for private links; the required `id` parameter, typed by `idType` or `integer`, exactly when the path key contains `{id}`; fails exactly when the resource lookup gives `undefined` |
| `Routes.ResponseSchema` | index.js:156-178 | a non-array target schema is stored unchanged; an array target schema keeps every key but `items`, and `items` becomes a `$ref` to the paired Get response when `getRouteTitle` is truthy and the items wrapped as `{type: "object", properties: items}` otherwise |
| `Routes.ComponentNamesDiffer` | index.js:157 | links of two resources with different singular names and the same title never store their response components under the same name |
| `Routes.Store` | index.js:237-238 | writes the operation at `[path][method]`, adds the path key, and leaves every other path/method entry as it was |
| `Routes.BuildRoutesSpec` | index.js:137-240 | for any reduce callback (`Routes.Builder(table)` is `BuildRoute` with the table fixed): one route per link, in order, each the callback's route for that link; succeeds exactly when the callback succeeds on every link |
| `Routes.BuildRoutesStep` | index.js:137-240 | one more reduce step appends the next link's route, or ends the run with that link's error |
| `Routes.BuildRoutes` | index.js:137-240 | the reduce loop fails with the first unresolvable link's error; otherwise it ends with every route written into the three tables in order |
| `Routes.BuildRoutesErrExtends` | index.js:137-240 | once a prefix of the links fails, the whole route build fails with the same error |
| `Routes.GroupingLastWrite` | index.js:237-238 | after all writes, `[path][method]` holds the operation of the last route written there |
| `Routes.GroupingUntouched` | index.js:237-238 | a path/method pair that no route writes keeps its initial content |
| `Routes.SchemasLastWrite` | index.js:194 | each schema name holds the schema of the last route that named that component |
| `Routes.SchemasUntouched` | index.js:194 | a schema name that no route writes keeps its initial entry, or stays absent |
| `Routes.RequestBodiesLastWrite` | index.js:205-211 | each request body name holds the body of the last route that wrote it |
| `Routes.RequestBodiesUntouched` | index.js:205-211 | a request body name that no route writes keeps its initial entry, or stays absent |
| `ListPairing.GetPathKey` | index.js:77 | an href without the placeholder is its own path key, and the Get link's path key is that href + `/{id}` |
| `ListPairing.GetPathHasId` | index.js:223 | the Get link's path key always contains `{id}` |
| `ListPairing.GetLinkResolves` | index.js:77 | in a well-formed table, appending `/{definitions.identity.example}` to a List href does not change its resource |
| `ListPairing.GetRouteOfList` | index.js:71-82 | with a well-formed table, the Get link resolves to the List link's resource; its operation is `get` + single + `Get`, it carries the `id` parameter, and its component `single + Get + Response` holds the items wrapped as an object schema |
| `ListPairing.GetPathBelowList` | index.js:77 | the List route sits at its href and the Get route sits one `/{id}` segment below it |
| `ListPairing.ListItemsReferToGet` | index.js:159-177 | for an array target schema, the List component is that array with `items` replaced by a `$ref` to the paired Get route's component |
| `Assembly.InsertSorted` | index.js:286-287 | inserting a new key keeps the keys strictly ascending and adds exactly that key |
| `Assembly.AfterInsertionPoint` | index.js:286-287 | every key from the insertion point on comes after the inserted key |
| `Assembly.InsertionSorted` | index.js:286-287 | placing a key between the smaller and the larger keys keeps the sequence strictly ascending and adds exactly that key |
| `Assembly.SortKeys` | index.js:286-287 | the result is strictly ascending and holds exactly the dictionary's keys |
| `Assembly.SortedEntries` | index.js:286-297 | the emitted object has exactly the dictionary's keys and values, with keys strictly ascending |
| `Assembly.SortedKeysUnique` | index.js:286-287 | two strictly ascending sequences with the same keys are equal, so the emitted order does not depend on insertion order |
| `Assembly.SortedEntriesUnique` | index.js:286-297 | the emitted component map is determined by the dictionary's contents alone |
| `Assembly.WithHealth` | index.js:258-278 | the paths hold `/` and every built path; a built path keeps its operations, and `/` is the health route unless a resource path `/` replaces it |
| `Assembly.SchemaNamesKept` | index.js:194 | writing components never removes a schema name |
| `Assembly.HealthResponseEmitted` | index.js:95-134 | the `HealthResponse` component is always among the emitted schemas |
| `Assembly.Generate` | index.js:56-299 | succeeds exactly when the flatten, expand and build stages do, and fails with their first error; on success the paths are the health route under the built routes, and both component maps are emitted sorted with exactly the accumulated contents |

## Left out

- Reading `index.json`, `JSON.parse` and writing the pretty-printed result (index.js:57-58, 301): plain I/O and serialisation.
- The call to the external schema converter (index.js:60-62): its output, the per-resource `x-links` lists, is the model's input.
- `async`/`await` and the top-level `generate()` call (index.js:56, 304): process plumbing.
- The constant `openapi`, `info`, `servers` and `securitySchemes` blocks (index.js:243-257, 280-285): they are literals that do not depend on the input.
- The key order of the `paths` object and of objects inside schemas: JSON objects are maps here. Only the emitted component maps, whose order the code fixes by sorting, are sequences.
- JavaScript's rule that integer-like object keys come first, and keys inherited from `Object.prototype`: component names end in `Response` or `Request`, and path keys and resource table keys start with `/`.
- Links without a `title`, `method` or `href`: the route builder throws for every such link (index.js:138-146), and the model's `Link` type requires these fields.
- Non-string descriptions, titles and `getRouteTitle` values, and `x-links` values that are not arrays: the model types these as strings and sequences.
- Non-integer JSON numbers: numbers in schemas are opaque and integers suffice for the constants.
- `$` patterns in `String.replace` replacements: the two replacements used contain no `$`.
- The leaked globals `getItem` and `listItem` (index.js:72, 83): they are locals here. No behaviour depends on the leak.
- The reassignment of `path.targetSchema` on the link object (index.js:174-177): links are values here. When the dereferenced schema shares one link object between resources, that object occurs twice in `paths`, and the second pass of the reduce rewrites its already rewritten array items a second time. The model does not capture that second rewrite.
- Links.Flatten: a resource without `x-links` aborts the run in the flatten stage. In the source, `concat(undefined)` appends `undefined` and the run aborts one stage later, at `item.title` in the expansion. Either way no document is produced.
- Strings.ToLower: lowers only the ASCII letters A-Z. `toLowerCase` also lowers other Unicode letters, and HTTP method names are ASCII.
- Strings.LessTotal: compares characters by code point. `Array.prototype.sort` compares UTF-16 code units, and the two orders differ only between astral characters and U+E000-U+FFFF, which component names do not contain.
- Strings.DropLast: drops the last character, a whole code point. `slice(0, -1)` drops the last UTF-16 code unit, so for a description that ends in a character outside the Basic Multilingual Plane the source leaves half a surrogate pair, and the model does not.

# HTML loader extraction pipeline and component registry, in Dafny

This project models two sequential pieces of a retrieval-augmented-generation indexing
service and proves properties of both.

- **The HTML loader** (`rag.loader.html2`, module `HtmlLoader`). Configuration holds
  URL-scoped selector rules. For one document and its URL, the loader does five things:
  1. It gathers the selectors of the rules whose URL pattern accepts the URL.
  2. It appends a `body` text selector and a warning when no text selector was gathered.
  3. It runs every selector against the parsed document. An "all" selector emits one
     fragment per match. Any other selector emits its first match only.
  4. It reports the selectors that matched nothing in one summary warning.
  5. It returns the segments, their partitions (selector and source position) and an
     MD5 digest of the segments joined by four newlines.

  The pipeline is a chain of pure functions (`Gather`, `WithFallback`, `Run`, `Process`,
  `Load`). `ProcessLoop` is the same pipeline written as loops that grow lists, and it
  is proved equal to `Process`. The module `HtmlLoaderScenarios` derives
  whole-pipeline consequences: the fallback, a single text selector, and an attribute
  selector.
- **The component registry** (module `Registry`). It maps a component identifier to
  the component's constructor and options schema. `Register` inserts or overwrites an
  entry. `Create` rejects an unknown identifier. Otherwise it validates the options with
  the schema and then constructs. `CreateAll` creates every registered component from
  `{}`, in insertion order. The registry is a value: a map plus the key sequence in
  insertion order, which is how a JavaScript `Map` iterates.

External libraries are parameters of the model:
- In `HtmlLoader.Env`: the HTML parser, the CSS selector engine (`selectAll`, with
  `select` as its first element), `toText`, `md5` and the URL-pattern matcher.
- In `Registry.ComponentConstructor`: the per-component schema validation and
  construction.

Each of these is a total function value. A schema or constructor failure is a `Result`
value. The loader's collaborators cannot fail in the model (see "Left out").

The model follows the code in these points:
- The fallback selector is `body`.
- An attribute selector reads only the `content` property.
- Parsing never fails, because the rehype parser accepts any input.
- Schema and constructor errors carry no component identifier.
- `createAll` fails with the first error that a creation throws.

## Model

| member | source | states |
|---|---|---|
| HtmlLoader.Select | src/rag-spec/loaders/HtmlLoader.ts:82 | `select` finds nothing iff `selectAll` finds nothing, and otherwise returns the first element `selectAll` returns |
| Text.Join | src/rag-spec/loaders/HtmlLoader.ts:33 | joining no parts gives `""`, one part gives that part; a join starts with the first part and ends with the last part |
| Text.JoinAppend | src/rag-spec/loaders/HtmlLoader.ts:94 | joining one more part appends the separator and that part, so consecutive parts are separated by exactly one separator |
| HtmlLoader.Gather | src/rag-spec/loaders/HtmlLoader.ts:51-58 | the gathered selectors number at most the selectors listed by all rules, and exactly that many when every rule's pattern accepts the URL; membership and order are stated by the lemmas below |
| HtmlLoader.GatherMembers | src/rag-spec/loaders/HtmlLoader.ts:51-58 | a selector is gathered iff some rule whose URL pattern accepts the URL lists it |
| HtmlLoader.GatherConcat | src/rag-spec/loaders/HtmlLoader.ts:51-58 | gathering a concatenation of rule lists concatenates the gathered selectors: rule order is kept |
| HtmlLoader.GatherSplit | src/rag-spec/loaders/HtmlLoader.ts:51-58 | rule i contributes its whole selector list, in its own order, between the rules before and after it; a rule whose pattern rejects the URL can be removed without changing the result |
| HtmlLoader.GatherLoop | src/rag-spec/loaders/HtmlLoader.ts:49-58 | the nested push loops build exactly the gathered selector list |
| HtmlLoader.FindText | src/rag-spec/loaders/HtmlLoader.ts:63 | the `find` over the selectors succeeds iff some item has no type or type `dom-text` |
| HtmlLoader.WithFallback | src/rag-spec/loaders/HtmlLoader.ts:63-66 | user selectors are kept as a prefix; exactly one `{body, first match, dom-text}` item and the fallback warning are appended iff the list is empty or has no text item; afterwards a text item always exists |
| HtmlLoader.WithFallbackIdempotent | src/rag-spec/loaders/HtmlLoader.ts:63-66 | applying the fallback policy to its own output adds nothing and warns nothing |
| HtmlLoader.GetContent | src/rag-spec/loaders/HtmlLoader.ts:101-107 | a `dom-content-attr` item yields the element's `content` property, or `""` when it is absent; any other type, including none, yields the element's text |
| HtmlLoader.Emit | src/rag-spec/loaders/HtmlLoader.ts:71-90 | an "all" item yields one fragment per `selectAll` match, in match order; any other item yields at most one fragment, for the first match; an item yields nothing iff it matches nothing |
| HtmlLoader.Run | src/rag-spec/loaders/HtmlLoader.ts:70-91 | a run records at most one failed selector per item, and the fragments and failures together number at least the items |
| HtmlLoader.RunSplit | src/rag-spec/loaders/HtmlLoader.ts:71-90 | every item, wherever it stands, contributes exactly its own emitted fragments in its place, and its selector among the failures in its place iff it matches nothing |
| HtmlLoader.RunProvenance | src/rag-spec/loaders/HtmlLoader.ts:70-91 | every emitted fragment is the fragment that one of the run's items extracts from its element, with that item's selector |
| HtmlLoader.RunFailures | src/rag-spec/loaders/HtmlLoader.ts:72-90 | a selector is recorded as failed iff an item with it matches nothing; the fragments and failures together number at least the items, and exactly the items when no item is "all" (the per-item statement is `RunSplit`) |
| HtmlLoader.RunConcat | src/rag-spec/loaders/HtmlLoader.ts:71-91 | running a concatenation of items concatenates both the fragments and the failed selectors, in processing order |
| HtmlLoader.MissIsNotFatal | src/rag-spec/loaders/HtmlLoader.ts:78-80 | a selector that matches nothing is recorded in its place among the failures, and the fragments of all other selectors are still emitted |
| HtmlLoader.RunLoop | src/rag-spec/loaders/HtmlLoader.ts:70-91 | the selector loop with its push statements yields exactly the run's fragments and failed selectors |
| HtmlLoader.FailureWarning | src/rag-spec/loaders/HtmlLoader.ts:93-95 | the summary warning starts with `Select element failed for selector(s): ` followed by the first failed selector in backticks; for one failed selector it is exactly the prefix and that selector in backticks |
| HtmlLoader.FailureWarningAppend | src/rag-spec/loaders/HtmlLoader.ts:93-95 | each further failed selector extends the summary by `, ` and that selector in backticks, so the summary lists every failed selector once, in processing order |
| HtmlLoader.WarningsDiffer | src/rag-spec/loaders/HtmlLoader.ts:60-95 | the failure warning can never be mistaken for the fallback warning |
| HtmlLoader.Process | src/rag-spec/loaders/HtmlLoader.ts:48-98 | at most two warnings, each the fallback warning or the summary of the failed selectors; when some selector failed the summary is the last warning |
| HtmlLoader.ProcessWarnings | src/rag-spec/loaders/HtmlLoader.ts:60-95 | one warning for a needed fallback plus one for any failure, and no others; the fallback warning comes first iff the fallback was needed; the failure summary comes last iff some selector failed; no warning iff neither happened |
| HtmlLoader.ProcessProvenance | src/rag-spec/loaders/HtmlLoader.ts:48-98 | every fragment's selector was gathered from a matching rule or is the `body` fallback; when a user text selector exists, the result is exactly the run of the gathered selectors |
| HtmlLoader.ProcessLoop | src/rag-spec/loaders/HtmlLoader.ts:48-98 | the imperative `process`, with its growing lists, returns the same result, failures and warnings as the functional pipeline |
| HtmlLoader.Load | src/rag-spec/loaders/HtmlLoader.ts:26-42 | content and partitions have equal length; partition i holds the selector and position of the fragment whose text is content i; the digest is md5 of the content joined by four newlines; the warning is absent iff none was produced |
| HtmlLoader.Support | src/rag-spec/loaders/HtmlLoader.ts:44-46 | a MIME type is supported iff it contains the substring `html` |
| HtmlLoaderScenarios.NoMatchingRuleGathersNothing | src/rag-spec/loaders/HtmlLoader.ts:51-58 | when no rule's pattern accepts the URL, nothing is gathered |
| HtmlLoaderScenarios.FallbackWhenNoRuleApplies | src/rag-spec/loaders/HtmlLoader.ts:63-66 | with no applicable rule and a `body` element, the result is that element's text alone, one `body` partition and only the fallback warning |
| HtmlLoaderScenarios.FallbackWithoutBody | src/rag-spec/loaders/HtmlLoader.ts:60-95 | with no applicable rule and no `body`, the content is empty and the warnings are the fallback warning followed by the failure of `body` |
| HtmlLoaderScenarios.SingleTextSelector | src/rag-spec/loaders/HtmlLoader.ts:26-98 | one matching rule with one matching text selector gives exactly that element's text, its partition, no warning, and the md5 of that text |
| HtmlLoaderScenarios.AttributeSelectorStillFallsBack | src/rag-spec/loaders/HtmlLoader.ts:63-107 | a lone `dom-content-attr` selector yields the `content` attribute first; the `body` fallback still runs after it and warns |
| Registry.ConstructComponent | src/core/registry.ts:14-16 | the constructor is invoked iff the schema accepts the options, and then only on the parsed options; a schema failure is the error; a constructor failure is the error; when both succeed the result is exactly the constructed instance, and a success is only ever that instance |
| Registry.Empty | src/core/registry.ts:19 | the new registry has no entries and no keys |
| Registry.Register | src/core/registry.ts:21-23 | afterwards the identifier maps to the component and every other entry is unchanged; a new identifier is appended to the key order and an existing one keeps its place |
| Registry.Create | src/core/registry.ts:25-32 | an unknown identifier fails with `Unknown <id>` and constructs nothing; a known one validates and constructs through its own constructor |
| Registry.CreateEach | src/core/registry.ts:35 | mapping creation over identifiers succeeds iff every creation does, giving one instance per identifier in order; otherwise it fails with the error of the first failing identifier |
| Registry.CreateAll | src/core/registry.ts:34-36 | one instance per registered key, built from `{}` in key order; it fails iff some creation fails, and never with an unknown identifier |
| Registry.CreateAfterRegister | src/core/registry.ts:21-32 | after registering a component, creating its identifier goes through that component's schema and constructor |
| Registry.RegisterIsLocal | src/core/registry.ts:21-23 | registering a component does not change the creation of any other identifier, known or unknown |
| Registry.ReRegisterKeepsOrder | src/core/registry.ts:21-23 | re-registering an identifier keeps the key order and the number of entries, and every other key's creation is unchanged |
| Registry.RegisterAll | src/core/registry.ts:19-23 | any sequence of registrations from an empty registry keeps the key order and the map in step, each key once |
| Registry.RegisterAllOrder | src/core/registry.ts:19-23 | after a sequence of registrations, the key order is the order in which identifiers were first registered |
| Registry.RegisterAllLastWins | src/core/registry.ts:21-23 | after a sequence of registrations, every registered identifier is present and maps to the last component registered under it |

## Left out

- HTML parsing (rehype-parse through unified), CSS selector matching (hast-util-select) and hast-util-to-text are external libraries. They are the fields `parse`, `selectAll` and `toText` of `HtmlLoader.Env`. `select` is taken to be the first element of `selectAll`.
- `md5` and `createUrlMatcher` are not part of this model. They are the fields `md5` and `urlMatches` of `HtmlLoader.Env`, with no assumed semantics.
- The loader's constructor (HtmlLoader.ts:18-24) builds the parser from `rehypeParse` options. Those options are folded into `Env.parse`.
- The Zod option schemas (HtmlLoader.ts:109-124 and `htmlSelectorArray`) are left out. Registry validation is the abstract partial function `optionsSchema`, and its error text is opaque.
- Element property values are modelled as strings. `String(...)` applied to a non-string property, such as a list of class names, is not modelled.
- An omitted `all` flag is modelled as `false`, which is how the source's truthiness test reads it.
- Load: exceptions thrown by the URL matcher on a malformed pattern (HtmlLoader.ts:52) or by the selector engine on an invalid selector (HtmlLoader.ts:73, 82) escape `load`. The model's `urlMatches`, `selectAll` and `Select` are total, so this error path is not modelled.
- `position` values are opaque spans, copied unchanged into the partitions.
- Exceptions thrown by `create`, the schema and constructors are modelled as `Result` failures. The registry is an immutable value, so `Register` returns a new registry instead of mutating a class field.
- Components of different classes share one instance type parameter `C`. The TypeScript type-level mapping from a class to its options type is not modelled.
- Equal contents give equal digests, and repeated creations with equal options give equal results. Both hold because every member is a function, so there are no separate lemmas for them.
- The database layer (`src/core/db/chat.ts`, `src/core/db/index.ts`), the authentication-providers HTTP handler and the admin pages are I/O and wiring with no local logic. They are not part of this model.

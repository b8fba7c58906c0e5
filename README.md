# danmercede.com: verified model of the page logic

This project models the small pieces of logic in the danmercede.com website. The rest of the site only renders static content.

- **Resources and Thoughts pages** (`App.tsx`):
  - The category filter buttons are `'all'` followed by each distinct category, in first-occurrence order.
  - The visible card list is the whole list for `'all'`, and otherwise the matching cards in their original order.
  - Category and file-type codes map to labels. A code missing from the table shows as itself.
- **Case-study page** (`App.tsx`): the route slug selects the first case study with that slug. If none matches, the result is a distinct not-found state.
- **Ecosystem page** (`App.tsx`):
  - Ventures split into the primary stack and the extended ecosystem, by a list of primary names.
  - A secondary venture gets the "live" badge when its status contains `PRODUCTION` or `EXECUTION`.
  - The page state is a class with fields `hash`, `expandedSlug` and `showSecondary`. The URL-hash effect, `toggleExpand` and the section toggle are its methods.
- **Image metadata** (`constants.ts`):
  - The `IMAGE_METADATA` table.
  - `basename`, modelled over a faithful `split("/")` with its `pop() || src` fallback.
  - `getImageMeta`: it throws in a development build, and falls back to `{alt: "Dan Mercede"}` in a production build.

The module `JsArray` models the ECMAScript built-ins the code relies on: `filter`, `find`, `some`, `map` and `Array.from(new Set(...))`. The module `JsString` models `includes`, `replace` and `split`. Their lemmas state what the pages rely on:

- a filter result is an order-preserving subsequence with exact multiplicities;
- the Set keeps each value once, in insertion order;
- `split` and `join` are inverse.

`RESOURCES`, `THOUGHTS`, `CASE_STUDIES`, `VENTURES` and `PRIMARY_VENTURES` are parameters of the model, not constants. The build mode (`import.meta.env.DEV`) is a boolean parameter. Navigation (`navigate`) is modelled only as "set the location hash", which reruns the hash effect.

Behaviour worth knowing, modelled as the code has it:

- A URL hash that names no venture still becomes `expandedSlug`. Nothing is then shown expanded. The code does not enforce that an expanded slug names an existing venture.
- `replace('#', '')` removes only the first `#`. So `#a#b` selects the slug `a#b`, and toggling a slug that contains `#` still round-trips (`SlugFromHashRoundTrip`).
- The hash effect can open the extended ecosystem but never closes it. Only the section header closes it.
- Closing the extended ecosystem leaves the hash and `expandedSlug` as they are. An expanded secondary venture then shows no panel, and reopening the section shows it expanded again (`EcosystemPage.Expanded`).
- "At most one venture is expanded" holds because `expandedSlug` is a single value. It counts as one venture only when venture slugs are unique (`AtMostOneExpanded`).

## Model

| member | source | states |
|---|---|---|
| `JsArray.Keep` | App.tsx:607 | `filter` returns no more elements than its input; everything it returns comes from the input and satisfies the predicate; every input element that satisfies it is returned |
| `JsArray.KeepIsSubsequence` | App.tsx:607 | the filtered list keeps the original relative order (it is a subsequence of the input) |
| `JsArray.KeepCount` | App.tsx:795 | a value appears in the filtered list exactly as often as in the input when it satisfies the predicate, and not at all otherwise |
| `JsArray.KeepMembership` | App.tsx:329 | an element is in the filtered list iff it is in the input and satisfies the predicate |
| `JsArray.KeepPartition` | App.tsx:329-330 | filtering by a predicate and by its negation together give back the input multiset: every element lands in exactly one part |
| `JsArray.FindIndex` | App.tsx:689 | the index found is the first one whose element satisfies the predicate; none is found iff no element does |
| `JsArray.Find` | App.tsx:689 | `find` gives `undefined` iff no element matches, else the element at the first matching index |
| `JsArray.Any` | App.tsx:337 | `some` is true iff some element satisfies the predicate |
| `JsArray.Distinct` | App.tsx:603 | the de-duplicated list has no repeats, and has exactly the values of its input |
| `JsArray.DistinctOrder` | App.tsx:791 | the de-duplicated values appear in the order of their first occurrence in the input, as a JavaScript `Set` keeps them |
| `JsString.Includes` | App.tsx:519 | `s.includes(sub)` iff `sub` occurs at some position of `s` |
| `JsString.RemoveFirst` | App.tsx:334 | `replace('#', '')` returns the string unchanged when it has no `#`, else removes exactly the first `#` |
| `JsString.Split` | constants.ts:211 | `split("/")` returns at least one piece, and no piece contains the separator |
| `JsString.JoinSplit` | constants.ts:211 | joining the pieces of a split with the separator gives back the original string |
| `JsString.SplitJoin` | constants.ts:211 | splitting a join of separator-free pieces gives back those pieces |
| `JsString.SplitConcat` | constants.ts:211 | the pieces of `a + "/" + b` are the pieces of `a` followed by those of `b` |
| `ImageMetadata.BasenameNoSlash` | constants.ts:211 | a string without `/` is returned unchanged by `basename` |
| `ImageMetadata.BasenameAfterLastSlash` | constants.ts:211 | for `dir + "/" + name` with a non-empty, slash-free `name`, `basename` returns `name` |
| `ImageMetadata.BasenameTrailingSlash` | constants.ts:211 | for a path ending in `/` the last segment is empty and the `|| src` fallback returns the whole input |
| `ImageMetadata.BasenameSpec` | constants.ts:211 | for every input with a `/`: the text after the last `/`, or the whole input when that text is empty |
| `ImageMetadata.BasenameIdempotent` | constants.ts:211 | `basename(basename(s)) == basename(s)` |
| `ImageMetadata.TableKeysAreFileNames` | constants.ts:153-209 | every key of `IMAGE_METADATA` starts with `dan-mercede-` |
| `ImageMetadata.TableKeysAreNotPrototypeKeys` | constants.ts:153-209 | no key of `IMAGE_METADATA` is an `Object.prototype` member, so on table keys the bracket read always finds the table's own entry |
| `ImageMetadata.GetImageMeta` | constants.ts:213-226 | the table entry for a known basename; for an unknown one, an error naming the key in development and `{alt: "Dan Mercede", description: undefined}` in production |
| `ImageMetadata.GetImageMetaKeysOnBasename` | constants.ts:213-215 | a path and its basename get the same result |
| `ImageMetadata.GetImageMetaIgnoresDirectory` | constants.ts:214 | `"/dir/x.png"` and `"x.png"` get the same result |
| `ImageMetadata.GetImageMetaAltNonEmpty` | constants.ts:153-222 | every metadata record returned has a non-empty `alt`: all table entries and the fallback supply one |
| `ImageMetadata.GetImageMetaFailsOnlyInDev` | constants.ts:217-223 | an error is raised iff the build is a development build and the basename is not in the table |
| `ImageMetadata.ReadProperty` | constants.ts:215 | a bracket read on the table gives its own entry for a table key, and otherwise `undefined` exactly for names that are not `Object.prototype` members |
| `ImageMetadata.GetImageMetaAsWritten` | constants.ts:213-226 | the lookup as written: error or fallback only for an `undefined` read; any other read value, inherited members included, is returned |
| `ImageMetadata.AsWrittenAgreesOffPrototype` | constants.ts:215-225 | for a basename that is not an `Object.prototype` member, the code as written and the corrected lookup agree |
| `ImageMetadata.PrototypeKeyEscapesFallback` | constants.ts:215-217 | `getImageMeta("constructor")` returns the inherited `Object` constructor, whose `alt` is undefined, in both build modes |
| `Catalog.CategoryButtons` | App.tsx:603 | the buttons are `'all'` then every item category exactly once, in first-occurrence order, and nothing else |
| `Catalog.Visible` | App.tsx:605-607 | `'all'` shows the list unchanged; any other category shows an order-preserving selection holding every item of that category and only those |
| `Catalog.VisibleExactly` | App.tsx:607 | for a category other than `'all'`, each item is shown exactly as often as it occurs with that category, and items of other categories never |
| `Catalog.ButtonNeverEmpty` | App.tsx:603-607 | selecting any category button other than `'all'` shows at least one card |
| `Catalog.LabelTablesHaveNoEmptyLabel` | App.tsx:587-599 | no label in `FILE_TYPE_LABELS` or `CATEGORY_LABELS` is empty, so the `||` fallback fires exactly for a missing key |
| `Catalog.CategoryLabelSpec` | App.tsx:643 | the category label is the table entry when the code is a key, and otherwise the raw code |
| `Catalog.FileTypeLabelSpec` | App.tsx:647 | the file-type label is the table entry when the code is a key, and otherwise the raw code |
| `Catalog.ButtonLabelSpec` | App.tsx:628 | a filter button reads "All" for `'all'`; otherwise the Resources page shows the category label (or raw code), and the Thoughts page (App.tsx:818) shows the raw category |
| `Catalog.LabelIsKnownOrRaw` | App.tsx:643 | whatever the table, a label is either one of the table's labels or the raw code |
| `Catalog.LabelNonEmpty` | App.tsx:647 | a non-empty code never gets an empty label |
| `Catalog.CaseStudyPage` | App.tsx:687-702 | not-found iff no case study has the slug; otherwise the first case study whose slug equals the route parameter |
| `Catalog.CaseStudyFoundBySlug` | App.tsx:689 | with unique slugs, every listed case study is found by its own slug |
| `Ecosystem.VenturePartition` | App.tsx:329-330 | primary and secondary ventures keep the original order, a venture is primary iff its name is in the primary list and secondary iff not, and together they hold each venture exactly as often as `VENTURES` |
| `Ecosystem.IsLive` | App.tsx:519 | the badge is live iff the status contains `PRODUCTION` or contains `EXECUTION` |
| `Ecosystem.NotLiveWithout` | App.tsx:519 | a status with neither `D` nor `X` cannot contain either word, so it is not live |
| `Ecosystem.LiveStatuses` | App.tsx:519 | the statuses `ENTERPRISE EXECUTION`, `PRODUCTION · SMB` and `INTERNAL · GOVERNED EXECUTION` are live |
| `Ecosystem.OwnershipStatusNotLive` | App.tsx:519 | the status `OWNERSHIP · ARCHITECTURE` is not live |
| `Ecosystem.SlugFromHashRoundTrip` | App.tsx:349 | navigating to `#slug` selects exactly `slug` once the effect strips the first `#` (App.tsx:334) |
| `Ecosystem.SlugFromHashSpec` | App.tsx:333-341 | a hash selects nothing iff it is empty; a hash without `#` selects itself; otherwise it selects the hash with exactly its first `#` removed |
| `Ecosystem.HashOpensSecondary` | App.tsx:337 | true iff the hash is non-empty and some secondary venture's slug equals the hash with its first `#` removed |
| `Ecosystem.AtMostOneExpanded` | App.tsx:419 | with unique slugs, at most one venture is expanded whatever `expandedSlug` is |
| `Ecosystem.ExpandedIsSelected` | App.tsx:518 | with unique slugs, selecting a listed venture's slug expands exactly that venture |
| `Ecosystem.EcosystemPage.constructor` | App.tsx:324-343 | on mount, both states start empty and the hash effect runs for the initial hash: `expandedSlug` is the hash's slug, and `showSecondary` is set iff that slug is a secondary venture |
| `Ecosystem.EcosystemPage.OnLocationChange` | App.tsx:332-343 | a non-empty hash sets `expandedSlug` to the hash minus its first `#` and opens the secondary section when that slug is secondary; it never closes the section; an empty hash clears `expandedSlug` |
| `Ecosystem.EcosystemPage.ToggleExpand` | App.tsx:345-351 | toggling the expanded venture clears the hash and collapses it, leaving the section as it was; toggling another sets the hash to `#slug` and expands that venture (opening the section if it is secondary) |
| `Ecosystem.EcosystemPage.ToggleSecondary` | App.tsx:501 | the section header flips `showSecondary` and leaves the hash and `expandedSlug` in step |
| `Ecosystem.ShownExpandedMembership` | App.tsx:417-562 | a venture's detail panel is on screen iff it is listed, its slug is the expanded slug, and it is primary or the extended ecosystem is open |
| `Ecosystem.ExpandedSplit` | App.tsx:329-330 | the expanded primary ventures and the expanded secondary ventures together are exactly the expanded ventures, as multisets |
| `Ecosystem.ShownExpandedAtMostOne` | App.tsx:515-518 | with unique slugs, at most one detail panel is on screen, whether the extended ecosystem is open or closed |
| `Ecosystem.EcosystemPage.Expanded` | App.tsx:515-562 | the ventures showing their detail panel are exactly the listed ventures whose slug is `expandedSlug` and that are primary or sit in the open extended ecosystem; at most one when slugs are unique |

## Findings

| source | as written | input that shows it | evidently intended | confidence | as-written member | corrected member |
|---|---|---|---|---|---|---|
| constants.ts:215-217 | `IMAGE_METADATA[key]` reads a plain object literal, so it also finds members inherited from `Object.prototype`. `if (!meta)` catches only a missing property. | `getImageMeta("constructor")` returns the inherited `Object` constructor, whose `alt` is undefined. It neither throws in development nor falls back in production. `"/img/toString"` and `"__proto__"` likewise return inherited members. | look up own keys only, so every unknown name throws in development or falls back in production, and every result has a non-empty `alt` | high; not executed | `ImageMetadata.PrototypeKeyEscapesFallback` | `ImageMetadata.GetImageMeta` |

`ImageMetadata.GetImageMetaAsWritten` models the code as written. `ImageMetadata.GetImageMeta` is the corrected lookup. `GetImageMetaAltNonEmpty` proves the intended property for it, and `AsWrittenAgreesOffPrototype` shows that the two differ only on `Object.prototype` names.

## Left out

- `components/ConstellationBackground.tsx`, the particle background: floating-point kinematics seeded by `Math.random`, drawn through d3 into the DOM and driven by `requestAnimationFrame` and resize listeners.
- All JSX rendering and styling. Also left out: the `Section`, `Button` and `SectionHeader` components and the text-only pages (Home, About, Connect, Legal, Privacy, Imprint).
- The route table (App.tsx:998-1009), `ScrollToTop`, and `react-router` itself. Navigation is only "set the hash". Percent-encoding of the hash, the `replace` history flag and the `/ecosystem` pathname are not modelled.
- React effect timing: the model applies the hash effect as soon as the hash changes. React runs it after the next render.
- The mobile-menu `isOpen` toggle (App.tsx:44): a plain boolean flip.
- `LAYER_NAMES` (App.tsx:580-585) is declared but never read, so it is not modelled.
- Catalog.LabelOr: the label tables are modelled as own-key maps. As with the image-metadata finding, a code equal to an `Object.prototype` member such as `constructor` would read an inherited function. That case is not modelled.
- Catalog.CaseStudyPage: the route parameter is modelled as a string. `useParams` can also give `undefined`, and then no study matches, which is again the not-found state.
- Static content arrays of `constants.ts` (navigation items, pillars, beliefs and the like), which are only rendered. `VENTURES` is a parameter; its statuses appear only in the live-badge examples.
- Strings are sequences of characters. UTF-16 code units, which `includes` and `split` work on, are not distinguished from characters.

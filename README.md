# dmfr-extract, modelled in Dafny

dmfr-extract reads a DMFR registry: a JSON document that lists transit
feeds and operators. It downloads the feeds' static (GTFS) and realtime
(GTFS-RT) files and writes a manifest. The manifest records, for every feed
and every URL slot, either the stored file's path and SHA-256 digest or the
error that stopped the slot.

This project models the core of that program:

- **Registry queries** (`Registry`): feeds by id, by spec and by operator.
  `getOperators` merges root and nested operators and deduplicates them
  through a JavaScript `Map`.
- **Authorization resolution** (`Auth`): the five authorization schemes and
  how each rewrites the request URL or sets a header from the feed's secret.
- **The two extractors** (`Gtfs`, `GtfsRt`): for each populated URL slot,
  parse, authorize, fetch and check `response.ok`. Then optionally take a
  nested archive out of the static zip (by URL fragment), or decode the
  realtime protobuf to JSON. Then hash, write and record the outcome, with
  every exception caught into the slot's entry.
- **Spec dispatch** (`Extract`) and `getFromZip` (`Zip`).
- **The `extract` command** (`ExtractCommand`): the filter flags overwrite
  `dmfr.feeds` one after the other. Then secrets are loaded, every remaining
  feed is extracted, and the entries are pushed onto the manifest.

Supporting modules:

- `Wrappers`: `Option` and `Result`.
- `WebUrl`: a URL as a record, with its `href`, `split("#")`,
  `URLSearchParams.set` and `String.prototype.replace` when the pattern is a
  string.
- `Runtime`: exceptions, JavaScript truthiness of optional strings,
  `Array.prototype.find`, and a `Platform` record of function-valued fields.
  Those fields stand for everything the program calls but does not define:
  - URL parsing, `encodeURIComponent`, form encoding and `Headers.set`;
  - `fetch`, `unzipSync`, protobuf decoding with `JSON.stringify`;
  - SHA-256 and `Bun.write`.
- `Types`: the DMFR schema entities and the manifest.

How the code is modelled:

- Code that loops is written as methods with loops: `getFeedsByOperatorId`,
  the slot loops of both extractors, and the command's filter sequence and
  feed loop.
- Each of those methods is proved equal to a specification function.
- The properties of the program are proved about those functions.
- A run's outputs are the manifest and the list of `FileWrite`s (path and
  bytes) in write order.

Two behaviours of the code that a reader might not expect:

- **Filters narrow.** Each filter reads the `dmfr.feeds` the previous one
  left (src/command/extract.ts:72-93), so a later filter only narrows the
  earlier result.
  - `ExtractCommand.SelectFeeds` proves that every selected feed is in the
    registry and has the `--spec` value.
  - `ExtractCommand.OperatorAfterSpecSeesSpecFeeds` proves that the operator
    lookup only sees feeds of that spec.
- **The nested-archive name is read after authorization.** It comes from
  `url.href` once the authorization handler has rewritten the URL
  (src/core/extract/gtfs.ts:45), so a `replace_url` secret decides the
  fragment. The model does the same.

## Model

| member | source | states |
|---|---|---|
| WebUrl.Split | src/core/extract/gtfs.ts:45 | `split` on one character gives at least one piece, and no piece contains the separator |
| WebUrl.JoinSplit | src/core/extract/gtfs.ts:45 | joining the pieces of `split` with the separator gives back the original text |
| WebUrl.SecondPiece | src/core/extract/gtfs.ts:45 | `split("#")[1]`: the second piece when there is one, `undefined` otherwise |
| WebUrl.Href | src/core/extract/gtfs.ts:45 | `url.href`: origin, path, serialised query, and `#` with the fragment when there is one |
| WebUrl.SplitAfterFreePrefix | src/core/extract/gtfs.ts:45 | splitting `a + b` where `a` has no separator: the first piece is `a` followed by `b`'s first piece, and the rest are `b`'s remaining pieces |
| WebUrl.HashPieceIsFragment | src/core/extract/gtfs.ts:45 | when the origin, path and query hold no `#`, `href.split("#")[1]` is the fragment up to its first `#`, and is undefined without a fragment |
| WebUrl.SetSearchParam | src/core/extract/auth.ts:81-83 | after `searchParams.set(name, value)` the name has exactly one value, the new one, and the pairs of every other name are kept in order |
| WebUrl.SetSearchParamKeepsPrefix | src/core/extract/auth.ts:82 | `set` leaves every pair before the name's first pair untouched |
| WebUrl.SetSearchParamKeepsIndex | src/core/extract/auth.ts:82 | when the name is present, its first pair keeps its position |
| WebUrl.SetSearchParamAppends | src/core/extract/auth.ts:82 | when the name is absent, the new pair is appended to the unchanged list |
| WebUrl.OthersIdempotent | src/core/extract/auth.ts:82 | removing a name's pairs twice is the same as removing them once |
| WebUrl.ReplaceFirst | src/core/extract/auth.ts:105-108 | `String.prototype.replace` with a string pattern: the first occurrence is replaced (its properties are the next two lemmas) |
| WebUrl.ReplaceFirstWithoutOccurrence | src/core/extract/auth.ts:105-108 | `replace` with a pattern that does not occur leaves the text unchanged |
| WebUrl.ReplaceFirstAtFirstOccurrence | src/core/extract/auth.ts:105-108 | `replace` splices the replacement in at the first occurrence of the pattern and keeps both sides |
| Runtime.FindIndex | src/core/dmfr/index.ts:15-17 | `find` returns the first element satisfying the predicate, and nothing exactly when no element does |
| Runtime.ErrorText | src/core/extract/gtfs.ts:63 | `error?.message ?? "Error"`: the message when the exception carries one, otherwise `Error` |
| Registry.GetFeeds | src/core/dmfr/index.ts:10-12 | the registry's feeds, and none when `feeds` is absent |
| Registry.FeedMatches | src/core/dmfr/index.ts:16 | the feed's id equals the key or its `supersedes_ids` include it; an undefined key matches nothing |
| Registry.GetFeedById | src/core/dmfr/index.ts:14-18 | the first feed whose id or superseded ids contain the key; none exactly when no feed matches; an undefined key matches nothing |
| Registry.FeedsWithSpec | src/core/dmfr/index.ts:27-29 | the kept feeds have the spec, and every feed with the spec is kept as often as it occurs |
| Registry.FeedsWithSpecIsSubsequence | src/core/dmfr/index.ts:27-29 | the spec filter keeps the feeds in their original order |
| Registry.FeedsWithSpecIdempotent | src/core/dmfr/index.ts:27-29 | filtering by the same spec twice is the same as filtering once |
| Registry.GetFeedsBySpec | src/core/dmfr/index.ts:20-30 | the registry feeds of the spec, with the multiplicity they have in the registry |
| Registry.OperatorsOf | src/core/dmfr/index.ts:35 | `f.operators ?? []` |
| Registry.Adopt | src/core/dmfr/index.ts:36-44 | the spread `{...o, associated_feeds: [...], {feed_onestop_id: f.id}}` (its properties are `AdoptAppendsParent`) |
| Registry.AdoptAppendsParent | src/core/dmfr/index.ts:36-44 | adoption changes only the associated feeds, and the operator's feed ids become its own followed by the parent feed's id |
| Registry.AdoptAll | src/core/dmfr/index.ts:35-45 | each nested operator is the original with the owning feed's id appended to its associated feeds |
| Registry.NestedOperators | src/core/dmfr/index.ts:34-46 | the nested operators are exactly the adopted operators of the registry's feeds |
| Registry.NestedOperatorAssociation | src/core/dmfr/index.ts:36-44 | a nested operator's associated feeds are its own list followed by its owning feed |
| Registry.MergedOperators | src/core/dmfr/index.ts:48 | the merged list holds exactly the root operators and the nested operators |
| Registry.MapInsert | src/core/dmfr/index.ts:49 | one `Map.set`: the new operator is present, nothing but it is added, and operators with other ids stay |
| Registry.UniqueById | src/core/dmfr/index.ts:49-51 | the `Map` values contain only operators of the input |
| Registry.DistinctIds | src/core/dmfr/index.ts:49-51 | the reference key order: pairwise distinct ids, exactly the ids present |
| Registry.MapInsertStep | src/core/dmfr/index.ts:49 | one `Map.set` on entries with distinct ids: a present id takes the new operator in place, a new id goes last |
| Registry.UniqueByIdIsReference | src/core/dmfr/index.ts:49-51 | the `Map` construction keeps the ids in order of first occurrence, each with the last operator that carries it |
| Registry.GetOperators | src/core/dmfr/index.ts:32-52 | every returned operator is a root operator or a nested one |
| Registry.GetOperatorsProperties | src/core/dmfr/index.ts:32-52 | merged operators are deduplicated: distinct ids, every id present, first-occurrence order, last value wins |
| Registry.OperatorMatches | src/core/dmfr/index.ts:62-65 | the operator's `onestop_id` equals the id or its `supersedes_ids` include it |
| Registry.GetOperatorById | src/core/dmfr/index.ts:54-67 | the first deduplicated operator whose id or superseded ids contain the id; none exactly when none matches |
| Registry.AssociatedFeedIds | src/core/dmfr/index.ts:85-88 | the non-empty associated feed ids, all of them and only them |
| Registry.AssociatedFeedIdsAppend | src/core/dmfr/index.ts:85-88 | the `flatMap` works entry by entry: the ids of `a + b` are those of `a` followed by those of `b` |
| Registry.AssociatedFeedIdsOne | src/core/dmfr/index.ts:86-88 | one entry yields its id when that is non-empty, and nothing otherwise |
| Registry.Resolved | src/core/dmfr/index.ts:93-102 | one id contributes at most one feed, a registry feed known by that id, and none exactly when no feed is known by it |
| Registry.ResolveFeeds | src/core/dmfr/index.ts:90-103 | there are at most as many resolved feeds as ids |
| Registry.ResolveFeedsMatch | src/core/dmfr/index.ts:90-103 | every resolved feed is a registry feed known by one of the ids |
| Registry.ResolveFeedsSnoc | src/core/dmfr/index.ts:92-103 | resolving one more id appends that id's feed, if any |
| Registry.ResolveFeedsAppend | src/core/dmfr/index.ts:92-103 | resolving `a + b` gives the resolutions of `a` followed by those of `b` |
| Registry.ResolveFeedsSkipsUnknown | src/core/dmfr/index.ts:98-100 | an id that resolves to no feed contributes nothing |
| Registry.FeedsByOperatorId | src/core/dmfr/index.ts:69-106 | an unknown operator gives no feeds; every feed is a registry feed known by one of the operator's associated ids; at most one per associated id |
| Registry.EntryFeeds | src/core/dmfr/index.ts:86-102 | one associated entry contributes the feed its non-empty id names, if any |
| Registry.FeedsOfEntries | src/core/dmfr/index.ts:85-103 | reference order: each associated entry's feeds, in the order of `associated_feeds` |
| Registry.ResolveAssociatedFeeds | src/core/dmfr/index.ts:85-103 | resolving the associated ids gives each associated entry's feeds in entry order |
| Registry.FeedsByOperatorIdInEntryOrder | src/core/dmfr/index.ts:69-106 | for a known operator, the feeds are listed in the order of its `associated_feeds`, each entry contributing the feed its id names |
| Registry.GetFeedsByOperatorId | src/core/dmfr/index.ts:69-106 | the loop returns exactly `FeedsByOperatorId` |
| Auth.GetFeedSecret | src/core/extract/auth.ts:3-17 | the parameter is the authorization's parameter name; the value is the secret of the first entry with the feed's id, absent exactly when there is none |
| Auth.Unchanged | src/core/extract/auth.ts:182-183 | the request `{url: feedUrl, headers: new Headers()}`: the URL as given and no headers |
| Auth.GetHeaderAuth | src/core/extract/auth.ts:19-40 | with a parameter name and a secret, one header set from them; otherwise the URL unchanged with no headers; a rejected header is an exception |
| Auth.GetBasicAuth | src/core/extract/auth.ts:42-63 | with a secret, `Authorization: Basic <secret>` with no encoding; otherwise unchanged |
| Auth.BasicAuthIgnoresParam | src/core/extract/auth.ts:58-60 | basic authentication is independent of the parameter name |
| Auth.GetQueryParamAuth | src/core/extract/auth.ts:65-86 | with a parameter and a secret, the query gets the parameter set to the secret and every other pair unchanged; the origin, path and fragment are kept; no headers |
| Auth.GetPathSegmentAuth | src/core/extract/auth.ts:88-112 | only the path changes: the first occurrence of the encoded parameter becomes the encoded secret; a failure to encode the name is thrown, and otherwise a failure to encode the value |
| Auth.PathSegmentWithoutOccurrence | src/core/extract/auth.ts:104-109 | if the encoded parameter does not occur in the path, the URL is unchanged |
| Auth.PathSegmentReplacesFirstOccurrence | src/core/extract/auth.ts:104-109 | if the encoded parameter first occurs at `i`, the path becomes the text before `i`, the encoded secret, and the text after the occurrence |
| Auth.GetReplaceUrlAuth | src/core/extract/auth.ts:114-135 | with a secret, the URL becomes the parse of the secret, and a parse failure is thrown; otherwise unchanged |
| Auth.GetAuth | src/core/extract/auth.ts:137-185 | dispatch by scheme; no authorization or an unknown scheme leaves the request unchanged; at most one header, and only for header or basic authentication |
| Zip.GetFromZip | src/core/utils.ts:8-22 | an unzip failure propagates; a present member is returned exactly, even when empty; a missing member throws `'<target>' not found in zip` |
| Zip.GetFromZipIgnoresSourceKind | src/core/utils.ts:12 | an `ArrayBuffer` and a `Uint8Array` with the same bytes give the same result |
| Slots.PopulatedSlots | src/core/extract/gtfs.ts:15 | the candidate slots whose URL is present and non-empty, and no others |
| Slots.PopulatedSlotsInOrder | src/core/extract/gtfs-rt.ts:16-22 | the populated slots are the candidates with the others left out, in candidate order |
| Slots.PopulatedSlotsNoDuplicates | src/core/extract/gtfs-rt.ts:16-22 | distinct candidates give distinct slots, so no slot is visited twice |
| Slots.SlotUrl | src/core/extract/gtfs.ts:26 | the text `new URL(feed.urls[key]!)` parses; `undefined` for a missing slot |
| Slots.FetchSlot | src/core/extract/gtfs.ts:24-40 | a URL parse, authorization or fetch exception is raised as that exception; a fetch refused with a non-ok response has a status that is not ok; a received body comes with the URL authorization produced |
| Slots.FetchSlotLocal | src/core/extract/gtfs-rt.ts:29-35 | a slot's fetch depends only on the feed's id, its authorization and that slot's own URL |
| Slots.Caught | src/core/extract/gtfs.ts:61-65 | the `catch` branch: `{error_text}` from the exception's message, no status and no file |
| Slots.NotOk | src/core/extract/gtfs.ts:34-38 | the `!response.ok` branch: `{error_code: status, error_text: statusText}` and no file |
| Slots.Store | src/core/extract/gtfs.ts:51-60 | stored exactly when the write succeeds, then with the digest of the written bytes; a failed write is caught by its message |
| Slots.Outcomes | src/core/extract/gtfs.ts:22-67 | the entry has an outcome for exactly the visited slots, each that slot's own outcome |
| Slots.Writes | src/core/extract/gtfs.ts:55 | every written file comes from a visited slot, and every slot that wrote is among them |
| Slots.LoopStep | src/core/extract/gtfs.ts:22-67 | one more iteration assigns the next slot's outcome into the map and appends its file, if any |
| Gtfs.StaticAttempt | src/core/extract/gtfs.ts:23-66 | a slot is stored exactly when it wrote a file, at `<feed id>/<slot>.zip` under the storage root, with the digest of the bytes written |
| Gtfs.EndsWith | src/core/extract/gtfs.ts:47 | `endsWith`: the text's last characters are the suffix |
| Gtfs.StaticPath | src/core/extract/gtfs.ts:43 | `${feed.id}/${key}.zip` |
| Gtfs.NestedTarget | src/core/extract/gtfs.ts:45-47 | a nested target, when there is one, is non-empty and ends in `.zip` |
| Gtfs.StaticData | src/core/extract/gtfs.ts:45-49 | the bytes to store are the body when no member is named, otherwise the named member; it fails exactly when a member is named and the archive does not yield it, with the unzip error or the not-found error |
| Gtfs.Entry | src/core/extract/gtfs.ts:15-69 | the entry carries the feed's id and an outcome for `static_current` exactly when its URL is non-empty |
| Gtfs.EntryWrites | src/core/extract/gtfs.ts:55 | the files the static slot loop writes, one per stored slot, in slot order |
| Gtfs.AttemptSlot | src/core/extract/gtfs.ts:23-66 | the imperative slot body is `StaticAttempt` |
| Gtfs.ExtractGtfs | src/core/extract/gtfs.ts:6-70 | the slot loop returns exactly `Entry` and writes exactly `EntryWrites` |
| Gtfs.NotOkRecordsStatus | src/core/extract/gtfs.ts:34-40 | a response that is not ok records its status and status text and writes nothing |
| Gtfs.ExceptionsRecordMessage | src/core/extract/gtfs.ts:61-66 | a URL parse, authorization or fetch exception is recorded by its message, with no status and no file |
| Gtfs.StoredBytes | src/core/extract/gtfs.ts:42-65 | the stored bytes are the nested member when the URL names one and the body otherwise; a missing member fails the slot with the not-found message, and an archive that does not unzip fails it with the unzip error's message |
| Gtfs.NestedTargetIsFragment | src/core/extract/gtfs.ts:45-47 | the nested target is the URL fragment up to its first `#`, when that ends in `.zip` |
| Gtfs.FragmentNamesMember | src/core/extract/gtfs.ts:45-48 | a fragment with no further `#` that ends in `.zip` (such as `outer.zip#inner/data.zip`) names exactly that member |
| Gtfs.HashesMatchWrites | src/core/extract/gtfs.ts:51-60 | each stored hash is the digest of the bytes written at its path, and each written file belongs to a stored slot |
| Gtfs.WrittenPaths | src/core/extract/gtfs.ts:43-55 | every written file lies at `<storage>/<feed id>/<slot>.zip` for a populated slot |
| GtfsRt.RealtimeAttempt | src/core/extract/gtfs-rt.ts:30-76 | a slot is stored exactly when it wrote, under `.json` when `parse` is true and `.pb` otherwise, with the digest of the bytes written |
| GtfsRt.RealtimePath | src/core/extract/gtfs-rt.ts:50-58 | `<feed id>/<slot>.json` when `parse` is true and `.pb` otherwise |
| GtfsRt.Decoding | src/core/extract/gtfs-rt.ts:52 | `if (parse)` on an optional boolean: only `true` decodes |
| GtfsRt.Entry | src/core/extract/gtfs-rt.ts:16-79 | the entry carries the feed's id and an outcome for exactly the realtime slots with non-empty URLs |
| GtfsRt.EntryWrites | src/core/extract/gtfs-rt.ts:65 | the files the realtime slot loop writes, one per stored slot, in slot order |
| GtfsRt.KeysInFetchOrder | src/core/extract/gtfs-rt.ts:16-22 | the realtime slots are visited in the order alerts, trip updates, vehicle positions, each at most once |
| GtfsRt.AttemptSlot | src/core/extract/gtfs-rt.ts:30-76 | the imperative slot body is `RealtimeAttempt` |
| GtfsRt.ExtractGtfsRt | src/core/extract/gtfs-rt.ts:5-80 | the slot loop returns exactly `Entry` and writes exactly `EntryWrites` |
| GtfsRt.StoredPayload | src/core/extract/gtfs-rt.ts:49-65 | without parsing, the body is stored raw as `.pb`; with parsing, the JSON is stored as `.json`, and a decoding failure fails the slot |
| GtfsRt.NotOkRecordsStatus | src/core/extract/gtfs-rt.ts:41-47 | a response that is not ok records its status and text, whatever `parse` is |
| GtfsRt.ExceptionsRecordMessage | src/core/extract/gtfs-rt.ts:71-75 | a URL parse, authorization or fetch exception is recorded by its message, with no status and no file, whatever `parse` is |
| GtfsRt.AttemptIsLocal | src/core/extract/gtfs-rt.ts:29-77 | a slot's attempt depends only on the feed's id, its authorization and that slot's URL |
| GtfsRt.SlotsAreIndependent | src/core/extract/gtfs-rt.ts:29-77 | changing, adding or removing another slot's URL does not change a slot's outcome |
| GtfsRt.EntryIsUnionOfSlots | src/core/extract/gtfs-rt.ts:16-79 | a populated slot's outcome in the entry is the one the slot would have alone |
| GtfsRt.WrittenPaths | src/core/extract/gtfs-rt.ts:50-65 | every written file lies at `<storage>/<feed id>/<slot>.json` or `.pb`, as `parse` decides |
| Extract.ExtractEntry | src/core/extract/index.ts:16-35 | the entry keeps the feed's id; its slots are exactly the populated slots of the feed's spec, none for an unknown spec; outcomes come from that spec's extractor |
| Extract.ExtractFeed | src/core/extract/index.ts:5-36 | the dispatch returns exactly `ExtractEntry` and writes exactly `ExtractWrites` |
| Extract.ExtractWrites | src/core/extract/index.ts:16-35 | the files written for a feed: its extractor's writes, none for another spec |
| Extract.WritesStayInFeedDirectory | src/core/extract/index.ts:16-35 | every file written for a feed lies under `<storage>/<feed id>/`, is named after a populated slot of its spec, and has that spec's extension |
| ExtractCommand.SelectFeeds | src/command/extract.ts:72-97 | the selected feeds are registry feeds, have the `--spec` value when one is given, and number at most one under `--feed-id` |
| ExtractCommand.LookupKey | src/command/extract.ts:87-90 | the key `getFeedById` receives: `undefined` as shipped, the flag's value under the intended keying |
| ExtractCommand.SpecStage | src/command/extract.ts:72-77 | only `feeds` changes: to the registry feeds of the spec under `--spec`, otherwise nothing |
| ExtractCommand.OperatorStage | src/command/extract.ts:79-84 | only `feeds` changes: under `--operator-id` to `getFeedsByOperatorId` on the registry it saw, a subset of its feeds; otherwise nothing |
| ExtractCommand.FeedIdStage | src/command/extract.ts:86-93 | only `feeds` changes, to at most one of the feeds it saw under `--feed-id`, and nothing without it |
| ExtractCommand.SecretsFor | src/command/extract.ts:99-103 | no secrets without a secrets path, and otherwise the loaded ones |
| ExtractCommand.Entries | src/command/extract.ts:110-119 | one entry per feed, in order, each that feed's extraction |
| ExtractCommand.AllWrites | src/command/extract.ts:110-119 | the files the feed loop writes, feed after feed |
| ExtractCommand.Select | src/command/extract.ts:70-97 | the sequence of overwrites of `dmfr.feeds` yields exactly `SelectFeeds` |
| ExtractCommand.ExtractAll | src/command/extract.ts:105-119 | the feed loop builds exactly `Entries` and the writes in order |
| ExtractCommand.ExtractStep | src/command/extract.ts:110-119 | one more feed appends its entry to the manifest and its files to the writes |
| ExtractCommand.Run | src/command/extract.ts:70-119 | the manifest has the clock reading and one entry per selected feed, in order, with that feed's id and extraction |
| ExtractCommand.NoFiltersSelectsAll | src/command/extract.ts:72-97 | without filter flags every registry feed is extracted |
| ExtractCommand.SpecAloneSelectsSpecFeeds | src/command/extract.ts:72-97 | with `--spec` alone, every registry feed of that spec is extracted, in registry order |
| ExtractCommand.OperatorAloneSelectsOperatorFeeds | src/command/extract.ts:79-97 | with `--operator-id` alone, the feeds are what `getFeedsByOperatorId` returns on the whole registry |
| ExtractCommand.FeedIdAsShippedSelectsNothing | src/command/extract.ts:86-93 | as shipped, any non-empty `--feed-id` selects no feed |
| ExtractCommand.FeedIdSelectsMatch | src/command/extract.ts:86-93 | keyed by its value, `--feed-id` selects the first matching feed among those left by the earlier filters, and none exactly when there is no match |
| ExtractCommand.FeedIdAloneSearchesWholeRegistry | src/command/extract.ts:86-93 | keyed by its value, `--feed-id` alone selects the registry's first feed known by that id |
| ExtractCommand.OperatorAfterSpecSeesSpecFeeds | src/command/extract.ts:72-84 | `--operator-id` after `--spec` resolves the operator among the spec's feeds only |
| ExtractCommand.WritesBelongToExtractedFeeds | src/command/extract.ts:110-119 | every file the run writes lies under the directory of an extracted feed, at a populated slot with its spec's extension |

## Left out

- Loading the registry and the secrets (`loadDmfr`, `loadSecrets`, `Bun.file(...).json()`) is out. The registry is an input and the secrets loader is a function parameter. JSON-schema validation is not part of this model.
- Argument parsing by `meow` is out: the help text, `--spec` choices, the `storage` default of `out`, and showing help without a path. `Flags` holds the parsed values.
- Writing `manifest.json` (src/command/extract.ts:121) is out. `Run` returns the manifest. `extracted_at` is the parameter `now`, because the clock is I/O.
- URL parsing and serialisation are out. `parseUrl` and `formEncode` are abstract. A query is a list of decoded pairs, so a query that was never edited is re-serialised by `formEncode` instead of kept verbatim.
- Auth.GetPathSegmentAuth: assigning `pathname` stores the new path literally. The URL setter's re-parsing and percent-encoding is not modelled.
- WebUrl.ReplaceFirst: `$` patterns in the replacement text are not interpreted. `encodeURIComponent` never produces `$`, so they cannot occur here.
- `Headers` is a map with at most one entry. Header-name validation and normalisation are inside the abstract `setHeader`.
- `fetch` and `response.arrayBuffer()` are one abstract function of the request. A failure to read the body is folded into a thrown fetch.
- The URL object is mutated in place by the query-parameter, path-segment and replace-URL handlers (`feedUrl.href = …`), and the same object is then fetched. The model passes the new URL value on; the aliasing itself is not represented.
- Zip.GetFromZip: keys inherited from `Object.prototype`, such as `constructor`, are treated as missing members. Zip decoding is the abstract `unzip`.
- Protobuf decoding, `toJSON`, `JSON.stringify` and the UTF-8 encoding of the JSON text are one abstract `decodeToJson`. SHA-256 is the abstract `sha256Hex`.
- Strings are sequences of Unicode characters. JavaScript strings are UTF-16 code units and can hold lone surrogates, which the model cannot represent. This does not affect `split("#")`, `endsWith(".zip")` or `replace` with the patterns the code uses.
- Asynchrony is not modelled: the slots and feeds run one after another, as the `await`s force.

## Findings

| source | as written | input that shows it | evidently intended | confidence | as-written member | corrected member |
|---|---|---|---|---|---|---|
| src/command/extract.ts:87-90 | `getFeedById({dmfr, feedId})` passes the property `feedId`, but `getFeedById` reads `id` (src/core/dmfr/index.ts:14), so it looks up `undefined` and `--feed-id` always selects no feed | `--feed-id f1` on a registry containing a feed with id `f1` extracts nothing | look up the flag's value: select the first feed whose id or superseded ids contain it | not executed | ExtractCommand.FeedIdAsShippedSelectsNothing | ExtractCommand.FeedIdSelectsMatch |

# Self-hosted registry scripts, modelled in Dafny

The website's scripts keep small lists of self-hosted things as JSON text:

- **headless-explorer.js** is a Node command-line tool over `headless-standalone.json`.
  - Its centre is the identity-based merge. An incoming entry is appended, normalised to
    eight fields, unless the list built so far already holds an entry with the same
    `(name, host || '', type || 'anders')`.
  - The existing entry always wins.
  - The tool also has a small `--key value` argument parser and the `list`, `add`,
    `export` and `import` commands.
- **standalone.js** is a browser page with remote entries in `localStorage`.
  - Entries are filtered by type, status and a lowercased, trimmed search term.
  - The page exports a payload built from the whole list and appends one entry per
    form submission.
- **app.js** is a browser page with links in `localStorage`.
  - Links are filtered case-insensitively by tag.
  - It builds the list of distinct tags and checks a link form before appending.
  - It composes the upload URL and the matching `curl` command.

The model, module by module:

| module | models |
|---|---|
| `JsValues` | JavaScript values as the entries hold them (`undefined`, booleans, strings), truthiness and `v \|\| d` |
| `JsStrings` | `toLowerCase`, `trim` and `includes` |
| `Sequences` | `filter`, `new Set(...)` order, and subsequences |
| `Storage` | the key-value store (`localStorage`, or the file system with the path as key) as a class whose `items` map the methods update |
| `Registry` | `normalizeEntry` and `merge`, with `merge` as a method with a loop, proved against the fold `Merged` |
| `CliArgs` | `parseArgs`, as a loop proved against a token-by-token state function |
| `Cli` | the four commands |
| `Standalone` | standalone.js |
| `Links` and `Uploads` | app.js |

Things outside the model are parameters:
- JSON parsing is a partial function `string -> Option<...>` and serialisation a
  function `... -> string`.
- The clock value of `exportedAt` and the random upload slug are inputs.
- The outcome of reading and parsing stdin for `import` is an input.

Points where the model keeps the code exactly as written:
- The entry field is `type`, with default `'anders'`, and the import payload key is `standalone`.
- The CLI's `export` writes `{ standalone }` with no version; only the browser payload has `version: '1.0'`.
- The scripts hold no container discovery, HTTP sync or status-cycling operation, so none is modelled.

## Model

| member | source | states |
|---|---|---|
| JsValues.Or | headless-explorer.js:22-29 | `v \|\| d`: a truthy value is kept, a falsy one (undefined, false, '') becomes the default text |
| JsStrings.Lower | standalone.js:76 | `toLowerCase` keeps the length and lowers each character on its own (ASCII letters) |
| JsStrings.LowerIdempotent | standalone.js:76 | lowering twice is lowering once |
| JsStrings.Trim | standalone.js:76 | the result neither starts nor ends with JavaScript white space; it is empty exactly when the input is all white space |
| JsStrings.TrimIdempotent | app.js:67-70 | trimming a trimmed string changes nothing |
| Sequences.Filter | headless-explorer.js:78-85 | `Array.prototype.filter`: an order-preserving subsequence holding each accepted element exactly as often as the input and no rejected one |
| Sequences.FilterAll | standalone.js:78-85 | a predicate true of every element keeps the whole list |
| Sequences.Distinct | app.js:61 | `Array.from(new Set(xs))`: the same members, no duplicates, a subsequence, ordered by first occurrence |
| Storage.KeyValueStore.GetItem | app.js:17 | `getItem` is absent exactly when the key is absent, else the stored text |
| Storage.KeyValueStore.SetItem | app.js:27-29 | `setItem` replaces the key's text and leaves every other key alone |
| Storage.KeyValueStore.RemoveItem | standalone.js:16 | `removeItem` drops the key and leaves every other key alone |
| Storage.LoadList | standalone.js:11-19 | a missing or empty text gives [] and no change; an unparseable text gives [] and removes the key; otherwise the parsed list and no change |
| Registry.NormalizeEntry | headless-explorer.js:20-31 | exactly the eight fields; truthy values kept unchanged (no vocabulary check), falsy or missing ones become '' except type 'anders' and status 'unknown'; other keys dropped |
| Registry.NormalizeIdempotent | headless-explorer.js:20-31 | normalising a normalised entry changes nothing |
| Registry.NormalizeKeepsIdentity | headless-explorer.js:37-44 | normalising a named entry keeps its identity triple and its name |
| Registry.MergeStep | headless-explorer.js:36-45 | one incoming entry: the list grows by exactly the normalised entry iff the entry has a name and no entry of the list has its identity; otherwise it is unchanged |
| Registry.Merged | headless-explorer.js:33-48 | the existing list is an unchanged prefix of the result, and at most one entry is added per incoming entry |
| Registry.Merge | headless-explorer.js:33-48 | the loop with `find` and `push` computes exactly `Merged(entries, incoming)` |
| Registry.Find | headless-explorer.js:37-42 | `find` returns the first entry with the same identity, and nothing iff there is none |
| Registry.KnownKept | headless-explorer.js:43-45 | a merge step never loses an identity already present |
| Registry.MergedCoversIncoming | headless-explorer.js:35-46 | after a merge, every named incoming entry's identity is present |
| Registry.MergedStable | headless-explorer.js:35-46 | merging entries whose identities are all present leaves the list unchanged |
| Registry.MergeIdempotent | headless-explorer.js:33-48 | `merge(merge(E, I), I) == merge(E, I)` |
| Registry.MergeSelf | headless-explorer.js:33-48 | `merge(E, E) == E` |
| Registry.MergedAppendsFresh | headless-explorer.js:37-45 | each appended entry has an identity that no earlier entry of the result has, so duplicates within the incoming list are dropped too |
| Registry.MergePreservesUniqueness | headless-explorer.js:37-45 | a list without two entries sharing an identity keeps that property after a merge |
| Registry.MergeExistingWins | headless-explorer.js:34-45 | every existing entry is left exactly as it was, and no entry with its identity is appended |
| Registry.MergedAppendsInOrder | headless-explorer.js:35-46 | the appended entries are normalised named incoming entries in arrival order; an entry without a name is never added |
| CliArgs.ParseStep | headless-explorer.js:54-60 | one token: a `--k` token sets `args[k]` to true and makes k pending; otherwise a pending (non-empty) key takes the token as its value and is cleared; otherwise nothing changes |
| CliArgs.ParseArgs | headless-explorer.js:50-63 | the loop over the tokens computes the `args` of the token-by-token state machine |
| CliArgs.PendingAfter | headless-explorer.js:53-61 | a key is pending exactly when the last token was a flag with a non-empty key, and it is that key |
| CliArgs.ParseArgsKeys | headless-explorer.js:53-61 | the keys of `args` are exactly the keys of the `--key` tokens; other tokens never create keys |
| CliArgs.ParseArgsLastFlag | headless-explorer.js:53-61 | later occurrences overwrite earlier ones: `args[k]` is the token after the last `--k` when that token is not a flag, and `true` otherwise |
| Cli.LoadEntries | headless-explorer.js:7-14 | an unreadable or unparseable file gives [], otherwise the parsed list |
| Cli.ListMatches | headless-explorer.js:79-84 | an entry passes when each truthy filter holds: `type` and `status` by strict equality, `search` when the lowercased text of some field value contains the lowercased search text |
| Cli.ListFiltered | headless-explorer.js:78-85 | the listed rows are an order-preserving subsequence holding exactly the entries that pass the type, status and search filters |
| Cli.ListWithoutFilters | headless-explorer.js:78-85 | with no truthy `type`, `status` or `search`, every entry is listed |
| Cli.ListByField | headless-explorer.js:79-84 | with a truthy type or status, whether or not a search is given, every listed entry has exactly that field value |
| Cli.ListCommand | headless-explorer.js:75-91 | "no items" exactly when the filtered list is empty, else the filtered rows |
| Cli.AddCommand | headless-explorer.js:93-102 | exit code 1 and no store change without a truthy name; otherwise the merge of the arguments into the stored list is saved |
| Cli.AddAppendsOrKeeps | headless-explorer.js:93-102 | `add` keeps the list when the identity is present, else appends exactly the normalised arguments |
| Cli.ExportCommand | headless-explorer.js:104-108 | the payload's `standalone` field is the stored list (no version field) |
| Cli.ImportCommand | headless-explorer.js:110-127 | unparseable input or a missing `standalone` array is rejected without touching the store; otherwise the merge is saved and the report is `next.length - existing.length` new of `next.length` |
| Cli.ExportThenImportAddsNothing | headless-explorer.js:104-126 | importing the export of a store into the same store saves the same list |
| Cli.ReimportAddsNothing | headless-explorer.js:123-126 | under a codec that gives the saved list back, the second import of the same payload reads the list the first one saved, saves it unchanged and reports zero new entries |
| Standalone.LoadRemoteEntries | standalone.js:11-19 | a missing key gives []; unparseable text gives [] and removes the key; otherwise the stored list and no change |
| Standalone.StatusLabel | standalone.js:37 | 'Aan' iff running, 'Uit' iff stopped, 'Onbekend' iff anything else |
| Standalone.StatusIcon | standalone.js:36 | green iff running, red iff stopped, white iff anything else |
| Standalone.SearchTerm | standalone.js:76 | the term is the search text lowercased, then trimmed |
| Standalone.RemoteMatches | standalone.js:79-83 | an entry passes when the type and status filters are each empty or equal to its field, and the term is empty or contained in its lowercased name or host |
| Standalone.FilterRemoteEntries | standalone.js:78-85 | an order-preserving subsequence holding exactly the entries that pass type, status and search-term tests, each as often as stored |
| Standalone.FilterRemoteShowsAll | standalone.js:74-83 | empty type and status filters and a blank search show every entry |
| Standalone.SearchTermIgnoresCase | standalone.js:76 | lowercasing the search text beforehand gives the same term |
| Standalone.SearchTermNormalised | standalone.js:76 | lowercasing and trimming the term is idempotent |
| Standalone.TrimLowered | standalone.js:76 | trimming a lowercased string leaves it lowercased |
| Standalone.GeneratePayload | standalone.js:62-67 | version '1.0', the given time, and the entries under `standalone` |
| Standalone.FilterRemote | standalone.js:72-89 | the shown entries are the filter of the stored list, while the payload holds the whole stored list; the key is removed exactly when its non-empty text does not parse |
| Standalone.NewRemoteEntry | standalone.js:94-103 | every text field trimmed; type and status as selected |
| Standalone.NewRemoteEntryStable | standalone.js:94-103 | submitting a built entry's fields again builds the same entry |
| Standalone.SubmitRemote | standalone.js:91-108 | the stored list plus the new entry at the end (no dedup) is saved; under a round-tripping codec the next load returns exactly that list |
| Links.LoadLinks | app.js:16-25 | a missing key gives []; unparseable text gives [] and removes the key; otherwise the stored list and no change |
| Links.SameTag | app.js:50 | a link's tag matches when both lowercased are equal |
| Links.FilterByTag | app.js:50 | an empty tag keeps all links; otherwise an order-preserving subsequence of exactly the links whose tag equals it ignoring case |
| Links.RenderLinks | app.js:48-57 | the shown links are the tag filter of the stored list; the key is removed exactly when its non-empty text does not parse |
| Links.Tags | app.js:61 | `links.map(l => l.tag)` index by index |
| Links.DistinctTags | app.js:61 | each tag in use exactly once, nothing else, in first-use order |
| Links.OfferedTagShowsLinks | app.js:59-63 | choosing any offered non-empty tag shows at least one link |
| Links.RefreshTagFilter | app.js:59-63 | the options are the distinct tags of the stored list; the key is removed exactly when its non-empty text does not parse |
| Links.NewLink | app.js:67-72 | rejected iff the trimmed name, url or tag is empty (an empty note is allowed); otherwise the trimmed fields |
| Links.NewLinkStable | app.js:67-72 | an accepted link submitted again is accepted unchanged |
| Links.AppendLink | app.js:74-76 | the stored list plus the link at the end is saved; under a round-tripping codec the next load returns exactly that list |
| Links.HandleLinkSubmit | app.js:65-82 | accepted iff `NewLink` accepts; a rejection leaves the store unchanged; an acceptance appends and saves |
| Uploads.Utf8 | app.js:91 | one to four bytes per code point, one byte exactly for ASCII |
| Uploads.PercentEncode | app.js:91 | three characters per byte, each '%' or an upper-case hex digit |
| Uploads.EncodeUriComponent | app.js:91 | the result holds only unreserved characters, '%' and hex digits, and is at least as long as the input |
| Uploads.EncodeUnreservedIsIdentity | app.js:91 | a name of unreserved characters only is encoded as itself |
| Uploads.EncodedHasNoSlash | app.js:91 | an encoded name holds no '/' |
| Uploads.StripTrailingSlash | app.js:91 | at most one trailing '/' is removed, and one is removed iff the endpoint ends with '/' |
| Uploads.UploadUrl | app.js:91 | the URL is exactly the stripped endpoint, "/uploads/", the slug, '/' and the encoded file name, with nothing in between; its last path segment is the encoded name |
| Uploads.UploadUrlTrailingSlash | app.js:91 | an endpoint with or without one trailing '/' gives the same URL |
| Uploads.HandleUploadSubmit | app.js:84-97 | nothing iff there is no file or the trimmed endpoint is empty; otherwise the URL for the trimmed endpoint and `curl -T "<name>" <url>` |

## Left out

- Rendering is not modelled: DOM construction, `innerHTML`, cards, tabs, `scrollIntoView`, the clipboard, `setTimeout` and event wiring. Of the rendering code, only the status label and icon choices are kept.
- I/O and serialisation are abstract:
  - `localStorage`, `fs.readFileSync` and `fs.writeFileSync` are the `KeyValueStore`.
  - `JSON.parse` and `JSON.stringify` are function parameters, and `btoa` is left out.
  - Console output, `console.table` and `process.exit` are reduced to the returned values (`ListOutput`, exit codes, `ImportReport`).
  - Reading stdin is reduced to an `Option<Payload>` input.
- `new Date().toISOString()` and the `Date.now()`/`Math.random()` slug are nondeterministic, so they are inputs.
- `printHelp` and the `main` dispatch are not modelled; they only print and route.
- JsStrings.Lower: only ASCII letters are lowered. JavaScript's full Unicode case mapping, including mappings that change the length, is not modelled.
- JsStrings.Trim: its own contract does not state that the result is a slice of the input. The slice facts are stated by its parts `TrimStart` and `TrimEnd`.
- Uploads.EncodeUriComponent: lone surrogates are not modelled; JavaScript throws on them, and Dafny characters are scalar values.
- JsValues: JSON numbers, `null`, nested objects and arrays are not modelled; entries hold `undefined`, booleans and strings.
  - So `String(value)` in the `list` search covers only those values.
- Stored text that parses to something other than a list, and list items that are not records, are not modelled.
  - For example, `merge` would skip a `null` item through `entry?.name`.
  - `filterRemote` would throw on an entry without a `name` when the search term is non-empty (standalone.js:81-82).
  - Standalone entries and links are records of strings.
- `__dirname` in the storage path is not modelled, and object keys have no prototype, so keys like `__proto__` behave as ordinary keys.
- After a submit, app.js resets the form, refreshes the tag filter and re-renders, and standalone.js calls `filterRemote`. Those calls are modelled on their own (`RefreshTagFilter`, `RenderLinks`, `FilterRemote`) but not chained after the submit methods.

# MangaRock client: the reshaping core

A Dafny model of the Go client for the MangaRock web API (`mangarock.go`).
The client asks the API for things and gets back JSON. What happens to the
decoded data afterwards is modelled here:

* `mangasByIDs` puts the metadata lookup (a map from ID to manga) back into
  the order of the requested IDs.
* `addAuthors` sends one batched lookup for the author IDs of all mangas.
  It indexes the returned authors by ID, appends the looked-up authors to
  each manga in place and sets each manga's primary author.
* The public operations `Latest`, `Search`, `Manga`, `Mangas`, `Chapter` and
  `Author` run these steps in a fixed order.

Each HTTP round trip is a parameter of type `Exchange<T>`. It is either a
transport failure or a `{code, data}` envelope, and `data` is `None` when it
does not decode into the expected shape. `Transport.Receive` turns an
exchange into a result the same way `get`/`post` and the following
`json.Unmarshal` do. Every public operation also returns `calls`: the
requests it issued, in order, with their payloads. This makes early
termination something the contracts can state. For example, a failed or
empty author lookup in `Author` means the related-series feed is never
requested.

Where the code fills a slice by `append`, the model builds a `seq` in a
loop. Where it writes into slice elements in place (the ID slice of
`Latest`, the manga slice in `addAuthors` and in `Author`), the model uses
an `array` (with `modifies` where the caller's array is updated). Each loop is proved against a specification
function (`Select`, `AllAuthorIDs`, `IndexByID`, `Resolve`/`Attach`), and
lemmas prove what the code promises about those functions.

Modules: `Entities` (records and error kinds), `Transport` (envelope and
decoding), `Joiner` (`mangasByIDs`, `addAuthors`), `Facade` (public
operations).

An author ID that the lookup does not return is not skipped.
`mangarock.go:212` reads the map without a presence check, so a
zero-value `Author` is appended. `Joiner.Lookup` and `Joiner.Attach`
reproduce this.

## Model

| member | source | states |
|---|---|---|
| `Transport.Unwrap` | mangarock.go:58-65 | Envelope check of `get` (same as `post`, lines 84-91). A transport failure is a transport error. A non-zero code is an API error carrying that code, never 0. Code 0 returns `data` unchanged. |
| `Transport.DecodeData` | mangarock.go:230-233 | Decoding the payload: an earlier error passes through unchanged. A payload of the wrong shape is a decode error. Otherwise the decoded value is returned. |
| `Transport.Receive` | mangarock.go:226-233 | A whole request step succeeds exactly when the envelope arrived with code 0 and its data decoded. The value is that data. Any error is transport, decode or a non-zero API code. |
| `Joiner.MangasByIDs` | mangarock.go:225-241 | Fails only when the lookup fails, with the same error. Otherwise returns `Select(ids, map)`: the mangas of the known IDs in `ids` order. The loop is proved against `Select`. |
| `Joiner.SelectLength` | mangarock.go:234-239 | At most one manga per requested ID. Exactly one per ID iff every requested ID is a key of the map. |
| `Joiner.SelectAt` | mangarock.go:235-237 | Every known ID at position `i` of `ids` puts `mangaMap[ids[i]]` into the output at its own rank (the number of known IDs before it). Duplicate IDs therefore give duplicate outputs. |
| `Joiner.SelectOrder` | mangarock.go:235-237 | A known ID later in `ids` lands strictly later in the output (order preserved). |
| `Joiner.SelectOrigin` | mangarock.go:234-239 | Every output is `mangaMap[ids[i]]` for some known ID `ids[i]` whose rank is that output's position. Nothing else appears, and unknown IDs are dropped without error. |
| `Joiner.SelectPrefix` | mangarock.go:234-239 | The selection from a prefix of `ids` is a prefix of the whole selection: the loop only ever appends. |
| `Joiner.CollectAuthorIDs` | mangarock.go:197-200 | The author request is `AllAuthorIDs` of the mangas, every manga's author IDs concatenated in manga order. |
| `Joiner.AllAuthorIDsBlock` | mangarock.go:197-200 | Manga `i`'s author IDs appear in the request as one block, right after those of the mangas before it. Duplicates are kept. |
| `Joiner.BuildAuthorMap` | mangarock.go:205-208 | The author map built by the loop is `IndexByID(authors)`. |
| `Joiner.IndexByIDKeys` | mangarock.go:205-208 | The map's keys are exactly the IDs of the returned authors. Each entry is stored under its own ID. |
| `Joiner.IndexByIDLast` | mangarock.go:205-208 | Under each ID the map holds the last returned author with that ID. |
| `Joiner.Lookup` | mangarock.go:212 | Go's map read: a key in the map gives its entry, a missing key gives `ZeroAuthor`. |
| `Joiner.ResolveAt` | mangarock.go:211-213 | One looked-up author per author ID, in ID order. An ID absent from the map gives the zero `Author`. |
| `Joiner.Attach` | mangarock.go:210-218 | Per manga, only `Authors` and `Author` change. The old `Authors` are kept, followed by one entry per author ID (`authorMap[id]` or the zero author). `Author` becomes `Authors[0]` when the list is non-empty and is otherwise unchanged. A manga with no authors and no author IDs comes back as it was. |
| `Joiner.AttachAt` | mangarock.go:211-217 | One round of the loop: manga `i` becomes `Attach` of its old value through successive appends and the primary-author write. Every other array position is unchanged. |
| `Joiner.AttachAuthors` | mangarock.go:210-218 | The nested in-place loop turns every array element into `Attach` of its old value. Length and order are unchanged. |
| `Joiner.AddAuthors` | mangarock.go:196-221 | Requests `AllAuthorIDs` of the mangas. On a failed lookup it reports that error and leaves the mangas untouched. Otherwise every manga becomes `Attach(old, IndexByID(authors))` in place. |
| `Joiner.AttachResolvesAll` | mangarock.go:205-217 | If the lookup returns an author for every requested ID, every appended author carries the requested ID (no zero value appears). A manga that had no authors gets the author of its first ID as primary author. |
| `Facade.JoinedShape` | mangarock.go:188-192 | A joined result (`mangasByIDs` then `addAuthors`) has at most one manga per ID. Each is the looked-up manga of a known ID with only its author fields changed, at that ID's rank. |
| `Facade.JoinedSingle` | mangarock_test.go:44-61 | A one-hit search whose single author ID resolves returns exactly that manga, with that author as its author list and its primary author. |
| `Facade.JoinWithAuthors` | mangarock.go:188-192 | The result is the joined value. The requests are the manga lookup and, only if it succeeded, the author lookup for the selected mangas' author IDs. |
| `Facade.LatestIDs` | mangarock.go:162-165 | The ID slice has the feed's length, and slot `i` holds the ID of feed entry `i`. |
| `Facade.Latest` | mangarock.go:153-171 | A failed feed stops with its error after one request. Otherwise the result is the joined value for the feed's IDs, after the requests `LatestFeed` and `Meta(ids)`. A failed manga lookup stops there; otherwise exactly one more request follows, the author lookup `Meta(AllAuthorIDs(Select(ids, map)))`. `page` has no effect. |
| `Facade.Search` | mangarock.go:174-193 | A failed search stops with its error after one request. Otherwise the result is the joined value for the returned IDs, after `SeriesSearch(query)` and `Meta(ids)`. A failed manga lookup stops there; otherwise exactly one more request follows, the author lookup `Meta(AllAuthorIDs(Select(ids, map)))`. |
| `Facade.Mangas` | mangarock.go:275-281 | One lookup request. Its error is passed on, and otherwise the result is `Select(ids, map)`. |
| `Facade.WithPrimaryAuthor` | mangarock.go:270 | Requires a non-empty author list. The primary author becomes `Authors[0]` and nothing else changes. |
| `Facade.Detail` | mangarock.go:261-272 | A failed info request is passed on. A decoded manga with no authors fails on the first-element read. Otherwise the result is the decoded manga with `Author == Authors[0]` and nothing else changed. |
| `Facade.MangaInfo` | mangarock.go:261-272 | Exactly one info request. The outcome is `Detail`. |
| `Facade.FindChapter` | mangarock.go:299-306 | Succeeds iff some chapter has the wanted ID. The result is the first such chapter with its pages replaced and every other field kept. No match is a not-found error. |
| `Facade.ChapterWithPages` | mangarock.go:284-307 | A failed manga step stops after one request. Otherwise the pages are requested, and their error is passed on. Then comes the first-match scan over the decoded chapter list. |
| `Facade.SeriesIDs` | mangarock.go:329-332 | The ID list has one entry per related-series record, the ID of that record, in order. |
| `Facade.StampAuthor` | mangarock.go:337-339 | Every manga's primary author is overwritten in place. Nothing else and no other position changes. |
| `Facade.AuthorWithMangas` | mangarock.go:310-341 | A failed or empty author lookup ends the operation after that one request (error or not-found). Otherwise it requests the related series, then looks up their IDs. On success the result is `authors[0]` plus the looked-up mangas in ID order, with the same length and each primary author set to `authors[0]`. |

## Left out

- HTTP transport in `get`/`post` (building the request, sending it, closing the body) is network I/O. Its outcome is the `Delivery` parameter.
- The goroutine and pipe that stream the POST body are concurrency for encoding only. Request payloads are recorded as `Call` values.
- JSON encoding and decoding, struct tags and raw messages are not modelled. A payload either decodes to the expected value or is a decode error. Go's treatment of `null` and missing fields is not modelled.
- `Manga.Updated` is a `time.Time`. It is carried as an opaque `Timestamp` and never inspected.
- `authorsByIDs` has no member of its own. It iterates a Go map in an unspecified order, so its result is the decoded author sequence given as a parameter, in whatever order the map was walked.
- Error messages and the context added by `errors.Wrap` are not modelled. Errors are kinds (`TransportFailure`, `ApiCode`, `Decode`, `NotFound`, `IndexOutOfRange`).
- `Detail`: reading `Authors[0]` of an empty list is a Go runtime panic, which aborts the caller. The model returns it as the error kind `IndexOutOfRange`.
- `New`, `WithBase` and `WithHTTPClient` only set configuration, and URL construction only concatenates strings. The base URL and the query strings are not modelled. Requests are identified by their `Call` kind and payload.
- The difference between a nil and an empty Go slice is not modelled. Both are the empty sequence.
- The test file's checks on live fixture data (names, page counts) depend on recorded HTTP responses and are not modelled. The search scenario appears only in its general form, as `Facade.JoinedSingle`.

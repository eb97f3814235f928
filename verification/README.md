# Movies service: a Dafny model

This project models the core of `node/movies-service.js`. That file is a small read-only
web service over a box-office dataset. At start-up it files every movie into three
category indexes: studios, genres and ratings. It then answers GET requests for:

- the whole dataset;
- the keys of one index;
- the totals of one entry;
- the movies of one entry.

The model covers five parts, one module each:

- `CategoryKey` (category_key.dfy): how a category value becomes an index key. The value is trimmed, lower-cased, and its first `/` becomes `-`. A missing field or an empty key is skipped.
- `Indexer` (indexer.dfy): `addToIndex` and the start-up loop. An `Index` is a map from key to `Entry`, together with the order in which keys were created.
- `UriComponent` (uri_component.dfy): `decodeURIComponent`, following the Decode operation of ECMA-262. `%HH` escapes are decoded into UTF-8 sequences, and malformed input throws. `encodeURIComponent` is modelled as its inverse.
- `Router` (router.dfy): the five regular-expression routes, and the dispatch loop that takes the first pattern that matches.
- `Service` (service.dfy): the four data handlers, the root page and the request callback. `Handle` maps a snapshot and a path to an `Outcome`:
  - `Ok(payload)` for status 200;
  - `NotFound` for status 404;
  - `Fault` for status 500, when a handler throws.

`Wrappers` (wrappers.dfy) holds `Option`, and `Movies` (movies.dfy) holds the movie record.

Three behaviours of the code are worth stating on their own, because a reader might expect
otherwise. The model follows the code in each case:

- Line 75 calls `propValue.replace('/', '-')` with a string pattern, which replaces only the first slash, although the comment at line 74 speaks of replacing `/` in general. So normalisation is idempotent only for values with at most one slash (`NormalizeIdempotentIff`): `"a//b"` gives `"a-/b"` once and `"a--b"` twice.
- Lines 176 and 200 look up the decoded key as it is. They do not normalise it again. So `/genres/Action` and `/genres/%41ction` are not found even when `/genres/action` and `/genres/%61ction` are (`UnnormalisedKeyNotFound`, `ActionSummary`).
- Lines 213-214 route on `url.parse(request.url, true).path`, which still holds the query string. So `/genres?x=1` matches no route and gets a 404, whatever the query holds (`QueryStringNotRouted`). A query written after the trailing slash, as in `/genres/?x=1`, is captured by `([^/]+)` at line 144 as the entry key. It then gets a 404 unless some movie is filed under that key (`QueryAfterSlash`). `/genres/?q=100%` gets a 500, because the bare `%` makes `decodeURIComponent` throw (`TrailingPercentQueryFaults`).

## Model

| member | source | states |
|---|---|---|
| CategoryKey.TrimStartSpec | node/movies-service.js:72 | the leading part `trim` removes is all whitespace, and what remains does not start with whitespace |
| CategoryKey.TrimEndSpec | node/movies-service.js:72 | the trailing part `trim` removes is all whitespace, and what remains does not end with whitespace |
| CategoryKey.ToLowerSpec | node/movies-service.js:72 | `toLowerCase` keeps the length and maps each character on its own |
| CategoryKey.ReplaceFirstSlashSpec | node/movies-service.js:75 | only the first `/` becomes `-`; every other character, later slashes included, is kept; text without a slash is unchanged |
| CategoryKey.ReplaceFirstSlashCount | node/movies-service.js:75 | the replacement removes exactly one slash when there is one |
| CategoryKey.NormalizeShape | node/movies-service.js:72-75 | a key never starts or ends with whitespace and has no upper-case letter |
| CategoryKey.TrimEmptyIff | node/movies-service.js:72 | `trim` leaves nothing exactly when the text is all whitespace |
| CategoryKey.KeyOfShape | node/movies-service.js:65-79 | a field yields no key exactly when it is missing or all whitespace; a key it yields has no surrounding whitespace and no upper-case letter |
| CategoryKey.NormalizeSlashCount | node/movies-service.js:72-75 | a key has one slash fewer than its value, or none when the value has none |
| CategoryKey.NormalizeIdempotentIff | node/movies-service.js:72-75 | normalising a key again changes nothing exactly when the original value had at most one slash |
| CategoryKey.TwoSlashesNotIdempotent | node/movies-service.js:75 | `"a//b"` normalises to `"a-/b"`, and normalising that again gives `"a--b"` |
| CategoryKey.NormalizeIgnoresPadding | node/movies-service.js:72 | whitespace around a value does not change its key |
| CategoryKey.NormalizeIgnoresCase | node/movies-service.js:72 | values that are equal after lower-casing share a key |
| CategoryKey.ActionVariants | node/movies-service.js:72-75 | `"Action"`, `" action "` and `"action"` all become `"action"` |
| Indexer.AddToIndex | node/movies-service.js:64-98 | a movie without a key leaves the index unchanged; otherwise its entry, created empty when new, gains the movie at the end and its revenue and tickets; no other entry changes; a new key is appended to the key order |
| Indexer.AddToIndexPreservesWellFormed | node/movies-service.js:64-98 | filing a movie keeps every entry non-empty and its totals equal to the sums over its movies; every movie stays under its own key; the key order stays a duplicate-free list of the keys |
| Indexer.BuildIndex | node/movies-service.js:105-110 | the index the start-up loop builds for one category is well formed |
| Indexer.BuildIndexes | node/movies-service.js:105-110 | one pass that files each movie into all three indexes gives, for each index, the index built from its own category alone |
| Indexer.MembersSnoc | node/movies-service.js:92-97 | adding one movie at the end grows the member list by that movie when its key matches, and grows both sums by its values |
| Indexer.BuildIndexContents | node/movies-service.js:64-110 | a built index has an entry for `k` exactly when some movie has key `k`, and the entry lists exactly those movies in dataset order |
| Indexer.BuildIndexTotals | node/movies-service.js:93-97 | every entry's totals are the sums of revenue and tickets over its own movies, and the entry is never empty |
| Indexer.MembersCount | node/movies-service.js:92 | the entry for a key holds each movie of that key as often as it occurs in the dataset, and no movie of another key |
| Indexer.MovieFiledOnce | node/movies-service.js:105-110 | every movie with a key is in that key's entry as often as in the dataset, and in no other entry |
| Indexer.IndexKeysIndependent | node/movies-service.js:105-110 | an index's keys and their order depend only on the index's own field of each movie |
| UriComponent.Decode | node/movies-service.js:176 | text without `%` decodes to itself, and decoding never lengthens text |
| UriComponent.Utf8RoundTrip | node/movies-service.js:176 | the UTF-8 encoding of any character is a valid sequence of the length its lead byte announces, and decodes back to that character |
| UriComponent.DecodeEncode | node/movies-service.js:176 | decoding undoes `encodeURIComponent` for every string |
| UriComponent.EncodeHasNoSlash | node/movies-service.js:144 | an encoded non-empty key is a non-empty segment without `/`, as `[^/]+` requires |
| UriComponent.ReadEscapesBeforeBadEscape | node/movies-service.js:176 | a run of escapes that reads cleanly ends before any `%` that is not followed by two hex digits |
| UriComponent.DecodeRejectsBadEscape | node/movies-service.js:176 | a `%` anywhere in the text that is not followed by two hex digits makes decoding throw, whatever comes before it |
| UriComponent.LaterBadEscapeRejected | node/movies-service.js:176 | `%41%zz`, `%C3%` and `a%20b%` each throw |
| UriComponent.LoneContinuationRejected | node/movies-service.js:176 | `%80` alone throws: a continuation byte cannot start a sequence |
| UriComponent.OverlongRejected | node/movies-service.js:176 | the overlong `%C0%80` throws |
| UriComponent.SurrogateRejected | node/movies-service.js:176 | the encoded surrogate `%ED%A0%80` throws |
| UriComponent.EscapedSpaceDecoded | node/movies-service.js:176 | `a%20b` decodes to `a b` |
| UriComponent.EscapedLetterDecoded | node/movies-service.js:176 | `%C3%A9` decodes to `é` |
| Router.ParseNameText | node/movies-service.js:143 | the name capture accepts exactly `genres`, `studios` and `ratings` |
| Router.SplitJoin | node/movies-service.js:144 | joining the segments of a path with slashes gives back the path |
| Router.JoinSplit | node/movies-service.js:144 | splitting slash-joined, slash-free segments gives back the segments |
| Router.ExecSound | node/movies-service.js:141-145 | a pattern matches only paths of the shape its regular expression spells out, and captures the name and key found there |
| Router.ExecComplete | node/movies-service.js:141-145 | every path of a route's shape is matched by that route's pattern, with those captures |
| Router.ExecShape | node/movies-service.js:141-145 | a pattern matches a path with given captures exactly when the path has that route's shape |
| Router.FirstMatchSpec | node/movies-service.js:223-236 | dispatch takes the earliest pattern that matches, and finds nothing only when no pattern matches |
| Router.PatternsDisjoint | node/movies-service.js:140-146 | no path matches two patterns of the table |
| Router.MatchShape | node/movies-service.js:223-236 | the router resolves a path to a route exactly when the path has that route's shape |
| Router.TrailingSlashIgnored | node/movies-service.js:142-145 | adding one trailing slash never changes the route |
| Router.EntryNamedMovies | node/movies-service.js:144-145 | `/genres/movies` is the entry named `movies`, not a movie list |
| Router.QueryStringNotRouted | node/movies-service.js:213-214 | an index name followed by `?` and any query string, slashes included, matches no route |
| Router.QueryHasNoShape | node/movies-service.js:140-146 | such a path has the shape of none of the five routes |
| Router.QueryNotUnderIndex | node/movies-service.js:143-145 | an index name followed by `?` is not any index name followed by nothing or by a slash |
| Router.QueryAfterSlashIsKey | node/movies-service.js:144 | a slash-free query written after the index name's trailing slash is captured as the entry key |
| Service.IndexOfLoad | node/movies-service.js:52-56 | each index name selects the index built from its own category |
| Service.RootServed | node/movies-service.js:150-153 | the root page is served for exactly the path `/` |
| Service.UnroutedNotFound | node/movies-service.js:238-239 | a path of no route's shape gets 404 |
| Service.FaultIff | node/movies-service.js:226-232 | a request gets 500 exactly when it reaches an entry handler with a key segment that does not decode |
| Service.AllMovies | node/movies-service.js:155-157 | `/movies` returns the whole dataset |
| Service.MembersNonEmpty | node/movies-service.js:64-98 | some movie is filed under `k` exactly when some movie of the dataset has key `k` |
| Service.ListingKeys | node/movies-service.js:159-169 | a listing returns each key that some movie has, once, and no other key |
| Service.SegmentHandled | node/movies-service.js:144-145 | any `[^/]+` segment after an index name reaches the summary handler, and the movies handler when `/movies` follows, whatever the snapshot |
| Service.LookupDecoded | node/movies-service.js:176-177 | looking up a segment that decodes to `k` finds an entry exactly when some movie has key `k`; the entry lists exactly those movies and their totals |
| Service.EntrySummary | node/movies-service.js:171-193 | a request for any segment that decodes to `k` reports the revenue total, ticket total and number of exactly the movies with key `k`, or 404 when there are none |
| Service.EntryMovies | node/movies-service.js:195-207 | a movies request for any segment that decodes to `k` returns exactly the movies with key `k`, in dataset order, or 404 when there are none |
| Service.EntryPathSummary | node/movies-service.js:171-193 | the same summary for the path a client builds with `encodeURIComponent` from a non-empty key |
| Service.EntryPathMovies | node/movies-service.js:195-207 | the same movie list for the path a client builds with `encodeURIComponent` from a non-empty key |
| Service.QueryAfterSlash | node/movies-service.js:171-193 | a query string written after the index name's trailing slash is decoded and looked up as the entry key: 500 when it does not decode, otherwise the summary of the movies filed under the decoded text, or 404 |
| Service.TrailingPercentQueryFaults | node/movies-service.js:226-232 | `/genres/?q=100%` gets 500 |
| Service.UnnormalisedKeyNotFiled | node/movies-service.js:72 | no movie is filed under a key with an upper-case letter or surrounding whitespace |
| Service.UnnormalisedKeyNotFound | node/movies-service.js:176-179 | the decoded key is not normalised again, so any segment that decodes to a key with an upper-case letter or surrounding whitespace (`Action`, `%41ction`) gets 404 on both entry routes |
| Service.MalformedEscapeFaults | node/movies-service.js:226-232 | a key segment with a `%` anywhere that is not followed by two hex digits gets 500 on both entry routes |
| Service.ActionMoviesFiled | node/movies-service.js:64-98 | movies with genre `Action` and ` action ` are both filed under `action` |
| Service.EscapedActionDecoded | node/movies-service.js:176 | `%61ction` decodes to `action` |
| Service.ActionSummary | node/movies-service.js:171-193 | for those two movies, `/genres/action` and `/genres/%61ction` report totals 150 and 15 over 2 movies, and `/genres/Action` gets 404 |

## Left out

- HTTP plumbing is left out: the server, the port, the response headers and the bytes of the JSON bodies (lines 117-130, 151-152, 210-215 and 241-243). Each outcome states the payload its body carries, and `StatusCode` gives the status.
- The root page (lines 150-153) is the payload `RootPage`. Streaming `./pages/root.html` and a missing file are not modelled.
- Loading the dataset with `require` (line 102) is left out. The dataset is a parameter. A failed load stops start-up and is not modelled.
- `revenue` and `tickets` are unbounded integers. Floating-point sums, and `NaN` or string concatenation from missing or non-numeric values, are not modelled.
- A category value that is neither missing nor a string (a number, say) makes `trim` throw during start-up. It is not modelled: a field is either `Absent` or `Text`.
- `CategoryKey.TrimStartSpec`, `CategoryKey.TrimEndSpec`: `trim` strips only the ASCII whitespace (space, and tab through carriage return). The other Unicode spaces and line terminators of ECMAScript, such as U+00A0, U+2028 and U+FEFF, are not modelled.
- `CategoryKey.ToLowerSpec`: `toLowerCase` maps only `A`-`Z`. Case mapping outside ASCII is not modelled.
- Plain-object quirks are not modelled. Keys such as `constructor` or `__proto__` would hit `Object.prototype`, both when filing and when looking up. The index is a map, so such keys behave like any other key.
- `Service.ListingKeys`: states the listed keys as a set without repeats, not their order. `for...in` lists integer-like keys first, in ascending order, and then the others in creation order. The model keeps creation order for all keys.
- `url.parse` (line 213) is left out. The model's input is `parsedUrl.path` after every step the legacy parser takes: escaping characters of the raw request URL, turning backslashes before the `?` into `/`, and dropping a `#fragment`. The path is taken as given.
- Characters are Unicode scalar values. A decoded code point above U+FFFF is one character here, where JavaScript has two UTF-16 code units. A lone surrogate, which makes `encodeURIComponent` throw, cannot occur.
- The three browser demo files are not part of this model.
- Requests share no mutable state: the snapshot is built once and never changed. So a request that gets 500 does not affect later requests. No separate property is stated for this.

# swagger-php-cache: the caching `Client`, modelled in Dafny

`Quickshiftin\Swagger\Client` sits in front of a generated Swagger API client
and caches GET calls in a phpFastCache backend. This project models its core:
`Client::callApi` and `Client::ttl` (src/Client.php). These are the main parts:

- **Cache key** (module `CacheKey`). Every `/` of the resource path becomes `+`.
  The query, post and header parameters each become `QP`, `PD` or `HP`, followed
  by `:` and an opaque digest when the collection is not empty. The response type
  becomes `RT`, or `RT:<type>` when PHP's `empty()` is false for it. The method,
  the encoded path and the four labels are imploded with `-`. The PHP built-ins
  used for this (`str_replace`, `explode`, `implode`) are in module `PhpStrings`.
- **Cache backend** (module `CacheBackend`, class `Cache`). It is a map from key
  to value plus the TTL each entry was written with. It offers `Get`, `Set`,
  `Delete`, and a `Search` that returns the stored keys starting with a pattern.
  A stored PHP `null` reads as a miss.
- **Read-through GET** (class `CachingClient.Client`, method `CallApi`).
  - On a hit it returns the cached value. The remote API is not called and nothing changes.
  - On a miss it calls the wrapped `ApiClient` exactly once. If that call throws
    an `ApiException`, nothing is cached. Otherwise the value is stored under the
    key with the TTL chosen at line 180, then returned.
- **TTL fields** (`tmpTtl`, `tmpTtlFlag`, `defaultTtl`). `Ttl(t)` stores `t` but
  lowers the flag, and nothing ever raises it. So every cache write uses the
  default TTL; `Client.Ttl`, the constructor and `CallApi` state this.
- **Invalidation for every other method** (`InvalidateReads`, with the
  specification functions in module `Invalidation`).
  - The encoded path is exploded on `+`.
  - In a do-while loop, the client searches `"GET-" + implode('+', segments)`,
    deletes every match and pops the last segment. It goes on while more than two
    segments remain.
  - It then calls the remote API exactly once. Nothing is cached.
  - A leading `/` gives an empty first segment, which counts toward the floor of
    two. So a write on `/a/b/c/d` searches the keys of `/a/b/c/d`, `/a/b/c` and
    `/a/b`, but not those of `/a`.

The remote API is a function from the history of earlier requests and the new
request to a reply, so a cached value can go stale. `ApiClient.history` records
every request sent.

### Behaviour worth knowing

- **The temporary TTL is never used.** The docblock of `ttl()`
  (src/Client.php:53-56) says it sets the TTL for a single invocation. But
  `ttl()` sets `_bTmpTtl` to false, and nothing sets it to true, so every write
  uses the default TTL.
- **A leading `/` counts.** `explode` keeps the empty segment that a leading `/`
  produces, and that segment counts toward the loop's floor of two.
- **Keys are injective only under conditions.** Apart from digest collisions,
  there are two exceptions:
  - `/` and `+` in a path give the same key (`SlashAndPlusShareKey`).
  - A `-` inside the response type lets a call collide with a call whose path
    ends in that text (`DashInPathCollides`).

  When the method, the digests and the response type contain no `-`, two calls
  share a key exactly when they agree on everything the key records
  (`KeyIdentifiesRequest`). This holds even if the path contains `-`, as in
  `/V1/products/attribute-sets`: the first `-` ends the method, and the last
  four begin the labels.
- **Search over-invalidates.** Search is a prefix match. A write on `/a/b`
  therefore also removes the cached reads of `/a/bc` (`ReadsBelowWriteInvalidated`).
- **An empty path invalidates every read.** A write with an empty path searches
  `GET-`, which removes every cached read (`EmptyPathInvalidatesAllReads`).

## Model

| member | source | states |
|---|---|---|
| `PhpStrings.ReplaceChar` | src/Client.php:141 | `str_replace` of one character: same length, every `from` replaced by `to`, every other character kept |
| `PhpStrings.Explode` | src/Client.php:194 | `explode` never returns an empty array, its pieces contain no delimiter, and imploding them gives the input back |
| `PhpStrings.Implode` | src/Client.php:164 | `implode` with a one-character glue: the result begins with the first part |
| `PhpStrings.ExplodeImplode` | src/Client.php:194-197 | the other round trip: exploding an implode of delimiter-free parts gives the parts back |
| `PhpStrings.ImplodeAppend` | src/Client.php:164 | imploding two non-empty lists one after the other gives the two implodes with the glue between them |
| `PhpStrings.ExplodeAppend` | src/Client.php:164 | exploding `a` + delimiter + `b` gives the pieces of `a` followed by the pieces of `b`, whatever delimiters `a` and `b` hold |
| `PhpStrings.ImplodePrefix` | src/Client.php:197 | imploding the first n segments gives a prefix of imploding them all, followed by the glue when segments remain |
| `PhpStrings.ReplaceGlue` | src/Client.php:141 | re-encoding `/` as `+` in a path joined by `/` gives the same segments joined by `+` |
| `CacheKey.EncodePath` | src/Client.php:139-141 | the key's path has the same length as the resource path, contains no `/`, and differs from it only where `/` became `+` |
| `CacheKey.ParamLabel` | src/Client.php:144-157 | a parameter label begins with its tag; it is the bare tag exactly when the collection is empty; otherwise a `:` and the collection's digest follow the tag |
| `CacheKey.EmptyResponseType` | src/Client.php:160 | PHP's `empty()` on the response type is true only for null or a string of at most one character, and a one-character type is empty exactly when it is `0` |
| `CacheKey.ResponseTypeLabel` | src/Client.php:159-162 | the label begins with `RT`; it is the bare `RT` exactly when the type is PHP-empty; otherwise a `:` and the type follow |
| `CacheKey.Key` | src/Client.php:139-164 | the key is exactly method, encoded path, QP, PD, HP and RT labels in that order with `-` between them; it begins with the method and the encoded path |
| `CacheKey.KeySplitsIntoParts` | src/Client.php:164 | when no part has a `-`, exploding the key on `-` gives back the six parts |
| `CacheKey.KeyExplodes` | src/Client.php:139-164 | when the method, digests and response type have no `-`, exploding the key on `-` gives the method, the pieces of the encoded path and the four labels, even if the path holds dashes |
| `CacheKey.ParamLabelsAgree` | src/Client.php:144-157 | two labels are equal iff both collections are empty, or both are non-empty with equal digests (bare label when empty, label `:` digest otherwise) |
| `CacheKey.ResponseTypeLabelsAgree` | src/Client.php:159-162 | two RT labels are equal iff both types are PHP-empty (null, "" or "0"), or neither is and they are equal |
| `CacheKey.KeyIdentifiesRequest` | src/Client.php:139-164 | when the method, digests and response type have no `-` (the path may have them), two calls share a key iff they agree on method, encoded path, each collection's emptiness and digest, and the response type up to PHP emptiness |
| `CacheKey.SlashAndPlusShareKey` | src/Client.php:141 | paths `a/b` and `a+b` give the same key |
| `CacheKey.DashInPathCollides` | src/Client.php:141-164 | a dash in the response type breaks injectivity: a path ending in `-QP-PD-HP-RT:t` and the shorter path with response type `t-QP-PD-HP-RT` are different calls with the same key |
| `CacheBackend.Lookup` | src/Client.php:168-171 | what `get` returns is non-null only for a stored key, and then it is the stored value |
| `CacheBackend.Cache.Get` | src/Client.php:168 | a non-null result is the stored value; null means absent or a stored null |
| `CacheBackend.Cache.Set` | src/Client.php:181 | the entry and its TTL are written under the key; nothing else changes |
| `CacheBackend.Cache.Delete` | src/Client.php:202 | exactly that key is removed; the result says whether it was stored |
| `CacheBackend.Cache.Search` | src/Client.php:200 | the result is exactly the stored keys that begin with the pattern |
| `Invalidation.Segments` | src/Client.php:194 | the segment list is never empty (though a segment may be) and implodes back to the encoded path |
| `Invalidation.SearchKey` | src/Client.php:197 | the search key begins with `GET-` and is a prefix of the key of every GET whose encoded path is the imploded segments |
| `Invalidation.SearchKeys` | src/Client.php:195-213 | the first search uses the full segment list; there are n - 2 searches when n > 3 segments and exactly one otherwise (the do-while body runs once before the test) |
| `Invalidation.SearchKeysExactly` | src/Client.php:195-213 | a key is searched iff it is `GET-` plus the implode of the first `len` segments, where `len` is the full length or any length above 2 |
| `Invalidation.SearchKeysWalkUp` | src/Client.php:194-213 | every search key is a prefix of `GET-` plus the encoded path, and each search key strictly extends the one searched after it (most specific first) |
| `Invalidation.InvalidatedExactly` | src/Client.php:194-213 | a stored key is deleted iff it begins with the search key of some prefix of the segments that the loop reaches |
| `Invalidation.ReadsBelowWriteInvalidated` | src/Client.php:192-213 | a cached GET whose encoded path begins with the written encoded path is deleted: the resource itself, its descendants, and siblings with a common name prefix |
| `Invalidation.AncestorReadInvalidated` | src/Client.php:194-213 | for a path joined from `/`- and `+`-free segments, a cached GET of each ancestor that the loop reaches is deleted |
| `Invalidation.ParentOfShallowWriteKept` | src/Client.php:211-213 | the floor: a write on `/a/b` leaves every cached GET of `/a` in place |
| `Invalidation.EmptyPathInvalidatesAllReads` | src/Client.php:194-200 | a write with an empty resource path deletes every stored key that begins with `GET-` |
| `CachingClient.ApiClient.CallApi` | src/Client.php:176-177 | one request is appended to the history; the reply is the remote's reply to it given the earlier history |
| `CachingClient.Client.constructor` | src/Client.php:19-50 | fields are initialised and the temporary-TTL flag starts false, so the next write would use the default TTL |
| `CachingClient.Client.WriteTtl` | src/Client.php:180 | the TTL of the next write is the default or the temporary one, and the default whenever the flag is down |
| `CachingClient.Client.Ttl` | src/Client.php:59-63 | the temporary TTL is stored, the flag is false afterwards, and the TTL the next write uses is still the default |
| `CachingClient.Client.CallApi` | src/Client.php:131-218 | GET hit: cached value returned, no remote call, nothing changes. GET miss: one remote call, value stored under the key with the TTL chosen at line 180 (nothing stored on an exception), flag down. Other methods: exactly the keys from `Invalidated` are deleted, other entries are unchanged, nothing is added, and one remote call is made. The flag is never raised |
| `CachingClient.Client.InvalidateReads` | src/Client.php:194-213 | after the do-while loop, the entries and TTLs equal the old ones minus exactly the keys that some search key matches |
| `CachingClient.Client.DeleteMatches` | src/Client.php:201-209 | every key the search returned is deleted, together with its TTL, and no other entry is touched |

## Left out

- src/Registry.php is not part of this model. It is name-based dispatch and the
  exception-suppression policy, with no caching logic.
- The backend fallback in the `Client` constructor is not modelled (the
  `CacheManager::getInstance` call with undefined backend names). The constructor
  only initialises the fields. `_iTmpCacheTtl` starts as null in PHP and as 0 here.
  The difference is unobservable, because the flag that would select it is never true.
- `getConfig`, `getSerializer`, `getApiKeyWithPrefix`, `selectHeaderAccept` and
  `selectHeaderContentType` only delegate to the generated client, so they are not modelled.
- `md5(serialize(...))` is the opaque `Digest` function. No property of md5 is
  used, and nothing is claimed about parameter order.
- Parameter arrays are sequences of name/value pairs. Nested PHP arrays are
  abstracted away, and only emptiness and the digest matter.
- phpFastCache's real `search` (regular expressions, LIKE matching, timestamps in
  the result) is modelled as a prefix match over the stored keys.
- The return value of `delete` is ignored, as in the source. The commented-out
  warning is not modelled.
- Expiry of entries over time, backend failures, the network, and concurrent
  callers sharing one backend are not modelled.
- The network transport itself is not modelled. The remote API is a function of
  the request history, and an `ApiException` is a reply value rather than a thrown
  exception.
- `$method == 'GET'` is modelled as string equality. Both operands are strings,
  and `'GET'` is not numeric.
- Client.Ttl: the intended one-shot override is not modelled. The code as written
  never selects the temporary TTL.

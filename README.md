# easy-fingerprint worker, modelled in Dafny

The worker (`src/worker.ts`) receives a browser fingerprint by POST, derives a
JA4H-style fingerprint of the HTTP request itself, combines it with the
platform's JA4 TLS fingerprint into a storage key `compositeId`, and upserts one
device row under that key. This project models that path:

- `Text` — the JavaScript string primitives the code uses: `toString(radix)`,
  `padStart`, `join` with a one-character separator (with `split` as its
  inverse), and lower-casing of ASCII letters.
- `Hex` — `hash12`: each digest byte as two lower-case hex digits, the
  rendering joined, the first twelve characters kept; the `reduce` fold that
  writes the full key; the rendering read back (`HexDecode`).
- `Ja4h` — `computeJA4H`: the header-name filter, blocks a, b and c, and the
  `a_b_c` string, with `SplitJa4h` taking it apart again.
- `Worker` — the `compositeId` expression, the client-address and payload
  defaults, the upsert as a function on a map (`Upserted`) and as a method of
  the class `DeviceTable`, and `Fetch`, which ties them together.

SHA-256 and `TextEncoder.encode` are function-valued parameters (`Sha256`,
`Utf8`): every property holds whatever they return, and the ones that need a
digest length assume only that SHA-256 returns 32 bytes (`Sha256Like`).
`crypto.subtle` is an `Option<Sha256>`. The header names, the cookie, the
method, the two address headers and the platform JA4 are explicit inputs of
`Request`, so the model does not depend on how the runtime enumerates headers.
The fingerprint, the key and the sighting are all computed by Dafny functions,
so equal inputs give equal results; only the table update (`DeviceTable.Upsert`)
and `Fetch` are methods.

Three points of the code's behaviour that the model keeps as written:

- The fallback key `ja4-ja4h` (src/worker.ts:80) is never stored. `computeJA4H`
  runs first and calls `crypto.subtle.digest` unconditionally
  (src/worker.ts:36), so without `crypto.subtle` the request fails before the
  key is built. `Worker.Derive` returns `Failure(DigestUnavailable)`
  then; `CompositeId` still has both branches as written.
- A new row gets no `lastSeen` from the code (src/worker.ts:84-91); the model
  leaves it `None`.
- The only live key policy hashes `ja4|ja4h`. The coarse-address policy exists
  only as the commented-out line src/worker.ts:76 and is not modelled.

## Model

| member | source | states |
|---|---|---|
| `Text.ToLowerAscii` | src/worker.ts:18 | lower-casing keeps the length and maps every character through ASCII lower-casing |
| `Text.NumberToString` | src/worker.ts:21 | `toString(radix)` gives at least one digit, only lower-case digit characters (decimal ones for radix 10), and a single digit exactly when the number is below the radix |
| `Text.NumberToStringValue` | src/worker.ts:21 | the digits read back to the number, and only zero starts with `0` |
| `Text.DecimalWidth` | src/worker.ts:21 | a count has at most two decimal digits exactly when it is below 100 |
| `Text.PadStart` | src/worker.ts:21 | `padStart` yields the longer of the width and the input, ends with the input and is filled with the pad character before it |
| `Text.PadStartValue` | src/worker.ts:21 | zero padding does not change the number the digits denote |
| `Text.Join` | src/worker.ts:24 | `join(";")` of separator-free names holds one `;` fewer than there are names, and is empty exactly when the list is empty or is one empty name |
| `Text.SplitJoin` | src/worker.ts:24 | joining a non-empty list of separator-free strings with `;` can be undone by splitting |
| `Hex.ByteHex` | src/worker.ts:38 | a byte becomes exactly two lower-case hex characters whose value is the byte |
| `Hex.ByteHexIsPaddedToString` | src/worker.ts:38 | `b.toString(16).padStart(2, "0")` is that two-character rendering for every byte |
| `Hex.HexOf` | src/worker.ts:37-39 | the joined rendering of a digest is twice as long as the digest and all lower-case hex |
| `Hex.HexRoundTrip` | src/worker.ts:37-39 | reading the rendering back gives the digest, so distinct digests render distinctly |
| `Hex.HexFold` | src/worker.ts:79 | the `reduce` fold of line 79 appends to its accumulator exactly the map-and-join rendering of lines 37-39 |
| `Hex.Render12` | src/worker.ts:37-40 | `slice(0, 12)` is a prefix of the rendering, twelve lower-case hex characters for a digest of six bytes or more (the rendering of the first six bytes, reading back to them) and the whole rendering otherwise |
| `Hex.Hash12` | src/worker.ts:35-41 | hash12 is a prefix of the hex rendering of SHA-256 of its input; with a 32-byte digest it is twelve lower-case hex characters that read back to the digest's first six bytes |
| `Ja4h.Qualifying` | src/worker.ts:19-20 | the filtered list is no longer than the input, holds no `cookie` or `referer`, and holds only input names |
| `Ja4h.QualifyingCounts` | src/worker.ts:19-20 | every occurrence of every other name is kept; `cookie` and `referer` occur zero times |
| `Ja4h.QualifyingKeepsOrder` | src/worker.ts:19-20 | the filtered list is a subsequence of the input, so the original order is kept |
| `Ja4h.QualifyingAppend` | src/worker.ts:19-20 | filtering a concatenation is the concatenation of the filtered parts |
| `Ja4h.QualifyingIdentity` | src/worker.ts:19-20 | a list without `cookie` or `referer` passes the filter unchanged |
| `Ja4h.MethodChar` | src/worker.ts:18 | the method character is the lower-cased first character of the method, and empty for an empty method |
| `Ja4h.CountDigits` | src/worker.ts:19-21 | the count digits are decimal, at least two wide, denote the number of kept names, and are exactly two wide when that number is below 100, so a count of 100 or more is not cut; a leading `0` appears only for a count below 10, so no count is padded beyond two digits |
| `Ja4h.BlockA` | src/worker.ts:18-21 | block a is the lower-cased first character of the method, if any, followed by the count digits |
| `Ja4h.BlockB` | src/worker.ts:24-25 | with 32-byte digests block b is twelve lower-case hex characters that read back to the first six bytes of SHA-256 of the kept names joined with `;` |
| `Ja4h.BlockC` | src/worker.ts:28-29 | block c is `000000000000` when the cookie is missing or empty, hash12 of the encoded cookie otherwise, and twelve lower-case hex characters with 32-byte digests |
| `Ja4h.ComputeJa4h` | src/worker.ts:14-32 | with 32-byte digests the fingerprint is `a_b_c` and splits back into exactly blocks a, b and c |
| `Ja4h.SplitBlocks` | src/worker.ts:31 | `a_b_c` with twelve-character b and c splits back into a, b and c |
| `Ja4h.Ja4hDeterminesCount` | src/worker.ts:18-31 | two requests with the same method and the same fingerprint have the same number of kept header names |
| `Ja4h.Ja4hIgnoresExcluded` | src/worker.ts:19-25 | blocks a and b ignore `cookie` and `referer` names wherever they occur; with the cookie value input unchanged, the fingerprint is unchanged |
| `Ja4h.BlockBMessageInjective` | src/worker.ts:24-25 | for non-empty header names without `;` (HTTP tokens), equal block-b texts mean equal kept-name lists in the same order, including when no name is kept |
| `Ja4h.Ja4hExample` | src/worker.ts:14-32 | a POST with `host` and `user-agent` and no cookie gives `p02_`, twelve hex characters, then `_000000000000` |
| `Worker.ClientIp` | src/worker.ts:75 | the address is `CF-Connecting-IP` when present (even if empty), else `x-real-ip` when present, else `0.0.0.0` |
| `Worker.CompositeId` | src/worker.ts:77-80 | with `crypto.subtle` the key is the full hex rendering of SHA-256 of `ja4|ja4h`; without it the key is `ja4-ja4h` |
| `Worker.CompositeIdIsDigest` | src/worker.ts:77-79 | with 32-byte digests the key is 64 lower-case hex characters that read back to the digest |
| `Worker.CompositeIdsAgree` | src/worker.ts:77-79 | two keys are equal exactly when the digests of their `ja4|ja4h` inputs are equal |
| `Worker.FallbackIsNotHex` | src/worker.ts:80 | a fallback key is never a hex string, so it cannot collide with a digest key |
| `Worker.Derive` | src/worker.ts:58-80 | the handler fails exactly when `crypto.subtle` is missing, so the fallback key of line 80 is never produced; with 32-byte digests the key is 64 lower-case hex characters |
| `Worker.DeriveSpec` | src/worker.ts:58-80 | with `crypto.subtle` the key hashes the JA4 (default `unknown`) and the fingerprint, `fpId` is the payload id, the address is the header choice, and missing `ua`, `lang`, `tz` become `""` |
| `Worker.NewRow` | src/worker.ts:84-91 | a created row holds every value of the sighting and no `lastSeen` |
| `Worker.Upserted` | src/worker.ts:81-92 | the upsert adds the key to the table's keys and changes no row under another key |
| `Worker.UpsertKeepsKeying` | src/worker.ts:81-92 | if every row is stored under its own `compositeId`, that still holds after the upsert |
| `Worker.UpsertExisting` | src/worker.ts:81-83 | on an existing key only that row's `lastSeen` changes, to the current time, and the table keeps its size |
| `Worker.UpsertNew` | src/worker.ts:84-91 | on a new key the table grows by one row holding `compositeId`, `fpId`, `ip`, `ua`, `lang`, `tz` and no `lastSeen` |
| `Worker.UpsertTwice` | src/worker.ts:81-92 | a second sighting under the same key, whatever its other values, keeps the first row's values and moves only `lastSeen` |
| `Worker.DeviceTable.Upsert` | src/worker.ts:81-92 | the stored table becomes the `Upserted` table and stays keyed by `compositeId` |
| `Worker.Fetch` | src/worker.ts:44-94 | a preflight stores nothing; another request either stores its derived sighting by upsert or fails without touching the table |

## Left out

- SHA-256 (FIPS 180-4) and UTF-8 encoding are parameters; only a 32-byte digest length is assumed, and only where a lemma needs it.
- `computeJA4H` reads header names from `request.headers.keys()`; the runtime's enumeration, its lower-casing of names and its combining of repeated headers are not modelled — the names arrive as a sequence.
- `ToLowerAscii` lower-cases ASCII letters only; JavaScript's full Unicode `toLowerCase` and UTF-16 `charAt` are not modelled (HTTP methods are ASCII tokens).
- The CORS preflight response (src/worker.ts:45-56) is reduced to the `Preflight` outcome; its headers and the `Response` objects are not modelled.
- JSON body parsing (src/worker.ts:65-70) is not modelled: the payload arrives parsed, so a malformed body or a missing `id` is not an error case here.
- Reading `request.cf` (src/worker.ts:58) is reduced to the optional `ja4` input.
- The Prisma/D1 client (src/worker.ts:63-64), storage failures and the atomicity of the upsert under concurrent requests are not modelled; the upsert is a map update.
- `new Date()` is the `now` parameter; any schema default for `lastSeen` on create is not visible and not modelled.
- The commented-out address coarsening (src/worker.ts:76) and the client script public/easy-fingerprint.js, which loads a third-party library and sends a beacon, are not modelled.

# EaziUrl URL shortener — Dafny model

This project models the URL-shortening core of EaziUrl: the `URLMapping`
table (`api/models.py`) and the `Shortener` service with its two HTTP
endpoints (`api/endpoints.py`).

- `wrappers.dfy` — `Option` and `Result`.
- `models.dfy` (module `Models`) — the `URLMapping` row (`long_url`,
  `short_url`, `title`), the schema's constraints (`long_url` at most 200
  characters, the default width of a `URLField`; `short_url` unique and at
  most 10 characters; `title` at most 255), the ORM queries the endpoints use
  (`filter(...).first()` as `FirstWhere`, `filter(...).exists()` as `Exists`),
  `__str__`, and the table itself as the class `URLMappingTable`, whose
  `Save` appends a row or raises the database error the schema calls for.
- `endpoints.py` is modelled by `endpoints.dfy` (module `Endpoints`). The
  class `Shortener` holds the three fields `__init__` sets, as initialised
  `const` fields. `GenerateShortKey` is `_generate_short_key`. The method
  `Encode` is `encode`: the lookup by long URL, the `while True` retry loop
  and the save, each as imperative code against a `URLMappingTable`. It is
  proved against the ghost function `EncodeOutcome`, which gives the result
  and the new table as a function of the old table. `EncodeUrl` is the
  `encode_url` endpoint. `RedirectUrl` is the `redirect_url` endpoint: the
  stored long URL, or a 404 error.
- `shortener_properties.dfy` (module `ShortenerProperties`) holds the lemmas
  about these operations. They cover the key shape, reuse of a stored key,
  freshness of a new key, the uniqueness invariants, idempotence and the
  encode/redirect round trip.

Randomness is a parameter. `random.choice(self.chars)` picks an index below
62 (`Pick`). One call of `_generate_short_key` makes six picks (`KeyDraw`).
`Encode` receives the sequence of draws its loop will consume. The source
loops until it meets an unused key. The model requires that one of the
supplied draws gives an unused key (`CanFinish`), unless the URL is already
stored. `transaction.atomic()` is read as "the call runs alone". If the save
fails, nothing has been written, so the rollback leaves the table unchanged.

The table is a sequence of rows in primary-key order. `first()` on an
unordered queryset returns the matching row with the lowest key. The model
gives the database these semantics: every over-long value raises
`DataError`, a long URL over 200 characters or a title over 255, including
an excess made only of trailing spaces, which PostgreSQL and MySQL cut off
silently instead. `encode` returns that error. A duplicate `short_url` raises
`IntegrityError`. String equality, in lookups and in the unique index on
`short_url`, is exact and case-sensitive.
The code keeps the stored title on re-encode. It has no cache, no bound on
the retry loop and no unique index on `long_url`. The model follows the code.

## Model

| member | source | states |
|---|---|---|
| `Models.FirstWhere` | api/endpoints.py:25 | `filter(col=v).first()`: `None` exactly when no row has `v` in that column; otherwise the index of a matching row with no match before it |
| `Models.Exists` | api/endpoints.py:35 | `filter(col=v).exists()` holds exactly when some row has `v` in that column |
| `Models.SaveError` | api/models.py:5-7 | a new row saves without error exactly when it fits the column lengths (`long_url` 200, `short_url` 10, `title` 255) and its `short_url` is used by no row; `DataError` exactly when a value is too long; `IntegrityError` exactly when the row fits but its `short_url` is taken |
| `Models.URLMappingTable.Save` | api/endpoints.py:39-40 | `save()` appends exactly the given row when `SaveError` reports none and leaves the table unchanged otherwise; the table keeps conforming to its schema |
| `Models.SaveKeepsConformance` | api/models.py:6-7 | a successful save keeps `short_url` unique and every row within its column lengths, and the new key is then present |
| `Models.SchemaAllowsDuplicateLongUrls` | api/models.py:5 | the schema alone does not make `long_url` unique: a conforming table accepts a second row for the same long URL |
| `Models.Str` | api/models.py:10-11 | `__str__` is the row's `short_url` column; `StrFindsRow` shows that this string identifies the row |
| `Models.StrFindsRow` | api/models.py:10-11 | in a conforming table, looking up a row's `__str__` (its short URL) finds exactly that row |
| `Endpoints.AlphabetIsAsciiAlnum` | api/endpoints.py:17 | `ascii_letters + digits` has 62 characters, lists each letter and digit once in code order, and holds exactly the ASCII alphanumerics |
| `Endpoints.Shortener.GenerateShortKey` | api/endpoints.py:19-20 | a generated key has 6 characters, each an ASCII letter or digit, and character `i` is the alphabet entry picked by draw `i` |
| `Endpoints.Shortener.FirstFreeDraw` | api/endpoints.py:33-36 | the first draw from position `j` on whose key no row uses, with every earlier draw's key taken; `None` exactly when every remaining draw's key is taken |
| `Endpoints.Shortener.Urls` | api/endpoints.py:42-45 | the result dictionary: the real URL is `real_base` followed by the key and the display URL is `display_base` followed by the key, so the key can be read back off either; `EncodeThenRedirect` uses this |
| `Endpoints.Shortener.Encode` | api/endpoints.py:22-45 | `encode` returns the result `EncodeOutcome` gives and leaves the table as `EncodeOutcome` gives it, keeping the schema invariant |
| `Endpoints.EncodeUrl` | api/endpoints.py:57-64 | `encode_url` returns the URLs of `encode` with the caller's title, not the stored one, and changes the table as `encode` does; a save error propagates |
| `Endpoints.RedirectUrl` | api/endpoints.py:67-73 | `redirect_url` fails with 404 "URL not found" exactly when no row has the key; otherwise it returns the long URL of a row with that key |
| `ShortenerProperties.GenerateShortKeyInjective` | api/endpoints.py:17-20 | distinct draws give distinct keys |
| `ShortenerProperties.GenerateShortKeyOnto` | api/endpoints.py:17-20 | every 6-character alphanumeric key comes from some draw, so the generator covers exactly the 62^6 keys of that shape, one draw each |
| `ShortenerProperties.ShortKeyFitsColumn` | api/models.py:6 | a generated key fits the 10-character `short_url` column |
| `ShortenerProperties.EncodeStoredUrl` | api/endpoints.py:25-30 | for a stored long URL, `encode` returns `real_base + key` and `display_base + key` for that row's key, for any title and draws, and adds no row (the stored title is kept) |
| `ShortenerProperties.EncodeNewUrl` | api/endpoints.py:32-45 | for an unseen long URL, the key is from the first draw whose key is unused; it has the generated shape and no row uses it. One row `(long_url, key, title)` is appended when the long URL fits its 200 characters and the title its 255 (the default title `''` always does); otherwise `DataError` and no change |
| `ShortenerProperties.EncodeKeepsInvariants` | api/endpoints.py:25-40 | `encode` only appends, at most one row; it keeps `short_url` unique and the rows within their lengths, and keeps `long_url` unique when it was |
| `ShortenerProperties.EncodeIdempotent` | api/endpoints.py:25-30 | after a successful `encode` of a URL, encoding it again with any title and draws returns the same URLs and changes nothing |
| `ShortenerProperties.EncodeThenRedirect` | api/endpoints.py:67-71 | after a successful `encode`, the real URL is `real_base` followed by a key, the display URL is `display_base` followed by the same key, and `redirect_url` of that key returns the encoded long URL |
| `ShortenerProperties.RedirectUnknownKey` | api/endpoints.py:72-73 | a key for which `exists()` is false gives 404 "URL not found"; a corollary of `RedirectUrl`'s contract, in the terms the encoder uses |

## Left out

- `created_at` (api/models.py:8) is not modelled. It is an automatic timestamp, and the model keeps rows in insertion order instead.
- The uniform distribution of `random.choice` is not modelled; the draws are a parameter. `GenerateShortKeyInjective` and `GenerateShortKeyOnto` show that each key of the right shape has exactly one draw.
- Endpoints.Shortener.Encode: it requires that the supplied draws contain an unused key when the URL is new. The source's loop never ends if the keys it draws are always taken; the model does not capture that case.
- Concurrency is not modelled. `transaction.atomic()` is treated as running the call alone, so the race between the existence check and `save()` is out of scope.
- The database backend is not part of this model. Over-long values raise `DataError`, including a trailing-space excess that PostgreSQL and MySQL truncate silently. String equality is exact and case-sensitive. A backend that does not check lengths (SQLite) would store a longer long URL or title.
- Models.SaveError: does not model the silent truncation of trailing spaces beyond a column's width in PostgreSQL and MySQL. There, a long URL of 200 characters plus a space is stored cut to 200 characters, and a second `encode` of the same string misses it at api/endpoints.py:25 and saves a second row. On those backends `encode` is not idempotent for such input and does not keep long URLs unique. The model returns `DataError` instead.
- Models.SaveError: does not model case-insensitive collations, such as MySQL's defaults. Under those, `abcdef` and `ABCDEF` collide in the unique index on `short_url`, and `redirect_url("ABCDEF")` finds the `abcdef` row. The model compares strings exactly, so all 62^6 keys are distinct.
- `URLField`'s URL-format validation is not modelled, because `save()` does not run it.
- HTTP framing is not modelled. A redirect is the long URL, not a `RedirectResponse`. The 404 is an `HttpError` value. A save error in `encode_url` is returned to the caller, not turned into a 500 response.
- The `/test` endpoint is not part of this model.
- Authentication (`api/auth.py`, `api/auth_endpoints.py`, `api/dependency.py`) is not part of this model. Neither is framework wiring (`myproject/asgi.py`, `myproject/urls.py`).

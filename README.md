# Price store of the l2beat backend, in Dafny

This project models `PriceRepository`, the store behind the `coingecko_prices`
table. The table holds USD prices keyed by the pair (CoinGecko id, unix
timestamp). The repository offers:

- a bulk insert that merges on that composite key (`addOrUpdate`);
- a full wipe (`deleteAll`);
- three reads (`getAll`, `getByTimestamp`, `getAllByToken`);
- a grouped minimum/maximum (`getDataBoundaries`). It gives, for each coin
  with data, its earliest and latest stored timestamp.

It also models the row converters `toRow` and `toRecord`. They write the
timestamp as decimal text and read it back.

Files:

- `number_text.dfy` (module `NumberText`) models the JavaScript conversions
  that the timestamp passes through. These are `Number.prototype.toString()`
  of an integer, unary `+` on a string, and `parseInt`. It proves that both
  readers give back exactly the integer that `toString` wrote.
- `price_repository.dfy` (module `Prices`) holds the rest.
  - The records, boundaries and rows are datatypes.
  - `Upsert` is the insert-or-merge as a function on the table.
  - The class `PriceRepository` holds the table as a `map` field. Its two
    writing operations are methods that reassign that field.
  - Its reads and `GetDataBoundaries` are functions of the field. Their
    contracts say exactly which records or boundaries they return.
  - Lemmas relate the reads to each other. Two lemmas prove what the reads
    return after a two-batch scenario (`TwoBatchScenario`).

The table is a `map` from key to price, so the store holds at most one
record per (coingeckoId, timestamp). `GetAll` also states this for the
records it returns. The reads return sets, because a SQL `SELECT` without
`ORDER BY` promises no order.

## Model

| member | source | states |
|---|---|---|
| `NumberText.NumberToString` | packages/backend/src/peripherals/database/PriceRepository.ts:102 | the decimal text of a timestamp is non-empty, starts with `-` exactly when the timestamp is negative, has only digits otherwise, and has no leading zero; 0 is written as `0` |
| `NumberText.DigitPrefixLength` | packages/backend/src/peripherals/database/PriceRepository.ts:82-83 | the run of digits `parseInt` reads is a prefix of the text made only of digits, and stops at the first character that is not a digit |
| `NumberText.UnaryPlusInvertsNumberToString` | packages/backend/src/peripherals/database/PriceRepository.ts:92 | unary `+` on the text written by `toNumber().toString()` gives back the same integer, for every integer |
| `NumberText.UnaryPlus` | packages/backend/src/peripherals/database/PriceRepository.ts:92 | unary `+` gives a non-negative number for a run of digits, a negative number only after a leading `-`, and a number only for text ending in a digit (or the empty text); `NumberText.UnaryPlusInvertsNumberToString` states its round trip |
| `NumberText.ParseInt` | packages/backend/src/peripherals/database/PriceRepository.ts:82-83 | `parseInt` gives a number only for text starting with a digit, possibly after a sign; always a non-negative one for text starting with a digit; a negative one only after `-`; `NumberText.ParseIntInvertsNumberToString` states its round trip |
| `NumberText.ParseIntInvertsNumberToString` | packages/backend/src/peripherals/database/PriceRepository.ts:82-83 | `parseInt` on the decimal text of an integer gives back the same integer, for every integer |
| `Prices.ToRow` | packages/backend/src/peripherals/database/PriceRepository.ts:98-104 | the row keeps the id's text and the price, and its timestamp text reads back with unary `+` as the record's timestamp |
| `Prices.ToRecord` | packages/backend/src/peripherals/database/PriceRepository.ts:90-96 | a row reads back as a record exactly when unary `+` reads its timestamp text as a number; that record writes back to a row with the same id text and price, and with timestamp text that reads as the same number; `Prices.ToRecordInvertsToRow` states the round trip the other way |
| `Prices.GetAllThroughRows` | packages/backend/src/peripherals/database/PriceRepository.ts:21-29 | `getAll()` is exactly the stored records sent out through `toRow` and read back through `toRecord` |
| `Prices.ToRecordInvertsToRow` | packages/backend/src/peripherals/database/PriceRepository.ts:90-104 | `toRecord(toRow(r))` succeeds and keeps `r`'s coingeckoId and timestamp |
| `Prices.Upsert` | packages/backend/src/peripherals/database/PriceRepository.ts:57-64 | after inserting a batch with merge on (coingecko_id, unix_timestamp), the keys are the old keys plus the batch's keys; each batch key has that batch record's price; every other key keeps its old price |
| `Prices.UpsertIdempotent` | packages/backend/src/peripherals/database/PriceRepository.ts:57-64 | applying the same batch twice gives the same table as applying it once |
| `Prices.UpsertStores` | packages/backend/src/peripherals/database/PriceRepository.ts:57-64 | after the upsert, a record is stored iff it is in the batch, or it was stored before and its key is not in the batch |
| `Prices.MinFrom` | packages/backend/src/peripherals/database/PriceRepository.ts:73 | `min(unix_timestamp)` of a group is one of the group's timestamps and no greater than any of them |
| `Prices.MaxFrom` | packages/backend/src/peripherals/database/PriceRepository.ts:74 | `max(unix_timestamp)` of a group is one of the group's timestamps and no less than any of them |
| `Prices.BoundaryOf` | packages/backend/src/peripherals/database/PriceRepository.ts:72-84 | the min and max come back as decimal text read with `parseInt`; a coin's boundary has `earliest` and `latest` among the coin's stored timestamps, and every stored timestamp of the coin lies between them |
| `Prices.PriceRepository.constructor` | packages/backend/src/peripherals/database/PriceRepository.ts:17-19 | a repository opens over the table as it is already persisted |
| `Prices.PriceRepository.GetAll` | packages/backend/src/peripherals/database/PriceRepository.ts:21-29 | returns exactly the stored records, and no two of them share a (coingeckoId, timestamp) key |
| `Prices.PriceRepository.GetByTimestamp` | packages/backend/src/peripherals/database/PriceRepository.ts:31-42 | returns exactly the stored records whose timestamp equals the argument; when none match this is the empty set, not an error |
| `Prices.PriceRepository.GetAllByToken` | packages/backend/src/peripherals/database/PriceRepository.ts:44-55 | returns exactly the stored records whose coingeckoId equals the argument; for an unknown id this is the empty set |
| `Prices.PriceRepository.AddOrUpdate` | packages/backend/src/peripherals/database/PriceRepository.ts:57-64 | the new table is `Upsert` of the old one. `getAll()` afterwards holds the batch's records, plus the old records whose key the batch does not touch, and nothing else |
| `Prices.PriceRepository.DeleteAll` | packages/backend/src/peripherals/database/PriceRepository.ts:66-69 | the table is empty afterwards, so `getAll()` is empty and `getDataBoundaries()` is the empty map |
| `Prices.PriceRepository.GetDataBoundaries` | packages/backend/src/peripherals/database/PriceRepository.ts:71-87 | has an entry for an id iff some record of that id is stored; `earliest` and `latest` are stored timestamps of that id, and every stored timestamp of that id lies between them, so `earliest <= latest` |
| `Prices.ByTimestampFiltersAll` | packages/backend/src/peripherals/database/PriceRepository.ts:31-42 | `getByTimestamp(t)` is exactly the part of `getAll()` whose timestamp is `t` |
| `Prices.BoundariesAgreeWithTokenReads` | packages/backend/src/peripherals/database/PriceRepository.ts:71-87 | a coin has a boundary iff `getAllByToken` returns records for it; then `earliest` and `latest` are the least and greatest timestamps among those records |
| `Prices.BoundaryIsMinMax` | packages/backend/src/peripherals/database/PriceRepository.ts:71-87 | when two stored timestamps of a coin bound all of its stored timestamps, `getDataBoundaries()` reports exactly those two as its earliest and latest |
| `Prices.UpsertPair` | packages/backend/src/peripherals/database/PriceRepository.ts:57-64 | a batch of two records with different keys adds exactly those two keys with their prices, and leaves every other key's price alone |
| `Prices.TwoBatchUpserts` | packages/backend/src/peripherals/database/PriceRepository.ts:57-64 | upserting (BTC,100,50000), (ETH,100,3000), then (BTC,100,51000), (BTC,200,52000) into an empty table leaves exactly three keys. BTC at 100 now has 51000 |
| `Prices.ScenarioTokenReads` | packages/backend/src/peripherals/database/PriceRepository.ts:44-55 | on that table, `getAllByToken(BTC)` is exactly {(100, 51000), (200, 52000)}, and an id never written has no records |
| `Prices.ScenarioBoundaries` | packages/backend/src/peripherals/database/PriceRepository.ts:71-87 | on that table, the boundaries are BTC (100, 200) and ETH (100, 100), and an id never written has no boundary |

## Left out

- Knex query building, the database connection and the async/Promise plumbing are not modelled. The table is a `map` held by the repository object. The storage error that any call can raise when the database is unreachable is not modelled either.
- The logger calls are not modelled. They are instrumentation only.
- Atomicity and isolation of a batch against concurrent readers are not modelled. They come from the database transaction, and the model is sequential.
- Prices.PriceRepository.AddOrUpdate: requires the batch's (coingeckoId, timestamp) keys to be distinct. The code leaves a batch that repeats a key to the database, and PostgreSQL's `ON CONFLICT DO UPDATE` rejects such a batch.
- Prices.ToRecordInvertsToRow: claims only that coingeckoId and timestamp survive the round trip. `priceUsd` is a JavaScript float stored in a SQL numeric and read back with unary `+`. Its exactness is not claimed, and the price is an opaque `real`.
- Input validation is not modelled: the code checks neither the price's sign nor the timestamp's alignment, and inserts whatever it is given.
- NumberText.UnaryPlus: only the empty string and an optionally signed run of decimal digits are read as numbers. JavaScript also reads surrounding whitespace, fractions, exponents, hexadecimal, octal and binary prefixes, and `Infinity`. The model gives `None` for those forms. No text that `toString` produces for an integer takes those forms.
- NumberText.ParseInt: leading whitespace and the `0x` prefix, which `parseInt` reads as hexadecimal, are not modelled. Decimal text of an integer has neither.
- NumberText.NumberToString: writes every integer in plain decimal. JavaScript switches to exponent notation at magnitude 10^21 and above. It also loses precision above 2^53. Unix timestamps are far below both.
- Prices.ToRecord: when the timestamp text is not a number, the model gives `None`. JavaScript gives `NaN`, and `UnixTime` receives it. What `UnixTime` then does is not modelled.
- The class keeps the table as records keyed by (coingeckoId, timestamp), not as rows of text. `toRow` and `toRecord` are modelled beside the class, and `Prices.GetAllThroughRows` proves that sending each stored record out through `toRow` and back through `toRecord` gives exactly `GetAll()`. `AddOrUpdate` and the other reads do not pass through the converters themselves.
- `GetDataBoundaries` and the functions it uses (`BoundaryOf`, `MinFrom`, `MaxFrom`) are ghost, because they pick an element of a set. They specify the aggregate query but cannot be called from compiled code, unlike the other reads.
- The internals of `CoingeckoId` and `UnixTime` from `@l2beat/common` are not modelled. An id is opaque text and a timestamp is an integer.
- The reads return sets rather than arrays, because the queries have no `ORDER BY`. The order of the returned rows is not modelled.
- `packages/backend/src/config/config.production.ts` (configuration loading) and `packages/frontend/src/content/index.ts` (a process entry point) are not part of this model.

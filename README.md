# Visit counter — Dafny model

A model of the request handler of a small serverless visit counter. The
handler serves two routes over one key-value table:

- `GET /visits` reads the `total_visits` row and answers `{visits: n}`, with 0
  when the row or its `visits` attribute is absent or falsy;
- `POST /visits` takes a base64-encoded JSON body with a `user_hash`. It looks
  the hash up in the current month's row, keyed `visit#<month>#<year>`, and
  refuses a repeat. Otherwise it sends two updates: a list append on the
  month's row, then an increment of the `total_visits` counter. It answers
  with the new counter.

Every error raised along the way is caught at the handler boundary. It becomes
a 400 response whose body carries `error`. Every response has the JSON
content type.

The table is a `map<string, Item>` keyed by the partition key. An `Item` keeps
the two attributes the handler uses: `user_hashes` (a list of strings) and
`visits` (a number). Either may be absent.

- `visit_store.dfy` (module `VisitStore`) holds the pure parts:
  - the key format;
  - the duplicate check and the total read;
  - the two update expressions (`list_append(if_not_exists(...))` and
    `if_not_exists(...) + 1`) as functions on the map;
  - the table invariant `Consistent`: the counter equals the number of visitor
    hashes recorded in all rows.
- `visit_handler.dfy` (module `VisitHandler`) holds the class `VisitTable`. Its
  `items` field is the table, and its methods update it in place:
  - `InsertUserHash` makes the two updates;
  - `Handle` dispatches on the route with the handler's mutable `body` /
    `statusCode` / caught-error flow.

  `FirstVisitorScenario` proves the outcome of a short request sequence on an empty table: a
  first POST gives `{visits: 1}` and the month list `["abc123"]`, a repeat
  gives 400 `visitor already exists`, GET gives 1, and an unknown route gives
  400 `Unsupported route: "GET /unknown"`.

The handler's inputs from its environment are parameters:
- the request (`Event`: route key and optional raw body);
- a `Decoder` standing for base64 decoding, `JSON.parse` and reading
  `user_hash`: it either throws or yields an optional string;
- the calendar reading (`CalendarDate`: month name and year as the host
  renders them).

The increment branch that throws `total_visits row not updated` is reachable
only when the stored counter is -1. `Consistent` holds on an empty table and
every request keeps it. While it holds the counter is never negative, so that
branch cannot be taken.

## Model

| member | source | states |
|---|---|---|
| `VisitStore.MonthYearKey` | modules/function/function.ts:139-144 | the monthly key is `visit#` + month + `#` + year (length of the parts plus 7) and is never the `total_visits` key, so the two updates never hit the same row |
| `VisitStore.MonthYearKeyInjective` | modules/function/function.ts:139-144 | two calendar readings whose month names contain no `#` give the same key only if month and year are both equal: different months or years use different rows |
| `VisitStore.CheckDuplicateVisit` | modules/function/function.ts:67-80 | true exactly when the hash is in the current month's recorded list; an absent row or list counts as no visitors |
| `VisitStore.DuplicateCheckIsPerMonth` | modules/function/function.ts:70-79 | the answer depends only on the item under the current month's key: hashes stored under any other key never make a visit a duplicate |
| `VisitStore.GetTotalVisitCount` | modules/function/function.ts:125-137 | the stored `visits`, or 0 when the row or attribute is absent or falsy; this equals the counter as `if_not_exists(visits, 0)` reads it |
| `VisitStore.AppendUserHash` | modules/function/function.ts:93-103 | the month's list becomes the old list (empty if absent) with the hash at its end; the row is created if absent; its `visits` attribute and every other row are unchanged |
| `VisitStore.IncrementVisits` | modules/function/function.ts:104-115 | the `total_visits` row's `visits` becomes the old value (0 if absent) plus 1; the row is created if absent; its list and every other row are unchanged |
| `VisitStore.RecordVisitTouchesTwoRows` | modules/function/function.ts:93-115 | after both updates, the month's list has grown by the hash and the counter by 1; the key set gains at most those two keys; every other row is unchanged |
| `VisitStore.RecordVisitKeepsConsistent` | modules/function/function.ts:104-119 | on a table where the counter equals the number of recorded hashes, an accepted visit keeps that equality and leaves a counter of at least 1, so the `total_visits row not updated` throw is unreachable |
| `VisitHandler.ReadUserHash` | modules/function/function.ts:29-36 | a missing or empty body throws `missing event body` before decoding; a decoding failure propagates unchanged; a falsy `user_hash` (absent, `null`, `false`, `0` or `""`) throws `missing user_hash in event.body`; otherwise it returns exactly the decoded, non-empty hash; it never reads the table |
| `VisitHandler.VisitTable.InsertUserHash` | modules/function/function.ts:90-120 | the table becomes the old one with the append and then the increment applied; it returns the new counter, or throws `total_visits row not updated` when that value is 0; it keeps `Valid()`, and on a valid table it always returns old counter + 1 |
| `VisitHandler.VisitTable.Handle` | modules/function/function.ts:14-61 | every response is status 200 or 400, 400 exactly when `error` is set, exactly one of `visits`/`error`, JSON content type. GET returns the total and leaves the table unchanged. An unknown route gives `Unsupported route: "<key>"` and leaves it unchanged. A POST leaves it unchanged on a validation error (with that error's message) and on a duplicate (`visitor already exists`). Otherwise the POST applies both updates and answers the new counter, or 400 `total_visits row not updated` when that new counter is 0 (a stored counter of -1); on a valid table it always answers the old total + 1. It keeps `Valid()` |

## Left out

- The DynamoDB client, its region and table name, and the network calls (modules/function/function.ts:1-11): the table is a map value and each command is the function of its update expression.
- Base64 decoding, `JSON.parse` and the destructuring of its result (modules/function/function.ts:33): a `Decoder` parameter stands for them. A `user_hash` that is a truthy non-string value (a number, an object) is not modelled; the decoder maps an absent field and the falsy values `null`, `false` and `0` to `None`, and `""` to `Some("")`.
- `new Date()` and `toLocaleString` (modules/function/function.ts:140-142): the month name and year are a `CalendarDate` parameter. The source reads the clock separately for the duplicate check and for the append. The model uses one reading per request, so a month rollover between the two reads is not captured.
- `console.warn` (modules/function/function.ts:133): a log line with no effect on the result.
- `JSON.stringify` of the body (modules/function/function.ts:54): the body stays a structured record with optional `visits` and `error`.
- The unused Lambda `context` argument (modules/function/function.ts:16).
- Concurrency: two simultaneous POSTs of the same hash can both pass the duplicate check. The model is sequential, one request at a time.
- Store failures: a network or service error, or a failure between the append and the increment, which would leave the list and the counter apart. The model has every store call succeed.
- Attribute types the handler never writes: `user_hashes` is a list of strings and `visits` an integer. A non-integer `visits` (2.5), a list holding non-strings, or an attribute of another type (on which the update expressions fail in the store) is not modelled.
- Read consistency: both `GetCommand`s (modules/function/function.ts:70-75, modules/function/function.ts:126-131) are eventually consistent reads, so a read may not yet show an update made just before it. The model has every read see the latest update. Two POSTs of one hash a moment apart can therefore both pass the duplicate check in the source, and a GET right after a POST can return the old total; the model captures neither.
- `visits` is an unbounded integer here. In the source it is a JavaScript number, which loses precision past 2^53 (or is refused by the document client); the model does not capture that limit.

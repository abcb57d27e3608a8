# Teco Preparações backend: id allocation, tables and login

A Dafny model of the logic inside `site_teco_backend/server.js`, the Express and
SQLite backend of a small record-management site. The SQLite handle `db` becomes a
`Database` object holding three in-memory tables:

- `clientes` (customers) and `produtos` (products), each a `Table` of rows keyed by an
  `INTEGER PRIMARY KEY` id, whose other columns are an opaque `Record`;
- `usuarios`, an `Accounts` object mapping the `UNIQUE` username to its password hash.

Four pieces of logic are modelled:

1. **Gap-filling id allocation** (`findAndInsert`, module `IdAllocation`). The gap
   query returns `k + 1` for the smallest id `k` whose successor is absent.
   JavaScript truthiness turns a `next_id` of 0 into `null`. A candidate of `null` or
   `1` falls back to `MAX(id) + 1`, or to 1 when the maximum is NULL or 0.
   `Allocate(ids)` is the result. It is proved never to be an id already in use, for
   every finite set of integer ids.
2. **Inserting and deleting rows** (`performClientInsert`, `performProductInsert` and
   the two `DELETE` routes, modules `Tables` and `Server`). A duplicate id fails and
   leaves the table unchanged. A delete reports `changes`, and no change becomes a 404.
3. **Default-account bootstrap** (`createDefaultUser`, module `Auth`). It inserts
   `admin` with the supplied hash only when hashing succeeded and no `admin` row
   exists. Proved idempotent over any number of process starts.
4. **Login decision** (`POST /login`, module `Auth`). The outcomes are:
   - 400 for a missing or empty `user` or `senha`;
   - 401 with one and the same message for an unknown user and for a wrong password;
   - 500 when the hash comparison reports an error;
   - 200 when the comparison accepts the password.

Outside collaborators are parameters:
- the result of `bcrypt.hash` is an `Option<string>`, where `None` is a hashing error;
- `bcrypt.compare` is a function `Comparer` from (secret, hash) to an error or a boolean.

One might expect the table `{2, 3}` to reach the `MAX(id)` branch through a
gap-query candidate of 1. In the code, the gap query on `{2, 3}` returns 4 directly,
since `k = 3` is the smallest id without a successor. `AllocationExamples` proves
that path. `MaxBranchOnlyWhenEmpty` proves that, with positive ids, the `MAX(id)`
branch is reached only on an empty table. For small tables, `{}` gives 1, `{1,2,4}`
gives 3, `{1,2,3}` gives 4, `{2,3}` gives 4 and `{2}` gives 3. A freed id 1 is
therefore not reused while any other row remains (`FrontGapNotReused`). A freed id
d >= 2 is the next id when it was deleted from a dense table 1..n
(`InteriorGapReused`); ids below the smallest remaining id are never reused while
rows remain (`NoReuseBelowMinimum`): after ids 1..4 and deleting 1 and then 2, the
next id is 5, not 2. Allocation from an empty or all-positive table is positive
(`AllocatePositive`), so `FindAndInsert` keeps every id positive.

## Model

| member | source | states |
|---|---|---|
| `IdAllocation.GapQuery` | site_teco_backend/server.js:144-146 | no row exactly when the table is empty; otherwise `next_id - 1` is an id, `next_id` is not, and every smaller id has its successor present |
| `IdAllocation.MaxQuery` | site_teco_backend/server.js:156-158 | `max_id` is NULL exactly on an empty table; otherwise it is an id and no id exceeds it |
| `IdAllocation.GapCandidate` | site_teco_backend/server.js:152 | `novoId` is the gap query's `next_id` when that is truthy, and null exactly when there is no gap row or `next_id` is 0; a non-null `novoId` is a nonzero id not in use |
| `IdAllocation.MaxFallback` | site_teco_backend/server.js:162 | the fallback is `max_id + 1` when `max_id` is truthy and 1 when it is NULL or 0; it is never in use and exceeds every nonzero id |
| `IdAllocation.Allocate` | site_teco_backend/server.js:142-168 | the id handed to the insert function is never already in the table, and is 1 for an empty table |
| `IdAllocation.PositiveGapCandidate` | site_teco_backend/server.js:144-152 | for a nonempty table of positive ids the gap candidate exists and is at least 2 |
| `IdAllocation.MaxBranchOnlyWhenEmpty` | site_teco_backend/server.js:152-162 | for positive ids the `MAX(id)` branch is taken if and only if the table is empty |
| `IdAllocation.MaxBranchWitness` | site_teco_backend/server.js:152-154 | the `MAX(id)` branch needs an empty table or an id 0 or -1 |
| `IdAllocation.PositiveAllocation` | site_teco_backend/server.js:144-167 | for positive ids the result is `k + 1` for the smallest id `k` whose successor is absent, and is at most `MAX(id) + 1` |
| `IdAllocation.AllocationDetermined` | site_teco_backend/server.js:144-167 | for positive ids, any `r` with `r - 1` in use, `r` free and no earlier missing successor is the allocated id |
| `IdAllocation.AllocatePositive` | site_teco_backend/server.js:152-167 | from an empty or all-positive table the allocated id is positive |
| `IdAllocation.NoReuseBelowMinimum` | site_teco_backend/server.js:144-167 | for a nonempty positive table the allocated id exceeds the smallest id in use |
| `IdAllocation.DenseTable` | site_teco_backend/server.js:144-167 | after ids 1..n the next id is n + 1 |
| `IdAllocation.InteriorGapReused` | site_teco_backend/server.js:144-167 | deleting an id d >= 2 from 1..n makes d the next id |
| `IdAllocation.FrontGapNotReused` | site_teco_backend/server.js:144-162 | deleting id 1 from 1..n (n >= 2) gives n + 1, though 1 is free |
| `IdAllocation.AllocationExamples` | site_teco_backend/server.js:144-167 | `{}`→1, `{1,2,4}`→3, `{1,2,3}`→4, `{2,3}`→4 through the gap query, `{2}`→3 without the `MAX` branch, `{3,4}`→5 |
| `Tables.Table.constructor` | site_teco_backend/server.js:30-57 | a newly created table has no rows |
| `Tables.Table.Insert` | site_teco_backend/server.js:71-77 | succeeds exactly when the id is free (`INTEGER PRIMARY KEY`, lines 32 and 48); then adds that one row, otherwise the table is unchanged |
| `Tables.Table.Delete` | site_teco_backend/server.js:212-217 | removes exactly the row with that id; `changes` is 1 if it existed, else 0; all other rows are kept |
| `Tables.ParseKey` | site_teco_backend/server.js:211-212 | an empty parameter, a lone '-', one starting with neither a digit nor '-', or one with a non-digit after its first character names no row |
| `Tables.ParseKeyText` | site_teco_backend/server.js:211-212 | the decimal text of every integer key reads back as that key |
| `Tables.CanonicalKeyRoundTrip` | site_teco_backend/server.js:211-212 | a parameter without leading zeros (and not `-0`) that names a key is exactly that key's decimal text |
| `Auth.Bootstrapped` | site_teco_backend/server.js:108-137 | after one bootstrap `admin` exists if hashing succeeded; a hashing error or an existing `admin` leaves the accounts unchanged; no other account changes |
| `Auth.BootstrapIdempotent` | site_teco_backend/server.js:119-134 | once `admin` exists, a further bootstrap is a no-op |
| `Auth.RestartsKeepOneAdmin` | site_teco_backend/server.js:108-139 | over any sequence of starts, an existing `admin` hash is never overwritten, other accounts are untouched, `admin` exists after any successful hash, and it holds the first successful hash |
| `Auth.Accounts.constructor` | site_teco_backend/server.js:59-65 | a newly created `usuarios` table is empty |
| `Auth.Accounts.Insert` | site_teco_backend/server.js:125 | succeeds exactly when the username is free (`username` is `UNIQUE`, line 62), adding only that row |
| `Auth.Accounts.CreateDefaultUser` | site_teco_backend/server.js:108-137 | the accounts afterwards are `Bootstrapped` of those before |
| `Auth.Login` | site_teco_backend/server.js:269-306 | 400 iff a field is missing or empty; 200 iff the user exists and the comparer accepts the password; 500 iff the comparer errs; every 200, 401 and 500 is the one fixed response of its status; an unknown user gets 401 |
| `Auth.BadRequestBeforeLookup` | site_teco_backend/server.js:272-274 | a missing or empty field yields the same 400 whatever the accounts and comparer |
| `Auth.UnknownUserLikeWrongPassword` | site_teco_backend/server.js:284-302 | an unknown user and a wrong password receive identical responses |
| `Auth.LoginReadsOwnRow` | site_teco_backend/server.js:277 | the decision depends only on the row of the user logging in |
| `Auth.LoginAfterBootstrap` | site_teco_backend/server.js:108-306 | after bootstrap on an empty table, `admin`/`1234` logs in, and `admin`/`wrong` and `nouser` are refused with the same response |
| `Server.Database.constructor` | site_teco_backend/server.js:24-65 | opening a new database yields three distinct empty tables |
| `Server.Database.PerformClientInsert` | site_teco_backend/server.js:70-86 | a free id adds exactly that client row and echoes the id; a taken id gives the clients' 500 message and changes nothing |
| `Server.Database.PerformProductInsert` | site_teco_backend/server.js:89-105 | the same for products, with the products' messages |
| `Server.Database.FindAndInsert` | site_teco_backend/server.js:142-170 | run without interleaving, the insert always succeeds under `Allocate` of the old ids, adds exactly that row and leaves the other table unchanged; a table whose ids were all positive keeps them positive |
| `Server.Database.DeleteRoute` | site_teco_backend/server.js:210-222 | deleting an existing id removes exactly that row with `changes` 1; otherwise a 404 with the collection's message and no change; the other table is untouched (also lines 252-264 for products) |
| `Server.FrontDeleteScenario` | site_teco_backend/server.js:174-222 | clients A and B get ids 1 and 2; after deleting 1, client C gets id 3 with status 200 |
| `Server.InteriorDeleteScenario` | site_teco_backend/server.js:233-264 | after products 1..3 and deleting 2, the next product gets 2; deleting id `abc` is a 404 |

## Left out

- Express routing, CORS, static files, `res.sendFile`, `app.listen` and console logging: I/O plumbing.
- Store errors (the `err` callbacks of the gap and max queries, of the bootstrap lookup and insert, of the delete and of the login lookup): the in-memory tables do not fail. The one store failure modelled is the duplicate-key insert.
- Asynchronous callback ordering and the race between allocation and insert: `FindAndInsert` runs allocation and insert as one sequential step. Concurrent requests may compute the same id, and the primary key then rejects one of them.
- bcrypt internals (salt, cost factor 10, constant-time comparison): hashing is an input and comparison is the `Comparer` parameter.
- `GET /clientes`, `GET /produtos` (store `ORDER BY`), the `LIKE` client search and the exact `codigo` product search: store pass-throughs whose collation and wildcard rules belong to SQLite.
- Record contents and the positional column lists of the inserts: rows are an opaque `Record`.
- Integer width: ids are unbounded integers. SQLite's 64-bit keys and JavaScript's 53-bit number precision near `MAX(id) + 1` are not modelled.
- Auth.Login: request-body fields are modelled as optional strings. Non-string JSON values (numbers, booleans) and their truthiness are not modelled.
- Tables.ParseKey: only optional '-' followed by decimal digits names an integer. SQLite's other text-to-integer conversions (surrounding spaces, a leading '+', `5.0`) are treated as naming no row.
- The SQL text assembled from `tableName`: only the two fixed names are used, modelled as `Collection`.

# Job scheduler: a verified model of the job table and its client

The system is a small job-tracking service. A client submits a named job with
a JSON payload and a priority. The service stores it as `pending`. A run
request marks it `running` and schedules a deferred step. That step marks it
`completed` and posts a notification to a webhook. A browser client lists the
jobs, filters them by status and priority, and offers a create form.

This project models two parts of it in Dafny:

- `backend.dfy` (module `Backend`): the service's handlers as methods of a
  `JobStore` class. The class holds the `jobs` table as a map from id to row,
  the AUTOINCREMENT counter `nextId`, a ghost `outbox` of sent webhook
  bodies, and a ghost map `requested` from each id to the payload its
  create request carried. The deferred completion is a separate method,
  `Complete`, which a caller may invoke at any time. In the service only a
  run schedules it; the model does not tie it to an earlier `RunStart`.
- `frontend.dfy` (module `Frontend`): the list filter as a function with
  lemmas, `String.prototype.trim`, and the component state as an `App` class.
  Its `CreateJob` and `RunJob` methods call the `JobStore` methods where the
  client makes HTTP calls.
- `json.dfy` (module `Json`): JSON values and an abstract codec. `encode`
  stands for JSON.stringify and `decode` for JSON.parse. Numbers are
  integers. `Codec.Lawful` is an idealisation of the host library: parsing a
  serialized value gives it back, and null serializes to `"null"`.
  `IsValidJson(s)` means JSON.parse(s) does not throw. No operation requires a
  lawful codec. `Complete` has a branch for a stored payload that JSON.parse
  rejects. The round trip of the payload holds whenever the codec is lawful.
- `lawful_codec.dfy` (module `LawfulCodec`): a concrete codec, a prefix code
  with unary counts rather than JSON syntax. `LawfulCodec.Witness` proves it
  lawful, so assuming a lawful codec is consistent.
- `wrappers.dfy` (module `Wrappers`): `Option` and `Result`.

Timestamps are integers that the caller supplies. Request fields arrive as
`Option` values, where `None` is a field missing from the request body. The
service stores them as they arrive.

The model follows what the code does, including where a reader might expect
otherwise:

- Create validates nothing. A missing field is stored as NULL and no 400 is sent.
- List has no `ORDER BY`. The model promises each row once, in no order, not newest first.
- Get on an unknown id answers with an empty body, modelled as `None`, not a 404.
- Run on an unknown id is acknowledged with "Job started". The deferred step then does nothing.
- Run has no status guard. For example, a completed job goes back to `running`.
- The webhook URL is a constant. No configuration can leave it unset.

A missing payload is a case the code handles without saying so.
JSON.stringify(undefined) gives undefined, which is bound as NULL. JSON.parse(null)
reads the text "null". So the notification then carries a JSON null payload
(`Backend.Serialize`, `Backend.ParseStored`).

## Model

| member | source | states |
|---|---|---|
| `Backend.Serialize` | backend/index.js:22 | the stored payload column is NULL exactly when the request had no payload; with a lawful JSON library, parsing the column back gives the request's payload, or null when there was none (the notification's payload round trip) |
| `Backend.ParseStored` | backend/index.js:68 | JSON.parse of the stored column: a text column is parsed as it is; a NULL column is read as the text "null" and so, with a lawful library, gives JSON null |
| `Backend.Update` | backend/index.js:51 | the UPDATE keeps the table's ids; a matching row gets the new status and updatedAt whatever its previous status, and keeps id, taskName, payload, priority and createdAt; every other row is unchanged; an unmatched id changes nothing |
| `Backend.ListingLength` | backend/index.js:32 | a result holding every row of an id-keyed table once has exactly as many rows as the table |
| `Backend.JobStore.constructor` | backend/db.js:7-15 | for any JSON library, on a new jobs.db the table starts empty, the id counter at 1, no notification sent and no payload recorded |
| `Backend.JobStore.Create` | backend/index.js:14-28 | inserts a `pending` row with createdAt = updatedAt = now and the given taskName, serialized payload and priority, under an id absent before and above every existing id (AUTOINCREMENT); records the request's payload under that id; no other row changes; fails with `TableFull`, changing nothing, once the counter passes SQLite's largest rowid |
| `Backend.JobStore.List` | backend/index.js:31-36 | returns every stored row exactly once (no two rows with one id, as many rows as the table), with no promised order |
| `Backend.JobStore.Get` | backend/index.js:39-44 | returns the stored row for the id, or nothing when no row has it |
| `Backend.JobStore.RunStart` | backend/index.js:47-51 | always answers "Job started"; the table becomes `Update(old table, id, running, now)`, so an unknown id changes nothing and a completed job is set back to running; counter and outbox unchanged |
| `Backend.JobStore.Complete` | backend/index.js:53-70 | on a missing id gives `JobGone`, changes nothing and sends nothing; otherwise marks the row completed with updatedAt = completedAt (the time read before the row is fetched); if JSON.parse rejects the stored payload it gives `PayloadUnparsable` and sends nothing; otherwise it appends exactly one notification whose jobId, taskName and priority come from the row as read, whose payload is the parsed stored payload and whose completedAt is that time; with a lawful library a notification is always sent and its payload is the create request's payload (null if none) |
| `Frontend.Visible` | frontend/app.js:173-186 | `jobs.filter(Shown)`, where the predicate `Shown` is the lambda at frontend/app.js:174-185: no longer than the loaded list, and every displayed job passes the filter |
| `Frontend.VisibleUnfiltered` | frontend/app.js:173-186 | with both filters at "All" the displayed list is the loaded list, in the same order |
| `Frontend.VisibleIsSubsequence` | frontend/app.js:173-186 | the displayed list is an order-preserving subsequence of the loaded list, witnessed by strictly increasing indices |
| `Frontend.VisibleMembership` | frontend/app.js:174-185 | a job is displayed if and only if it is loaded and passes both filter checks |
| `Frontend.VisibleMatchesFilters` | frontend/app.js:176-182 | every displayed job has the chosen status when the status filter is not "All", and the chosen priority when the priority filter is not "All" |
| `Frontend.VisibleEmpty` | frontend/app.js:173-186 | the displayed list is empty if and only if no loaded job passes the filters |
| `Frontend.LeadingWhitespace` | frontend/app.js:46 | counts the whitespace prefix: every counted character is whitespace and the next one is not |
| `Frontend.TrailingWhitespace` | frontend/app.js:46 | counts the whitespace suffix: every counted character is whitespace and the one before it is not |
| `Frontend.Trim` | frontend/app.js:46 | the result is a contiguous slice of the text with only whitespace before and after it; it is empty if and only if the text is all whitespace, and otherwise starts and ends with a non-whitespace character |
| `Frontend.App.constructor` | frontend/app.js:9-15 | no jobs loaded, empty task name, payload "{}", priority "Low", both filters "All" |
| `Frontend.App.Load` | frontend/app.js:20-28 | the loaded list becomes a listing of the service's table |
| `Frontend.App.CreateJob` | frontend/app.js:35-68 | an unparsable payload gives `InvalidPayload` whatever the task name (the JSON check is first); otherwise a blank task name gives `MissingTaskName`; both submit nothing and change nothing; a stored job gets the form's task name, the parsed payload and the priority under the service's old counter, which moves on by one, then the task name becomes "" and the payload "{}", the priority keeps its value and the list is reloaded; a refused insert changes nothing |
| `Frontend.App.RunJob` | frontend/app.js:71-80 | the service marks the job running as `RunStart` does and the list is reloaded from the new table |

`Backend.Scenario` plays the life of one job through the class's contracts:
create, list, run, complete with one notification carrying the original
payload, a re-run after completion, and an unknown id.

## Left out

- HTTP routing, CORS, body parsing, status codes, `app.listen` and the health route: transport only; each handler's result is the method's return value.
- SQL text and the SQLite driver: only their effect on rows is modelled. Store failures other than an exhausted rowid counter are not modelled (disk or I/O errors behind the 500 answers of list, get and create).
- Backend.JobStore.constructor: the model starts from a new, empty jobs.db. Reopening an existing file (backend/db.js:3, 7), whose rows and AUTOINCREMENT counter survive `CREATE TABLE IF NOT EXISTS`, is not modelled.
- The id is an integer. Express passes a text id, which SQLite compares with the integer column; ids that are not numerals are not modelled.
- Request fields other than strings or missing: a task name or priority sent as a number or an object is not modelled. SQLite would store its text form.
- The webhook POST through axios, its logging and the webhook URL: network I/O. A send is an append to the ghost `outbox`, and the webhook's answer is ignored as in the code.
- `setTimeout`, the 3000 ms delay, and interleaving of overlapping runs: scheduling. The caller invokes `Complete` whenever it likes, possibly twice after two runs.
- Wall-clock reads: timestamps are caller-supplied integers. No property relies on a monotone clock, so createdAt <= updatedAt is not claimed.
- JSON text syntax, JSON.parse and JSON.stringify: kept abstract as a lawful codec. The payload pretty-printing of the detail panel is left out.
- JSON numbers are integers. JavaScript numbers are not: non-integers, integers beyond 2^53 (rounded), -0 (read back as 0), and out-of-range literals are not modelled. For example, `1e400` parses to Infinity and then serializes as `null`.
- Codec.Lawful is an idealisation. The host pair round-trips only values a JavaScript object can hold. It drops duplicate keys and moves integer-like keys to the front, and the model's member sequences are not limited that way.
- Ids are exact integers up to SQLite's largest rowid. The sqlite3 driver returns `lastID` and INTEGER columns as JavaScript numbers, so ids above 2^53 come back rounded. That rounding is not modelled.
- Backend.JobStore.Complete: the model lets a caller complete a job that was never run. In the service only a run schedules the completion.
- After JSON.parse throws in the completion step, the async callback's unhandled rejection can end the Node process. That is not modelled; the model only records that nothing is sent.
- Rendering, the detail panel (`selectedJob`), the filter and form change handlers, `alert` and `console.error`, and the ReactDOM bootstrap: UI.
- The load on mount (frontend/app.js:30-32) is `Frontend.App.Load`. The model's constructor does not call it; a caller calls it after construction.
- Frontend.App.CreateJob: the client's HTTP calls are direct `JobStore` calls, so network failures (the catch branches at frontend/app.js:24-27, 64-67 and 76-79) are not modelled; the reload that the client does not await happens at once.
- Frontend.App.RunJob: a failed request (its catch branch) is not modelled, for the same reason.

# Astronaut store: a Dafny model

This project models the core of a small CRUD application for "astronaut"
records. It has two sides.

- **Server.** An in-memory REST store holds an ordered list of records and a
  counter `lastId` that starts at 1. It has five handlers. GET lists 5 records
  per page. POST creates a record. POST /example appends a list of example
  records. PUT updates a record by id. DELETE removes a record by id.
- **Client.** The home page keeps a local copy of one page of rows. It adjusts
  that copy when a create, update or delete succeeds. The table's buttons move
  the current page between 1 and the page count.

Modules:

- `Json` (json.dfy): a record is a JSON object, `map<string, Value>`. Its id
  counts only when the `"id"` key holds an integer (`IdOf`, `HasId`). This
  follows the strict comparison `a.id === id` against a parsed integer.
- `RecordList` (record_list.dfy): the list operations both sides use.
  `Without` is `filter(a => a.id !== id)`. `FindById` is
  `find(a => a.id === id)`. `ReplaceById` is filter followed by push.
- `Server` (server.dfy): validation, `Math.ceil` page count, JavaScript
  `slice`, and the listing as pure functions. The class `Store` has fields
  `astronauts` and `lastId`. Its methods are the handlers. Each returns the
  status code and the payload sent.
- `AstronautTable` (astronaut_table.dfy): the navigation guards and the
  next/previous rules, plus lemmas about any series of clicks.
- `HomePage` (home_page.dfy): the class `Home` holds the page's state
  variables. Its methods apply each reconciliation rule. A network answer
  enters as an input: the HTTP status, plus the data where there is any.

Behaviour that follows from the code:

- **Pages below 1 are not refused.** `parseInt` gives an integer, and only
  `page > totalPages` is refused. Pages below 1 go through JavaScript `slice`,
  which counts negative bounds from the end of the list. So page 0 answers
  200 with no data. Page -k answers 200 with `slice(-5k-5, -5k)`: it skips
  the last k blocks of 5 records and returns the block before them. For
  example, page -1 of 12 records is records 2..6, not the last five.
  `PageData` states both cases.
- **Update does not force the path id onto the body.** PUT appends the body
  as sent, so it can carry any id or none. `Numbered` says every record has
  an integer id below `lastId` and no two records share one. Create, the
  example seed and delete always keep `Numbered`. Update keeps it when the
  body repeats the path id. A body with no integer id, with an id another
  kept record has, or with an id at or above `lastId` can break it.
- **The client's page count is exact only on the last page.** There,
  `addAstronaut` matches what the server will report next
  (`AddAgreesWithServer`). On an earlier page, the client adds a page whenever
  the shown page has 5 rows. It cannot see whether the last page is full, so
  its count can be wrong until the next listing is fetched.

## Model

| member | source | states |
|---|---|---|
| `Server.IsValidAstronaut` | src/index.ts:27-36 | a body is valid iff the four required keys firstName, lastName, birthdate and superpower are all among its keys |
| `Server.ValidationIsKeyPresence` | src/index.ts:27-36 | two bodies with the same keys are judged alike, so values are never inspected |
| `Server.TotalPages` | src/index.ts:58 | for a non-empty store the page count t is the ceiling of n/5: (t-1)*5 < n <= t*5 |
| `Server.JsSlice` | src/index.ts:73 | `slice(start, end)` with 0 <= start <= end is the ordinary clamped sub-list; for start <= end the result never has more than end-start elements; bounds on the same side of 0 in the wrong order give nothing |
| `Server.PageData` | src/index.ts:67-73 | the records sent for page p: at most 5 and never more than the store; for p in 1..totalPages exactly records (p-1)*5 .. min(p*5, n), at least one; page 0 is empty; page -k skips the last k blocks of 5 and holds the block before them |
| `Server.ListPage` | src/index.ts:38-75 | empty store: totalPages 1, current -1, no data, for any page; otherwise a missing page means page 1; status 400 iff that page > totalPages; any other page is answered 200 with totalPages, the page as current, and that page's records; for a page in 1..totalPages (a missing page included) these are records (page-1)*5 .. min(page*5, n), 1 to 5 of them |
| `Server.PagesUpToIsPrefix` | src/index.ts:67-74 | for every k, pages 1..k concatenated are exactly the first min(5k, n) records |
| `Server.PagesReassembleStore` | src/index.ts:49-74 | reading pages 1..totalPages gives back the whole store, in order, each record once |
| `Server.NewAstronaut` | src/index.ts:88-95 | the created record has exactly the keys id, firstName, lastName, birthdate, superpower, the given id, and the body's four values |
| `Server.Stamped` | src/index.ts:108-114 | the i-th example gets the integer id first+i, keeps its other keys and values, and gains only the key id |
| `Server.NumberedAppend` | src/index.ts:97-98 | appending a record that carries the counter's value, then incrementing the counter, keeps ids unique and below the counter |
| `Server.NumberedWithout` | src/index.ts:157 | filtering records out keeps ids unique and below the counter |
| `Server.Store.constructor` | src/index.ts:20-25 | the store starts empty with lastId 1 (and so trivially numbered) |
| `Server.Store.List` | src/index.ts:38-75 | the GET handler answers the listing of the current store and changes nothing |
| `Server.Store.Create` | src/index.ts:77-101 | invalid body: 400 and store and lastId unchanged; valid body: the new record with id old lastId appended last, lastId + 1, 200 with that record; unique ids preserved |
| `Server.Store.AddExamples` | src/index.ts:103-116 | the k examples are appended in order after the old records with ids lastId..lastId+k-1, lastId advances by k, unique ids preserved |
| `Server.Store.Update` | src/index.ts:118-140 | errors in order: no integer id 400, absent id 404, invalid body 400, each leaving the store unchanged; success iff all three checks pass, then every record with that id is dropped, the others keep their order and the body is appended last as sent; lastId unchanged; ids stay unique when the body repeats the path id |
| `Server.Store.Delete` | src/index.ts:142-159 | no integer id 400, absent id 404, store unchanged in both; otherwise 200 and exactly the records with that id are removed, order kept; lastId unchanged; unique ids preserved |
| `RecordList.Without` | src/index.ts:157 | the result is no longer than the input and holds exactly the input's records whose id differs |
| `RecordList.WithoutAppend` | src/index.ts:137 | filtering distributes over concatenation, so the kept records keep their relative order |
| `RecordList.WithoutEffect` | src/index.ts:129-137 | filtering leaves the list unchanged iff no record has the id, and otherwise shortens it |
| `RecordList.FindById` | pages/index.tsx:52 | no result iff no record has the id; otherwise the result is the first record with that id |
| `RecordList.ReplaceById` | src/index.ts:137-138 | the replacement record is last, the records before it are the filtered old list (`Without`: the old records with another id, in their order), and if the record carries that id it is the only one that does |
| `AstronautTable.NextPage` | components/AstronautTable.tsx:14-26 | the page moves forward by one iff the page count is known and the page is below it (the guard `CanVisitNextPage`, the source's `maxPages !== null && page < maxPages`), otherwise it stays; it never passes the page count |
| `AstronautTable.PrevPage` | components/AstronautTable.tsx:20-32 | the page moves back by one iff it is above 1 (the guard `CanVisitPrevPage`, the source's `page > 1`), otherwise it stays; it never drops below 1 |
| `AstronautTable.NavigationStaysInRange` | components/AstronautTable.tsx:14-32 | from a page in 1..maxPages, any series of next/previous clicks stays in 1..maxPages |
| `AstronautTable.NoForwardWithoutPageCount` | components/AstronautTable.tsx:24-26 | while the page count is null no click moves forward, and clicks never go below 1 |
| `AstronautTable.RepeatedClicks` | components/AstronautTable.tsx:14-32 | k clicks on next reach min(page+k, maxPages); k clicks on previous reach max(page-k, 1) |
| `HomePage.Home.constructor` | pages/index.tsx:11-15 | no rows, blank form, modal closed, page 1 of 1 |
| `HomePage.Home.Fetched` | pages/index.tsx:23-30 | only a 200 answer replaces the rows and the page count; nothing else changes |
| `HomePage.Home.AddAstronaut` | pages/index.tsx:32-42 | the record is appended iff page == maxPages and fewer than 5 rows are shown; maxPages grows by exactly one iff exactly 5 rows are shown; the page never changes |
| `HomePage.Home.EditAstronaut` | pages/index.tsx:44-56 | a null id changes nothing; otherwise the modal opens and the form becomes the first row with that id, or the blank form if none |
| `HomePage.Home.UpdateAstronaut` | pages/index.tsx:58-68 | the rows become the old rows with another id, in order, followed by the updated record; exactly one row, the last, has that id |
| `HomePage.Home.OpenModal` | pages/index.tsx:70-74 | the form is reset to blank and the modal opens |
| `HomePage.Home.CloseModal` | pages/index.tsx:76-78 | the modal closes and nothing else changes |
| `HomePage.Home.RemoveAstronaut` | pages/index.tsx:90-122 | a request is sent iff the id is not null; a null id or any status other than 200 changes nothing; on 200 the rows with that id are removed in order, and if exactly one row was shown, page 1 is refetched when already on page 1, or the page resets to 1 when beyond it |
| `HomePage.AddAgreesWithServer` | pages/index.tsx:36-41 | on the server's last page, a page with fewer than 5 rows becomes those rows plus the new record and the page count stays; a full page keeps exactly its rows and the record alone makes up one new page |

## Left out

- HTTP plumbing is not modelled: Express, CORS, JSON body parsing, `res.status/send` and `app.listen`. Each handler returns a status and a payload instead. A request body is taken to be a JSON object.
- `parseInt` is not modelled. A parsed page or id is an `Option<int>`, where None stands for NaN.
- The example data file is not part of this model. `AddExamples` takes the example list as a parameter.
- JavaScript number precision is not modelled. `lastId` and ids are unbounded integers, with no 2^53 limit.
- `fetch`, async/await and rendering are not modelled. Each network answer is an input to the state update. Each button click is handled after the previous update has taken effect, so React's batching of stale closures is not modelled.
- HomePage.Home.RemoveAstronaut: `refetch` reports only the explicit `fetchData()` call. Moving to page 1 also causes a fetch, through the effect that watches `page`, and that fetch is not reported.
- HomePage.Home.UpdateAstronaut: requires the echoed record to carry an integer id. The form calls it only when its initial state has a truthy id. The server echoes the body it was sent, and that body contains that id.
- The client's `astronauts !== null` checks are not modelled. The list starts as `[]`, and the server always sends an array with a 200 answer.
- components/AstronautForm.tsx is not part of this model: form input, focus, and choosing PUT or POST. components/Modal.tsx is not part of this model either (presentation only).
- static/index.ts is not part of this model. The blank form includes today's date, so it is a parameter of the `Home` constructor.
- HomePage.Home.RemoveAstronaut: the `console.error` logging on a 400 or 404 answer is not modelled, because it is console output only. The model states only that these answers leave the state unchanged.
- A JSON value that is neither an integer nor a string is modelled as `Other`: non-integer numbers, booleans, null, arrays and nested objects. So two bodies that differ only in such values are equal in the model, and "as sent" holds only up to that. No modelled operation inspects those values.
- Table rendering is not modelled. This covers date formatting and the `a.id || -1` fallback on the row buttons.

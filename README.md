# Games catalog data store and game-creation endpoint, in Dafny

This project models the two parts of the games catalog website that hold logic:

- **The data store** (`src/lib/storage.ts`). One object keeps the whole document in
  memory: the list of games and one statistics record. Its methods change that
  document in place and rewrite the data file after each change. The model is the
  class `Storage.Store`. Its field `data` is the document. A ghost counter `saves`
  counts the calls of `saveData`, so "saves only when something changed" can be
  stated. The records are datatypes (`Game`, `Stats`, `Document`). The parts of the
  methods that are pure computation are functions with their own lemmas: the next
  id (`MaxId`, `NextId`), the new record (`NewGame`), the shallow merge (`Merge`),
  the delete filter (`Remove`) and the date prefix of a timestamp (`DatePart`).
- **The decision logic of `POST /api/games`** (`src/app/api/games/route.ts`). It is
  a pure function, `GamesRoute.Post`. It takes the existing games, the parsed
  request body, the random id and the `now` timestamp. It returns one of four
  outcomes: `BadRequest` with the missing required fields in order, `DuplicateTitle`,
  `ServerError` for an exception inside the handler, or `Created` with the record
  built. The request body is a JSON value (`Json`). JavaScript truthiness decides
  whether a field is "missing". Title comparison lowercases ASCII letters.

`Seqs` holds the three JavaScript array operations the code relies on: `find`,
`findIndex` and `filter`. Each is a recursive function, and the lemmas about them
are used throughout.

Inputs that the source takes from its environment are parameters here:

- the parsed data file: `Option<Document>`, where `None` means the read or parse failed;
- the current time: the `now` string;
- the random record id of the endpoint: the `id` string;
- the request body: `Option<Json>`, where `None` means `request.json()` rejected it.

Behaviour of the code worth knowing:

- `addGame` does not reject a duplicate title. Only the POST handler checks titles,
  and that handler never calls the store.
- `updateGame` does not refresh any timestamp. The store's `Game` has no
  `createdAt` or `updatedAt` field.
- Store ids are numbers, computed as the largest id plus one. The endpoint makes
  random string ids.
- A failed write in `saveData` is logged and swallowed. No persistence error
  reaches the caller.
- The POST handler checks titles against the games file bundled at build time
  (`gamesData`), not against the store. It returns the new record and appends it
  nowhere (route.ts:52). In the model the existing games are an input of a pure
  function, so nothing can change them.

## Model

| member | source | states |
|---|---|---|
| `Storage.ReadData` | src/lib/storage.ts:49-66 | a readable file yields its document unchanged; a failed read yields no games, all five counters 0 and no most-played game |
| `Storage.Store.constructor` | src/lib/storage.ts:38-40 | the store starts with the document `readData` yields, and no saves so far |
| `Storage.Store.SaveData` | src/lib/storage.ts:69-75 | a save leaves the document as it is and counts one write |
| `Storage.Store.GetGames` | src/lib/storage.ts:78-80 | returns the whole collection in stored order |
| `Storage.Store.GetGame` | src/lib/storage.ts:82-84 | returns nothing exactly when no record has the id; otherwise returns a record with that id that no earlier record shares |
| `Seqs.Find` | src/lib/storage.ts:83 | `find` gives nothing exactly when no element passes; what it gives passes and comes from the sequence |
| `Seqs.FindIndex` | src/lib/storage.ts:99 | `findIndex` is -1 exactly when no element passes; otherwise the element at the index passes and none before it does |
| `Seqs.FindIsAtFindIndex` | src/lib/storage.ts:82-84 | `find` returns exactly the element at the index `findIndex` reports |
| `Seqs.Filter` | src/lib/storage.ts:112 | `filter` keeps exactly the elements that pass: no more elements than the input, each kept one passes and occurs in the input, and every passing element is kept |
| `Seqs.FilterAppend` | src/lib/storage.ts:112 | filtering a concatenation is the concatenation of the filtered parts, so the relative order of kept elements is preserved |
| `Seqs.FilterKeepsAll` | src/lib/storage.ts:111-117 | the filtered length equals the input length exactly when every element passes, and then the result is the input |
| `Seqs.FilterCounts` | src/lib/storage.ts:112 | a passing element occurs in the result exactly as often as in the input; a failing one never occurs |
| `Seqs.FilterCons` | src/app/api/games/route.ts:22 | filtering an element followed by a sequence is that element if it passes, followed by the filtered rest |
| `Storage.MaxId` | src/lib/storage.ts:89 | `Math.max(0, ...ids)` bounds every id and is 0 or some record's id |
| `Storage.NextId` | src/lib/storage.ts:89 | the id handed out is at least 1, exceeds every existing id, belongs to no record, and is 1 or one more than an existing id, so it is exactly the largest id plus one |
| `Storage.DatePart` | src/lib/storage.ts:90 | `split('T')[0]` is the longest prefix of the timestamp that contains no 'T' |
| `Storage.NewGame` | src/lib/storage.ts:87-92 | the new record's id is 1 or one more than an existing id, and exceeds every existing id (so it is the largest id plus one); it has zero plays, the given date, and the draft's title, category, iframeUrl, status and thumbnail |
| `Storage.Merge` | src/lib/storage.ts:102-105 | every field supplied in the update takes the new value, and every other field keeps its prior value |
| `Storage.MergeNothing` | src/lib/storage.ts:102-105 | an update that supplies no field leaves the record unchanged |
| `Storage.MergeTwice` | src/lib/storage.ts:102-105 | two successive merges equal one merge in which later fields win; repeating a merge changes nothing further |
| `Storage.Remove` | src/lib/storage.ts:112 | the delete filter is no longer than the collection, and every record it keeps comes from the collection and has another id; `RemoveSpec` and `RemoveKeepsUnique` carry the rest |
| `Storage.RemoveSpec` | src/lib/storage.ts:110-118 | after the delete filter no record has the id; each other record occurs as often as before; the collection shrinks exactly when the id was present and is unchanged otherwise |
| `Storage.RemoveKeepsUnique` | src/lib/storage.ts:112 | deleting by id keeps ids pairwise distinct |
| `Storage.AppendFreshKeepsUnique` | src/lib/storage.ts:89-93 | appending a record with an id above every existing id keeps ids pairwise distinct |
| `Storage.AddAll` | src/lib/storage.ts:86-96 | the collection after a run of `addGame` calls has one more record per call and keeps the earlier records as its prefix; `AddAllKeepsUnique` adds that ids stay distinct |
| `Storage.AddAllKeepsUnique` | src/lib/storage.ts:86-96 | any run of `addGame` calls keeps the earlier records as a prefix, adds exactly one record per call, and keeps ids pairwise distinct |
| `Storage.AddAllFromEmpty` | src/lib/storage.ts:55-56 | from the empty collection of a failed read, no run of `addGame` calls ever produces two records with the same id |
| `Storage.UpdateKeepsUnique` | src/lib/storage.ts:98-108 | an update keeps ids distinct when it leaves the id alone, rewrites it to itself, or sets an id no record has |
| `Storage.Store.AddGame` | src/lib/storage.ts:86-96 | appends the new record built against the old collection; earlier records stay as they were and in order; stats are unchanged; distinct ids stay distinct; one save |
| `Storage.Store.UpdateGame` | src/lib/storage.ts:98-108 | returns nothing, changes nothing and does not save exactly when no record has the id; otherwise replaces only the first record with that id by the merge, keeps the length, other records and stats, returns the merged record and saves once |
| `Storage.Store.DeleteGame` | src/lib/storage.ts:110-118 | returns true exactly when some record had the id; afterwards the collection is the delete filter of the old one and no record has the id; stats are unchanged; it saves once on removal and never otherwise |
| `Storage.Store.GetStats` | src/lib/storage.ts:121-123 | returns the stored statistics record |
| `Storage.Store.IncrementStats` | src/lib/storage.ts:125-134 | visits raise `totalVisits` and `todayVisits` by exactly 1, and plays raise `totalPlays` and `todayPlays` by exactly 1; every other counter, the most-played game and the games are unchanged; one save |
| `Storage.Store.ResetDailyStats` | src/lib/storage.ts:136-140 | both today counters become 0; totals, active users, the most-played game and the games are unchanged; one save |
| `Storage.VisitsThenReset` | src/lib/storage.ts:125-140 | on a fresh store, two visits give total 2 and today 2, and a reset then leaves total 2 and today 0 |
| `Storage.AddFindDelete` | src/lib/storage.ts:82-118 | on a fresh store the first game added gets id 1 and zero plays and is found by id 1; deleting an id nobody carries reports nothing removed |
| `GamesRoute.Lookup` | src/app/api/games/route.ts:22 | for the five required names, which no JSON value inherits, `data[field]` is defined exactly when the body is an object with that member, and then it is that member's value |
| `GamesRoute.Truthy` | src/app/api/games/route.ts:22 | a looked-up value is truthy exactly when it is defined and is none of `null`, `false`, `0` and `""` |
| `GamesRoute.MissingFields` | src/app/api/games/route.ts:21-22 | the missing list has at most five fields, each listed field is absent or falsy, and every absent or falsy required field is listed; `MissingFieldsInOrder` fixes the order |
| `GamesRoute.MissingFieldsInOrder` | src/app/api/games/route.ts:21-22 | the missing list is, in the fixed order title, category, iframeUrl, thumbnail, status, exactly the required fields whose value is absent or falsy |
| `GamesRoute.NoneMissing` | src/app/api/games/route.ts:21-29 | a body with no missing field is an object whose five required fields are all truthy |
| `GamesRoute.Lower` | src/app/api/games/route.ts:33 | lowercasing keeps the length, maps each character through the ASCII case map, and leaves no upper-case ASCII letter |
| `GamesRoute.LowerChar` | src/app/api/games/route.ts:33 | a lowercased character is never an upper-case ASCII letter; a character is changed exactly when it is one; and the result is the same letter up to case, so 'A' becomes 'a' |
| `GamesRoute.LowerCharSame` | src/app/api/games/route.ts:33 | two characters lowercase alike exactly when they are the same letter up to ASCII case or the same character |
| `GamesRoute.LowerSame` | src/app/api/games/route.ts:33 | two strings lowercase alike exactly when they have the same length and agree character by character up to ASCII case |
| `GamesRoute.ClashesWith` | src/app/api/games/route.ts:33 | a game clashes with a title exactly when the two titles spell the same text up to ASCII case |
| `GamesRoute.LowerIdempotent` | src/app/api/games/route.ts:33 | lowercasing twice is lowercasing once |
| `GamesRoute.StatusCode` | src/app/api/games/route.ts:24-58 | a created game is answered with 200, missing fields and duplicate titles with 400, exceptions with 500 |
| `GamesRoute.Post` | src/app/api/games/route.ts:16-59 | a 400 for missing fields comes from a parsed body and lists at least one field, each absent or falsy in it; a duplicate is only reported when there are games on file; `PostRejectsMissing`, `PostDuplicateIff`, `PostCreatedRecord` and `PostServerErrorIff` carry the rest |
| `GamesRoute.PostRejectsMissing` | src/app/api/games/route.ts:24-29 | with a required field absent or falsy, that field is in the missing list and the answer is 400 with that list, whatever the existing games are, so the duplicate check is not reached |
| `GamesRoute.PostDuplicateIff` | src/app/api/games/route.ts:32-40 | with all fields present and a string title, the request is a duplicate exactly when some existing title is equal after lowercasing both, which is exactly when some existing title spells the same text up to ASCII case; otherwise the record is built |
| `GamesRoute.NewRecord` | src/app/api/games/route.ts:43-50 | the spread record has exactly the body's members and the five generated ones; `NewRecordFields` gives their values |
| `GamesRoute.NewRecordFields` | src/app/api/games/route.ts:43-50 | the built record has the body's members plus id, createdAt, updatedAt, playCount and addedDate; the id is the token, playCount is 0, and the three time fields are the one `now`; every other member is the body's own |
| `GamesRoute.PostCreatedFrom` | src/app/api/games/route.ts:16-52 | a created record comes from an object body with no missing field whose title, if it is a string, clashes with no existing title |
| `GamesRoute.PostCreatedRecord` | src/app/api/games/route.ts:42-52 | a created record keeps the request's own members and required fields, has playCount 0 and createdAt = updatedAt = addedDate = `now`, and no existing title equals its title up to case |
| `GamesRoute.PostServerErrorIff` | src/app/api/games/route.ts:53-58 | the handler answers 500 exactly when the body is not JSON, is `null`, or has a complete set of fields with a non-string title while there are existing games to compare it with |
| `GamesRoute.OnlyTitleMissing` | src/app/api/games/route.ts:21-22 | a body with only a title lacks category, iframeUrl, thumbnail and status, in that order |
| `GamesRoute.OnlyTitleScenario` | src/app/api/games/route.ts:21-29 | a body with only a title is refused with 400, listing category, iframeUrl, thumbnail, status |
| `GamesRoute.CaseInsensitiveClashScenario` | src/app/api/games/route.ts:32-40 | with "Alpha" on file, a complete body titled "alpha" is refused as a duplicate |

## Left out

- File I/O in `readData` and `saveData` is not modelled: reading the file, `JSON.parse`, `JSON.stringify` and writing the file. A read is given as an already parsed document or as a failure. A file that parses but does not have the document's shape is not modelled. A save is only counted, because write errors are swallowed.
- Logging through `console.error` is not modelled.
- The lazy singleton `getInstance` is not modelled. The store is an explicitly constructed object.
- Aliasing is not modelled. `getGames` and `getStats` return the live array and object, so a caller that mutates them changes the store. The model returns values.
- JavaScript numbers are not modelled. Ids are `nat` and counters are unbounded integers. Growth past exact double precision is not modelled. Neither is a counter that is not a number in the file, or the `RangeError` that `Math.max(...)` throws for an extremely long argument list.
- `Storage.NewGame`: the draft is a typed record of five fields. `addGame` spreads whatever object it is given, so extra members a caller passes are copied onto the stored record and written to the file. The model does not carry them. The same holds for `Storage.Store.AddGame`.
- `Storage.Merge`: the update is a typed partial record. Members that are not game fields, which the spread would copy onto the record too, are not modelled. Values of the wrong JSON type are not modelled either.
- `GamesRoute.Lookup`: inherited and built-in members such as `constructor` or `length` are not modelled. Only the five required names are looked up, and no JSON value inherits them.
- `GamesRoute.Lower`: only ASCII letters are folded. The full Unicode case mapping of `toLowerCase` is not modelled.
- The clock (`new Date()`) and `Math.random()` are not modelled. They are parameters.
- The member order of the built record is not modelled. The record is a map, and JavaScript objects keep insertion order.
- HTTP response objects and the localized error messages are not modelled. Outcomes are a datatype, and a status code is given for each.
- The `GET` handler of `src/app/api/games/route.ts` is not modelled. It only returns the bundled collection.
- `src/app/api/games/[id]/route.ts` and `src/app/api/stats/route.ts` are not part of this model. Neither is `src/utils/gameData.ts`. They are thin wrappers over the store. The `[id]` routes convert the path parameter with `Number(params.id)`, which can give `NaN` or a fraction; such ids are outside `nat` and are not modelled.
- The pages, components, layout and build configuration are not part of this model.

# Book record store of a Go CRUD web server

The server keeps a list of books in `books.csv`, one row per book: Id, Name,
Author, Year. Every route (list, info, create, update, delete) does the same
things in `main.go`. It reads all rows and decodes them into a slice of
`Book{Id, Name, Author, Year}`. It runs one scan or change over the slice. The
changing routes then write every book back as a row. This project models that
record store in Dafny and proves what each step does to the store.

- `wrappers.dfy` (`Wrappers`): `Option` and `Result`.
- `strconv.dfy` (`Strconv`): decimal parsing (`Atoi`: optional sign, one or
  more digits, leading zeros allowed) and printing (`Itoa`: canonical form), with
  the round trip `Atoi(Itoa(n)) == Some(n)`.
- `records.dfy` (`Records`): the `Book` record, the row decoding loop (field
  count first, then Year, then Id, error with the 1-based row number) and the
  row encoding loop, with the round trip "decoding the written rows gives the
  books back".
- `store.dfy` (`Store`): find-by-Id, the max-Id loop and the next Id, append,
  the in-place overwrite of every matching record, and the delete loop. The
  delete loop is modelled exactly as Go runs it. The array is the slice's
  backing array, and a separate length is the slice's current length. The range
  covers the original length, and each match shifts the tail left in place.
  `books[i+1:]` panics when `i + 1` exceeds the current length.
- `handlers.dfy` (`Handlers`): each changing route as a transform from the
  rows read and the request parameters to the rows written back, or an error.

Every `log.Fatalf` on a malformed row or a bad request parameter becomes an
error result here: a `ParseError` with the row number and the failing field,
`BadIdParam` or `BadYearParam`. The `log.Fatalf` calls on file, reading, writing
and template failures belong to I/O and are not modelled.

In three places the code does something other than what a reader of the routes
would expect. The model states what the code does:
- Ids are not required to be non-negative. `Atoi` accepts negative Ids. `maxId`
  starts at 0, so negative Ids never affect the next Id.
- With several books sharing an Id, the source's delete loop can skip a later
  match, remove several books, or panic (see Findings). For Ids [1, 1, 2] it
  happens to remove only the first book. `Store.DeleteWhileRanging` models the
  loop as written. The delete route `Handlers.DeleteBook` uses the corrected loop
  `Store.DeleteFirst` instead; the two agree whenever at most one book has the Id.
- An update with no matching Id leaves the store unchanged, but the file is still
  rewritten as the canonical rows of the store (`Handlers.UpdateBook`). Integers
  come back in canonical form, so `+007` becomes `7` (`Strconv.AtoiIsNotCanonical`).

## Model

| member | source | states |
|---|---|---|
| `Strconv.Atoi` | main.go:64-72 | a text parses iff it is one or more digits, optionally after one '+' or '-'; a '-' gives a value at most 0, anything else a value at least 0 |
| `Strconv.Itoa` | main.go:302 | the text is non-empty and starts with '-' exactly for negative values (its digits have no leading zero: `NatDigits`) |
| `Strconv.AtoiItoa` | main.go:302 | parsing the decimal text written for an Id or Year gives back the same integer |
| `Strconv.AtoiRejects` | main.go:64-72 | the empty string, a lone sign, and a non-digit after the sign all fail to parse |
| `Strconv.AtoiIsNotCanonical` | main.go:397-402 | a sign and leading zeros are accepted on read and not reproduced on write |
| `Records.DecodeRow` | main.go:58-79 | a row without exactly 4 fields reports the field count; otherwise a bad Year reports the Year, and a good Year with a bad Id reports the Id; every error carries the row's number; on success the book is {Atoi(row[0]), row[1], row[2], Atoi(row[3])} |
| `Records.YearCheckedBeforeId` | main.go:64-73 | a 4-field row with a bad Year reports the Year, whatever its Id |
| `Records.DecodeRows` | main.go:57-80 | a successful load has one book per row; an error names a row number between 1 and the number of rows |
| `Records.LoadBooks` | main.go:57-80 | the decoding loop computes exactly the decoding of all rows, stopping at the first bad row |
| `Records.DecodeRowsErrorSticks` | main.go:59-72 | once a row fails, the whole load fails with that row's error |
| `Records.DecodeRowsOk` | main.go:57-80 | loading succeeds iff every row decodes; then the store has one book per row, in row order |
| `Records.DecodeRowsFirstError` | main.go:58-72 | the error reported is that of the first row that does not decode |
| `Records.DecodeEncodeRow` | main.go:301-306 | a row written for a book decodes to that book |
| `Records.DecodeEncodedRows` | main.go:301-306 | rows written for a store decode back to exactly that store |
| `Records.SaveBooks` | main.go:301-306 | one row [Itoa(Id), Name, Author, Itoa(Year)] per book in store order (`Encodes`), and the rows decode back to the store |
| `Records.SaveLoadSave` | main.go:301-306 | writing the store loaded from written rows reproduces those rows |
| `Store.FirstIndexOf` | main.go:166-174 | the lowest index holding the Id, and none iff no book has it |
| `Store.FindById` | main.go:166-176 | not found iff no book has the Id (including an empty store); otherwise the book at the lowest matching index |
| `Store.MaxId` | main.go:273-278 | the result is at least 0, at least every Id, and is 0 or some book's Id |
| `Store.ComputeMaxId` | main.go:273-278 | the maxId loop computes `MaxId` |
| `Store.NextId` | main.go:286 | the new Id is at least 1, above every existing Id, and 1 for an empty store |
| `Store.NextIdExample` | main.go:273-286 | Ids 1 and 5 give next Id 6 |
| `Store.Append` | main.go:280-290 | fails iff the Year is not an integer; otherwise it appends exactly one book {NextId, Name, Author, Year} at the end, leaves earlier books unchanged, and the new Id is not in the store |
| `Store.AppendKeepsIdsUnique` | main.go:285-290 | appending with the next Id keeps Ids unique |
| `Store.Overwrite` | main.go:373-386 | same length; each book with the Id becomes the new book; every other book is unchanged |
| `Store.OverwriteNoMatch` | main.go:373-386 | with no match the store is identical |
| `Store.OverwriteKeepsIdsUnique` | main.go:379-384 | the overwrite keeps the Id, so unique Ids stay unique |
| `Store.UpdateInPlace` | main.go:373-386 | with an integer Year the array becomes `Overwrite` of the old one; with a bad Year the array is unchanged, and the call fails iff some book matches (the Year is parsed only at a match) |
| `Store.RemoveFirst` | main.go:467-471 | with no match the store is unchanged; otherwise only the book at the first matching index is removed, and the rest keep their order |
| `Store.RemoveFirstKeepsIdsUnique` | main.go:467-471 | removing a book keeps Ids unique |
| `Store.Spliced` | main.go:469 | `append(books[:i], books[i+1:]...)` on the shared backing array keeps its length |
| `Store.ShiftLeft` | main.go:469 | the in-place shift leaves the backing array as `Spliced` describes |
| `Store.Splice` | main.go:467-471 | the loop from iteration i on, with the captured backing array and the slice's current length: the final slice is never longer than that length, is strictly shorter when some later element has the Id, and is the live slice unchanged when none has |
| `Store.SpliceWhileRanging` | main.go:467-471 | the whole loop as written: with no match it gives the store back unchanged; with a match it ends shorter, or panics |
| `Store.DeleteWhileRanging` | main.go:467-471 | the loop as written panics exactly when the model `SpliceWhileRanging` does; otherwise its final slice equals that model's |
| `Store.DeleteWhileRangingRemovesFirst` | main.go:467-471 | when at most one book has the Id, the loop as written removes exactly that book and keeps the order of the rest; with no match the store is unchanged |
| `Store.DeleteWhileRangingUniqueIds` | main.go:467-471 | on a store with unique Ids the loop as written removes the book with the Id, if any, and keeps the order of the rest |
| `Store.DeleteDuplicateIdPanics` | main.go:467-471 | Ids [1, 1], deleting 1: the second splice is out of range |
| `Store.DeleteDuplicateIdRemovesBoth` | main.go:467-471 | Ids [1, 2, 1, 3], deleting 1: both books with Id 1 go |
| `Store.DeleteFirst` | main.go:467-471 | the loop with a `break` after the splice removes the first book with the Id for every store |
| `Handlers.BookInfo` | main.go:120-176 | a bad Id parameter fails first, then a bad row; otherwise it returns the first book with the Id, or not found |
| `Handlers.CreateBook` | main.go:228-306 | a bad row fails first, then a bad Year; otherwise the rows written are the canonical rows of the old store plus {NextId, Name, Author, Year}, and they decode to that store |
| `Handlers.UpdateBook` | main.go:323-402 | a bad Id parameter fails first, then a bad row; with no matching book the rows written are the canonical rows of the same store, whatever the Year; with a match a bad Year fails, else the rows written are the canonical rows of the overwritten store |
| `Handlers.DeleteBook` | main.go:420-487 | a bad Id parameter fails first, then a bad row; otherwise the rows written are the canonical rows of the store without its first book with the Id |

## Findings

| source | as written | input that shows it | evidently intended | confidence | as-written member | corrected member |
|---|---|---|---|---|---|---|
| main.go:467-471 | the loop ranges over the original length while `append(books[:i], books[i+1:]...)` shifts the shared backing array, so after a splice it skips an element and rereads a stale one | books with Ids [1, 1], delete 1: slice bounds out of range panic. Ids [1, 2, 1, 3], delete 1: both books with Id 1 are removed | a well-defined removal: stop after the first splice, so that the first book with the Id goes and the rest keep their order | medium, not executed | `Store.DeleteWhileRanging` with `Store.DeleteDuplicateIdPanics` and `Store.DeleteDuplicateIdRemovesBoth` | `Store.DeleteFirst` |

## Left out

- Handlers.DeleteBook: uses the corrected `Store.DeleteFirst`, not the loop as written. The two agree whenever at most one book has the Id (`Store.DeleteWhileRangingRemovesFirst`). With duplicate Ids the source can skip a later match, remove several books, or panic.
- HTTP plumbing: request handling, `mux` routing, form and path variable extraction, `main` and `ListenAndServe`. The handlers take the Id, Name, Author and Year texts as parameters.
- HTML templates and their rendering, including the list route (main.go:42-118). That route is `Records.LoadBooks` followed by rendering.
- File I/O: opening, creating, closing and flushing `books.csv`. The rows read are a parameter, and the rows to write are the result. Write errors are I/O and are not modelled.
- The CSV syntax of `encoding/csv` (quoting, escaping, `ReadAll` errors): rows are sequences of fields.
- `strconv` internals: `Atoi` and `Itoa` are defined directly rather than as Go's digit loops. Integers are unbounded, so the 64-bit range error of `Atoi` and the overflow of `maxId + 1` are not modelled.
- Process termination: `log.Fatalf` becomes an error result, and the unreachable `continue` statements after it are dropped. The slice-bounds panic becomes `None`.
- Concurrency between requests on `books.csv`: the source has no locking, and each request is modelled alone.
- The debug print of the raw rows in the delete route (main.go:440).

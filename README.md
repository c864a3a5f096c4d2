# Local library catalog: controllers and seeder, modelled in Dafny

The local library is an Express application over a MongoDB store of four
kinds of record: genres, authors, books (each with one author and any number
of genres) and book instances (copies of a book). This project models four
pieces of it:

- The genre controller. It lists genres sorted by name and shows one genre
  with its books. It creates a genre unless one of the same name up to case
  exists, deletes a genre no book lists, and renames a genre.
- The author controller. It lists authors sorted by family name, shows one
  author with their books, and creates, deletes and updates authors. Form
  fields are trimmed, escaped and checked for being alphanumeric, and the
  two dates are checked as ISO 8601.
- The seeder script. It loads a data file into the store in four stages:
  genres, authors, books, book instances. Inside a stage every item is
  created concurrently, and books and instances refer to earlier records by
  their index in the data file.
- The data file: the documented schemas and the sample fixture.

Layout, one module per file:

- `text.dfy` (`Text`): whitespace trimming, ASCII case folding, the
  validator's `escape` and `isAlphanumeric`, and the binary string order
  that a sort on a string field uses.
- `listing.dfy` (`Listing`): identifiers, the identifiers of a collection in
  insertion order, and a sort of identifiers by a string key.
- `catalog.dfy` (`Catalog`):
  - the records and the store contents as a value `Db`;
  - the schema validation that `save()` runs;
  - the queries `find`, `findOne` with a case-insensitive collation, and
    `findById`;
  - the handler responses;
  - the mutable `Store` class whose methods are proved to act like the
    functions on `Db`.
- `genre.dfy` (`GenreController`) and `author.dfy` (`AuthorController`):
  - each handler as a function from the store and the request to the
    response and the new store;
  - each state-changing handler as a method on a `Store`, proved equal to
    that function;
  - the lemmas relating the handlers.
- `data.dfy` (`Dataset`): the data file's entry types, its fixture, and the
  static facts about the fixture.
- `populate.dfy` (`Populate`):
  - the seeder's state: the store plus the four arrays, whose entries are
    replaced by documents as they are created;
  - each per-item create as a step function;
  - a stage and the whole run as functions;
  - the class `Seeder`, whose methods update the arrays and the store in
    place and are proved equal to those functions;
  - what a run establishes: stage order, resolving references, record
    counts, and whether a rerun adds genres.
- `loose.dfy` (`LooseEquality`): JavaScript's loose comparison `x != false`
  that the seeder applies to an entry's fields. A value is loosely `false`
  exactly when it converts to the number 0: a string by the StringToNumber
  grammar of section 7.1.4.1.1 of ECMA-262, an array by the comma-joined
  text of its elements.
- `contents.dfy` (`SeedContents`): the fields of every record a complete
  run stores, and the records the sample data file produces.

Identifiers are natural numbers handed out in increasing order, so
ascending identifier order is insertion order. `authorCreate` reads
`d_birth` and `d_death`, but the data file's entries carry `date_of_birth`
and `date_of_death`. The dates in a data file are therefore never stored,
and the model stores authors from a data file with no dates.

## Model

| member | source | states |
|---|---|---|
| Text.Trim | controllers/genreController.js:198 | the result is the input with whitespace removed at both ends only: a slice whose dropped prefix and suffix are all whitespace, and which is empty or starts and ends with non-whitespace |
| Text.TrimIdempotent | controllers/authorController.js:216 | trimming a trimmed value changes nothing |
| Text.TrimUnspaced | controllers/authorController.js:224 | a value with no whitespace at either end is left as it is |
| Text.EscapeFacts | controllers/genreController.js:200 | escaping never shortens a value, gives an empty result exactly for empty input, keeps a value alphanumeric exactly when it was, and leaves an alphanumeric value unchanged |
| Text.AllAlnumAppend | controllers/authorController.js:220 | a concatenation is alphanumeric exactly when both parts are |
| Text.EscapeKeepsCaseMatch | controllers/genreController.js:66-68 | two request names equal up to case are still equal up to case once escaped |
| Text.SameIgnoringCaseMeans | controllers/genreController.js:66-68 | `SameIgnoringCase`, the collation the duplicate lookup uses: two names match exactly when they have the same length and each position holds the same character or the same ASCII letter in the other case |
| Text.EscapeLeavesNoMarkup | controllers/genreController.js:200 | `Escape`: the escaped value holds no markup character except the `&` that opens an entity, and a value holding any markup character gets at least one entity |
| Text.AlphanumericSanitised | controllers/authorController.js:215-220 | a value `IsAlphanumeric` accepts comes through trimming and escaping unchanged |
| Text.LexLeReflexive | controllers/genreController.js:9 | the name order relates every name to itself |
| Text.LexLeTotal | controllers/genreController.js:9 | any two names are ordered one way or the other |
| Text.LexLeTransitive | controllers/genreController.js:9 | the name order is transitive |
| Text.LexLeAntisymmetric | controllers/genreController.js:9 | two names ordered both ways are equal |
| Listing.Ids | controllers/genreController.js:9 | `find({})` yields each stored identifier exactly once, in ascending (insertion) order |
| Listing.Sort | controllers/authorController.js:9 | the sorted list is a permutation of its input and is in key order |
| Catalog.ParseStatus | data.js:28-33 | a status string is accepted exactly when it is one of the four enum values, and then yields the status of that name |
| Catalog.ParseStatusName | data.js:28-33 | the enum accepts each status's own name and yields that status, and a string it accepts is the name of the status it yields |
| Catalog.Db.SaveGenre | data.js:6-8 | the save succeeds exactly when the name has 3 to 100 characters; on success exactly one genre is added under a fresh identifier; on failure the store is unchanged; the other collections never change |
| Catalog.Db.SaveAuthor | data.js:10-15 | the save succeeds exactly when both names have 1 to 100 characters; on success exactly one author is added under a fresh identifier, and nothing else changes |
| Catalog.Db.SaveBook | data.js:17-23 | the save succeeds exactly when title, summary and isbn are non-empty; on success exactly one book is added under a fresh identifier, and nothing else changes |
| Catalog.Db.SaveInstance | data.js:25-35 | the save succeeds exactly when the imprint is non-empty; on success exactly one instance is added under a fresh identifier, and nothing else changes |
| Catalog.Db.DeleteGenre | controllers/genreController.js:127 | `findByIdAndDelete` on a genre: exactly that identifier leaves the genres, every other genre keeps its value, the other collections are unchanged, and a valid store stays valid |
| Catalog.Db.DeleteAuthor | controllers/authorController.js:142 | the same for an author |
| Catalog.Db.UpdateGenre | controllers/genreController.js:181 | `findByIdAndUpdate` on a genre: the set of identifiers is unchanged, an existing genre takes the new value, every other genre keeps its value, and the other collections are unchanged |
| Catalog.Db.UpdateAuthor | controllers/authorController.js:191-195 | the same for an author |
| Catalog.Dependents | controllers/genreController.js:25 | `Book.find` on a genre or an author yields exactly the stored books that hold that reference, in ascending order |
| Catalog.FindGenreNamed | controllers/genreController.js:66-68 | `findOne` with the case-insensitive collation finds nothing exactly when no stored genre has the name up to case; otherwise it finds the earliest such genre |
| Catalog.IdErrors | controllers/genreController.js:187-194 | the id check adds a message exactly when the route parameter is not a valid id |
| Catalog.Store.SaveGenre | data.js:6-8 | the store's fields and returned identifier are those of `Db.SaveGenre` on the old contents |
| Catalog.Store.SaveAuthor | data.js:10-15 | the store's fields and returned identifier are those of `Db.SaveAuthor` on the old contents |
| Catalog.Store.SaveBook | data.js:17-23 | the store's fields and returned identifier are those of `Db.SaveBook` on the old contents |
| Catalog.Store.SaveInstance | data.js:25-35 | the store's fields and returned identifier are those of `Db.SaveInstance` on the old contents |
| Catalog.Store.DeleteGenre | controllers/genreController.js:127 | the genre with the given identifier is removed if there is one, and nothing else changes |
| Catalog.Store.DeleteAuthor | controllers/authorController.js:142 | the author with the given identifier is removed if there is one, and nothing else changes |
| Catalog.Store.UpdateGenre | controllers/genreController.js:181 | the genre is replaced if it exists, with no validation; the result reports whether it existed |
| Catalog.Store.UpdateAuthor | controllers/authorController.js:191-195 | the author is replaced if it exists, with no validation; the result reports whether it existed |
| GenreController.ValidateName | controllers/genreController.js:196-201 | the name is trimmed then escaped; the only message is "too short", given exactly when the trimmed name has fewer than 3 characters |
| GenreController.List | controllers/genreController.js:8-11 | the list shows every stored genre exactly once, in name order |
| Listing.SortedListing | controllers/genreController.js:9 | sorting the ascending identifiers by a string key (the genre name here, the family name at authorController.js:9) lists each record once, each no later than any record with a greater key |
| GenreController.Detail | controllers/genreController.js:14-37 | a malformed id yields the id error and an unknown id "not found"; otherwise the page shows the genre and exactly the books listing it |
| GenreController.DeleteGet | controllers/genreController.js:82-102 | a malformed id yields the id error and an unknown id a redirect to the genre list; otherwise the page shows exactly the books listing the genre |
| GenreController.Create | controllers/genreController.js:45-79 | a short name redisplays the form and saves nothing; a name already stored up to case redirects to that genre and saves nothing; otherwise exactly one genre with the escaped name is added and the response redirects to it, or the store is unchanged with an error when the schema rejects a name over 100 characters |
| GenreController.Delete | controllers/genreController.js:105-131 | a malformed id yields the id error; if any book lists the genre, nothing is removed and the blocking books are shown; otherwise only the genre named by the body id is removed and the response redirects to the list |
| GenreController.Update | controllers/genreController.js:155-185 | a malformed id or a short name redisplays the form with all messages and changes nothing; otherwise the genre is renamed if it exists and the response redirects to it, and the set of genre ids never changes |
| GenreController.CreatePost | controllers/genreController.js:45-79 | the handler's response and the store it leaves are those of `Create` |
| GenreController.DeletePost | controllers/genreController.js:105-131 | the handler's response and the store it leaves are those of `Delete` |
| GenreController.UpdatePost | controllers/genreController.js:155-185 | the handler's response and the store it leaves are those of `Update` |
| GenreController.CreateTwiceStoresOnce | controllers/genreController.js:65-76 | posting the same name twice, up to case and surrounding whitespace, stores one genre: the second post redirects to the genre the first created, and that genre is the only one of that name |
| GenreController.DeletePreservesRefs | controllers/genreController.js:117-128 | when the route id and the body id agree, a delete never leaves a book listing a missing genre |
| GenreController.DeleteMismatchedIdsOrphansBook | controllers/genreController.js:112-128 | when the body id names a different genre from the route id, the delete can remove a genre a book still lists, leaving a reference that does not resolve |
| GenreController.UpdateCanDuplicateName | controllers/genreController.js:155-185 | an update performs no duplicate check: renaming a genre to another genre's name up to case leaves two genres of that name |
| AuthorController.Messages | controllers/authorController.js:213-238 | the message list is empty exactly when no check failed, and holds each message exactly when its check failed |
| AuthorController.Validate | controllers/authorController.js:213-238 | a form passes exactly when both trimmed names are alphanumeric and neither date is a non-ISO value; a passing form yields the author with the trimmed names and the given dates |
| AuthorController.ValidateMessages | controllers/authorController.js:213-238 | each of the six messages is reported exactly when its condition holds: an empty name, a non-alphanumeric name, a bad date |
| AuthorController.List | controllers/authorController.js:8-14 | the list shows every stored author exactly once, in family-name order |
| AuthorController.Detail | controllers/authorController.js:17-45 | a malformed id yields the id error and an unknown id "not found"; otherwise the page shows the author and exactly the books by them |
| AuthorController.DeleteGet | controllers/authorController.js:88-114 | a malformed id yields the id error and an unknown id a redirect to the author list; otherwise the page shows exactly the author's books |
| AuthorController.Create | controllers/authorController.js:53-85 | a form with any message is shown again with exactly those messages and saves nothing; a valid form adds exactly one author with the trimmed names and redirects to them, or leaves the store unchanged with an error when a name exceeds 100 characters |
| AuthorController.Delete | controllers/authorController.js:117-146 | a malformed id yields the id error; if any book is by the author, nothing is removed and those books are shown; otherwise only the author named by the body's `authorid` is removed and the response redirects to the list |
| AuthorController.Update | controllers/authorController.js:168-200 | the form is redisplayed, with the id message and the form messages and no change, exactly when either check fails; otherwise an existing author is replaced and the response redirects to them, a missing one is an error with no change, and the set of author ids never changes |
| AuthorController.CreatePost | controllers/authorController.js:53-85 | the handler's response and the store it leaves are those of `Create` |
| AuthorController.DeletePost | controllers/authorController.js:117-146 | the handler's response and the store it leaves are those of `Delete` |
| AuthorController.UpdatePost | controllers/authorController.js:168-200 | the handler's response and the store it leaves are those of `Update` |
| AuthorController.CreateTwiceStoresTwice | controllers/authorController.js:76-82 | authors have no duplicate check: posting the same valid form twice stores two distinct authors with equal contents |
| AuthorController.DeletePreservesRefs | controllers/authorController.js:132-143 | when the route id and the body id agree, a delete never leaves a book whose author is missing |
| AuthorController.UpdatePreservesRefs | controllers/authorController.js:168-200 | an update never leaves a reference that does not resolve |
| Dataset.FixtureOk | data.js:37-59 | every index in the fixture points into its array; the genre names and the required fields pass the schemas; the fields given as `false` are the ones read as absent |
| Populate.Start | populatedbfromfile.js:8 | the seeder starts with every array entry still a plain data entry, each array as long as the data file's |
| Populate.ResolveAll | populatedbfromfile.js:71 | a list of indexes yields documents exactly when every index does, in the same order |
| Populate.GenreStep | populatedbfromfile.js:32-48 | with the lookup on the entry's own name: an existing genre of that name up to case fills the slot and nothing is saved; otherwise exactly one genre is added and fills the slot, unless the schema rejects the name; a failed item changes nothing |
| Populate.AuthorStep | populatedbfromfile.js:50-62 | the item succeeds exactly when both names pass the schema, adding exactly one author with no dates and filling its slot; a failed item changes nothing |
| Populate.BookStep | populatedbfromfile.js:64-77 | the item succeeds exactly when its author index resolves, its genre list resolves and the required strings are non-empty; it then adds exactly one book holding the resolved author and genres and fills its slot |
| LooseEquality.LooselyFalseIsJs | populatedbfromfile.js:71 | the test `genre != false` that the model applies (the list is empty or just index 0) holds exactly when the list's comma-joined decimal text converts to the number 0, as JavaScript's loose equality with `false` requires |
| LooseEquality.DecimalTextIsZero | populatedbfromfile.js:71 | the decimal text of an index converts to 0 exactly when the index is 0 |
| Populate.InstanceStatusKeepsName | populatedbfromfile.js:85 | a status given by one of the four names is not loosely `false`, so the instance is stored with exactly that status |
| Populate.ZeroStatusTakesDefault | populatedbfromfile.js:85 | a status of `"0"` is loosely `false`, so it takes the default `Maintenance` although the enum would reject it |
| Populate.InstanceStep | populatedbfromfile.js:79-91 | the item succeeds exactly when its book index resolves, its status is accepted and its imprint is non-empty; it then adds exactly one instance, with the due date given or else the current time, and fills its slot |
| Populate.ItemStepWritesOwnSlot | populatedbfromfile.js:29-31 | `ItemStep`, one item's create in any stage: it writes its own slot and no other, and fills it exactly when it succeeds |
| Populate.StageFromKeeps | populatedbfromfile.js:93-98 | `StageFrom`, a stage's items from an index on: it writes only its own array, and never the slots before where it starts |
| Populate.StageFromFailed | populatedbfromfile.js:93-98 | after `StageFrom`, a slot holds a document exactly when its index is not among the failed ones, and every failed index is in range |
| Populate.StageEffect | populatedbfromfile.js:93-117 | a whole stage completes exactly when every slot of its array holds a document, and leaves the other arrays as they were |
| Populate.RunFromKeeps | populatedbfromfile.js:21-24 | `RunFrom`, the stages `main` awaits from a given one on: the stages from a given one on leave the array lengths and the earlier stages alone |
| Populate.RunFromCompleted | populatedbfromfile.js:21-24 | a run that completes leaves every slot of every stage it ran holding a document |
| Populate.RunFromAborted | populatedbfromfile.js:15-24 | a run that stops names a stage with at least one failure; the stages before it are complete and those after it untouched |
| Populate.SeedStageOrder | populatedbfromfile.js:15-27 | `Seed`, the model of `main`: it runs the stages strictly in order: when it completes every slot holds a document; when it stops, the earlier stages are complete and the later ones never ran |
| Populate.GenreStepKeepsIntegrity | populatedbfromfile.js:32-48 | a genre item keeps every stored reference and every filled slot resolving |
| Populate.AuthorStepKeepsIntegrity | populatedbfromfile.js:50-62 | an author item keeps every stored reference and every filled slot resolving |
| Populate.BookStepKeepsIntegrity | populatedbfromfile.js:64-77 | a book item keeps every stored reference and every filled slot resolving: its author and genres are stored documents |
| Populate.InstanceStepKeepsIntegrity | populatedbfromfile.js:79-91 | an instance item keeps every stored reference and every filled slot resolving: its book is a stored document |
| Populate.StageFromKeepsIntegrity | populatedbfromfile.js:93-117 | a stage keeps every reference resolving |
| Populate.RunFromKeepsIntegrity | populatedbfromfile.js:21-24 | the remaining stages keep every reference resolving |
| Populate.SeedKeepsIntegrity | populatedbfromfile.js:17-27 | seeding a store whose references resolve leaves one whose references resolve, whatever the data file and however the run ends |
| Populate.GenreStageAllStored | populatedbfromfile.js:37-40 | when every genre of the file is already stored up to case, the genre stage succeeds and adds nothing |
| Populate.GenreStageGrows | populatedbfromfile.js:93-98 | when the schema accepts every genre name, the genre stage succeeds, keeps every stored genre, adds at most one genre per item and touches no other collection |
| Populate.GenreStageNamesStored | populatedbfromfile.js:93-98 | after the genre stage, a genre of each entry's name up to case is stored |
| Populate.GenreStageSlots | populatedbfromfile.js:39-45 | after the genre stage, every genre slot holds a stored genre whose name matches the entry up to case |
| Populate.AuthorStageAdds | populatedbfromfile.js:100-105 | when every author entry is acceptable, the author stage succeeds and adds exactly one author per entry |
| Populate.BookStageAdds | populatedbfromfile.js:107-110 | when every book entry is ready, the book stage succeeds and adds exactly one book per entry |
| Populate.InstanceStageAdds | populatedbfromfile.js:112-117 | when every instance entry is ready, the instance stage succeeds and adds exactly one instance per entry |
| Populate.BooksReady | populatedbfromfile.js:68-71 | once the genre and author stages are complete, every book entry of a well-formed file has resolving references |
| Populate.InstancesReady | populatedbfromfile.js:81 | once the book stage is complete, every instance entry of a well-formed file has a resolving book |
| Populate.SeedCompletes | populatedbfromfile.js:17-27 | for a data file whose entries pass the schemas and whose indexes are in range, `main` completes; it adds exactly one author, book and instance per entry, and at most one genre per entry with every entry's name stored |
| Populate.SeedGenresAllStored | populatedbfromfile.js:37-40 | seeding again with genres already present adds no genre |
| Populate.GenreStageAllNew | populatedbfromfile.js:93-98 | when the file's genre names are distinct up to case and none is stored, the genre stage adds exactly one genre per entry |
| Populate.SeedGenresAllNew | populatedbfromfile.js:17-27 | under the same conditions the whole run adds exactly one genre per entry |
| SeedContents.FixtureSeeds | populatedbfromfile.js:17-27 | seeding an empty store with the fixture completes with 3 genres, 1 author, 2 books and 1 instance; seeding the fixture again completes, reuses the 3 genres and doubles the rest |
| Populate.GenreStageAsWrittenFailsAll | populatedbfromfile.js:34 | as written, the genre stage fails every item and leaves the state unchanged |
| Populate.SeedAsWrittenAborts | populatedbfromfile.js:15-34 | as written, `main` stops after the genre stage for any file with a genre, with every genre item failed and nothing stored; with the corrected lookup every well-formed file is seeded completely |
| Populate.GenreZeroDropped | populatedbfromfile.js:71 | a book whose genre list is just index 0 is loosely equal to `false`, so the book is stored with no genre |
| Populate.GenreOneKept | populatedbfromfile.js:71 | a book whose genre list is just index 1 is stored with that genre |
| SeedContents.AuthorStepStores | populatedbfromfile.js:50-62 | an acceptable author entry is stored with its own names and no dates under a fresh identifier that fills its slot; earlier authors and later slots are kept |
| SeedContents.BookStepStores | populatedbfromfile.js:64-77 | a ready book entry is stored with its own strings, the author in its author slot and the genre list `bookCreate` builds; earlier books and later slots are kept |
| SeedContents.InstanceStepStores | populatedbfromfile.js:79-91 | a ready instance entry is stored with the book in its book slot, its imprint, the status chosen from its status field, and its due date or else the save time; earlier instances and later slots are kept |
| SeedContents.AuthorStageStores | populatedbfromfile.js:100-105 | the author stage from an index on stores every remaining entry's author in its slot and keeps every author stored before |
| SeedContents.BookStageStores | populatedbfromfile.js:107-110 | the book stage from an index on stores every remaining entry's book in its slot and keeps every book stored before |
| SeedContents.InstanceStageStores | populatedbfromfile.js:112-117 | the instance stage from an index on stores every remaining entry's instance in its slot and keeps every instance stored before |
| SeedContents.SeedStores | populatedbfromfile.js:17-27 | `Seed` on a well-formed data file into any store: every author, book and instance slot holds a document with its entry's own fields, whose references are the documents in the slots the entry's indexes name |
| SeedContents.FixtureContents | data.js:38-59 | seeding the sample data into an empty store stores the author "Fake Author" with no dates; "Book-1" with that author and the three genres in order; "Book-2" with that author and no genre; and one "XYZ" instance of "Book-2" with status `Maintenance` and the save time as its due date |
| Populate.Seeder.constructor | populatedbfromfile.js:8 | the seeder starts in the state `Start` gives for the store and the data file |
| Populate.Seeder.GenreCreate | populatedbfromfile.js:32-48 | the store and the genre array afterwards, and the outcome, are those of `GenreStep` |
| Populate.Seeder.AuthorCreate | populatedbfromfile.js:50-62 | the store and the author array afterwards, and the outcome, are those of `AuthorStep` |
| Populate.Seeder.BookCreate | populatedbfromfile.js:64-77 | the store and the book array afterwards, and the outcome, are those of `BookStep` |
| Populate.Seeder.BookInstanceCreate | populatedbfromfile.js:79-91 | the store and the instance array afterwards, and the outcome, are those of `InstanceStep` |
| Populate.Seeder.ItemCreate | populatedbfromfile.js:96-115 | the create of one item of any stage leaves the state and outcome of `ItemStep` |
| Populate.Seeder.CreateFrom | populatedbfromfile.js:95-97 | running the items from an index on leaves the state, and collects exactly the failed indexes, that `StageFrom` gives |
| Populate.Seeder.CreateAll | populatedbfromfile.js:93-117 | a whole stage leaves the state, and collects exactly the failed indexes, that `StageFrom` from index 0 gives |
| Populate.Seeder.Run | populatedbfromfile.js:17-27 | `main` leaves the state and the outcome that `Seed` gives |

## Left out

- Connecting to and closing the database, the logging, and the environment variable that names the database are left out. The store is the `Store` object or the `Db` value.
- Concurrency is left out:
  - the interleaving of the promises inside a stage (the model runs a stage's items in index order);
  - the parallel `findById` and `find` in the handlers;
  - the window between a handler's checks and its writes.
- The `create_get` handlers and `genre_update_get` are left out: they only render a form or fetch one record.
- `author_update_get` is left out as well. On a missing author it calls `err.status(404)`, but `err.status` is undefined on a new `Error`, so the call throws a `TypeError` and the request ends in the error handler rather than a 404.
- `app.js`, the other controllers, the views and the models' virtual `url` fields are left out. A redirect names the page it targets.
- Whether a route parameter is a valid ObjectId is an input (`IdParam`). A malformed id in a request body, which makes the store call reject, is modelled as `ServerError` with no change.
- Dates are opaque integers. ISO 8601 parsing is an input: a date field arrives absent, as an ISO value or as a non-ISO value.
- The current time that the instance schema's `due_back` default takes is the parameter `now`. One `now` serves a whole run, whereas each instance in the source takes `Date.now` when its document is built.
- Identifiers are a counter rather than generated ObjectIds, so a fresh identifier is the next number and ascending identifier order is insertion order. Ties in a sort are not specified beyond this.
- Text.SameIgnoringCase: the `en` collation at strength 2 is modelled as ASCII case folding. Accented and non-Latin letters match only themselves.
- Strings are sequences of Unicode characters. UTF-16 code units, surrogate pairs and normalisation are not modelled.
- LooseEquality.NumberIsZero: a non-zero numeral too small for a double, such as `"1e-400"`, converts to 0 in the source and is loosely `false`. The model reads only numerals whose digits are all zero as 0.
- Text.EscapeKeepsCaseMatch: it relates two request names to each other only. A stored genre name is compared with the escaped request name, so a stored name such as `a&b` that was saved without escaping is not matched by a request for `a&b`, whose escaped form is `a&amp;b`.
- GenreController.ValidateName: validator's `isLength` does not count the variation selectors U+FE0E and U+FE0F, and counts a surrogate pair as one. The model counts every character, so a name padded with those selectors can pass the 3-character minimum in the model but not in the source.
- AuthorController.Validate: the same `isLength` difference applies to the 1-character minimum of both names.
- Populate.InstanceStep: a given due date loosely equal to `false` (such as `0` or `""`) takes the default in the source. The model stores it as given.
- Populate.BookStep: an index that is out of range, or whose entry has not been replaced by a document, makes the item fail. In the source it would pass `undefined` to the book and fail the schema's `required` check or store no genre.
- AuthorController.DeleteGet: on a missing author the source redirects and then also renders, which fails because the response is already sent. The model keeps the redirect.
- AuthorController.Update: `findByIdAndUpdate` on a missing author resolves to `null`, and reading its `url` throws. This is modelled as `ServerError` with no change.

## Findings

| source | as written | input that shows it | evidently intended | confidence | as-written member | corrected member |
|---|---|---|---|---|---|---|
| populatedbfromfile.js:34 | `genreCreate` looks up `req.body.name`, but no `req` is in scope, so every genre item throws before any lookup or save; the genre stage rejects and `main` stops before authors, books and instances | any data file with at least one genre, such as the fixture's three | look the genre up by the entry's own `name`, which the function already destructures | high; not executed | Populate.SeedAsWrittenAborts | Populate.GenreStep |

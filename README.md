# Idea routes: a verified model

This project models the router `routes/ideaRoutes.js` of a small HTTP CRUD API for "ideas". The router has five handlers under `/api/ideas`:

- list (`GET /`)
- get by id (`GET /:id`)
- create (`POST /`)
- delete (`DELETE /:id`)
- update (`PUT /:id`)

It also holds two pieces of pure logic:

- the `tags` normalisation, which differs between create and update;
- the required-field test on `title`, `summary` and `description`.

The model has five modules:

- `Text` (`Text.dfy`) holds JavaScript `trim`, `split(",")` and `join(",")` as functions. The whitespace set is the ECMAScript one: WhiteSpace and LineTerminator code points. The module proves that a trim only cuts white space from the ends, and that split and join are inverses.
- `Tags` (`Tags.dfy`) holds the create rule, which is split, trim, then drop empty pieces. It also holds the update rule, which is split and trim only and throws when `tags` is neither a string nor an array. Round trips and the properties of each stored tag are proved here.
- `Validation` (`Validation.dfy`) holds the short-circuit test `!title?.trim() || !summary?.trim() || !description?.trim()`. It has three outcomes. The body is accepted, refused with 400, or a `TypeError` is thrown because a field is a non-string.
- `IdeaRoutes` (`IdeaRoutes.dfy`) holds the class `IdeaStore`. It replaces the document store with a map from id to record and a creation counter. Its methods `List`, `Get`, `Create`, `Delete` and `Update` return the status code and body each handler sends.
- `Wrappers` (`Wrappers.dfy`) holds an `Option` type.

The store is built from two functions, fixed at construction:

- `isValid` stands for `mongoose.Types.ObjectId.isValid` and is left uninterpreted.
- `idOf` gives the id of the n-th created record. It is required to be injective and to produce only valid ids.

A record's `createdAt` is the counter value at its creation. The class invariant `Valid()` says four things about every record:

- it is filed under its own id;
- it was created before the counter;
- its id is the one generated for its `createdAt`;
- none of its three required fields is blank.

Every handler keeps this invariant.

Error outcomes follow the code's order of checks.

- get, delete and update: a malformed id gives 404 "Idea Not Found".
- update: then the body test (400, or a thrown `TypeError`), then the tag split (a `TypeError` when `tags` is neither an array nor a string), then the lookup (404 "Idea not found", lower case, at line 149).
- create: only the body test, then the store.

A `TypeError` is thrown before `res.status` is called. It therefore reaches the error middleware with Express's default status 200. The model returns that as `Crash()`. The middleware that turns it into a response is not part of this model.

Two behaviours of the code are worth stating outright.

- The handlers store the raw `title`, `summary` and `description` from the body; only their trim is checked to be non-empty. The invariant says exactly that: no stored required field is blank. Any trimming done by the schema in `models/Idea.js` is not part of this model.
- On update, a `tags` that is neither an array nor a string (absent, null, a number, a boolean or an object) makes `tags.split` throw. `UpdateTags` returns `None` for all of these, and `Update` answers `Crash()` with the store unchanged.

## Model

| member | source | states |
|---|---|---|
| Text.Trim | routes/ideaRoutes.js:61 | the result starts and ends with non-space, and it is empty exactly when the input is all white space |
| Text.HasTextIsNotBlank | routes/ideaRoutes.js:61 | a string holds a character that is not white space exactly when it is not all white space |
| Text.TrimIsSlice | routes/ideaRoutes.js:74 | the trim is a contiguous piece of the input, and only white space was cut from either end |
| Text.TrimIdempotent | routes/ideaRoutes.js:74 | trimming a trimmed string changes nothing |
| Text.TrimCommaFree | routes/ideaRoutes.js:74 | trimming a comma-free piece leaves it comma-free |
| Text.Split | routes/ideaRoutes.js:73 | `split(",")` always yields at least one piece, and no piece contains a comma |
| Text.JoinSplit | routes/ideaRoutes.js:73 | joining the split pieces with commas gives back the original string |
| Text.SplitJoin | routes/ideaRoutes.js:73 | splitting a comma-join of one or more comma-free pieces gives back exactly those pieces |
| Tags.TrimAll | routes/ideaRoutes.js:74 | the `.map(trim)` keeps the length, and element i is the trim of piece i |
| Tags.DropEmpty | routes/ideaRoutes.js:75 | `.filter(Boolean)` leaves no empty string, keeps every non-empty element as often as it occurred, and keeps the order (a subsequence) |
| Tags.SplitTags | routes/ideaRoutes.js:71-75 | every tag stored from a string is non-empty, trimmed and comma-free; each non-empty trimmed comma piece is kept as often as it occurs, and the tags are a subsequence of the trimmed pieces, in order |
| Tags.CreateTags | routes/ideaRoutes.js:70-78 | a string is normalised to clean tags, an array is stored unchanged, and every other value (including absent) becomes `[]` |
| Tags.CreateTagsRoundTrip | routes/ideaRoutes.js:71-75 | any list of clean tags, joined with commas and sent as a string, is stored as exactly that list (`[]` included) |
| Tags.CreateEmptyPieceExample | routes/ideaRoutes.js:71-75 | `"a, ,b"` is stored on create as `["a", "b"]` |
| Tags.SplitTagsKeepEmpty | routes/ideaRoutes.js:142 | update's string rule yields as many pieces as the split, piece i being the trim of split piece i, so each is trimmed and comma-free and empty pieces are kept |
| Tags.UpdateTags | routes/ideaRoutes.js:140-142 | the split throws (None) exactly when `tags` is neither a string nor an array, an array passes unchanged, and a string yields one tag per comma piece |
| Tags.UpdateTagsRoundTrip | routes/ideaRoutes.js:140-142 | any non-empty list of trimmed, comma-free tags (empty ones included), sent joined, is stored as exactly that list |
| Tags.UpdateEmptyPieceExample | routes/ideaRoutes.js:142 | `"a, ,b"` is stored on update as `["a", "", "b"]`: the empty piece stays |
| Tags.CreateFiltersUpdate | routes/ideaRoutes.js:71-75 | for a string, create's tags are update's tags with the empty ones dropped |
| Validation.CheckField | routes/ideaRoutes.js:61 | one field passes exactly when it is a string that is not all white space, and it throws exactly when it is a non-string |
| Validation.CheckRequired | routes/ideaRoutes.js:61-64 | a body passes exactly when all three fields are filled; it throws exactly when the first unfilled field, in the order title, summary, description, is a non-string |
| Validation.BlankTitleRejected | routes/ideaRoutes.js:61-64 | a title of only white space is refused with 400, whatever the other fields are |
| Validation.MissingFieldRejected | routes/ideaRoutes.js:61-64 | a body missing a required field, after the filled ones, is refused with 400 |
| Validation.TwoSpacesTitleExample | routes/ideaRoutes.js:61-64 | the title `"  "` is refused with 400 |
| IdeaRoutes.ApplyLimit | routes/ideaRoutes.js:16-18 | `query.limit(n)` yields a prefix of the ordering, of length n or the whole ordering if shorter; a limit of 0 means no limit |
| IdeaRoutes.IdeaStore.NewestFirst | routes/ideaRoutes.js:14 | the sorted query holds only stored records, created before the bound, in strictly decreasing `createdAt` order |
| IdeaRoutes.IdeaStore.NewestFirstLength | routes/ideaRoutes.js:14 | the sorted query has one entry per stored record created before the bound |
| IdeaRoutes.IdeaStore.NewestFirstComplete | routes/ideaRoutes.js:14 | every stored record created before the bound appears in the sorted query |
| IdeaRoutes.IdeaStore.FreshId | routes/ideaRoutes.js:81 | the id the store gives to the next record is not yet in use |
| IdeaRoutes.IdeaStore.InsertKeepsInvariant | routes/ideaRoutes.js:66-81 | storing a new complete record under the next id keeps the store invariant |
| IdeaRoutes.IdeaStore.ReplaceKeepsInvariant | routes/ideaRoutes.js:134-145 | replacing the editable fields of a stored record, with complete required fields, keeps the store invariant |
| IdeaRoutes.IdeaStore.RemoveKeepsInvariant | routes/ideaRoutes.js:101 | removing a record keeps the store invariant |
| IdeaRoutes.IdeaStore.List | routes/ideaRoutes.js:11-26 | status 200 with records newest first; the result is a prefix of the full ordering, cut to the limit when one is parsed; without a limit it is the full ordering and holds every stored record |
| IdeaRoutes.IdeaStore.Get | routes/ideaRoutes.js:31-52 | a malformed id and a missing record both give 404 "Idea Not Found"; a stored record is returned with 200 |
| IdeaRoutes.IdeaStore.Create | routes/ideaRoutes.js:57-87 | a refused body gives 400 and a non-string field throws, both leaving the store unchanged; otherwise exactly one new record is added under a fresh id with the normalised tags, and it is returned with 201 |
| IdeaRoutes.IdeaStore.Delete | routes/ideaRoutes.js:92-113 | a malformed or missing id gives 404 with the store unchanged; otherwise exactly that record is removed and the deletion message is returned |
| IdeaRoutes.IdeaStore.Update | routes/ideaRoutes.js:118-157 | checks run in order: id format (404), body (400 or throw), tag split (throw), lookup (404 "Idea not found"); on success only title, summary, description and tags of that one record change, and the updated record is returned |
| IdeaRoutes.Edited | routes/ideaRoutes.js:134-145 | the updated record keeps its id and creation time, and takes title, summary and description from the body and the given tags |
| IdeaRoutes.DeleteThenGet | routes/ideaRoutes.js:92-113 | a delete succeeds exactly when the id is valid and stored, and a get of the same id afterwards gives 404 |
| IdeaRoutes.CreateThenGet | routes/ideaRoutes.js:57-87 | a create succeeds exactly when the body passes, and a get of the new id then returns the created record |
| IdeaRoutes.MalformedIdBeforeBody | routes/ideaRoutes.js:122-132 | an update with a malformed id and an empty body gives 404, not 400, and leaves the store unchanged |

## Left out

- Express routing, the `req` and `res` objects, JSON serialisation, `next(err)` and the error middleware. These are framework plumbing. A thrown error is returned as a status and a `Failure` or `Uncaught` body.
- MongoDB and Mongoose: `save`, `findById`, `findByIdAndDelete`, `findByIdAndUpdate`. They are replaced by the map in `IdeaStore`. Schema validation and `runValidators` from `models/Idea.js` are not part of this model, and neither is any trimming or casting the schema does.
- Persistence failures (500), timeouts and concurrent requests. The store is a sequential value, and each handler is one atomic step on it.
- The format rule of `ObjectId.isValid` is not modelled. It is the uninterpreted `isValid`, and generated ids are assumed valid.
- Ids are compared as strings. Mongoose casts an id to an `ObjectId` before the lookup, so two spellings of one id (upper- and lower-case hex) reach the same record; the model treats them as different keys.
- Strings are sequences of Unicode scalar values, whereas JavaScript strings are sequences of UTF-16 code units. A string holding a lone surrogate cannot be represented.
- `createdAt` is the creation counter, not a clock reading. Two records never share a timestamp, so the newest-first order has no ties. MongoDB's order for equal timestamps is not modelled.
- `parseInt` is not modelled. The parsed `_limit` is an `Option<nat>`, where `None` stands for `NaN`. A negative parsed limit is not modelled. A limit of 0 follows MongoDB's rule that 0 means no limit.
- Array `tags` are taken to be arrays of strings. Arrays holding other values, and how the schema casts them, are not modelled.
- `console.log` is I/O and is not modelled.
- The timestamp `updatedAt` is not modelled. The schema that would maintain it is not part of this model.

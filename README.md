# Quiz API: resource helpers, enrollment, listing and schemas

This project models the core of a small HTTP API for users and quizzes backed by
Firestore (`functions/src/index.ts`) and proves properties of that model. The
store is abstracted as two in-memory collections, `users` and `quizzes`, each a
map from document id to document. A document maps field names to values.

- **Documents** (`documents.dfy`): field values (string, boolean, number, NaN,
  timestamp, string array). Also the field-level operations the handlers use:
  JavaScript's `+ 1` on the counter, `includes` on `quizIds`, and Firestore's
  merge `update` with the `arrayUnion` sentinel.
- **Schemas** (`schemas.dfy`): `userSchema` and `quizSchema`. Each is written as
  data: per field, a type, required or optional, a minimum length and a default.
  One validate-and-default function reads them.
- **Repository** (`repository.dfy`): `getDocument`, `createDocument`,
  `updateDocument` and `deleteDocument`.
  - Each is a pure function from the old collection to the new collection and
    the `{status, data}` result.
  - Each is also a method of the class `Store`, whose two map fields the method
    updates in place. The method is proved against the function.
- **Enrollment** (`enrollment.dfy`): the handler for
  `POST /users/:userId/quizes/:quizId`.
  - `Enroll` is the pure specification of what the handler does to the two
    collections and what it replies.
  - `EnrollUser` is the handler as a sequence of calls on the `Store`.
  - The lemmas cover success, idempotence, missing documents, the frame, and the
    `userCount` invariant.
- **Listing** (`listing.dfy`): `GET /quizzes`, the query
  `orderBy('createdOn', 'desc').limit(10)` and `doc.data()`. Ties on `createdOn`
  are broken by document id in descending order.

Every store call can fail. Each one has its own boolean input (`...Fault`, or a
field of `Faults`), so a failure is a nondeterministic choice of the caller. The
id Firestore generates for `add` is the input `newId`, required to be absent
from the collection. The server timestamp is the integer `now`.

## Behaviour worth noting

- **Already enrolled.** The `else` branch at index.ts:375-376 replies with the
  quiz lookup's status, which is 200 when the quiz exists, and the body
  `{data: 'User has that Quiz'}`. If the quiz lookup fails, that failure's
  status (404 or 500) goes out with the same message.
- **Failed update during enrollment.** The handler does not look at the status
  of either update (index.ts:370-373): the reply is 200 even when an update
  fails, and the failed half of `{quiz, user}` is `{}`
  (`EnrollRepliesOkDespiteWriteFaults`).
- **No transaction.** The comment at index.ts:327 asks for both writes in one
  Firestore transaction, but the code at index.ts:370-371 issues two
  independent updates. If the user update succeeds and the quiz update fails,
  `userCount` no longer counts the enrolled users (`PartialWriteBreaksCounts`).
- **Route spelling.** The enrollment route is spelled `/quizes/` (index.ts:358),
  while the collection routes use `/quizzes`.
- **PATCH overwrites defaults.** `PATCH /quizzes/:quizId` is validated with
  `quizSchema` (index.ts:240). That schema requires `name` and fills defaults
  for `active`, `userCount` and `createdOn`. If the validator forwards the
  defaulted body, a patch without those fields resets them to `false`, `0` and
  the current time. This holds by `Schemas.QuizDefaults` together with
  `Repository.Update`. The PATCH handler itself is not a member of this model.
- **Response bodies.** The comments above several routes describe wrapped
  payloads that the code does not send, and the model follows the code:
  - the listing comment shows `{quizes: [...]}` (index.ts:302-308), but the
    handler sends a bare array of quiz data (index.ts:314);
  - the comment above `DELETE /quizzes/:quizId` shows `{quiz: {...}}`
    (index.ts:280-285), and the one above `DELETE /users/:userId` shows
    `{user: {...}}` (index.ts:154-158, under a ROUTE line that says
    `POST /users`), but `deleteDocument` always returns `{}` (`Repository.Delete`);
  - the comment above `GET /quizzes/:quizId` shows `{quiz: {...}}`
    (index.ts:260-264), but the handler sends the document itself with its id
    (index.ts:270, `Repository.Get`).

## Model

| member | source | states |
|---|---|---|
| `Documents.PlusOne` | functions/src/index.ts:368 | `userCount + 1`: a number n becomes n + 1; a missing counter becomes NaN |
| `Documents.Occurs` | functions/src/index.ts:366 | `includes` on a string is substring containment: true iff `x` is a prefix of some suffix of `s` |
| `Documents.Includes` | functions/src/index.ts:366 | `quizIds.includes(quizId)` is defined exactly for arrays and strings (otherwise JavaScript throws); on an array it is list membership, on a string substring containment (`Occurs`) |
| `Documents.Apply` | functions/src/index.ts:367 | `arrayUnion(id)` leaves the field an array containing `id`: an array lacking it gets `id` appended, one holding it is unchanged, a missing or non-array field becomes `[id]` |
| `Documents.Merge` | functions/src/index.ts:411 | a merge update keeps every field, changes exactly the patched fields, and keeps the others' values |
| `Documents.Count` | functions/src/index.ts:366 | the number of occurrences of an id in a list is zero iff the id is absent |
| `Documents.CountAppend` | functions/src/index.ts:367 | appending `y` adds one occurrence of `y` and none of any other id |
| `Documents.MergeOne` | functions/src/index.ts:411 | merging a one-field patch updates exactly that field |
| `Schemas.Validate` | functions/src/index.ts:64-86 | a body is accepted iff it has no undeclared field, every present field conforms to its rule and every required field is present; the accepted body keeps the given fields and adds the declared defaults of the absent ones, nothing else |
| `Schemas.ValidateIdempotent` | functions/src/index.ts:64-86 | when every default conforms to its rule, validating an accepted body again returns it unchanged |
| `Schemas.UserSchema` | functions/src/index.ts:64-70 | a user has exactly the fields `name` and `quizIds`; only `name` is required; the default `[]` of `quizIds` satisfies its rule (an array of non-empty strings) |
| `Schemas.QuizSchema` | functions/src/index.ts:72-86 | of the quiz fields only `name` is required, and every default (`false`, `0`, the server timestamp) satisfies its own field's rule |
| `Schemas.UserRules` | functions/src/index.ts:64-70 | a user is accepted iff `name` is a non-empty string, a present `quizIds` is an array of non-empty strings, and no other field is given; the result has exactly `name` and `quizIds`, the latter `[]` when absent |
| `Schemas.EmptyUserNameRejected` | functions/src/index.ts:65-66 | a user body with no `name`, or an empty one, is rejected |
| `Schemas.QuizRules` | functions/src/index.ts:72-86 | a quiz is accepted iff `name` is a non-empty string, a present `description` is non-empty, `active` a boolean, `userCount` a number, `createdOn` a date, and no other field is given |
| `Schemas.QuizDefaults` | functions/src/index.ts:79-85 | an accepted quiz has `active`, `userCount` and `createdOn`, set to `false`, `0` and the write time when absent; `description` stays absent when not given |
| `Repository.WithId` | functions/src/index.ts:400 | `{ ...data, id }`: the stored fields plus `id`, set to the document id and overriding a stored `id`; every other field keeps its value |
| `Repository.Get` | functions/src/index.ts:394-406 | status is 200, 404 or 500; 200 iff the read succeeds and the id is present, with the stored fields plus `id` set to the requested id, overriding a stored `id`; 404 iff the read succeeds and the id is absent; every non-200 result carries `{}` |
| `Repository.Create` | functions/src/index.ts:383-392 | a successful `add` stores the body under the fresh id and changes no other document; the result is 200 with the body plus its id iff neither call fails; every failure gives 500 with `{}` and a failed `add` changes nothing |
| `Repository.Update` | functions/src/index.ts:408-418 | on a present id without fault, the document becomes its merge with the patch and no other document changes; a missing id or failing update gives 500 with `{}` and changes nothing; the result is the re-read merged document with its id |
| `Repository.Delete` | functions/src/index.ts:420-432 | a successful delete always replies 200 with `{}`, also for an id never present, and removes exactly that id; a failure gives 500 and changes nothing |
| `Repository.DeleteThenGet` | functions/src/index.ts:420-432 | a get after a successful delete of the same id returns 404 with `{}` |
| `Repository.CreateThenGet` | functions/src/index.ts:383-392 | a get after a successful create returns 200 with the stored body and its id |
| `Repository.UpdateWithSameValues` | functions/src/index.ts:408-418 | an update that re-sets values a document already holds leaves the collection unchanged |
| `Repository.Store.constructor` | functions/src/index.ts:61-62 | the store starts with the two given collections |
| `Repository.Store.GetDocument` | functions/src/index.ts:394-406 | the method returns exactly `Get` of the named collection and changes nothing |
| `Repository.Store.CreateDocument` | functions/src/index.ts:383-392 | the named collection and the result become those of `Create`; the other collection is unchanged |
| `Repository.Store.UpdateDocument` | functions/src/index.ts:408-418 | the named collection and the result become those of `Update`; the other collection is unchanged |
| `Repository.Store.DeleteDocument` | functions/src/index.ts:420-432 | the named collection and the result become those of `Delete`; the other collection is unchanged |
| `Enrollment.UserPatch` | functions/src/index.ts:367 | the user write touches only `quizIds`, and merging it into any user leaves the quiz id listed in an array `quizIds` |
| `Enrollment.QuizPatch` | functions/src/index.ts:368 | the quiz write puts a plain value into `userCount` only; a numeric count n read from the quiz becomes n + 1 |
| `Enrollment.Enroll` | functions/src/index.ts:358-381 | every reply of the handler has status 200, 404 or 500; no user or quiz is created or deleted; the collections change only when the reply is 200 with `{quiz, user}` (the full behaviour is stated by the lemmas below) |
| `Enrollment.EnrollUser` | functions/src/index.ts:358-381 | running the handler's calls on the store leaves the collections, and gives the response, that the pure specification `Enroll` gives for the old collections |
| `Enrollment.EnrollState` | functions/src/index.ts:363-373 | the collections change only when both lookups succeed and the user lacks the quiz, and then only by the two updates |
| `Enrollment.EnrollSucceeds` | functions/src/index.ts:363-373 | with both documents present, the user not enrolled and no failure, `quizIds` becomes the old list plus the quiz id, `userCount` becomes the read value + 1, nothing else changes, and the reply is 200 with `{quiz, user}` re-read with their ids |
| `Enrollment.EnrollIncrementsCount` | functions/src/index.ts:368-371 | with a numeric counter n, success leaves `userCount` at n + 1 |
| `Enrollment.EnrollRepliesOkDespiteWriteFaults` | functions/src/index.ts:370-373 | once both lookups succeed and the user is not enrolled, the reply is 200 even if an update or its re-read fails, with `{}` for that half |
| `Enrollment.EnrollAlreadyEnrolled` | functions/src/index.ts:366-376 | when `quizIds` already includes the quiz id, nothing is written and the reply is the quiz lookup's status with `{data: 'User has that Quiz'}` |
| `Enrollment.EnrollTwice` | functions/src/index.ts:363-376 | enrolling the same pair twice: the second request changes nothing and replies 200 with the message; `userCount` stays at old + 1 and `quizIds` holds the quiz id exactly once |
| `Enrollment.EnrollUserLookupFails` | functions/src/index.ts:363-379 | when the user lookup is not 200, nothing is written, the reply is that status (404 or 500) with `{}`, and the reply does not depend on the quizzes or on any later store call |
| `Enrollment.EnrollQuizLookupFails` | functions/src/index.ts:365-377 | when the user is found and not enrolled but the quiz lookup is not 200, nothing is written and the reply is the quiz's status with `{}` |
| `Enrollment.EnrollAbortsOnlyOnMalformedUser` | functions/src/index.ts:366-376 | the handler throws iff the user is found and its `quizIds` is neither an array nor a string, and then nothing is written |
| `Enrollment.SchemaUsersNeverAbort` | functions/src/index.ts:64-70 | a user stored as the user schema produced it has an array `quizIds`, so enrolling it never throws |
| `Enrollment.EnrollFrame` | functions/src/index.ts:366-371 | whatever fails: both collections keep their ids; every other user and quiz is untouched; the user changes only in `quizIds`: an array keeps its ids and at most gains the quiz id at the end, while a changed user whose `quizIds` is not an array (a string, which `includes` searches as text) has it replaced by `[quizId]`; the quiz changes only in `userCount` |
| `Enrollment.EnrolledAfterJoin` | functions/src/index.ts:367-370 | a user gaining the quiz id adds exactly one user to that quiz's enrolled set and leaves every other quiz's set unchanged |
| `Enrollment.CountsAfterWrites` | functions/src/index.ts:367-371 | the two enrollment writes keep every quiz's `userCount` equal to its number of enrolled users |
| `Enrollment.EnrollKeepsCounts` | functions/src/index.ts:324-327 | an enrollment without failures preserves the invariant that every `userCount` equals the number of users listing that quiz |
| `Enrollment.PartialWriteBreaksCounts` | functions/src/index.ts:370-373 | a concrete consistent store where the user update succeeds and the quiz update fails: the reply is 200 and the invariant no longer holds |
| `Listing.StrLessAsymmetric` | functions/src/index.ts:313 | the id order is asymmetric |
| `Listing.StrLessTransitive` | functions/src/index.ts:313 | the id order is transitive |
| `Listing.StrLessTotal` | functions/src/index.ts:313 | any two distinct ids are ordered |
| `Listing.StrLess` | functions/src/index.ts:313 | the id order that breaks `createdOn` ties: it never relates an id to itself, and a proper prefix sorts before the longer id |
| `Listing.Eligible` | functions/src/index.ts:313 | the quizzes the query orders are exactly those whose `createdOn` is a timestamp |
| `Listing.Precedes` | functions/src/index.ts:313 | the query order relates only distinct quizzes with a timestamp `createdOn`, and never puts an older quiz before a newer one |
| `Listing.PrecedesAsymmetric` | functions/src/index.ts:313 | the query order (newer first, then greater id) is asymmetric |
| `Listing.PrecedesTransitive` | functions/src/index.ts:313 | the query order is transitive |
| `Listing.PrecedesTotal` | functions/src/index.ts:313 | the query order relates any two distinct timestamped quizzes |
| `Listing.FirstExists` | functions/src/index.ts:313 | every non-empty set of timestamped quizzes has one that precedes all the others |
| `Listing.First` | functions/src/index.ts:313 | the chosen quiz is in the set and precedes every other quiz of it |
| `Listing.LatestIds` | functions/src/index.ts:313 | the ids the query returns: min(10, number of timestamped quizzes) of them, each a timestamped quiz, strictly in query order, none left out preceding one returned |
| `Listing.Top` | functions/src/index.ts:313 | the first n of a set in query order: min(n, size) distinct members, strictly ordered, none of the omitted ones preceding any returned |
| `Listing.ListQuizzes` | functions/src/index.ts:313-314 | the i-th element is exactly the stored data of the i-th listed quiz, without an added id |
| `Listing.ListQuizzesSpec` | functions/src/index.ts:313-314 | the listing holds exactly min(10, number of timestamped quizzes) distinct quizzes with `createdOn` non-increasing, each the stored fields only; no quiz left out is newer than one returned |
| `Listing.ListingIgnoresUnstamped` | functions/src/index.ts:313 | adding a quiz without a timestamp `createdOn` does not change the listing |
| `Listing.EligibleIgnoresUnstamped` | functions/src/index.ts:313 | such a quiz changes neither the ordered set nor the order |
| `Listing.FirstIgnoresUnstamped` | functions/src/index.ts:313 | such a quiz does not change which quiz comes first |
| `Listing.TopIgnoresUnstamped` | functions/src/index.ts:313 | such a quiz does not change the first n of any set |

## Left out

- Express routing, `bodyParser`, `asyncHandler`, `admin.initializeApp`, the liveness route `GET /` and the `onRequest` export: HTTP and process plumbing.
- The user and quiz routes other than enrollment and listing (POST/GET/DELETE `/users`, POST/PATCH/GET/DELETE `/quizzes`). Each is at most one schema followed by one helper, and both parts are modelled; the handlers are not separate members.
- `buildValidator` and `asyncHandler` live in `./middleware`, which is not part of this model. The validator's error responses are reduced to "rejected". Unknown body fields are rejected, which is Joi's default; the validator's options are not visible.
- Joi's conversions are not modelled: numeric strings to numbers, `'true'`/`'false'` to booleans, date strings or numbers to dates. Numbers are integers; floating point is not modelled.
- The Firestore client is replaced by two maps. Failures are boolean inputs, not network faults. `add`'s generated id is a caller-supplied id absent from the collection. The server timestamp is an integer supplied by the caller. Dotted field paths, nested objects and `null` values are not modelled.
- Concurrency and transactions: the two enrollment writes are modelled in sequence, with no interleaving. `PartialWriteBreaksCounts` shows what a failed second write does.
- The list handler's error branch (index.ts:316): it sets 500 and sends no body, which is transport behaviour.
- `Enrollment.EnrollAbortsOnlyOnMalformedUser`: a thrown TypeError is `Aborted`. What the request wrapper then sends is not modelled.
- `Documents.PlusOne`: `+ 1` on an array or on a timestamp gives NaN here. JavaScript would concatenate their string forms. Only a number, NaN, a boolean, a string or a missing field follows JavaScript exactly.
- `Listing.ListQuizzes`: a `createdOn` that is not a timestamp is treated like a missing one and excluded. Firestore would place it by its cross-type order. Through the schema only timestamps are stored.

# cale.sh URL shortener — a Dafny model of its request logic

cale.sh is an Express service backed by a Mongo collection `urls`. It stores
`{slug, url}` documents and resolves a slug back to its document. This
project models the service's request logic:

- the request schema of `POST /url`. An optional `slug` must match
  `/^[\w\-]+$/i` once trimmed. A `url` is required and must be a URL once
  trimmed.
- the create handler. It validates the body and takes a generated
  five-character slug when none is supplied. It lower-cases the slug and
  inserts `{url, slug}` into a collection with a unique index on `slug`.
  On a duplicate-key error (message starting with `E11000`) it answers
  "Slug in use!".
- the lookup handler `GET /:id`. This is an exact-match `findOne`. A hit
  answers the document. A miss redirects to `/?error=<slug> not found`, and
  a storage failure redirects to `/?error=Link not found`.
- the error responder. It uses the error's own `status` when that is set,
  and 500 otherwise.

Modules:

- `Wrappers` (wrappers.dfy): `Option` and `Result`.
- `Text` (text.dfy): the slug pattern as a small matcher and
  `String.prototype.trim` over JavaScript's whitespace set. It also holds
  `toLowerCase` and `startsWith`.
- `Validation` (validation.dfy): the request `Body` and the yup schema
  (`CheckUrl`, `CheckSlug`, `Validate`) with yup's messages.
- `Errors` (errors.dfy): thrown errors, the `E11000` rewrite and the status
  choice.
- `Store` (store.dfy): the collection. `Contents` is its state as a value:
  documents keyed by slug, which is what the unique index allows, plus the
  next `_id`. `InsertResult` and `FindResult` are the specifications of
  `insert` and `findOne`. The class `Collection` holds that state in
  fields, and its methods `Insert` and `FindOne` are proved against those
  functions.
- `Handlers` (handlers.dfy): `CreateResult` and `ResolveResult` specify the
  two handlers. The methods `Create` (which modifies the shared collection)
  and `Resolve` (which only reads it) are proved against them. The lemmas
  state what the handlers promise.

The model follows the code, not the intended design, in two places:

- `schema.validate`'s result is discarded. The handler therefore stores
  the raw body values, not the trimmed ones the schema tested. A slug
  `" Foo "` passes validation and is stored as `" foo "`
  (`Validation.AcceptedSlugShape`, `Handlers.StoredSlugWellFormed`).
- Neither yup's validation error nor the storage engine's duplicate-key
  error carries a `status`. Both client errors are therefore answered with
  status 500.

Three things the code does not fix are parameters of the model:

- yup's URL syntax test is the predicate `isUrl`.
- `nanoid(5)` is the argument `generated`. Its promise is taken as the
  precondition `IsNanoId`: five characters of `A-Za-z0-9_-`.
- A failure of the storage layer is the argument `fault`.

## Model

| member | source | states |
|---|---|---|
| `Text.MatchesSlugPattern` | index.js:39 | the anchored matcher for `/^[\w\-]+$/i` accepts exactly the non-empty strings whose every character is an ASCII letter, digit, `_` or `-` |
| `Text.Trim` | index.js:38 | `trim` never lengthens a string, and its result neither starts nor ends with JavaScript whitespace |
| `Text.TrimSlice` | index.js:36-40 | `trim` removes only whitespace. The result is a slice of the input that neither starts nor ends with whitespace, and all that was cut off is whitespace |
| `Text.ToLower` | index.js:53 | `toLowerCase` keeps the length, lower-cases each character in place and leaves no upper-case letter |
| `Text.LowerFixesLowercase` | index.js:53 | lower-casing leaves a string unchanged exactly when it holds no upper-case letter |
| `Text.LowerKeepsSlugPattern` | index.js:53 | a string matches the slug pattern after lower-casing exactly when it matched before |
| `Text.TrimLower` | index.js:53 | trimming and lower-casing commute |
| `Text.StartsWith` | index.js:61 | `startsWith` holds exactly when the prefix fits and agrees with the string character by character |
| `Validation.CheckUrl` | index.js:40 | the url rule reports `required` exactly when the url is missing or empty once trimmed, and reports "not a URL" exactly when it is present and non-empty but fails the URL test once trimmed |
| `Validation.CheckSlug` | index.js:36-39 | the slug rule accepts exactly a missing slug or one that, once trimmed, is non-empty and all slug characters; otherwise it reports the pattern violation |
| `Validation.Validate` | index.js:35-49 | `schema.validate` accepts exactly when both rules do. A url violation is reported first, and otherwise the slug's |
| `Validation.ValidateAccepts` | index.js:35-41 | the schema accepts a body exactly when its url is present, non-empty once trimmed and a URL, and any supplied slug is, once trimmed, non-empty and all ASCII letters, digits, `_` and `-` |
| `Validation.MissingUrlRejected` | index.js:40 | a body without a url is refused with "url is a required field", whatever its slug |
| `Validation.BadSlugRejected` | index.js:36-39 | a supplied slug holding a character that is neither a slug character nor whitespace is refused |
| `Validation.AcceptedSlugShape` | index.js:44-49 | the raw slug of an accepted body is non-empty, matches the pattern once trimmed, and is made of slug characters and whitespace |
| `Errors.RewriteDuplicate` | index.js:60-63 | an error whose message starts with `E11000` gets the message "Slug in use!" with its status kept; any other error passes through unchanged |
| `Errors.StatusOf` | index.js:69-73 | the response status is the error's status when set and non-zero, else 500, and is never 0 |
| `Store.DuplicateKeyMessage` | index.js:61 | the unique-index violation message starts with `E11000` |
| `Store.InsertResult` | index.js:58 | insert succeeds exactly when there is no storage fault and the slug is not yet stored. On success it adds exactly one document `{slug, url}` under that slug and the count grows by one. On failure nothing changes: a taken slug gives the duplicate-key error and a fault gives its own message |
| `Store.InsertKeepsConsistent` | index.js:13 | insert keeps every document under its own slug, and keeps `_id`s unique. The new `_id` differs from every earlier one |
| `Store.FindResult` | index.js:25 | `findOne` fails exactly on a storage fault. Otherwise it finds a document exactly when the slug is stored, and answers the document stored under that very slug |
| `Store.Collection.constructor` | index.js:12-13 | the collection starts empty with the unique index in place |
| `Store.Collection.Insert` | index.js:58 | the method's result and new state are those of `InsertResult`, and consistency is kept |
| `Store.Collection.FindOne` | index.js:25 | the method answers `FindResult` and changes nothing |
| `Handlers.Respond` | index.js:68-75 | the responder answers the error's message with `StatusOf`'s status |
| `Handlers.StoredSlug` | index.js:50-53 | the slug inserted has no upper-case letter. It is the lower case of the supplied slug when one is given and non-empty, and otherwise as long as the generated one |
| `Handlers.CreateResult` | index.js:43-66 | the create handler never redirects. A failure is answered with status 500 and leaves the collection unchanged. A success answers a document under a slug that was not stored, and adds exactly that document |
| `Handlers.ResolveResult` | index.js:22-33 | the lookup answers a document exactly when there is no fault and the path is a stored slug, and then the document stored under that slug. Otherwise it redirects |
| `Handlers.Create` | index.js:43-66 | the handler's response and the new collection are `CreateResult`'s. Consistency is kept, and a well-formed collection stays well formed |
| `Handlers.Resolve` | index.js:22-33 | lookup changes nothing. A hit answers the document stored under exactly that slug. A miss redirects to `/?error=<slug> not found`, and a storage fault to `/?error=Link not found` |
| `Handlers.InvalidRequestChangesNothing` | index.js:45-64 | a body the schema refuses leaves the collection unchanged and is answered with the schema's message and status 500 |
| `Handlers.ViolationNotDuplicate` | index.js:60-64 | no schema message is mistaken for a duplicate-key error |
| `Handlers.SlugChoice` | index.js:50-53 | an accepted body takes the generated slug exactly when it supplies none, and the stored slug is the lower case of the slug taken |
| `Handlers.GeneratedSlugShape` | index.js:50-53 | without a supplied slug, the stored slug has length 5, matches the slug pattern and has no upper-case letter |
| `Handlers.StoredSlugWellFormed` | index.js:44-57 | the stored slug of an accepted body has no upper-case letter and matches the slug pattern once trimmed |
| `Handlers.CreateKeepsWellFormed` | index.js:43-66 | creation keeps the collection consistent and well formed. Every stored slug is lower case and a slug once trimmed, and every stored url is a URL once trimmed |
| `Handlers.DuplicateSlugRefused` | index.js:58-63 | an accepted body whose stored slug is already present is answered "Slug in use!" with status 500, and nothing changes |
| `Handlers.StorageFaultPassesThrough` | index.js:58-64 | any other storage failure reaches the responder with its own message, status 500, and nothing changes |
| `Handlers.ValidRequestCreated` | index.js:46-59 | a valid request whose stored slug is free is created when storage does not fail. The answer is the document with the next `_id`, the stored slug and the raw url, and it is the only document added |
| `Handlers.GeneratedSlugCreated` | index.js:50-59 | a valid request without a slug, whose generated slug is free, is answered with a document whose slug is the generated one lower-cased: five characters matching the slug pattern |
| `Handlers.CreateAddsOne` | index.js:53-59 | a successful creation came from an accepted body with no fault and a slug not yet stored. It answers and adds exactly the document with the stored slug and the raw url, and leaves every other document as it was |
| `Handlers.CreateThenResolve` | index.js:22-58 | after a successful creation, looking up the stored slug answers the new document with the body's url. Looking up any other string answers what it answered before |
| `Handlers.MixedCaseSlugNotStored` | index.js:53 | a supplied slug holding an upper-case letter is not itself the stored slug |
| `Handlers.MixedCaseLookupMisses` | index.js:23-29 | lookup does not lower-case: in a well-formed collection a path with an upper-case letter always redirects as not found |
| `Handlers.FooCreated` | index.js:43-59 | creating slug "Foo" in an empty collection stores and answers `{_id: 0, slug: "foo", url}` |
| `Handlers.FooRefused` | index.js:58-64 | creating "Foo" a second time is answered "Slug in use!" with status 500 |
| `Handlers.FooResolved` | index.js:22-29 | after that, `GET /foo` answers the document and `GET /Foo` redirects to `/?error=Foo not found` |

## Left out

- Express setup, middleware (helmet, morgan, cors, JSON body parsing) and `app.listen` with its port are server plumbing with no decisions (index.js:15-20, 80-83).
- The Mongo connection and environment loading are I/O (index.js:9-12). The `createIndex` call is modelled as the collection's keying by slug, not as a call. Creating the index a second time is not modelled.
- yup's URL syntax test is library code that is not part of this model. It is the parameter `isUrl`.
- nanoid's randomness and alphabet are a foreign call. The generated slug is a parameter, constrained to five characters of `A-Za-z0-9_-`.
- async/await and concurrent inserts of one slug are not modelled. Requests are sequential calls, and an insert's uniqueness check and write are one step.
- The `stack` field of the error response and its redaction when `NODE_ENV` is `production` are environment-dependent diagnostics (index.js:76).
- Body fields that are JSON values other than strings (null, numbers, objects) are not modelled. yup would cast or refuse them. A field is either absent or a string.
- Text.ToLower: lower-cases ASCII letters only, while JavaScript's `toLowerCase` also maps non-ASCII letters. Every slug that reaches it is made of ASCII slug characters and whitespace (`Validation.AcceptedSlugShape`, `Handlers.IsNanoId`), and whitespace has no case.
- Validation.Validate: when both fields are bad, it reports the url's violation. This follows yup's field order, which is library behaviour not visible in this repository.
- Store.DuplicateKeyMessage: only the `E11000` prefix of the engine's message is the engine's. The rest is an abbreviation.
- Store.FindResult: the message of a lookup failure is a placeholder. The handler never shows it.
- Store.Mapping: `_id` is a counter, not a Mongo ObjectId.
- Handlers.Resolve: the redirect is the string handed to `res.redirect`. Express's 302 status and its percent-encoding of the Location header are not modelled. A hit's JSON serialisation is not modelled either.

# Document access control and sharing — a Dafny model

This project models the REST routes of the collaborative editor's document
service (`routes/documentRoutes.js`) over the live Mongoose schema of a
document (`models/Document.js`).

A document has a required `title`, an opaque `content` (any JSON value,
defaulting to the empty object `{}`), a required `owner` id and an ordered list
of `collaborators`, each a user id with an `access` of exactly `read` or
`write`. Each route is a decision procedure that answers with a status
(201, 200, 400, 403, 404 or 500) and, when it writes, the new collection:

- **create** (`POST /`) stores a new document owned by the requester;
- **list** (`GET /`) splits the collection into documents the requester owns
  and documents that list the requester as a collaborator;
- **get** (`GET /:id`) lets the owner or any collaborator read;
- **share** (`POST /share`) lets only the owner add a collaborator, resolved by
  e-mail. The checks run in order: missing field, unknown user, unknown
  document, not the owner, already a collaborator. Then the entry is appended;
- **update** (`PUT /:id`) lets the owner, or a collaborator whose first entry
  has `write` access, replace the title and content. A falsy field keeps the
  stored value;
- **delete** (`DELETE /:id`) lets only the owner remove the document.

Modelling choices:

- The MongoDB collection is a `map` from document id to document (`Db`).
- `User.findOne({email})` is a partial map from e-mail address to user id (`Users`).
- The authenticated requester id is a plain parameter.
- The id a new document is saved under is a parameter. Saving under an id
  that is already taken fails like MongoDB's duplicate-key error (500).
- `save()` is modelled by `DocumentModel.Validate`: construction (the
  `content` default) followed by the schema's `required` and `enum` rules. A
  save that fails validation answers 500 and writes nothing. This is why a
  create without a title answers 500. It is also why a share whose `access`
  is truthy but neither `read` nor `write` answers 500: the route itself only
  checks that the field is present.
- The in-place `collaborators.push` and the field assignments before
  `save()` are modelled as functions that return the new record.
- String body fields are `Option<string>`. A field is falsy when it is
  missing (`None`) or empty. `content` is a small JSON datatype with
  JavaScript truthiness (`Truthy`).
- `find` is modelled as returning the FIRST entry for a user. This matters
  only when a user appears twice, which the share route prevents and the
  schema does not (`ReadEntryShadowsWrite`, `WriteAccessWhenUnique`).
- Store-wide facts are lemmas over a sequence of requests answered one
  after another (`Replay`). The
  main one is that every stored title is non-empty and no collaborator list
  holds a user twice (`StoreInvariant`).

Files:

- `wrappers.dfy`: `Option` and `Result`.
- `document.dfy`: module `DocumentModel`, the schema.
- `routes.dfy`: module `DocumentRoutes`, the handlers.
- `properties.dfy`: module `RouteProperties`, the lemmas relating them.

## Model

| member | source | states |
|---|---|---|
| DocumentModel.ParseAccess | models/Document.js:12 | an access string casts to an access level iff it is exactly `read` or `write`, each to its own level |
| DocumentModel.AccessName | models/Document.js:12 | each access level is saved as the one string that casts back to it |
| DocumentModel.ValidateCollaborators | models/Document.js:9-14 | a collaborator list validates iff every access is in the enum; the result keeps length, order and user ids; otherwise the first entry outside the enum is reported |
| DocumentModel.Validate | models/Document.js:4-17 | a document saves iff title is present and non-empty, owner is present and every access is in the enum; the saved record has those fields, `content` defaults to `{}`, and its title is non-empty |
| DocumentModel.CollaboratorInputs | models/Document.js:9-14 | a stored list is written back entry by entry with the same user ids and access levels |
| DocumentModel.WithDefaults | models/Document.js:7 | a missing `content` becomes the empty object `{}`; a present one, and every other field, is kept as given |
| DocumentModel.ToInput | models/Document.js:4-17 | a fetched document presents every field as set, and a schema-valid one survives a save unchanged |
| DocumentModel.CollaboratorsRoundTrip | models/Document.js:9-14 | validating a stored collaborator list again gives back the same list |
| DocumentModel.CollaboratorsAppend | models/Document.js:9-14 | a stored list with one entry pushed validates iff that entry's access is in the enum, and then is the old list with exactly that entry at the end |
| DocumentModel.ValidateEdited | routes/documentRoutes.js:200-203 | re-saving a document with a new title and content fails only on an empty title, and otherwise changes exactly those two fields |
| DocumentModel.ToInputValidate | models/Document.js:4-17 | what validation accepts is exactly its input with the `content` default applied |
| DocumentModel.ValidateAppend | routes/documentRoutes.js:127-128 | pushing an entry onto a valid document and saving appends exactly that entry, or fails with the pushed entry's index when its access is outside the enum |
| DocumentRoutes.HasCollaborator | routes/documentRoutes.js:118-120 | true iff some entry of the list has the user's id |
| DocumentRoutes.FindCollaborator | routes/documentRoutes.js:189-191 | returns nothing iff no entry has the user's id, and otherwise the first entry with it |
| DocumentRoutes.MayRead | routes/documentRoutes.js:152-165 | the read check passes iff the user is the owner or appears in the collaborator list at either access level |
| DocumentRoutes.MayWrite | routes/documentRoutes.js:186-198 | the write check passes iff the user is the owner or the user's first entry in the list has access `write` |
| DocumentRoutes.Create | routes/documentRoutes.js:7-16 | 201 iff the title is truthy and the new id is unused; the new document is owned by the requester, has no collaborators and `{}` content when none was sent; any failure is 500 with no change |
| DocumentRoutes.List | routes/documentRoutes.js:19-29 | `createdByMe` holds exactly the requester's own documents, `sharedWithMe` exactly those listing the requester as a collaborator, each as stored |
| DocumentRoutes.Share | routes/documentRoutes.js:90-135 | every failure leaves the collection unchanged and sends no document; success only on a document the requester owns, and changes no other document |
| DocumentRoutes.Get | routes/documentRoutes.js:139-171 | 404 iff the id is unknown; 200 with the stored document iff the requester is the owner or appears in the list at either access level; otherwise 403; nothing changes |
| DocumentRoutes.Update | routes/documentRoutes.js:174-209 | 404 iff the id is unknown, 403 iff the requester may not write; every failure leaves the collection unchanged; success changes only that document |
| DocumentRoutes.Delete | routes/documentRoutes.js:66-86 | 404 iff the id is unknown, 403 iff the requester is not the owner, both with no change; the owner's request removes exactly that document |
| DocumentRoutes.Handle | routes/documentRoutes.js:7-209 | a request answered with neither 201 nor 200 leaves the collection unchanged |
| RouteProperties.ShareDecisionOrder | routes/documentRoutes.js:95-124 | missing field gives 400, then unknown user 404, unknown document 404, not the owner 403, already a collaborator 400; none of them changes anything |
| RouteProperties.ShareOnlyOwner | routes/documentRoutes.js:113-115 | a requester who does not own the document never changes the collection, and gets 403 once every field is present and resolves |
| RouteProperties.ShareRejectsDuplicate | routes/documentRoutes.js:118-124 | sharing with a user already in the list answers 400 and leaves the collection as it was |
| RouteProperties.ShareAppendsEntry | routes/documentRoutes.js:126-130 | an owner's share to a new user succeeds iff the access is `read` or `write`; exactly one entry is appended at the end; title, content and owner are unchanged |
| RouteProperties.ShareKeepsUsersUnique | routes/documentRoutes.js:117-128 | sharing keeps a duplicate-free list duplicate-free and only ever appends one entry to it |
| RouteProperties.WriterMayRead | routes/documentRoutes.js:186-198 | whoever may update a document may also read it |
| RouteProperties.FirstEntryDecides | routes/documentRoutes.js:189-193 | a collaborator's first entry alone decides whether they may update |
| RouteProperties.ReadEntryShadowsWrite | routes/documentRoutes.js:189-193 | when a non-owner's first entry is `read`, any later `write` entry for the same user is hidden and the update is refused |
| RouteProperties.WriteAccessWhenUnique | routes/documentRoutes.js:186-198 | on a duplicate-free list, update is permitted iff the requester is the owner or has an entry with access `write` |
| RouteProperties.ListedIffReadable | routes/documentRoutes.js:21-24 | a document is in one of the two lists iff reading it by id answers 200 |
| RouteProperties.UpdateKeepsFalsyFields | routes/documentRoutes.js:200-201 | a permitted update of a valid document answers 200; each falsy field keeps the stored value, each truthy one replaces it; owner and collaborators are unchanged |
| RouteProperties.UpdateRefusesReaders | routes/documentRoutes.js:193-197 | a non-owner without a `write` entry gets 403 and the collection is unchanged |
| RouteProperties.UpdateKeepsCollaborators | routes/documentRoutes.js:200-203 | no update changes any document's owner or collaborators, or makes a valid document invalid |
| RouteProperties.HandlePreservesInvariant | models/Document.js:4-17 | every route keeps every stored title non-empty and every collaborator list free of duplicates |
| RouteProperties.HandleOnlyOwnerGrants | routes/documentRoutes.js:113-115 | no route changes a document's owner, and a document's collaborators change only at its owner's request |
| RouteProperties.ReplayPreservesInvariant | models/Document.js:9-14 | any sequence of requests answered one after another keeps every title non-empty and every collaborator list duplicate-free, because the share route is what keeps them so |

## Left out

- The real-time editing path in `server.js` is not part of this model. That
  covers Socket.IO rooms and broadcasts, and the unsynchronised find, compose
  and save sequence. It also covers the merge delegated to `quill-delta`, whose
  code is not available.
- The `authenticate` middleware and the `User` model are not part of this
  model. The requester id is given, and e-mail lookup is a map.
- Exceptions from the database driver (500 answers other than failed
  validation and duplicate ids) are not modelled. Examples are a malformed
  ObjectId string, a lost connection, or a `populate` that finds a deleted
  user in `GET /:id`.
- Response bodies are reduced to the status and the document sent back. This
  leaves out the message strings and the populated user objects of
  `GET /:id`.
- DocumentRoutes.List: the order in which MongoDB returns documents is not
  modelled, because the collection is a map.
- Request bodies whose fields are not strings are not modelled. For example,
  a numeric title that Mongoose would cast to a string.
- A collaborator entry without a `user_id` is not modelled. The schema
  allows it, but no route creates one.
- `timestamps` and logging are not modelled.
- Commented-out code is not live and is not modelled. This includes the older
  share route and the schema's pre-save hook, which removed the owner from the
  collaborators and rejected a list with duplicate users.
- Route handlers that interleave are not modelled. Express runs the handlers
  concurrently, switching at every `await`. Two share requests for the same
  document and user can both pass the duplicate check before either saves,
  and then the user is listed twice. Uniqueness of collaborators
  (`ReplayPreservesInvariant`) is proved only for requests answered one after
  another.
- JSON numbers in `content` are integers only (`JNumber`). Fractions and
  `NaN` are not modelled; whether a value counts as false is unaffected
  except for `NaN`.

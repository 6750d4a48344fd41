/**
 * The document routes (routes/documentRoutes.js): create, list, share, get,
 * update and delete, each a sequential decision procedure that answers with a
 * status and, on success, the new state of the store.
 *
 * The MongoDB collection is a finite map from document id to stored document,
 * `User.findOne({email})` is a partial map from e-mail address to user id, and
 * the authenticated requester id is a plain parameter. Pushing onto a fetched
 * document or assigning its fields and then calling `save()` is modelled as
 * building the document's fields again and running the schema's validation
 * (`Validate`); a failed save answers 500 and writes nothing.
 */
module DocumentRoutes {
  import opened Wrappers
  import opened DocumentModel

  type DocId = string

  /** The documents collection. */
  type Db = map<DocId, Document>

  /** The users collection as far as `User.findOne({email})` sees it. */
  type Users = map<string, UserId>

  /** The HTTP status a handler answers with: 201, 200, 400, 403, 404 and 500. */
  datatype Status = Created | OK | BadRequest | Forbidden | NotFound | ServerError

  /** A handler's answer: its status, the collection afterwards, and the document it sends back. */
  datatype Reply = Reply(status: Status, db: Db, doc: Option<Document>)

  /** `collaborators.some(c => c.user_id === u)`. */
  function HasCollaborator(cs: seq<Collaborator>, u: UserId): (b: bool)
    ensures b <==> exists i :: 0 <= i < |cs| && cs[i].userId == u
  {
    if cs == [] then false
    else cs[0].userId == u || HasCollaborator(cs[1..], u)
  }

  /** `collaborators.find(c => c.user_id === u)`: the FIRST entry for `u`, if any. */
  function FindCollaborator(cs: seq<Collaborator>, u: UserId): (r: Option<Collaborator>)
    ensures r.None? <==> forall i :: 0 <= i < |cs| ==> cs[i].userId != u
    ensures r.Some? ==> r.value.userId == u
    ensures r.Some? ==> exists i ::
      && 0 <= i < |cs| && cs[i] == r.value
      && forall j :: 0 <= j < i ==> cs[j].userId != u
  {
    if cs == [] then None
    else if cs[0].userId == u then Some(cs[0])
    else
      var r := FindCollaborator(cs[1..], u);
      if r.Some? then
        ghost var i :| 0 <= i < |cs[1..]| && cs[1..][i] == r.value &&
          forall j :: 0 <= j < i ==> cs[1..][j].userId != u;
        assert cs[i + 1] == r.value;
        r
      else r
  }

  /** The read check of GET `/:id`: the owner, or anyone `find` locates in the list. */
  predicate MayRead(d: Document, u: UserId)
    ensures MayRead(d, u) <==>
      || d.owner == u
      || exists i :: 0 <= i < |d.collaborators| && d.collaborators[i].userId == u
  {
    d.owner == u || FindCollaborator(d.collaborators, u).Some?
  }

  /** The write check of PUT `/:id`: the owner, or a user whose first entry has access `write`. */
  predicate MayWrite(d: Document, u: UserId)
    ensures MayWrite(d, u) <==>
      || d.owner == u
      || exists i ::
           && 0 <= i < |d.collaborators| && d.collaborators[i] == Collaborator(u, Write)
           && forall j :: 0 <= j < i ==> d.collaborators[j].userId != u
  {
    d.owner == u ||
    match FindCollaborator(d.collaborators, u)
    case None => false
    case Some(c) => c.access == Write
  }

  /** POST `/`: a new document owned by the requester, saved under the freshly generated `newId`. */
  function Create(db: Db, requester: UserId, newId: DocId, title: Option<string>, content: Option<Json>): (r: Reply)
    ensures r.status == Created <==> !MissingString(title) && newId !in db
    ensures r.status != Created ==> r.status == ServerError && r.db == db && r.doc.None?
    ensures r.status == Created ==>
      && r.doc == Some(Document(title.value, if content.None? then EmptyObject else content.value, requester, []))
      && r.db == db[newId := r.doc.value]
  {
    match Validate(DocumentInput(title, content, Some(requester), []))
    case Err(_) => Reply(ServerError, db, None)
    case Ok(d) =>
      // Inserting an `_id` that is already taken fails with a duplicate-key error.
      if newId in db then Reply(ServerError, db, None)
      else Reply(Created, db[newId := d], Some(d))
  }

  /** The two lists GET `/` answers with. */
  datatype Listing = Listing(createdByMe: map<DocId, Document>, sharedWithMe: map<DocId, Document>)

  /** GET `/`: the documents the requester owns, and those listing the requester as a collaborator. */
  function List(db: Db, requester: UserId): (r: Listing)
    ensures forall id :: id in r.createdByMe <==> id in db && db[id].owner == requester
    ensures forall id :: id in r.sharedWithMe <==>
      id in db && exists i :: 0 <= i < |db[id].collaborators| && db[id].collaborators[i].userId == requester
    ensures forall id :: id in r.createdByMe ==> r.createdByMe[id] == db[id]
    ensures forall id :: id in r.sharedWithMe ==> r.sharedWithMe[id] == db[id]
  {
    Listing(
      map id | id in db && db[id].owner == requester :: db[id],
      map id | id in db && HasCollaborator(db[id].collaborators, requester) :: db[id])
  }

  /**
   * POST `/share`: the owner grants `access` to the user registered under
   * `email`. A failed check answers at once and changes nothing.
   */
  function Share(db: Db, users: Users, requester: UserId,
                 documentId: Option<string>, email: Option<string>, access: Option<string>): (r: Reply)
    ensures r.status in {OK, BadRequest, NotFound, Forbidden, ServerError}
    ensures r.status != OK ==> r.db == db && r.doc.None?
    ensures r.status == OK ==>
      && documentId.Some? && documentId.value in db && db[documentId.value].owner == requester
      && r.db.Keys == db.Keys
      && r.doc == Some(r.db[documentId.value])
      && forall id :: id in db && id != documentId.value ==> r.db[id] == db[id]
  {
    if MissingString(documentId) || MissingString(email) || MissingString(access) then
      Reply(BadRequest, db, None)
    else if email.value !in users then Reply(NotFound, db, None)
    else if documentId.value !in db then Reply(NotFound, db, None)
    else
      var id, user, d := documentId.value, users[email.value], db[documentId.value];
      if d.owner != requester then Reply(Forbidden, db, None)
      else if HasCollaborator(d.collaborators, user) then Reply(BadRequest, db, None)
      else
        var pushed := ToInput(d).(collaborators := ToInput(d).collaborators + [CollaboratorInput(user, access.value)]);
        match Validate(pushed)
        case Err(_) => Reply(ServerError, db, None)
        case Ok(saved) => Reply(OK, db[id := saved], Some(saved))
  }

  /** GET `/:id`: the document, for its owner or any of its collaborators. */
  function Get(db: Db, requester: UserId, id: DocId): (r: Reply)
    ensures r.db == db
    ensures r.status in {OK, Forbidden, NotFound}
    ensures r.status == NotFound <==> id !in db
    ensures r.status == OK <==>
      && id in db
      && (|| db[id].owner == requester
          || exists i :: 0 <= i < |db[id].collaborators| && db[id].collaborators[i].userId == requester)
    ensures r.doc.Some? <==> r.status == OK
    ensures r.status == OK ==> r.doc.value == db[id]
  {
    if id !in db then Reply(NotFound, db, None)
    else if !MayRead(db[id], requester) then Reply(Forbidden, db, None)
    else Reply(OK, db, Some(db[id]))
  }

  /**
   * PUT `/:id`: the owner or a writer replaces the title and the content;
   * a falsy field keeps the stored value.
   */
  function Update(db: Db, requester: UserId, id: DocId, title: Option<string>, content: Option<Json>): (r: Reply)
    ensures r.status in {OK, Forbidden, NotFound, ServerError}
    ensures r.status == NotFound <==> id !in db
    ensures r.status == Forbidden <==> id in db && !MayWrite(db[id], requester)
    ensures r.status != OK ==> r.db == db && r.doc.None?
    ensures r.status == OK ==>
      && r.db.Keys == db.Keys
      && r.doc == Some(r.db[id])
      && forall other :: other in db && other != id ==> r.db[other] == db[other]
  {
    if id !in db then Reply(NotFound, db, None)
    else
      var d := db[id];
      if !MayWrite(d, requester) then Reply(Forbidden, db, None)
      else
        var newTitle := if MissingString(title) then d.title else title.value;
        var newContent := if content.Some? && Truthy(content.value) then content.value else d.content;
        match Validate(ToInput(d).(title := Some(newTitle), content := Some(newContent)))
        case Err(_) => Reply(ServerError, db, None)
        case Ok(saved) => Reply(OK, db[id := saved], Some(saved))
  }

  /** DELETE `/:id`: only the owner removes the document. */
  function Delete(db: Db, requester: UserId, id: DocId): (r: Reply)
    ensures r.doc.None?
    ensures r.status in {OK, Forbidden, NotFound}
    ensures r.status == NotFound <==> id !in db
    ensures r.status == Forbidden <==> id in db && db[id].owner != requester
    ensures r.status != OK ==> r.db == db
    ensures r.status == OK ==>
      && r.db.Keys == db.Keys - {id}
      && forall other :: other in r.db ==> r.db[other] == db[other]
  {
    if id !in db then Reply(NotFound, db, None)
    else if db[id].owner != requester then Reply(Forbidden, db, None)
    else Reply(OK, db - {id}, None)
  }

  /** A request to one of the routes that may write, with its body and path fields. */
  datatype Request =
    | CreateRequest(newId: DocId, title: Option<string>, content: Option<Json>)
    | ShareRequest(documentId: Option<string>, email: Option<string>, access: Option<string>)
    | GetRequest(id: DocId)
    | UpdateRequest(id: DocId, title: Option<string>, content: Option<Json>)
    | DeleteRequest(id: DocId)

  /** Dispatches one authenticated request to its handler. */
  function Handle(db: Db, users: Users, requester: UserId, req: Request): (r: Reply)
    ensures r.status != Created && r.status != OK ==> r.db == db
  {
    match req
    case CreateRequest(newId, title, content) => Create(db, requester, newId, title, content)
    case ShareRequest(documentId, email, access) => Share(db, users, requester, documentId, email, access)
    case GetRequest(id) => Get(db, requester, id)
    case UpdateRequest(id, title, content) => Update(db, requester, id, title, content)
    case DeleteRequest(id) => Delete(db, requester, id)
  }

  /**
   * One authenticated request. `Replay` answers a sequence of them strictly
   * one after another: handlers that interleave at their `await`s are not
   * modelled.
   */
  datatype Step = Step(requester: UserId, req: Request)

  /** The collection after answering `steps` in order, each request running to completion before the next starts. */
  function Replay(db: Db, users: Users, steps: seq<Step>): Db
    decreases |steps|
  {
    if steps == [] then db
    else Replay(Handle(db, users, steps[0].requester, steps[0].req).db, users, steps[1..])
  }
}

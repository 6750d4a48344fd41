/**
 * What the document routes promise across calls: the order of the share
 * checks, that sharing never duplicates a collaborator, how access is
 * granted, what an update keeps, and the invariant every route preserves.
 */
module RouteProperties {
  import opened Wrappers
  import opened DocumentModel
  import opened DocumentRoutes

  /** No user id appears twice in a collaborator list. */
  ghost predicate UniqueUsers(cs: seq<Collaborator>) {
    forall i, j :: 0 <= i < j < |cs| ==> cs[i].userId != cs[j].userId
  }

  /** What every stored document satisfies: a schema-valid title and no duplicate collaborator. */
  ghost predicate StoreInvariant(db: Db) {
    forall id :: id in db ==> Valid(db[id]) && UniqueUsers(db[id].collaborators)
  }

  /** True iff the share request carries every field and its e-mail and document both resolve. */
  predicate ShareResolves(db: Db, users: Users, documentId: Option<string>, email: Option<string>, access: Option<string>) {
    && !MissingString(documentId) && !MissingString(email) && !MissingString(access)
    && email.value in users && documentId.value in db
  }

  // ----- POST /share -----

  /** The checks of a share run in a fixed order and the first that fails decides the status. */
  lemma ShareDecisionOrder(db: Db, users: Users, requester: UserId,
                           documentId: Option<string>, email: Option<string>, access: Option<string>)
    ensures var r := Share(db, users, requester, documentId, email, access);
      && (MissingString(documentId) || MissingString(email) || MissingString(access) ==>
            r.status == BadRequest)
      && (!MissingString(documentId) && !MissingString(email) && !MissingString(access) ==>
            && (email.value !in users ==> r.status == NotFound)
            && (email.value in users && documentId.value !in db ==> r.status == NotFound)
            && (email.value in users && documentId.value in db ==>
                  var d := db[documentId.value];
                  && (d.owner != requester ==> r.status == Forbidden)
                  && (d.owner == requester && HasCollaborator(d.collaborators, users[email.value]) ==>
                        r.status == BadRequest)))
      && (r.status != OK ==> r.db == db)
  {
  }

  /** Whatever the rest of the request, a requester who does not own the document changes nothing. */
  lemma ShareOnlyOwner(db: Db, users: Users, requester: UserId,
                       documentId: Option<string>, email: Option<string>, access: Option<string>)
    requires documentId.Some? && documentId.value in db && db[documentId.value].owner != requester
    ensures var r := Share(db, users, requester, documentId, email, access);
      && r.status in {BadRequest, NotFound, Forbidden}
      && r.db == db
      && (ShareResolves(db, users, documentId, email, access) ==> r.status == Forbidden)
  {
  }

  /** A user who already appears in the list is refused with 400 and the list stays as it was. */
  lemma ShareRejectsDuplicate(db: Db, users: Users, requester: UserId,
                              documentId: Option<string>, email: Option<string>, access: Option<string>)
    requires ShareResolves(db, users, documentId, email, access)
    requires db[documentId.value].owner == requester
    requires exists i ::
      && 0 <= i < |db[documentId.value].collaborators|
      && db[documentId.value].collaborators[i].userId == users[email.value]
    ensures Share(db, users, requester, documentId, email, access) == Reply(BadRequest, db, None)
  {
  }

  /**
   * An owner sharing a schema-valid document with a user not yet in its list
   * succeeds iff the access is in the enum; the new entry is appended at the
   * end and nothing else of the document changes.
   */
  lemma ShareAppendsEntry(db: Db, users: Users, requester: UserId,
                          documentId: Option<string>, email: Option<string>, access: Option<string>)
    requires ShareResolves(db, users, documentId, email, access)
    requires Valid(db[documentId.value]) && db[documentId.value].owner == requester
    requires forall i :: 0 <= i < |db[documentId.value].collaborators| ==>
      db[documentId.value].collaborators[i].userId != users[email.value]
    ensures var r := Share(db, users, requester, documentId, email, access);
      var d := db[documentId.value];
      && (r.status == OK <==> access.value in {"read", "write"})
      && (r.status != OK ==> r.status == ServerError && r.db == db)
      && (r.status == OK ==>
            && r.doc.Some?
            && r.doc.value.title == d.title
            && r.doc.value.content == d.content
            && r.doc.value.owner == d.owner
            && r.doc.value.collaborators ==
                 d.collaborators + [Collaborator(users[email.value], ParseAccess(access.value).value)]
            && r.db == db[documentId.value := r.doc.value])
  {
    var d := db[documentId.value];
    ValidateAppend(d, CollaboratorInput(users[email.value], access.value));
  }

  /** Sharing keeps a duplicate-free list duplicate-free, and only ever appends to it. */
  lemma ShareKeepsUsersUnique(db: Db, users: Users, requester: UserId,
                              documentId: Option<string>, email: Option<string>, access: Option<string>)
    requires documentId.Some? && documentId.value in db
    requires UniqueUsers(db[documentId.value].collaborators)
    ensures var r := Share(db, users, requester, documentId, email, access);
      && documentId.value in r.db
      && UniqueUsers(r.db[documentId.value].collaborators)
      && var old_cs := db[documentId.value].collaborators;
         var new_cs := r.db[documentId.value].collaborators;
         old_cs <= new_cs && |new_cs| <= |old_cs| + 1
  {
  }

  // ----- access checks -----

  /** Whoever may write may read. */
  lemma WriterMayRead(d: Document, u: UserId)
    requires MayWrite(d, u)
    ensures MayRead(d, u)
  {
  }

  /**
   * `find` stops at a user's first entry, so that entry alone decides whether
   * a collaborator may write.
   */
  lemma FirstEntryDecides(d: Document, u: UserId, i: nat)
    requires i < |d.collaborators| && d.collaborators[i].userId == u
    requires forall j :: 0 <= j < i ==> d.collaborators[j].userId != u
    ensures MayWrite(d, u) <==> d.owner == u || d.collaborators[i].access == Write
  {
  }

  /**
   * When a user's first entry is `read`, any later `write` entry for the same
   * user is hidden and a non-owner is refused.
   */
  lemma ReadEntryShadowsWrite(d: Document, u: UserId, i: nat, j: nat)
    requires d.owner != u
    requires i < j < |d.collaborators|
    requires d.collaborators[i] == Collaborator(u, Read) && d.collaborators[j] == Collaborator(u, Write)
    requires forall k :: 0 <= k < i ==> d.collaborators[k].userId != u
    ensures !MayWrite(d, u)
  {
    FirstEntryDecides(d, u, i);
  }

  /** With no duplicate collaborator, write access means: the owner, or an entry with access `write`. */
  lemma WriteAccessWhenUnique(d: Document, u: UserId)
    requires UniqueUsers(d.collaborators)
    ensures MayWrite(d, u) <==>
      || d.owner == u
      || exists i :: 0 <= i < |d.collaborators| && d.collaborators[i] == Collaborator(u, Write)
  {
  }

  /** The documents GET `/` lists are exactly those GET `/:id` lets the requester read. */
  lemma ListedIffReadable(db: Db, requester: UserId, id: DocId)
    ensures var l := List(db, requester);
      id in l.createdByMe || id in l.sharedWithMe <==> Get(db, requester, id).status == OK
  {
  }

  // ----- PUT /:id -----

  /**
   * On a permitted update of a schema-valid document each truthy field
   * replaces the stored one, each falsy one keeps it, and owner and
   * collaborators are untouched.
   */
  lemma UpdateKeepsFalsyFields(db: Db, requester: UserId, id: DocId, title: Option<string>, content: Option<Json>)
    requires id in db && Valid(db[id]) && MayWrite(db[id], requester)
    ensures var r := Update(db, requester, id, title, content);
      var d := db[id];
      && r.status == OK
      && r.db == db[id := r.doc.value]
      && r.doc.value.title == (if MissingString(title) then d.title else title.value)
      && r.doc.value.content == (if content.Some? && Truthy(content.value) then content.value else d.content)
      && r.doc.value.owner == d.owner
      && r.doc.value.collaborators == d.collaborators
  {
  }

  /** A `read` collaborator, or a stranger, cannot update: 403 and the collection is unchanged. */
  lemma UpdateRefusesReaders(db: Db, requester: UserId, id: DocId, title: Option<string>, content: Option<Json>)
    requires id in db && db[id].owner != requester
    requires forall i :: 0 <= i < |db[id].collaborators| ==> db[id].collaborators[i] != Collaborator(requester, Write)
    ensures Update(db, requester, id, title, content) == Reply(Forbidden, db, None)
  {
    var cs := db[id].collaborators;
    var f := FindCollaborator(cs, requester);
    if f.Some? {
      var i :| 0 <= i < |cs| && cs[i] == f.value && forall j :: 0 <= j < i ==> cs[j].userId != requester;
      assert cs[i] != Collaborator(requester, Write);
    }
  }

  // ----- the store invariant -----

  /** An update leaves every owner and collaborator list as it was, and every valid document valid. */
  lemma UpdateKeepsCollaborators(db: Db, requester: UserId, id: DocId, title: Option<string>, content: Option<Json>)
    ensures var r := Update(db, requester, id, title, content);
      forall other :: other in db ==>
        && other in r.db
        && r.db[other].collaborators == db[other].collaborators
        && r.db[other].owner == db[other].owner
        && (Valid(db[other]) ==> Valid(r.db[other]))
  {
  }

  /** Every route keeps every stored document schema-valid and free of duplicate collaborators. */
  lemma HandlePreservesInvariant(db: Db, users: Users, requester: UserId, req: Request)
    requires StoreInvariant(db)
    ensures StoreInvariant(Handle(db, users, requester, req).db)
  {
  }

  /** A route changes a document's owner never, and its collaborators only at that owner's request. */
  lemma HandleOnlyOwnerGrants(db: Db, users: Users, requester: UserId, req: Request, id: DocId)
    requires id in db
    ensures var r := Handle(db, users, requester, req);
      id in r.db ==>
        && r.db[id].owner == db[id].owner
        && (r.db[id].collaborators != db[id].collaborators ==> requester == db[id].owner)
  {
  }

  /** Starting from a store that satisfies the invariant, any sequence of requests keeps it. */
  lemma {:induction false} ReplayPreservesInvariant(db: Db, users: Users, steps: seq<Step>)
    requires StoreInvariant(db)
    ensures StoreInvariant(Replay(db, users, steps))
    decreases |steps|
  {
    if steps != [] {
      HandlePreservesInvariant(db, users, steps[0].requester, steps[0].req);
      ReplayPreservesInvariant(Handle(db, users, steps[0].requester, steps[0].req).db, users, steps[1..]);
    }
  }
}

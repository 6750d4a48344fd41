/**
 * The live Mongoose schema of a shared document (models/Document.js, lines 4-17).
 *
 * A stored document is a `Document`. What a route hands to `new Document(...)`
 * or leaves on a fetched document before `save()` is a `DocumentInput`: its
 * fields may be missing and its access levels are still strings. `Validate`
 * is construction plus schema validation: it applies the `content` default
 * and checks the `required` and `enum` rules, as `save()` does before
 * anything is written.
 */
module DocumentModel {
  import opened Wrappers

  /** User ids; `ObjectId.toString()` comparisons become equality on these. */
  type UserId = string

  /** The `Mixed` content field: an arbitrary JSON value, opaque to the routes. */
  datatype Json =
    | JNull
    | JBool(b: bool)
    | JNumber(n: int)
    | JString(s: string)
    | JArray(items: seq<Json>)
    | JObject(entries: seq<(string, Json)>)

  /** JavaScript truthiness of a JSON value (objects and arrays, even empty, are truthy). */
  predicate Truthy(v: Json) {
    match v
    case JNull => false
    case JBool(b) => b
    case JNumber(n) => n != 0
    case JString(s) => s != ""
    case JArray(_) => true
    case JObject(_) => true
  }

  /** The schema default of `content`: an empty object. */
  const EmptyObject: Json := JObject([])

  /** The `access` enum of a collaborator entry. */
  datatype Access = Read | Write

  /** Casting an access string against the enum `['read', 'write']`. */
  function ParseAccess(s: string): (r: Option<Access>)
    ensures r.Some? <==> s == "read" || s == "write"
    ensures r == Some(Read) <==> s == "read"
    ensures r == Some(Write) <==> s == "write"
  {
    if s == "read" then Some(Read)
    else if s == "write" then Some(Write)
    else None
  }

  /** The string a stored access level is saved as; it is the only string that casts back to it. */
  function AccessName(a: Access): (s: string)
    ensures ParseAccess(s) == Some(a)
    ensures forall t :: ParseAccess(t) == Some(a) ==> t == s
  {
    match a
    case Read => "read"
    case Write => "write"
  }

  datatype Collaborator = Collaborator(userId: UserId, access: Access)

  datatype Document = Document(
    title: string,
    content: Json,
    owner: UserId,
    collaborators: seq<Collaborator>)

  /** The schema's `required: true` on `title`: a string that is present and not empty. */
  predicate Valid(d: Document) {
    d.title != ""
  }

  /** A collaborator entry before validation: its access is an uncast string. */
  datatype CollaboratorInput = CollaboratorInput(userId: UserId, access: string)

  /** The fields of a document before construction and validation; `None` is an undefined field. */
  datatype DocumentInput = DocumentInput(
    title: Option<string>,
    content: Option<Json>,
    owner: Option<UserId>,
    collaborators: seq<CollaboratorInput>)

  datatype ValidationError =
    | TitleRequired
    | OwnerRequired
    | AccessNotInEnum(index: nat)

  /** True iff the string field is missing or empty, which fails a `required` string validator. */
  predicate MissingString(s: Option<string>) {
    s.None? || s.value == ""
  }

  /**
   * Validates the collaborator entries in order. This model reports only the
   * first entry outside the enum; which entries fail is never observable,
   * since every failed save answers the same way.
   */
  function ValidateCollaborators(entries: seq<CollaboratorInput>): (r: Result<seq<Collaborator>, nat>)
    ensures r.Ok? <==> forall i :: 0 <= i < |entries| ==> entries[i].access in {"read", "write"}
    ensures r.Ok? ==> |r.value| == |entries|
    ensures r.Ok? ==> forall i :: 0 <= i < |entries| ==>
      r.value[i].userId == entries[i].userId && AccessName(r.value[i].access) == entries[i].access
    ensures r.Err? ==> r.error < |entries| && entries[r.error].access !in {"read", "write"}
    ensures r.Err? ==> forall i :: 0 <= i < r.error ==> entries[i].access in {"read", "write"}
  {
    if entries == [] then Ok([])
    else
      match ParseAccess(entries[0].access)
      case None => Err(0)
      case Some(a) =>
        match ValidateCollaborators(entries[1..])
        case Err(k) => Err(k + 1)
        case Ok(rest) => Ok([Collaborator(entries[0].userId, a)] + rest)
  }

  /** The input with the construction default `{}` applied to a missing `content`. */
  function WithDefaults(input: DocumentInput): (r: DocumentInput)
    ensures r.content == Some(if input.content.None? then EmptyObject else input.content.value)
    ensures r.title == input.title && r.owner == input.owner && r.collaborators == input.collaborators
    ensures input.content.Some? ==> r == input
  {
    if input.content.None? then input.(content := Some(EmptyObject)) else input
  }

  /**
   * Construction and validation of a document: `content` falls back to the
   * default, then `title` and `owner` must be present and every access level
   * must be in the enum.
   */
  function Validate(input: DocumentInput): (r: Result<Document, ValidationError>)
    ensures r.Ok? <==>
      && !MissingString(input.title)
      && input.owner.Some?
      && forall i :: 0 <= i < |input.collaborators| ==> input.collaborators[i].access in {"read", "write"}
    ensures r.Ok? ==> Valid(r.value)
    ensures r.Ok? ==> r.value.title == input.title.value && r.value.owner == input.owner.value
    ensures r.Ok? ==> r.value.content == if input.content.None? then EmptyObject else input.content.value
    ensures r.Ok? ==> |r.value.collaborators| == |input.collaborators|
  {
    if MissingString(input.title) then Err(TitleRequired)
    else if input.owner.None? then Err(OwnerRequired)
    else
      match ValidateCollaborators(input.collaborators)
      case Err(k) => Err(AccessNotInEnum(k))
      case Ok(cs) =>
        Ok(Document(input.title.value, WithDefaults(input).content.value, input.owner.value, cs))
  }

  /** The entries of a stored collaborator list as they are saved again. */
  function CollaboratorInputs(cs: seq<Collaborator>): (r: seq<CollaboratorInput>)
    ensures |r| == |cs|
    ensures forall i :: 0 <= i < |cs| ==>
      r[i].userId == cs[i].userId && ParseAccess(r[i].access) == Some(cs[i].access)
  {
    seq(|cs|, i requires 0 <= i < |cs| => CollaboratorInput(cs[i].userId, AccessName(cs[i].access)))
  }

  /**
   * A fetched document as the fields `save()` validates again; every field is
   * present, and a schema-valid document survives the save unchanged.
   */
  function ToInput(d: Document): (r: DocumentInput)
    ensures r.title == Some(d.title) && r.content == Some(d.content) && r.owner == Some(d.owner)
    ensures Valid(d) ==> Validate(r) == Ok(d)
  {
    CollaboratorsRoundTrip(d.collaborators);
    DocumentInput(Some(d.title), Some(d.content), Some(d.owner), CollaboratorInputs(d.collaborators))
  }

  /** Saving a stored list again re-validates to the very same list. */
  lemma {:induction false} CollaboratorsRoundTrip(cs: seq<Collaborator>)
    ensures ValidateCollaborators(CollaboratorInputs(cs)) == Ok(cs)
  {
    var r := ValidateCollaborators(CollaboratorInputs(cs));
    assert r.Ok?;
    assert |r.value| == |cs|;
    forall i | 0 <= i < |cs| ensures r.value[i] == cs[i] {
      assert ParseAccess(AccessName(r.value[i].access)) == Some(cs[i].access);
    }
    assert r.value == cs;
  }

  /**
   * A stored list with one entry pushed at its end validates iff the new
   * entry's access is in the enum, and then yields the list with exactly that
   * entry appended; otherwise the pushed entry is the one reported.
   */
  lemma {:induction false} CollaboratorsAppend(cs: seq<Collaborator>, e: CollaboratorInput)
    ensures ValidateCollaborators(CollaboratorInputs(cs) + [e]) ==
      match ParseAccess(e.access)
      case Some(a) => Ok(cs + [Collaborator(e.userId, a)])
      case None => Err(|cs|)
  {
    var entries := CollaboratorInputs(cs) + [e];
    var r := ValidateCollaborators(entries);
    assert entries[|cs|] == e;
    match ParseAccess(e.access)
    case Some(a) =>
      assert r.Ok?;
      var want := cs + [Collaborator(e.userId, a)];
      forall i | 0 <= i < |entries| ensures r.value[i] == want[i] {
        assert ParseAccess(AccessName(r.value[i].access)) == ParseAccess(entries[i].access);
      }
      assert r.value == want;
    case None =>
      assert r.Err?;
      assert r.error == |cs| by {
        forall i | 0 <= i < |cs| ensures entries[i].access in {"read", "write"} {
          assert ParseAccess(entries[i].access).Some?;
        }
      }
  }

  /**
   * Re-saving a stored document whose title and content were reassigned
   * fails only on an empty title; otherwise exactly those two fields change.
   */
  lemma ValidateEdited(d: Document, title: string, content: Json)
    ensures Validate(ToInput(d).(title := Some(title), content := Some(content))) ==
      if title == "" then Err(TitleRequired) else Ok(d.(title := title, content := content))
  {
    CollaboratorsRoundTrip(d.collaborators);
  }

  /** What validation accepts is exactly its input with the defaults applied. */
  lemma ToInputValidate(input: DocumentInput)
    requires Validate(input).Ok?
    ensures ToInput(Validate(input).value) == WithDefaults(input)
  {
  }

  /** Pushing an entry onto a fetched document and saving it. */
  lemma ValidateAppend(d: Document, e: CollaboratorInput)
    requires Valid(d)
    ensures var r := Validate(ToInput(d).(collaborators := ToInput(d).collaborators + [e]));
      match ParseAccess(e.access)
      case Some(a) => r == Ok(d.(collaborators := d.collaborators + [Collaborator(e.userId, a)]))
      case None => r == Err(AccessNotInEnum(|d.collaborators|))
  {
    CollaboratorsAppend(d.collaborators, e);
  }
}

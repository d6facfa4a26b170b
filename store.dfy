/** The `urls` collection: documents `{_id, slug, url}` with a unique index
    on `slug`. The unique index is what lets the collection be a map from
    slug to document; `_id` is drawn from a counter. */
module Store {
  import opened Wrappers
  import opened Text
  import opened Errors

  /** A stored document. */
  datatype Mapping = Mapping(id: nat, slug: string, url: string)

  /** The collection's documents, indexed by slug, and the next `_id`. */
  datatype Contents = Contents(docs: map<string, Mapping>, nextId: nat)

  /** Each document sits under its own slug, and `_id`s are issued below
      `nextId` and never twice. */
  ghost predicate Consistent(c: Contents)
  {
    && (forall k :: k in c.docs ==> c.docs[k].slug == k && c.docs[k].id < c.nextId)
    && (forall k1, k2 :: k1 in c.docs && k2 in c.docs && c.docs[k1].id == c.docs[k2].id ==> k1 == k2)
  }

  /** The message of the error the storage engine raises when the unique
      index on `slug` refuses a document. */
  function DuplicateKeyMessage(slug: string): (m: string)
    ensures StartsWith(m, DuplicateKeyCode)
  {
    DuplicateKeyCode + " duplicate key error, index: slug_1, dup key: " + slug
  }

  /** `insert({url, slug})`. `fault` is a failure of the storage layer
      itself (for instance an unreachable server), raised with its own
      message and no status. Otherwise the insert fails with a duplicate-key
      error when the slug is taken, and adds exactly one document when it
      is not. */
  function InsertResult(c: Contents, slug: string, url: string, fault: Option<string>)
    : (r: (Result<Mapping, Error>, Contents))
    ensures r.0.Success? <==> fault.None? && slug !in c.docs
    ensures r.0.Failure? ==> r.1 == c
    ensures fault.None? && slug in c.docs ==> r.0 == Failure(Error(DuplicateKeyMessage(slug), None))
    ensures fault.Some? ==> r.0 == Failure(Error(fault.value, None))
    ensures r.0.Success? ==>
              && r.0.value.slug == slug && r.0.value.url == url
              && r.1.docs == c.docs[slug := r.0.value]
              && |r.1.docs| == |c.docs| + 1
  {
    if fault.Some? then (Failure(Error(fault.value, None)), c)
    else if slug in c.docs then (Failure(Error(DuplicateKeyMessage(slug), None)), c)
    else
      var m := Mapping(c.nextId, slug, url);
      (Success(m), Contents(c.docs[slug := m], c.nextId + 1))
  }

  /** An insert keeps the collection consistent, and the new document's
      `_id` is not the `_id` of any earlier document. */
  lemma InsertKeepsConsistent(c: Contents, slug: string, url: string, fault: Option<string>)
    requires Consistent(c)
    ensures Consistent(InsertResult(c, slug, url, fault).1)
    ensures InsertResult(c, slug, url, fault).0.Success? ==>
              forall k :: k in c.docs ==> c.docs[k].id != InsertResult(c, slug, url, fault).0.value.id
  {
  }

  /** `findOne({slug})`: the document whose slug is exactly `slug`, or None.
      `fault` is a failure of the storage layer, raised as an error. */
  function FindResult(c: Contents, slug: string, fault: bool): (r: Result<Option<Mapping>, Error>)
    ensures r.Failure? <==> fault
    ensures !fault ==> (r.value.Some? <==> slug in c.docs)
    ensures !fault && slug in c.docs ==> r.value.value == c.docs[slug]
    ensures Consistent(c) && r.Success? && r.value.Some? ==> r.value.value.slug == slug
  {
    if fault then Failure(Error("findOne failed", None))
    else if slug in c.docs then Success(Some(c.docs[slug]))
    else Success(None)
  }

  /** The collection object the handlers share. */
  class Collection {
    var docs: map<string, Mapping>
    var nextId: nat

    function State(): Contents
      reads this
    {
      Contents(docs, nextId)
    }

    ghost predicate Valid()
      reads this
    {
      Consistent(State())
    }

    /** An empty collection with the unique index on `slug` in place. */
    constructor ()
      ensures Valid()
      ensures docs == map[] && nextId == 0
    {
      docs := map[];
      nextId := 0;
    }

    method Insert(slug: string, url: string, fault: Option<string>) returns (r: Result<Mapping, Error>)
      requires Valid()
      modifies this
      ensures Valid()
      ensures (r, State()) == InsertResult(old(State()), slug, url, fault)
    {
      InsertKeepsConsistent(State(), slug, url, fault);
      if fault.Some? {
        return Failure(Error(fault.value, None));
      }
      if slug in docs {
        return Failure(Error(DuplicateKeyMessage(slug), None));
      }
      var m := Mapping(nextId, slug, url);
      docs := docs[slug := m];
      nextId := nextId + 1;
      r := Success(m);
    }

    method FindOne(slug: string, fault: bool) returns (r: Result<Option<Mapping>, Error>)
      requires Valid()
      ensures r == FindResult(State(), slug, fault)
    {
      if fault {
        return Failure(Error("findOne failed", None));
      }
      if slug in docs {
        r := Success(Some(docs[slug]));
      } else {
        r := Success(None);
      }
    }
  }
}

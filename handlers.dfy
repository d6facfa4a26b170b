/** The two request handlers and the error responder, over the shared
    `urls` collection. `POST /url` validates the body, picks a slug (the
    supplied one, or a generated one when none is supplied), lower-cases it
    and inserts `{url, slug}`; `GET /:id` looks the slug up exactly as
    given. Storage failures and the generated slug are parameters. */
module Handlers {
  import opened Wrappers
  import opened Text
  import opened Validation
  import opened Errors
  import opened Store

  /** What a handler sends back: a JSON document, a redirect, or the error
      responder's JSON `{message, stack}` with its status. */
  datatype Response = Json(doc: Mapping) | Redirect(location: string) | Failed(status: int, message: string)

  /** The error-handling middleware: status from the error, else 500. */
  function Respond(e: Error): (r: Response)
    ensures r.Failed? && r.message == e.message && r.status == StatusOf(e)
  {
    Failed(StatusOf(e), e.message)
  }

  /** A slug `nanoid(5)` can produce: five characters of its URL-safe
      alphabet `A-Za-z0-9_-`. */
  predicate IsNanoId(g: string) {
    |g| == 5 && AllSlugChars(g)
  }

  /** JavaScript falsiness of the body's slug: missing or the empty string. */
  predicate Falsy(slug: Option<string>) {
    slug.None? || slug.value == []
  }

  /** The slug the create handler inserts: the raw body slug, or the
      generated one when the body slug is falsy, lower-cased. */
  function StoredSlug(slug: Option<string>, generated: string): (r: string)
    ensures HasNoUpper(r)
    ensures Falsy(slug) ==> |r| == |generated|
    ensures !Falsy(slug) ==> |r| == |slug.value|
    ensures slug.Some? && slug.value != [] ==> r == ToLower(slug.value)
  {
    ToLower(if Falsy(slug) then generated else slug.value)
  }

  /** The response and the new collection of `POST /url`. The body's raw
      `url` and `slug` are what is stored: the trimmed values the schema
      tested are discarded. Every error, validation errors included, goes
      through the duplicate-key rewrite and then the responder. */
  function CreateResult(c: Contents, body: Body, generated: string, isUrl: string -> bool, fault: Option<string>)
    : (r: (Response, Contents))
    ensures !r.0.Redirect?
    ensures r.0.Failed? ==> r.1 == c && r.0.status == 500
    ensures r.0.Json? ==> r.0.doc.slug !in c.docs && r.1.docs == c.docs[r.0.doc.slug := r.0.doc]
  {
    match Validate(body, isUrl)
    case Some(v) => (Respond(RewriteDuplicate(Error(v.Message(), None))), c)
    case None =>
      var (res, c') := InsertResult(c, StoredSlug(body.slug, generated), body.url.value, fault);
      match res
      case Success(m) => (Json(m), c')
      case Failure(e) => (Respond(RewriteDuplicate(e)), c')
  }

  /** The response of `GET /:id`. */
  function ResolveResult(c: Contents, slug: string, fault: bool): (r: Response)
    ensures r.Json? <==> !fault && slug in c.docs
    ensures r.Json? ==> r.doc == c.docs[slug]
    ensures !r.Json? ==> r.Redirect?
  {
    match FindResult(c, slug, fault)
    case Failure(_) => Redirect("/?error=Link not found")
    case Success(None) => Redirect("/?error=" + slug + " not found")
    case Success(Some(m)) => Json(m)
  }

  /** The handler of `POST /url`. */
  method Create(urls: Collection, body: Body, generated: string, isUrl: string -> bool, fault: Option<string>)
    returns (resp: Response)
    requires urls.Valid()
    requires IsNanoId(generated)
    modifies urls
    ensures urls.Valid()
    ensures (resp, urls.State()) == CreateResult(old(urls.State()), body, generated, isUrl, fault)
    ensures WellFormed(old(urls.State()), isUrl) ==> WellFormed(urls.State(), isUrl)
  {
    if WellFormed(urls.State(), isUrl) {
      CreateKeepsWellFormed(urls.State(), body, generated, isUrl, fault);
    }
    var slug := body.slug;
    var url := body.url;
    var invalid := Validate(body, isUrl);
    if invalid.Some? {
      resp := Respond(RewriteDuplicate(Error(invalid.value.Message(), None)));
      return;
    }
    if Falsy(slug) {
      slug := Some(generated);
    }
    var lowered := ToLower(slug.value);
    var created := urls.Insert(lowered, url.value, fault);
    match created
    case Success(m) => resp := Json(m);
    case Failure(e) => resp := Respond(RewriteDuplicate(e));
  }

  /** The handler of `GET /:id`: an exact-match lookup that changes
      nothing. A hit answers the document; a miss, and a storage failure,
      redirect to the front page with an error message. */
  method Resolve(urls: Collection, slug: string, fault: bool) returns (resp: Response)
    requires urls.Valid()
    ensures resp == ResolveResult(urls.State(), slug, fault)
    ensures fault ==> resp == Redirect("/?error=Link not found")
    ensures !fault && slug in urls.docs ==> resp == Json(urls.docs[slug]) && resp.doc.slug == slug
    ensures !fault && slug !in urls.docs ==> resp == Redirect("/?error=" + slug + " not found")
  {
    var found := urls.FindOne(slug, fault);
    match found
    case Failure(_) => resp := Redirect("/?error=Link not found");
    case Success(None) => resp := Redirect("/?error=" + slug + " not found");
    case Success(Some(m)) => resp := Json(m);
  }

  // ---------------------------------------------------------------------
  // Properties of the handlers

  /** Every stored slug is lower case and a slug once trimmed, and every
      stored url is a non-empty URL once trimmed. */
  ghost predicate WellFormed(c: Contents, isUrl: string -> bool)
  {
    forall k :: k in c.docs ==>
      && HasNoUpper(k)
      && MatchesSlugPattern(Trim(k))
      && Trim(c.docs[k].url) != []
      && isUrl(Trim(c.docs[k].url))
  }

  /** A request the schema refuses leaves the collection as it was and is
      answered with the schema's message and status 500. */
  lemma InvalidRequestChangesNothing(c: Contents, body: Body, generated: string, isUrl: string -> bool, fault: Option<string>)
    requires Validate(body, isUrl).Some?
    ensures CreateResult(c, body, generated, isUrl, fault).1 == c
    ensures CreateResult(c, body, generated, isUrl, fault).0
         == Failed(500, Validate(body, isUrl).value.Message())
  {
    ViolationNotDuplicate(Validate(body, isUrl).value);
  }

  /** No schema message looks like a duplicate-key error, so the rewrite
      leaves validation errors alone. */
  lemma ViolationNotDuplicate(v: Violation)
    ensures RewriteDuplicate(Error(v.Message(), None)) == Error(v.Message(), None)
  {
    match v
    case UrlRequired => assert v.Message()[0] == 'u';
    case UrlNotUrl => assert v.Message()[0] == 'u';
    case SlugMismatch =>
      assert v.Message() == "slug must match the following: " + "\"/^[\\w\\-]+$/i\"";
      assert v.Message()[0] == 's';
  }

  /** A valid request takes the generated slug exactly when it supplies
      none; a supplied slug is never replaced, and the slug stored is the
      lower case of the one taken. */
  lemma SlugChoice(body: Body, generated: string, isUrl: string -> bool)
    requires Validate(body, isUrl).None?
    ensures body.slug.None? ==> StoredSlug(body.slug, generated) == ToLower(generated)
    ensures body.slug.Some? ==> StoredSlug(body.slug, generated) == ToLower(body.slug.value)
  {
    if body.slug.Some? {
      AcceptedSlugShape(body, isUrl);
    }
  }

  /** Without a supplied slug, a valid request stores a five-character
      slug of lower-case letters, digits, `_` and `-`. */
  lemma GeneratedSlugShape(body: Body, generated: string, isUrl: string -> bool)
    requires Validate(body, isUrl).None? && body.slug.None?
    requires IsNanoId(generated)
    ensures |StoredSlug(body.slug, generated)| == 5
    ensures MatchesSlugPattern(StoredSlug(body.slug, generated))
    ensures HasNoUpper(StoredSlug(body.slug, generated))
  {
    LowerKeepsSlugPattern(generated);
  }

  /** The stored slug of a valid request is lower case and, once trimmed,
      a slug. */
  lemma StoredSlugWellFormed(body: Body, generated: string, isUrl: string -> bool)
    requires Validate(body, isUrl).None?
    requires IsNanoId(generated)
    ensures HasNoUpper(StoredSlug(body.slug, generated))
    ensures MatchesSlugPattern(Trim(StoredSlug(body.slug, generated)))
  {
    var raw := if Falsy(body.slug) then generated else body.slug.value;
    TrimLower(raw);
    if Falsy(body.slug) {
      TrimUntouched(generated);
    } else {
      AcceptedSlugShape(body, isUrl);
    }
    LowerKeepsSlugPattern(Trim(raw));
  }

  /** Creation keeps the collection consistent and well formed. */
  lemma CreateKeepsWellFormed(c: Contents, body: Body, generated: string, isUrl: string -> bool, fault: Option<string>)
    requires Consistent(c) && WellFormed(c, isUrl)
    requires IsNanoId(generated)
    ensures Consistent(CreateResult(c, body, generated, isUrl, fault).1)
    ensures WellFormed(CreateResult(c, body, generated, isUrl, fault).1, isUrl)
  {
    if Validate(body, isUrl).None? {
      var k := StoredSlug(body.slug, generated);
      var url := body.url.value;
      StoredSlugWellFormed(body, generated, isUrl);
      InsertKeepsConsistent(c, k, url, fault);
      var (res, c') := InsertResult(c, k, url, fault);
      if res.Success? {
        assert c'.docs == c.docs[k := res.value];
        forall k' | k' in c'.docs
          ensures HasNoUpper(k') && MatchesSlugPattern(Trim(k'))
          ensures Trim(c'.docs[k'].url) != [] && isUrl(Trim(c'.docs[k'].url))
        {
          if k' != k {
            assert c'.docs[k'] == c.docs[k'];
          }
        }
      }
    }
  }

  /** A valid request whose slug is already stored is refused with
      "Slug in use!" and status 500, and the collection is unchanged. */
  lemma DuplicateSlugRefused(c: Contents, body: Body, generated: string, isUrl: string -> bool)
    requires Validate(body, isUrl).None?
    requires StoredSlug(body.slug, generated) in c.docs
    ensures CreateResult(c, body, generated, isUrl, None) == (Failed(500, "Slug in use!"), c)
  {
  }

  /** Any other storage failure reaches the responder with its own message,
      unless that message itself starts with the duplicate-key code. */
  lemma StorageFaultPassesThrough(c: Contents, body: Body, generated: string, isUrl: string -> bool, fault: string)
    requires Validate(body, isUrl).None?
    requires !StartsWith(fault, DuplicateKeyCode)
    ensures CreateResult(c, body, generated, isUrl, Some(fault)) == (Failed(500, fault), c)
  {
  }

  /** Conversely, a valid request whose stored slug is free is created
      when storage does not fail: the answer is the new document, with the
      next `_id`, the stored slug and the raw url, and it is the only
      document added. */
  lemma ValidRequestCreated(c: Contents, body: Body, generated: string, isUrl: string -> bool)
    requires Validate(body, isUrl).None?
    requires StoredSlug(body.slug, generated) !in c.docs
    ensures CreateResult(c, body, generated, isUrl, None).0
         == Json(Mapping(c.nextId, StoredSlug(body.slug, generated), body.url.value))
    ensures CreateResult(c, body, generated, isUrl, None).1
         == Contents(c.docs[StoredSlug(body.slug, generated) := Mapping(c.nextId, StoredSlug(body.slug, generated), body.url.value)],
                     c.nextId + 1)
  {
  }

  /** With no slug supplied, a valid request is answered with a document
      whose slug is the five-character generated one, lower-cased. */
  lemma GeneratedSlugCreated(c: Contents, body: Body, generated: string, isUrl: string -> bool)
    requires Validate(body, isUrl).None? && body.slug.None?
    requires IsNanoId(generated)
    requires ToLower(generated) !in c.docs
    ensures CreateResult(c, body, generated, isUrl, None).0.Json?
    ensures CreateResult(c, body, generated, isUrl, None).0.doc.slug == ToLower(generated)
    ensures |CreateResult(c, body, generated, isUrl, None).0.doc.slug| == 5
    ensures MatchesSlugPattern(CreateResult(c, body, generated, isUrl, None).0.doc.slug)
  {
    GeneratedSlugShape(body, generated, isUrl);
    ValidRequestCreated(c, body, generated, isUrl);
  }

  /** A successful creation adds exactly one document, under the stored
      slug, with the body's raw url, and leaves every other document as it
      was. */
  lemma CreateAddsOne(c: Contents, body: Body, generated: string, isUrl: string -> bool, fault: Option<string>)
    requires CreateResult(c, body, generated, isUrl, fault).0.Json?
    ensures Validate(body, isUrl).None? && fault.None?
    ensures StoredSlug(body.slug, generated) !in c.docs
    ensures CreateResult(c, body, generated, isUrl, fault).0.doc
         == Mapping(c.nextId, StoredSlug(body.slug, generated), body.url.value)
    ensures CreateResult(c, body, generated, isUrl, fault).1.docs
         == c.docs[StoredSlug(body.slug, generated) := CreateResult(c, body, generated, isUrl, fault).0.doc]
    ensures |CreateResult(c, body, generated, isUrl, fault).1.docs| == |c.docs| + 1
  {
    if Validate(body, isUrl).Some? {
      InvalidRequestChangesNothing(c, body, generated, isUrl, fault);
    }
  }

  /** Round trip: after a successful creation, looking up the stored slug
      answers the new document, whose url is the body's url. Looking up any
      other string, the supplied slug itself included when it was not
      already lower case, answers what it answered before. */
  lemma CreateThenResolve(c: Contents, body: Body, generated: string, isUrl: string -> bool, fault: Option<string>, other: string, otherFault: bool)
    requires CreateResult(c, body, generated, isUrl, fault).0.Json?
    requires other != StoredSlug(body.slug, generated)
    ensures ResolveResult(CreateResult(c, body, generated, isUrl, fault).1, StoredSlug(body.slug, generated), false)
         == CreateResult(c, body, generated, isUrl, fault).0
    ensures CreateResult(c, body, generated, isUrl, fault).0.doc.url == body.url.value
    ensures ResolveResult(CreateResult(c, body, generated, isUrl, fault).1, other, otherFault)
         == ResolveResult(c, other, otherFault)
  {
    CreateAddsOne(c, body, generated, isUrl, fault);
  }

  /** A supplied slug that is not lower case is not the slug stored for it. */
  lemma MixedCaseSlugNotStored(body: Body, generated: string, isUrl: string -> bool)
    requires Validate(body, isUrl).None? && body.slug.Some?
    requires !HasNoUpper(body.slug.value)
    ensures body.slug.value != StoredSlug(body.slug, generated)
  {
    SlugChoice(body, generated, isUrl);
    LowerFixesLowercase(body.slug.value);
  }

  /** Lookup does not lower-case: in a well-formed collection, a path
      holding an upper-case letter is never found. */
  lemma MixedCaseLookupMisses(c: Contents, isUrl: string -> bool, slug: string)
    requires WellFormed(c, isUrl)
    requires !HasNoUpper(slug)
    ensures ResolveResult(c, slug, false) == Redirect("/?error=" + slug + " not found")
  {
  }

  // ---------------------------------------------------------------------
  // A worked request sequence: slug "Foo" created twice, then looked up

  const ExampleUrl := "https://example.com"

  function FooBody(): Body {
    Body(Some("Foo"), Some(ExampleUrl))
  }

  function FooStored(): Contents {
    Contents(map["foo" := Mapping(0, "foo", ExampleUrl)], 1)
  }

  lemma FooBodyValid(isUrl: string -> bool)
    requires isUrl(ExampleUrl)
    ensures Validate(FooBody(), isUrl).None?
  {
    var url := ExampleUrl;
    assert url[0] == 'h' && url[|url| - 1] == 'm';
    TrimUntouched(url);
    var slug := "Foo";
    assert slug[0] == 'F' && slug[2] == 'o';
    TrimUntouched(slug);
  }

  lemma FooLowered(generated: string)
    ensures StoredSlug(FooBody().slug, generated) == "foo"
  {
    assert ToLower("Foo")[0] == 'f';
  }

  /** Creating slug "Foo" in an empty collection stores "foo". */
  lemma FooCreated(isUrl: string -> bool, generated: string)
    requires isUrl(ExampleUrl)
    ensures CreateResult(Contents(map[], 0), FooBody(), generated, isUrl, None)
         == (Json(Mapping(0, "foo", ExampleUrl)), FooStored())
  {
    FooBodyValid(isUrl);
    FooLowered(generated);
  }

  /** Creating "Foo" again is refused with "Slug in use!". */
  lemma FooRefused(isUrl: string -> bool, generated: string)
    requires isUrl(ExampleUrl)
    ensures CreateResult(FooStored(), FooBody(), generated, isUrl, None)
         == (Failed(500, "Slug in use!"), FooStored())
  {
    FooBodyValid(isUrl);
    FooLowered(generated);
    DuplicateSlugRefused(FooStored(), FooBody(), generated, isUrl);
  }

  /** `GET /foo` then answers the document and `GET /Foo` redirects. */
  lemma FooResolved()
    ensures ResolveResult(FooStored(), "foo", false) == Json(Mapping(0, "foo", ExampleUrl))
    ensures ResolveResult(FooStored(), "Foo", false) == Redirect("/?error=Foo not found")
  {
    assert "Foo"[0] != "foo"[0];
  }
}

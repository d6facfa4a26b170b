/** The request schema of the create handler: an optional `slug` that,
    once trimmed, must match `/^[\w\-]+$/i`, and a required `url` that,
    once trimmed, must be a URL. The URL syntax test belongs to the
    validation library and is a parameter `isUrl` of this model. */
module Validation {
  import opened Wrappers
  import opened Text

  /** The two fields the create handler destructures from the JSON body;
      a field missing from the body is `None`. */
  datatype Body = Body(slug: Option<string>, url: Option<string>)

  /** The schema rule a request breaks, with the message yup gives it. */
  datatype Violation = UrlRequired | UrlNotUrl | SlugMismatch {
    function Message(): string {
      match this
      case UrlRequired => "url is a required field"
      case UrlNotUrl => "url must be a valid URL"
      case SlugMismatch => "slug must match the following: \"/^[\\w\\-]+$/i\""
    }
  }

  /** `yup.string().trim().url().required()`: missing, or empty once
      trimmed, fails `required`; otherwise the trimmed value must pass the
      URL test. */
  function CheckUrl(url: Option<string>, isUrl: string -> bool): (r: Option<Violation>)
    ensures r == Some(UrlRequired) <==> url.None? || Trim(url.value) == []
    ensures r == Some(UrlNotUrl) <==> url.Some? && Trim(url.value) != [] && !isUrl(Trim(url.value))
    ensures r != Some(SlugMismatch)
  {
    match url
    case None => Some(UrlRequired)
    case Some(u) =>
      if Trim(u) == [] then Some(UrlRequired)
      else if !isUrl(Trim(u)) then Some(UrlNotUrl)
      else None
  }

  /** `yup.string().trim().matches(/^[\w\-]+$/i)`: a missing slug is
      accepted; a present one is trimmed and tested against the pattern. */
  function CheckSlug(slug: Option<string>): (r: Option<Violation>)
    ensures r.None? <==> slug.None? || (Trim(slug.value) != [] && AllSlugChars(Trim(slug.value)))
    ensures r.None? || r == Some(SlugMismatch)
  {
    match slug
    case None => None
    case Some(s) => if MatchesSlugPattern(Trim(s)) then None else Some(SlugMismatch)
  }

  /** `schema.validate`: the first violation, or None when the request is
      valid. The schema visits its fields in reverse declaration order, so
      a bad url is reported before a bad slug. */
  function Validate(body: Body, isUrl: string -> bool): (r: Option<Violation>)
    ensures r.None? <==> CheckUrl(body.url, isUrl).None? && CheckSlug(body.slug).None?
    ensures CheckUrl(body.url, isUrl).Some? ==> r == CheckUrl(body.url, isUrl)
    ensures CheckUrl(body.url, isUrl).None? && CheckSlug(body.slug).Some? ==> r == Some(SlugMismatch)
  {
    if CheckUrl(body.url, isUrl).Some? then CheckUrl(body.url, isUrl)
    else CheckSlug(body.slug)
  }

  /** A body is valid exactly when the url is present, non-empty once
      trimmed and a URL, and a supplied slug, once trimmed, is non-empty
      and made only of ASCII letters, digits, `_` and `-`. */
  lemma ValidateAccepts(body: Body, isUrl: string -> bool)
    ensures Validate(body, isUrl).None? <==>
      && body.url.Some? && Trim(body.url.value) != [] && isUrl(Trim(body.url.value))
      && (body.slug.Some? ==> |Trim(body.slug.value)| > 0 && AllSlugChars(Trim(body.slug.value)))
  {
    if body.slug.Some? {
    }
  }

  /** A request without a url is refused with the `required` message,
      whatever its slug. */
  lemma MissingUrlRejected(body: Body, isUrl: string -> bool)
    requires body.url.None?
    ensures Validate(body, isUrl) == Some(UrlRequired)
    ensures Validate(body, isUrl).value.Message() == "url is a required field"
  {
  }

  /** A supplied slug with a character outside the pattern, other than
      surrounding whitespace, is refused. */
  lemma BadSlugRejected(body: Body, isUrl: string -> bool, i: nat)
    requires body.slug.Some? && i < |body.slug.value|
    requires !IsSlugChar(body.slug.value[i]) && !IsJsWhitespace(body.slug.value[i])
    ensures Validate(body, isUrl).Some?
  {
    var s := body.slug.value;
    TrimSlice(s);
    var off := TrimOffset(s);
    assert off <= i < off + |Trim(s)|;
    assert Trim(s)[i - off] == s[i];
  }

  /** The slug the handler goes on to use is the raw one, not the trimmed
      one the schema tested: it is non-empty and made of slug characters,
      possibly surrounded by whitespace. */
  lemma AcceptedSlugShape(body: Body, isUrl: string -> bool)
    requires Validate(body, isUrl).None? && body.slug.Some?
    ensures body.slug.value != []
    ensures MatchesSlugPattern(Trim(body.slug.value))
    ensures forall i :: 0 <= i < |body.slug.value| ==>
              IsSlugChar(body.slug.value[i]) || IsJsWhitespace(body.slug.value[i])
  {
    var s := body.slug.value;
    TrimSlice(s);
    var off := TrimOffset(s);
    forall i | 0 <= i < |s| && !IsJsWhitespace(s[i])
      ensures IsSlugChar(s[i])
    {
      assert Trim(s)[i - off] == s[i];
    }
  }
}

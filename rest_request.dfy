/**
 * The C# `RestRequest`: URL segments and parameters collected in lists,
 * and `GetFormattedResource`, which fills the `{key}` tokens of the
 * resource, strips one leading slash, joins the result to a base URL and
 * stores it back into `Resource`.
 */
module Requests {
  import opened Wrappers
  import opened Exceptions
  import opened Text
  import PercentEncoding
  import Parameters

  /** A `{key}` token and the value that replaces it. */
  datatype UrlSegment = UrlSegment(key: string, value: Option<string>)

  datatype Parameter = Parameter(key: string, value: Parameters.ParamValue)

  function Token(key: string): (t: string)
    ensures |t| == |key| + 2 && t[0] == '{' && t[|t| - 1] == '}'
  {
    "{" + key + "}"
  }

  /**
   * One turn of the segment loop. The arguments are evaluated first, so
   * a null value fails in `Uri.EscapeUriString` before a null resource
   * fails in `Replace`.
   */
  function ReplaceSegment(resource: Option<string>, segment: UrlSegment): Result<Option<string>, Exception> {
    if segment.value.None? then Err(ArgumentNullException("stringToEscape"))
    else if resource.None? then Err(NullReferenceException)
    else Ok(Some(ReplaceAll(resource.value, Token(segment.key), PercentEncoding.Escape(PercentEncoding.UriString, segment.value.value))))
  }

  /** Where the segment loop stops: the resource it leaves, and the exception that stopped it, if any. */
  datatype Replaced = Replaced(resource: Option<string>, error: Option<Exception>)

  function ReplaceSegments(resource: Option<string>, segments: seq<UrlSegment>): Replaced
    decreases |segments|
  {
    if segments == [] then Replaced(resource, None)
    else
      match ReplaceSegment(resource, segments[0])
      case Err(e) => Replaced(resource, Some(e))
      case Ok(next) => ReplaceSegments(next, segments[1..])
  }

  /** Removes one leading `/` from a non-empty resource. */
  function StripSlash(resource: Option<string>): Option<string> {
    if !IsNullOrEmpty(resource) && StartsWith(resource.value, "/") then Some(resource.value[1..]) else resource
  }

  /** Joins a resource to a non-empty base URL; without one the resource is kept. */
  function JoinBase(resource: Option<string>, baseUrl: Option<string>): Option<string> {
    if IsNullOrEmpty(baseUrl) then resource
    else if IsNullOrEmpty(resource) then baseUrl
    else Some(baseUrl.value + "/" + resource.value)
  }

  /** The value `GetFormattedResource` returns, or the exception it raises. */
  function FormattedResource(resource: Option<string>, segments: seq<UrlSegment>, baseUrl: Option<string>): Result<Option<string>, Exception> {
    var replaced := ReplaceSegments(resource, segments);
    if replaced.error.Some? then Err(replaced.error.value)
    else Ok(JoinBase(StripSlash(replaced.resource), baseUrl))
  }

  class RestRequest {
    var urlSegments: seq<UrlSegment>
    var parameters: seq<Parameter>
    var dateFormat: Option<string>
    var ignoreRootElement: bool
    var httpMethod: Option<string>
    var resource: Option<string>

    /** A GET request with no resource set. */
    constructor ()
      ensures urlSegments == [] && parameters == []
      ensures httpMethod == Some("GET") && resource == None
      ensures !ignoreRootElement && dateFormat == None
    {
      urlSegments := [];
      parameters := [];
      httpMethod := Some("GET");
      resource := None;
      ignoreRootElement := false;
      dateFormat := None;
    }

    constructor WithResource(resource: Option<string>, httpMethod: Option<string>)
      ensures urlSegments == [] && parameters == []
      ensures this.httpMethod == httpMethod && this.resource == resource
      ensures !ignoreRootElement && dateFormat == None
    {
      urlSegments := [];
      parameters := [];
      this.httpMethod := httpMethod;
      this.resource := resource;
      ignoreRootElement := false;
      dateFormat := None;
    }

    constructor WithIgnoreRoot(resource: Option<string>, httpMethod: Option<string>, ignoreRoot: bool)
      ensures urlSegments == [] && parameters == []
      ensures this.httpMethod == httpMethod && this.resource == resource
      ensures ignoreRootElement == ignoreRoot && dateFormat == None
    {
      urlSegments := [];
      parameters := [];
      this.httpMethod := httpMethod;
      this.resource := resource;
      ignoreRootElement := ignoreRoot;
      dateFormat := None;
    }

    method AddUrlSegment(key: string, value: Option<string>)
      modifies this
      ensures urlSegments == old(urlSegments) + [UrlSegment(key, value)]
      ensures parameters == old(parameters) && resource == old(resource) && httpMethod == old(httpMethod)
      ensures ignoreRootElement == old(ignoreRootElement) && dateFormat == old(dateFormat)
    {
      urlSegments := urlSegments + [UrlSegment(key, value)];
    }

    method AddParameter(key: string, value: Parameters.ParamValue)
      modifies this
      ensures parameters == old(parameters) + [Parameter(key, value)]
      ensures urlSegments == old(urlSegments) && resource == old(resource) && httpMethod == old(httpMethod)
      ensures ignoreRootElement == old(ignoreRootElement) && dateFormat == old(dateFormat)
    {
      parameters := parameters + [Parameter(key, value)];
    }

    /**
     * Rewrites `Resource` in place and returns its new value. When a
     * segment's replacement throws, `Resource` keeps the replacements made
     * before it.
     */
    method GetFormattedResource(baseUrl: Option<string>) returns (r: Result<Option<string>, Exception>)
      modifies this
      ensures r == FormattedResource(old(resource), urlSegments, baseUrl)
      ensures r.Ok? ==> resource == r.value
      ensures r.Err? ==> resource == ReplaceSegments(old(resource), urlSegments).resource
      ensures urlSegments == old(urlSegments) && parameters == old(parameters) && httpMethod == old(httpMethod)
      ensures ignoreRootElement == old(ignoreRootElement) && dateFormat == old(dateFormat)
    {
      var i := 0;
      while i < |urlSegments|
        invariant 0 <= i <= |urlSegments|
        invariant ReplaceSegments(resource, urlSegments[i..]) == ReplaceSegments(old(resource), urlSegments)
        invariant urlSegments == old(urlSegments) && parameters == old(parameters) && httpMethod == old(httpMethod)
        invariant ignoreRootElement == old(ignoreRootElement) && dateFormat == old(dateFormat)
      {
        var step := ReplaceSegment(resource, urlSegments[i]);
        if step.Err? {
          return Err(step.error);
        }
        assert urlSegments[i..][1..] == urlSegments[i + 1..];
        resource := step.value;
        i := i + 1;
      }
      if !IsNullOrEmpty(resource) && StartsWith(resource.value, "/") {
        resource := Some(resource.value[1..]);
      }
      if !IsNullOrEmpty(baseUrl) {
        resource := if IsNullOrEmpty(resource) then baseUrl else Some(baseUrl.value + "/" + resource.value);
      }
      return Ok(resource);
    }
  }

  /** Segments are applied in insertion order: applying `a + b` is applying `a`, then `b`. */
  lemma {:induction false} ReplaceSegmentsInOrder(resource: Option<string>, a: seq<UrlSegment>, b: seq<UrlSegment>)
    ensures ReplaceSegments(resource, a + b) ==
      var first := ReplaceSegments(resource, a);
      if first.error.Some? then first else ReplaceSegments(first.resource, b)
    decreases |a|
  {
    if a == [] {
      assert a + b == b;
    } else {
      assert (a + b)[0] == a[0] && (a + b)[1..] == a[1..] + b;
      match ReplaceSegment(resource, a[0])
      case Err(_) =>
      case Ok(next) => ReplaceSegmentsInOrder(next, a[1..], b);
    }
  }

  /**
   * One segment replaces every occurrence of its token by the escaped
   * value: the resource is the token-free pieces joined by the token, and
   * the result is the same pieces joined by the escaped value.
   */
  lemma OneSegment(resource: string, key: string, value: string)
    ensures var ps := Pieces(resource, Token(key));
      Join(ps, Token(key)) == resource &&
      (forall k :: 0 <= k < |ps| ==> !Contains(ps[k], Token(key))) &&
      ReplaceSegments(Some(resource), [UrlSegment(key, Some(value))]) ==
        Replaced(Some(Join(ps, PercentEncoding.Escape(PercentEncoding.UriString, value))), None)
  {
    var t := Token(key);
    PiecesJoin(resource, t);
    PiecesFree(resource, t);
    ReplaceAllPieces(resource, t, PercentEncoding.Escape(PercentEncoding.UriString, value));
  }

  /** A resource without the token is left as it is. */
  lemma AbsentTokenKeepsResource(resource: string, key: string, value: string)
    requires !Contains(resource, Token(key))
    ensures ReplaceSegments(Some(resource), [UrlSegment(key, Some(value))]) == Replaced(Some(resource), None)
  {
    ReplaceAllAbsent(resource, Token(key), PercentEncoding.Escape(PercentEncoding.UriString, value));
  }

  /** A null resource cannot be formatted once there is a segment to apply. */
  lemma NullResourceFails(segments: seq<UrlSegment>, baseUrl: Option<string>)
    requires |segments| > 0
    ensures FormattedResource(None, segments, baseUrl).Err?
    ensures segments[0].value.Some? ==> FormattedResource(None, segments, baseUrl) == Err(NullReferenceException)
  {
  }

  /** The leading slash is stripped once, whether or not there is a base URL. */
  lemma StripsOneSlash(rest: string, baseUrl: Option<string>)
    requires IsNullOrEmpty(baseUrl)
    ensures FormattedResource(Some("/" + rest), [], baseUrl) == Ok(Some(rest))
  {
    assert ("/" + rest)[1..] == rest;
  }

  /**
   * With a non-empty base URL the result is the base itself for an empty
   * resource, and otherwise the base, a slash and the stripped resource.
   */
  lemma JoinsBase(resource: Option<string>, segments: seq<UrlSegment>, baseUrl: string)
    requires baseUrl != "" && ReplaceSegments(resource, segments).error.None?
    ensures var stripped := StripSlash(ReplaceSegments(resource, segments).resource);
      FormattedResource(resource, segments, Some(baseUrl)) ==
        if IsNullOrEmpty(stripped) then Ok(Some(baseUrl)) else Ok(Some(baseUrl + "/" + stripped.value))
    ensures FormattedResource(resource, segments, Some(baseUrl)).value.Some? &&
      StartsWith(FormattedResource(resource, segments, Some(baseUrl)).value.value, baseUrl)
  {
    var stripped := StripSlash(ReplaceSegments(resource, segments).resource);
    if !IsNullOrEmpty(stripped) {
      assert (baseUrl + "/" + stripped.value)[..|baseUrl|] == baseUrl;
    }
  }

  /**
   * The result is stored back into `Resource`, so a second call with the
   * same non-empty base URL prefixes the base once more: the call is not
   * idempotent.
   */
  lemma NotIdempotent(resource: Option<string>, baseUrl: string)
    requires baseUrl != "" && !StartsWith(baseUrl, "/")
    ensures var first := FormattedResource(resource, [], Some(baseUrl)).value;
      first.Some? && FormattedResource(first, [], Some(baseUrl)) == Ok(Some(baseUrl + "/" + first.value))
  {
    var first := FormattedResource(resource, [], Some(baseUrl)).value;
    var stripped := StripSlash(resource);
    if !IsNullOrEmpty(stripped) {
      assert (baseUrl + "/" + stripped.value)[..1] == baseUrl[..1];
    }
    assert first.value[..1] == baseUrl[..1];
    assert StripSlash(first) == first;
  }

  /**
   * A later segment can match a token that an earlier replacement
   * completed: in `{{a}b}`, replacing `{a}` by an empty value leaves `{b}`.
   */
  lemma LaterSegmentSeesEarlierResult(value: string)
    requires forall i :: 0 <= i < |value| ==> PercentEncoding.IsUnreserved(value[i])
    ensures ReplaceSegments(Some("{{a}b}"), [UrlSegment("a", Some("")), UrlSegment("b", Some(value))]) ==
      Replaced(Some(value), None)
  {
    var a, b := UrlSegment("a", Some("")), UrlSegment("b", Some(value));
    assert Token("a") == "{a}" && Token("b") == "{b}";
    assert PercentEncoding.Escape(PercentEncoding.UriString, "") == "";
    FirstReplacementCompletesToken();
    assert ReplaceSegment(Some("{{a}b}"), a) == Ok(Some("{b}"));
    PercentEncoding.EscapeKeepsSafeText(PercentEncoding.UriString, value);
    SecondReplacement(value);
    assert ReplaceSegment(Some("{b}"), b) == Ok(Some(value));
    TwoSegments(Some("{{a}b}"), UrlSegment("a", Some("")), UrlSegment("b", Some(value)), Some("{b}"), Some(value));
  }

  lemma TwoSegments(resource: Option<string>, s0: UrlSegment, s1: UrlSegment, mid: Option<string>, last: Option<string>)
    requires ReplaceSegment(resource, s0) == Ok(mid) && ReplaceSegment(mid, s1) == Ok(last)
    ensures ReplaceSegments(resource, [s0, s1]) == Replaced(last, None)
  {
    var segs := [s0, s1];
    assert segs[0] == s0 && segs[1..] == [s1];
    assert [s1][0] == s1 && [s1][1..] == [];
    assert ReplaceSegments(last, []) == Replaced(last, None);
    assert ReplaceSegments(mid, [s1]) == Replaced(last, None);
  }

  lemma FirstReplacementCompletesToken()
    ensures ReplaceAll("{{a}b}", "{a}", "") == "{b}"
  {
    var s := "{{a}b}";
    assert s[0..3] != "{a}" by { assert s[0..3][1] == '{'; }
    assert IndexOfFrom(s, "{a}", 1) == Some(1);
    assert IndexOf(s, "{a}") == Some(1);
    assert s[4..] == "b}";
    assert IndexOf("b}", "{a}") == None;
    assert s[..1] + "" + "b}" == "{b}";
  }

  lemma SecondReplacement(value: string)
    ensures ReplaceAll("{b}", "{b}", value) == value
  {
    assert IndexOf("{b}", "{b}") == Some(0);
    assert "{b}"[3..] == "";
    assert IndexOf("", "{b}") == None;
    assert "{b}"[..0] + value + "" == value;
  }
}

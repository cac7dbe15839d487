/**
 * The JavaScript port, `window.PortableRest`: a request that fills the
 * `{key}` tokens of its resource with `encodeURIComponent` values and
 * builds a form-urlencoded or JSON body, and a client that prepares an
 * `XMLHttpRequest` for it and resolves the response for the callback.
 */
module PortableRestJs {
  import opened Wrappers
  import opened Exceptions
  import opened Text
  import PercentEncoding
  import Requests

  const FormUrlEncoded := "application/x-www-form-urlencoded"
  const Json := "application/json"
  const Xml := "application/xml"

  const Get := "GET"
  const Post := "POST"
  const Put := "PUT"
  /** The library offers TRACE among its methods, although `open` refuses it. */
  const Trace := "TRACE"

  const NoContent := 204
  /** The status some browsers report in place of 204 No Content. */
  const NoContentAlias := 1223

  const XmlNotSupported := "Sending XML is not yet supported, but will be added in a future release."

  /** A JavaScript value as used here: `undefined`, `null`, or a value given by its string form. */
  datatype JsValue = Undefined | Null | Value(text: string)

  predicate Nullish(v: JsValue) {
    v.Undefined? || v.Null?
  }

  /** `String(v)`: how `encodeURIComponent` and `setRequestHeader` convert their argument. */
  function ToJsString(v: JsValue): string {
    match v
    case Undefined => "undefined"
    case Null => "null"
    case Value(t) => t
  }

  /** `a || d` for an optional string argument: `undefined`, `null` and "" take the default. */
  function OrDefault(a: Option<string>, d: string): string {
    if a.Some? && a.value != "" then a.value else d
  }

  function EncodeURIComponent(v: JsValue): string {
    PercentEncoding.Escape(PercentEncoding.UriComponent, ToJsString(v))
  }

  /** A `{key, value}` object of the segment, parameter and header arrays. */
  datatype Entry = Entry(key: string, value: JsValue)

  datatype Credentials = Credentials(user: JsValue, password: JsValue)

  /** The fields of a request object. */
  datatype RequestState = RequestState(
    urlSegments: seq<Entry>,
    parameters: seq<Entry>,
    credentials: Option<Credentials>,
    contentType: string,
    httpMethod: string,
    resource: Option<string>)

  /**
   * What `new RestRequest(resource, method)` leaves: no segments, no
   * parameters, no credentials, a form-urlencoded body, and GET and ""
   * where the method and the resource are not given.
   */
  function NewRequestState(resource: Option<string>, httpMethod: Option<string>): (s: RequestState)
    ensures s.urlSegments == [] && s.parameters == [] && s.credentials.None?
    ensures s.contentType == FormUrlEncoded
    ensures s.httpMethod == (if httpMethod.Some? && httpMethod.value != "" then httpMethod.value else Get)
    ensures s.resource == Some(if resource.Some? then resource.value else "")
  {
    RequestState([], [], None, FormUrlEncoded, OrDefault(httpMethod, Get), Some(OrDefault(resource, "")))
  }

  /**
   * `RestRequest(resource, method)` called without `new`, as written: the
   * forwarding call names `ignoreRoot`, which is declared nowhere, so it
   * throws ReferenceError, in any mode, before any request is made.
   */
  function RestRequestWithoutNewAsWritten(resource: Option<string>, httpMethod: Option<string>): (r: Result<RequestState, JsError>)
    ensures r == Err(ReferenceError("ignoreRoot"))
  {
    Err(ReferenceError("ignoreRoot"))
  }

  /** `RestRequest(resource, method)` without `new`, forwarding only the two parameters it has. */
  function RestRequestWithoutNew(resource: Option<string>, httpMethod: Option<string>): (r: Result<RequestState, JsError>)
    ensures r == Ok(NewRequestState(resource, httpMethod))
  {
    Ok(NewRequestState(resource, httpMethod))
  }

  /** Where the segment loop stops: the resource it leaves, and the error that stopped it, if any. */
  datatype Applied = Applied(resource: Option<string>, error: Option<JsError>)

  /**
   * The segment loop: each segment replaces the first occurrence of its
   * token. Calling `replace` on a null resource throws.
   */
  function ApplySegments(resource: Option<string>, segments: seq<Entry>): Applied
    decreases |segments|
  {
    if segments == [] then Applied(resource, None)
    else if resource.None? then Applied(resource, Some(TypeError("replace")))
    else
      ApplySegments(Some(ReplaceFirst(resource.value, Requests.Token(segments[0].key), EncodeURIComponent(segments[0].value))),
                    segments[1..])
  }

  /**
   * With a base URL (anything but `null`/`undefined`, "" included): one
   * leading `/` is removed, and the resource is joined to the base, or
   * replaced by it when empty. Without one the resource is kept as it is.
   */
  function StripAndJoin(resource: Option<string>, baseUrl: Option<string>): Option<string> {
    if baseUrl.None? then resource
    else
      var stripped := if resource.Some? && resource.value != "" && resource.value[0] == '/' then Some(resource.value[1..]) else resource;
      if stripped.None? || stripped.value == "" then baseUrl else Some(baseUrl.value + "/" + stripped.value)
  }

  /** The value `_getFormattedResource` returns, or the error it throws. */
  function FormattedResource(resource: Option<string>, segments: seq<Entry>, baseUrl: Option<string>): Result<Option<string>, JsError> {
    var applied := ApplySegments(resource, segments);
    if applied.error.Some? then Err(applied.error.value)
    else Ok(StripAndJoin(applied.resource, baseUrl))
  }

  /** `enc(key)=enc(value)` for a parameter whose value has a `toString`. */
  function FormField(p: Entry): (f: string)
    requires !Nullish(p.value)
  {
    PercentEncoding.Escape(PercentEncoding.UriComponent, p.key) + "=" +
    PercentEncoding.Escape(PercentEncoding.UriComponent, p.value.text)
  }

  /**
   * The fields of a form body, in order, or the error of the first
   * parameter whose value is `null` or `undefined` (it has no `toString`).
   */
  function FormFieldsOf(ps: seq<Entry>): Result<seq<string>, JsError>
    decreases |ps|
  {
    if ps == [] then Ok([])
    else
      var front := FormFieldsOf(ps[..|ps| - 1]);
      var last := ps[|ps| - 1];
      if front.Err? then front
      else if Nullish(last.value) then Err(TypeError("toString"))
      else Ok(front.value + [FormField(last)])
  }

  /** The form body: the fields joined by `&`. */
  function FormBody(ps: seq<Entry>): (r: Result<string, JsError>)
    ensures ps == [] ==> r == Ok("")
  {
    match FormFieldsOf(ps)
    case Ok(fields) => Ok(Join(fields, "&"))
    case Err(e) => Err(e)
  }

  /**
   * The body for a content type: the form body, the stringified value of
   * the first parameter for JSON ("" without parameters), an error for
   * XML, and "" for anything else. `stringify` stands for `JSON.stringify`.
   */
  function RequestBody(contentType: string, parameters: seq<Entry>, stringify: JsValue -> string): (r: Result<string, JsError>)
    ensures contentType == Xml ==> r == Err(Error(XmlNotSupported))
    ensures contentType == Json ==> r == Ok(if parameters == [] then "" else stringify(parameters[0].value))
  {
    if contentType == FormUrlEncoded then FormBody(parameters)
    else if contentType == Xml then Err(Error(XmlNotSupported))
    else if contentType == Json then Ok(if |parameters| > 0 then stringify(parameters[0].value) else "")
    else Ok("")
  }

  /**
   * The fields exist exactly when no value is `null` or `undefined`, and
   * then there is one per parameter, in order.
   */
  lemma {:induction false} FormFieldsOfSpec(ps: seq<Entry>)
    ensures FormFieldsOf(ps).Ok? <==> forall i :: 0 <= i < |ps| ==> !Nullish(ps[i].value)
    ensures FormFieldsOf(ps).Err? ==> FormFieldsOf(ps).error == TypeError("toString")
    ensures FormFieldsOf(ps).Ok? ==> (
      |FormFieldsOf(ps).value| == |ps| &&
      forall i :: 0 <= i < |ps| ==> !Nullish(ps[i].value) && FormFieldsOf(ps).value[i] == FormField(ps[i]))
    decreases |ps|
  {
    if ps != [] {
      var front, last := ps[..|ps| - 1], ps[|ps| - 1];
      FormFieldsOfSpec(front);
      if FormFieldsOf(front).Err? {
        var j :| 0 <= j < |front| && Nullish(front[j].value);
        assert ps[j] == front[j];
      } else if Nullish(last.value) {
        assert FormFieldsOf(ps) == Err(TypeError("toString"));
      } else {
        var fields := FormFieldsOf(front).value + [FormField(last)];
        assert FormFieldsOf(ps) == Ok(fields);
        forall i | 0 <= i < |ps|
          ensures !Nullish(ps[i].value) && fields[i] == FormField(ps[i])
        {
          if i < |front| {
            assert ps[i] == front[i];
          }
        }
      }
    }
  }

  /** Once a prefix has no form body, no extension of it has one. */
  lemma FormFieldsErrExtends(ps: seq<Entry>, rest: seq<Entry>)
    requires FormFieldsOf(ps).Err?
    ensures FormFieldsOf(ps + rest).Err?
  {
    FormFieldsOfSpec(ps);
    FormFieldsOfSpec(ps + rest);
    var i :| 0 <= i < |ps| && Nullish(ps[i].value);
    assert (ps + rest)[i] == ps[i];
  }

  /** One more parameter with a value adds its field to the prefix's fields. */
  lemma FormFieldsOfStep(ps: seq<Entry>, i: nat)
    requires i < |ps| && FormFieldsOf(ps[..i]).Ok? && !Nullish(ps[i].value)
    ensures FormFieldsOf(ps[..i + 1]) == Ok(FormFieldsOf(ps[..i]).value + [FormField(ps[i])])
  {
    assert ps[..i + 1][..i] == ps[..i];
    assert ps[..i + 1][i] == ps[i];
  }

  /** A `null` or `undefined` value anywhere makes the form body throw. */
  lemma FormBodyNullishAt(ps: seq<Entry>, i: nat)
    requires i < |ps| && Nullish(ps[i].value)
    ensures FormBody(ps) == Err(TypeError("toString"))
  {
    FormFieldsOfSpec(ps);
    assert !(forall j :: 0 <= j < |ps| ==> !Nullish(ps[j].value));
  }

  /** The form body built field by field, with `&` before every field but the first. */
  method BuildFormBody(ps: seq<Entry>) returns (r: Result<string, JsError>)
    ensures r == FormBody(ps)
  {
    var body := "";
    ghost var fields: seq<string> := [];
    var i := 0;
    while i < |ps|
      invariant 0 <= i <= |ps|
      invariant FormFieldsOf(ps[..i]) == Ok(fields)
      invariant body == Join(fields, "&")
      invariant i == 0 ==> body == ""
      invariant i > 0 ==> |body| > 0
    {
      if Nullish(ps[i].value) {
        FormBodyNullishAt(ps, i);
        return Err(TypeError("toString"));
      }
      var field := FormField(ps[i]);
      FormFieldsOfStep(ps, i);
      JoinSnoc(fields, field, "&");
      body := body + (if |body| > 0 then "&" else "") + field;
      fields := fields + [field];
      i := i + 1;
    }
    assert ps[..i] == ps;
    return Ok(body);
  }

  class RestRequest {
    var urlSegments: seq<Entry>
    var parameters: seq<Entry>
    var credentials: Option<Credentials>
    var contentType: string
    var httpMethod: string
    var resource: Option<string>

    function State(): RequestState
      reads this
    {
      RequestState(urlSegments, parameters, credentials, contentType, httpMethod, resource)
    }

    /** `new RestRequest(resource, method)`. */
    constructor (resource: Option<string>, httpMethod: Option<string>)
      ensures State() == NewRequestState(resource, httpMethod)
    {
      urlSegments := [];
      parameters := [];
      credentials := None;
      contentType := FormUrlEncoded;
      this.httpMethod := OrDefault(httpMethod, Get);
      this.resource := Some(OrDefault(resource, ""));
    }

    method AddUrlSegment(key: string, value: JsValue)
      modifies this
      ensures State() == old(State()).(urlSegments := old(urlSegments) + [Entry(key, value)])
    {
      urlSegments := urlSegments + [Entry(key, value)];
    }

    method AddParameter(key: string, value: JsValue)
      modifies this
      ensures State() == old(State()).(parameters := old(parameters) + [Entry(key, value)])
    {
      parameters := parameters + [Entry(key, value)];
    }

    method SetCredentials(user: JsValue, password: JsValue)
      modifies this
      ensures State() == old(State()).(credentials := Some(Credentials(user, password)))
    {
      credentials := Some(Credentials(user, password));
    }

    method ClearCredentials()
      modifies this
      ensures State() == old(State()).(credentials := None)
    {
      credentials := None;
    }

    /**
     * Rewrites `resource` in place and returns its new value. When a
     * replacement throws, `resource` keeps the replacements made before.
     */
    method GetFormattedResource(baseUrl: Option<string>) returns (r: Result<Option<string>, JsError>)
      modifies this
      ensures r == FormattedResource(old(resource), urlSegments, baseUrl)
      ensures r.Ok? ==> resource == r.value
      ensures r.Err? ==> resource == ApplySegments(old(resource), urlSegments).resource
      ensures State() == old(State()).(resource := resource)
    {
      var i := 0;
      while i < |urlSegments|
        invariant 0 <= i <= |urlSegments|
        invariant ApplySegments(resource, urlSegments[i..]) == ApplySegments(old(resource), urlSegments)
        invariant State() == old(State()).(resource := resource)
      {
        if resource.None? {
          return Err(TypeError("replace"));
        }
        assert urlSegments[i..][1..] == urlSegments[i + 1..];
        var segment := urlSegments[i];
        assert Requests.Token(segment.key) == "{" + segment.key + "}";
        resource := Some(ReplaceFirst(resource.value, "{" + segment.key + "}", EncodeURIComponent(segment.value)));
        i := i + 1;
      }
      assert urlSegments[i..] == [];
      assert FormattedResource(old(resource), urlSegments, baseUrl) == Ok(StripAndJoin(resource, baseUrl));
      if baseUrl.Some? {
        if resource.Some? && resource.value != "" && resource.value[0] == '/' {
          resource := Some(resource.value[1..]);
        }
        resource := if resource.None? || resource.value == "" then baseUrl else Some(baseUrl.value + "/" + resource.value);
      }
      return Ok(resource);
    }

    /** `_getRequestBody`. */
    method GetRequestBody(stringify: JsValue -> string) returns (r: Result<string, JsError>)
      ensures r == RequestBody(contentType, parameters, stringify)
    {
      if contentType == FormUrlEncoded {
        r := BuildFormBody(parameters);
      } else if contentType == Xml {
        r := Err(Error(XmlNotSupported));
      } else if contentType == Json {
        r := Ok(if |parameters| > 0 then stringify(parameters[0].value) else "");
      } else {
        r := Ok("");
      }
    }
  }

  /** The pieces of `s` between occurrences of `sep`: one more than there are separators. */
  function Split(s: string, sep: char): (parts: seq<string>)
    ensures |parts| >= 1
    decreases |s|
  {
    if s == [] then [""]
    else
      var rest := Split(s[1..], sep);
      if s[0] == sep then [""] + rest else [[s[0]] + rest[0]] + rest[1..]
  }

  /** A form field read back: the key and the value, both unescaped. */
  function ParseField(field: string): Option<Entry> {
    var parts := Split(field, '=');
    if |parts| != 2 then None
    else
      match (PercentEncoding.Unescape(parts[0]), PercentEncoding.Unescape(parts[1]))
      case (Some(key), Some(value)) => Some(Entry(key, Value(value)))
      case _ => None
  }

  function ParseFields(fields: seq<string>): Option<seq<Entry>>
    decreases |fields|
  {
    if fields == [] then Some([])
    else
      match (ParseField(fields[0]), ParseFields(fields[1..]))
      case (Some(e), Some(es)) => Some([e] + es)
      case _ => None
  }

  /** How a server reads a form-urlencoded body. */
  function ParseForm(body: string): Option<seq<Entry>> {
    ParseFields(Split(body, '&'))
  }

  lemma {:induction false} SplitNoSep(a: string, sep: char)
    requires sep !in a
    ensures Split(a, sep) == [a]
    decreases |a|
  {
    if a != [] {
      SplitNoSep(a[1..], sep);
      assert [a[0]] + a[1..] == a;
    }
  }

  lemma {:induction false} SplitAppend(a: string, b: string, sep: char)
    requires sep !in a
    ensures Split(a + [sep] + b, sep) == [a] + Split(b, sep)
    decreases |a|
  {
    if a == [] {
      assert a + [sep] + b == [sep] + b;
      assert ([sep] + b)[1..] == b;
    } else {
      SplitAppend(a[1..], b, sep);
      var s := a + [sep] + b;
      assert s[0] == a[0] && s[1..] == a[1..] + [sep] + b;
      assert [a[0]] + a[1..] == a;
    }
  }

  /** Splitting undoes joining when no piece contains the separator. */
  lemma {:induction false} SplitJoin(xs: seq<string>, sep: char)
    requires |xs| > 0
    requires forall i :: 0 <= i < |xs| ==> sep !in xs[i]
    ensures Split(Join(xs, [sep]), sep) == xs
    decreases |xs|
  {
    if |xs| == 1 {
      SplitNoSep(xs[0], sep);
    } else {
      SplitJoin(xs[1..], sep);
      SplitAppend(xs[0], Join(xs[1..], [sep]), sep);
      assert [xs[0]] + xs[1..] == xs;
    }
  }

  lemma {:induction false} ParseFieldsPointwise(fields: seq<string>, es: seq<Entry>)
    requires |fields| == |es|
    requires forall i :: 0 <= i < |fields| ==> ParseField(fields[i]) == Some(es[i])
    ensures ParseFields(fields) == Some(es)
    decreases |fields|
  {
    if fields != [] {
      ParseFieldsPointwise(fields[1..], es[1..]);
      assert [es[0]] + es[1..] == es;
    }
  }

  /** Each field reads back as the parameter it was made from. */
  lemma FieldRoundTrip(p: Entry)
    requires !Nullish(p.value)
    ensures ParseField(FormField(p)) == Some(p)
  {
    var k := PercentEncoding.Escape(PercentEncoding.UriComponent, p.key);
    var v := PercentEncoding.Escape(PercentEncoding.UriComponent, p.value.text);
    PercentEncoding.FormDelimitersAreEscaped(p.key);
    PercentEncoding.FormDelimitersAreEscaped(p.value.text);
    SplitAppend(k, v, '=');
    SplitNoSep(v, '=');
    assert FormField(p) == k + ['='] + v;
    PercentEncoding.EscapeRoundTrip(PercentEncoding.UriComponent, p.key);
    PercentEncoding.EscapeRoundTrip(PercentEncoding.UriComponent, p.value.text);
  }

  /**
   * The form body reads back as the parameters, in order: `encodeURIComponent`
   * escapes `&` and `=`, so neither a key nor a value can split a field.
   */
  lemma FormBodyRoundTrip(ps: seq<Entry>)
    requires |ps| > 0
    requires forall i :: 0 <= i < |ps| ==> !Nullish(ps[i].value)
    ensures FormBody(ps).Ok? && ParseForm(FormBody(ps).value) == Some(ps)
  {
    FormFieldsOfSpec(ps);
    var fields := FormFieldsOf(ps).value;
    forall i | 0 <= i < |fields|
      ensures '&' !in fields[i] && ParseField(fields[i]) == Some(ps[i])
    {
      PercentEncoding.FormDelimitersAreEscaped(ps[i].key);
      PercentEncoding.FormDelimitersAreEscaped(ps[i].value.text);
      FieldRoundTrip(ps[i]);
    }
    SplitJoin(fields, '&');
    ParseFieldsPointwise(fields, ps);
  }

  /** A `null` or `undefined` parameter value makes the form body throw. */
  lemma NullishParameterThrows(ps: seq<Entry>, i: int)
    requires 0 <= i < |ps| && Nullish(ps[i].value)
    ensures FormBody(ps) == Err(TypeError("toString"))
  {
    FormFieldsOfSpec(ps);
  }

  /** JSON sends the first parameter's value alone; later parameters are ignored. */
  lemma JsonUsesFirstParameterOnly(first: Entry, rest: seq<Entry>, stringify: JsValue -> string)
    ensures RequestBody(Json, [first] + rest, stringify) == Ok(stringify(first.value))
  {
  }

  /** Applying `a + b` is applying `a`, then `b`, unless `a` threw. */
  lemma {:induction false} ApplySegmentsInOrder(resource: Option<string>, a: seq<Entry>, b: seq<Entry>)
    ensures ApplySegments(resource, a + b) ==
      var first := ApplySegments(resource, a);
      if first.error.Some? then first else ApplySegments(first.resource, b)
    decreases |a|
  {
    if a == [] {
      assert a + b == b;
    } else {
      assert (a + b)[0] == a[0] && (a + b)[1..] == a[1..] + b;
      if resource.Some? {
        ApplySegmentsInOrder(Some(ReplaceFirst(resource.value, Requests.Token(a[0].key), EncodeURIComponent(a[0].value))),
                             a[1..], b);
      }
    }
  }

  /**
   * `replace` with a string pattern replaces the first occurrence only, so
   * a token used twice is filled once.
   */
  lemma FirstOccurrenceOnly(key: string, value: JsValue)
    ensures FormattedResource(Some(Requests.Token(key) + "/" + Requests.Token(key)), [Entry(key, value)], None) ==
      Ok(Some(EncodeURIComponent(value) + "/" + Requests.Token(key)))
  {
    var t := Requests.Token(key);
    var e := EncodeURIComponent(value);
    ReplacesLeadingToken(t, e);
    var segments := [Entry(key, value)];
    assert segments[1..] == [];
    assert ApplySegments(Some(t + "/" + t), segments) == Applied(Some(e + "/" + t), None);
  }

  lemma ReplacesLeadingToken(t: string, e: string)
    ensures ReplaceFirst(t + "/" + t, t, e) == e + "/" + t
  {
    var s := t + "/" + t;
    assert s[0..|t|] == t;
    assert OccursAt(s, t, 0);
    assert IndexOf(s, t) == Some(0);
    assert s[|t|..] == "/" + t;
  }

  /**
   * One segment whose token occurs once in the resource, with a value of
   * unreserved characters only, gives the same resource as the .NET
   * `RestRequest`, which replaces every occurrence and escapes with
   * `Uri.EscapeUriString`.
   */
  lemma SingleSegmentAgreesWithDotNet(resource: string, key: string, value: string, i: nat)
    requires OccursAt(resource, Requests.Token(key), i)
    requires forall j :: 0 <= j && j != i ==> !OccursAt(resource, Requests.Token(key), j)
    requires forall k :: 0 <= k < |value| ==> PercentEncoding.IsUnreserved(value[k])
    ensures ApplySegments(Some(resource), [Entry(key, Value(value))]).resource ==
      Requests.ReplaceSegments(Some(resource), [Requests.UrlSegment(key, Some(value))]).resource
  {
    PercentEncoding.EscapeKeepsSafeText(PercentEncoding.UriComponent, value);
    PercentEncoding.EscapeKeepsSafeText(PercentEncoding.UriString, value);
    ReplaceFirstIsReplaceAllWhenUnique(resource, Requests.Token(key), value, i);
    assert [Entry(key, Value(value))][1..] == [];
    Requests.OneSegment(resource, key, value);
  }

  /**
   * `replace` reads `$` patterns in its replacement string, but an
   * `encodeURIComponent` result never contains `$`, so each value is
   * inserted as it is.
   */
  lemma NoDollarInEncoded(v: JsValue)
    ensures '$' !in EncodeURIComponent(v)
  {
    PercentEncoding.CharNotInEscape(PercentEncoding.UriComponent, ToJsString(v), '$');
  }

  /** Without a segment to apply, a null resource is kept; with one, `replace` throws. */
  lemma NullResource(segments: seq<Entry>, baseUrl: Option<string>)
    ensures segments == [] ==> FormattedResource(None, segments, baseUrl) == Ok(if baseUrl.Some? then baseUrl else None)
    ensures segments != [] ==> FormattedResource(None, segments, baseUrl) == Err(TypeError("replace"))
  {
  }

  /**
   * The client's default base URL is "", which is not `null`, so a
   * resource is joined to it and gains a leading `/`; the .NET client
   * keeps the resource as it is when the base URL is empty.
   */
  lemma EmptyBaseStillJoins(resource: string)
    requires resource != "" && resource[0] != '/'
    ensures FormattedResource(Some(resource), [], Some("")) == Ok(Some("/" + resource))
    ensures Requests.FormattedResource(Some(resource), [], Some("")) == Ok(Some(resource))
  {
    assert "" + "/" + resource == "/" + resource;
  }

  /** A resource starting with `/` loses exactly that one `/` before it is joined. */
  lemma StripsOneSlash(rest: string, baseUrl: string)
    requires rest != ""
    ensures FormattedResource(Some("/" + rest), [], Some(baseUrl)) == Ok(Some(baseUrl + "/" + rest))
  {
    assert ("/" + rest)[1..] == rest;
  }

  /**
   * The formatted resource is stored back, so a second call with a base
   * URL joins the base once more.
   */
  lemma JsNotIdempotent(resource: string, baseUrl: string)
    requires baseUrl != "" && baseUrl[0] != '/'
    ensures var first := FormattedResource(Some(resource), [], Some(baseUrl)).value;
      first.Some? && FormattedResource(first, [], Some(baseUrl)) == Ok(Some(baseUrl + "/" + first.value))
  {
    var first := FormattedResource(Some(resource), [], Some(baseUrl)).value;
    assert first.value[0] == baseUrl[0];
  }

  /** Whether `open` has been called on an `XMLHttpRequest`. */
  datatype ReadyState = Unsent | Opened

  datatype RequestHeader = RequestHeader(name: string, value: string)

  /** The part of an `XMLHttpRequest` that the request is prepared on. */
  datatype Xhr = Xhr(
    state: ReadyState,
    httpMethod: string,
    url: Option<string>,
    credentials: Option<Credentials>,
    headers: seq<RequestHeader>)

  function NewXhr(): (x: Xhr)
    ensures x.state == Unsent && x.headers == []
  {
    Xhr(Unsent, "", None, None, [])
  }

  /** A character HTTP allows in a method name (`tchar`, section 5.6.2 of RFC 9110). */
  predicate IsTokenChar(c: char) {
    'a' <= c <= 'z' || 'A' <= c <= 'Z' || '0' <= c <= '9' || c in "!#$%&'*+-.^_`|~"
  }

  /** A method name: a non-empty token. */
  predicate IsToken(m: string) {
    |m| > 0 && forall i :: 0 <= i < |m| ==> IsTokenChar(m[i])
  }

  /** The methods `open` refuses, compared ignoring ASCII case. */
  predicate IsForbiddenMethod(m: string) {
    EqualsIgnoreCase(m, "CONNECT") || EqualsIgnoreCase(m, "TRACE") || EqualsIgnoreCase(m, "TRACK")
  }

  /** `open` upper-cases the six standard methods, in any case, and keeps any other method as given. */
  function NormalizeMethod(m: string): (n: string)
    ensures EqualsIgnoreCase(n, m)
    ensures n != m ==> n in ["DELETE", "GET", "HEAD", "OPTIONS", "POST", "PUT"]
  {
    if EqualsIgnoreCase(m, "DELETE") then "DELETE"
    else if EqualsIgnoreCase(m, "GET") then "GET"
    else if EqualsIgnoreCase(m, "HEAD") then "HEAD"
    else if EqualsIgnoreCase(m, "OPTIONS") then "OPTIONS"
    else if EqualsIgnoreCase(m, "POST") then "POST"
    else if EqualsIgnoreCase(m, "PUT") then "PUT"
    else m
  }

  /**
   * `open(method, url, true[, user, password])`: a method that is not a
   * token throws SyntaxError, a forbidden one SecurityError; otherwise the
   * request is opened with the normalized method and no headers.
   */
  function Open(x: Xhr, httpMethod: string, url: Option<string>, credentials: Option<Credentials>): (r: Result<Xhr, JsError>)
    ensures r.Err? <==> !IsToken(httpMethod) || IsForbiddenMethod(httpMethod)
    ensures !IsToken(httpMethod) ==> r == Err(DomException("SyntaxError"))
    ensures IsToken(httpMethod) && IsForbiddenMethod(httpMethod) ==> r == Err(DomException("SecurityError"))
    ensures r.Ok? ==> r.value.state == Opened && r.value.headers == []
    ensures r.Ok? ==> r.value.httpMethod == NormalizeMethod(httpMethod) && r.value.url == url && r.value.credentials == credentials
  {
    if !IsToken(httpMethod) then Err(DomException("SyntaxError"))
    else if IsForbiddenMethod(httpMethod) then Err(DomException("SecurityError"))
    else Ok(Xhr(Opened, NormalizeMethod(httpMethod), url, credentials, []))
  }

  /** A string equal to a letters-only name ignoring case is made of letters, so it is a token. */
  lemma {:induction false} LettersAreToken(m: string, name: string)
    requires |name| > 0 && forall i :: 0 <= i < |name| ==> 'A' <= name[i] <= 'Z'
    requires EqualsIgnoreCase(m, name)
    ensures IsToken(m)
  {
    forall i | 0 <= i < |m|
      ensures IsTokenChar(m[i])
    {
      assert AsciiLower(m)[i] == AsciiLower(name)[i];
    }
  }

  /** CONNECT, TRACE and TRACK are refused with SecurityError whatever their case. */
  lemma ForbiddenMethodsRejected(x: Xhr, httpMethod: string, url: Option<string>, credentials: Option<Credentials>)
    requires IsForbiddenMethod(httpMethod)
    ensures Open(x, httpMethod, url, credentials) == Err(DomException("SecurityError"))
  {
    if EqualsIgnoreCase(httpMethod, "CONNECT") {
      LettersAreToken(httpMethod, "CONNECT");
    } else if EqualsIgnoreCase(httpMethod, "TRACE") {
      LettersAreToken(httpMethod, "TRACE");
    } else {
      LettersAreToken(httpMethod, "TRACK");
    }
  }

  /** The library's other methods open unchanged; its `Trace` is refused. */
  lemma LibraryMethodsOpen(x: Xhr, httpMethod: string, url: Option<string>, credentials: Option<Credentials>)
    requires httpMethod in ["DELETE", "GET", "HEAD", "OPTIONS", Post, Put]
    ensures Open(x, httpMethod, url, credentials) == Ok(Xhr(Opened, httpMethod, url, credentials, []))
    ensures Open(x, Trace, url, credentials) == Err(DomException("SecurityError"))
  {
    ForbiddenMethodsRejected(x, Trace, url, credentials);
    assert AsciiLower("TRACE") == "trace" && AsciiLower("TRACK") == "track" && AsciiLower("CONNECT") == "connect";
    assert AsciiLower("DELETE") == "delete" && AsciiLower("GET") == "get" && AsciiLower("HEAD") == "head";
    assert AsciiLower("OPTIONS") == "options" && AsciiLower("POST") == "post" && AsciiLower("PUT") == "put";
    assert IsToken(httpMethod) by {
      forall i | 0 <= i < |httpMethod|
        ensures IsTokenChar(httpMethod[i])
      {
        assert 'A' <= httpMethod[i] <= 'Z';
      }
    }
  }

  /** Normalizing is idempotent, and a token stays a token. */
  lemma NormalizeMethodIdempotent(m: string)
    ensures NormalizeMethod(NormalizeMethod(m)) == NormalizeMethod(m)
    ensures IsToken(m) ==> IsToken(NormalizeMethod(m))
  {
  }

  /** `setRequestHeader(name, value)`: allowed only once the request is opened. */
  function SetRequestHeader(x: Xhr, name: string, value: JsValue): (r: Result<Xhr, JsError>)
    ensures x.state == Unsent <==> r == Err(DomException("InvalidStateError"))
    ensures r.Ok? ==> r.value == x.(headers := x.headers + [RequestHeader(name, ToJsString(value))])
  {
    if x.state == Unsent then Err(DomException("InvalidStateError"))
    else Ok(x.(headers := x.headers + [RequestHeader(name, ToJsString(value))]))
  }

  /** The client's header loop: each header in turn, stopping at the first that throws. */
  function SetHeaders(x: Xhr, headers: seq<Entry>): Result<Xhr, JsError>
    decreases |headers|
  {
    if headers == [] then Ok(x)
    else
      match SetRequestHeader(x, headers[0].key, headers[0].value)
      case Err(e) => Err(e)
      case Ok(y) => SetHeaders(y, headers[1..])
  }

  function HeaderLines(headers: seq<Entry>): (lines: seq<RequestHeader>)
    ensures |lines| == |headers|
    ensures forall i :: 0 <= i < |headers| ==> lines[i] == RequestHeader(headers[i].key, ToJsString(headers[i].value))
  {
    if headers == [] then []
    else [RequestHeader(headers[0].key, ToJsString(headers[0].value))] + HeaderLines(headers[1..])
  }

  /** On an opened request every header is set, after those already there and in order. */
  lemma {:induction false} SetHeadersOpened(x: Xhr, headers: seq<Entry>)
    requires x.state == Opened
    ensures SetHeaders(x, headers) == Ok(x.(headers := x.headers + HeaderLines(headers)))
    decreases |headers|
  {
    if headers != [] {
      var y := x.(headers := x.headers + [RequestHeader(headers[0].key, ToJsString(headers[0].value))]);
      assert SetRequestHeader(x, headers[0].key, headers[0].value) == Ok(y);
      SetHeadersOpened(y, headers[1..]);
      assert y.headers + HeaderLines(headers[1..]) == x.headers + HeaderLines(headers);
    } else {
      assert x.headers + HeaderLines(headers) == x.headers;
    }
  }

  /** On a request not yet opened the first header throws. */
  lemma SetHeadersUnsent(x: Xhr, headers: seq<Entry>)
    requires x.state == Unsent && headers != []
    ensures SetHeaders(x, headers) == Err(DomException("InvalidStateError"))
  {
  }

  /** What `execute` has prepared when it calls `send`: the request and its body (`null` is `None`). */
  datatype Prepared = Prepared(xhr: Xhr, body: Option<string>)

  /** The request's new fields, and what was sent or the error that `execute` throws. */
  datatype Execution = Execution(request: RequestState, result: Result<Prepared, JsError>)

  /** `restRequest._credentials || this._defaultCredentials`. */
  function MergeCredentials(request: Option<Credentials>, default: Option<Credentials>): (c: Option<Credentials>)
    ensures request.Some? ==> c == request
    ensures request.None? ==> c == default
  {
    if request.Some? then request else default
  }

  /** Only POST and PUT carry a body, compared exactly as written. */
  predicate SendsBody(httpMethod: string) {
    httpMethod == Post || httpMethod == Put
  }

  /**
   * The end of `execute`, on an opened request: for POST and PUT the
   * `Content-Type` header and the body, whose errors propagate.
   */
  function Finish(x: Xhr, r: RequestState, stringify: JsValue -> string): Result<Prepared, JsError> {
    if !SendsBody(r.httpMethod) then Ok(Prepared(x, None))
    else
      match SetRequestHeader(x, "Content-Type", Value(r.contentType))
      case Err(e) => Err(e)
      case Ok(y) =>
        match RequestBody(r.contentType, r.parameters, stringify)
        case Err(e) => Err(e)
        case Ok(body) => Ok(Prepared(y, Some(body)))
  }

  /**
   * `execute` as written: the client's headers are set on the new
   * request before it is opened.
   */
  function ExecuteAsWritten(baseUrl: Option<string>, headers: seq<Entry>, defaultCredentials: Option<Credentials>,
                            r: RequestState, stringify: JsValue -> string): Execution
  {
    var formatted := FormattedResource(r.resource, r.urlSegments, baseUrl);
    if formatted.Err? then
      Execution(r.(resource := ApplySegments(r.resource, r.urlSegments).resource), Err(formatted.error))
    else
      var r1 := r.(resource := formatted.value);
      match SetHeaders(NewXhr(), headers)
      case Err(e) => Execution(r1, Err(e))
      case Ok(x) =>
        var r2 := r1.(credentials := MergeCredentials(r1.credentials, defaultCredentials));
        match Open(x, r2.httpMethod, r2.resource, r2.credentials)
        case Err(e) => Execution(r2, Err(e))
        case Ok(y) => Execution(r2, Finish(y, r2, stringify))
  }

  /**
   * `execute` with the client's headers set once the request is opened,
   * where `setRequestHeader` accepts them and `open` no longer discards them.
   */
  function ExecutePlan(baseUrl: Option<string>, headers: seq<Entry>, defaultCredentials: Option<Credentials>,
                       r: RequestState, stringify: JsValue -> string): Execution
  {
    var formatted := FormattedResource(r.resource, r.urlSegments, baseUrl);
    if formatted.Err? then
      Execution(r.(resource := ApplySegments(r.resource, r.urlSegments).resource), Err(formatted.error))
    else
      var r2 := r.(resource := formatted.value, credentials := MergeCredentials(r.credentials, defaultCredentials));
      match Open(NewXhr(), r2.httpMethod, r2.resource, r2.credentials)
      case Err(e) => Execution(r2, Err(e))
      case Ok(y) =>
        match SetHeaders(y, headers)
        case Err(e) => Execution(r2, Err(e))
        case Ok(x) => Execution(r2, Finish(x, r2, stringify))
  }

  /** As written, any client header makes `execute` throw before the request is opened. */
  lemma AsWrittenRejectsClientHeaders(baseUrl: Option<string>, headers: seq<Entry>, defaultCredentials: Option<Credentials>,
                                      r: RequestState, stringify: JsValue -> string)
    requires headers != []
    requires FormattedResource(r.resource, r.urlSegments, baseUrl).Ok?
    ensures ExecuteAsWritten(baseUrl, headers, defaultCredentials, r, stringify).result == Err(DomException("InvalidStateError"))
  {
    SetHeadersUnsent(NewXhr(), headers);
  }

  /** Without client headers the two orders prepare the same request. */
  lemma AsWrittenAgreesWithoutHeaders(baseUrl: Option<string>, defaultCredentials: Option<Credentials>,
                                      r: RequestState, stringify: JsValue -> string)
    ensures ExecuteAsWritten(baseUrl, [], defaultCredentials, r, stringify) == ExecutePlan(baseUrl, [], defaultCredentials, r, stringify)
  {
  }

  /**
   * What is sent: the method and the formatted resource, the request's own
   * credentials or else the client's, the client's headers in order, and
   * for POST and PUT a `Content-Type` header and the body; the other
   * methods send no body. A method `open` refuses throws its error.
   */
  lemma PreparedRequest(baseUrl: Option<string>, headers: seq<Entry>, defaultCredentials: Option<Credentials>,
                        r: RequestState, stringify: JsValue -> string)
    requires FormattedResource(r.resource, r.urlSegments, baseUrl).Ok?
    ensures var e := ExecutePlan(baseUrl, headers, defaultCredentials, r, stringify);
      var url := FormattedResource(r.resource, r.urlSegments, baseUrl).value;
      var credentials := MergeCredentials(r.credentials, defaultCredentials);
      var open := Open(NewXhr(), r.httpMethod, url, credentials);
      e.request == r.(resource := url, credentials := credentials) &&
      (open.Err? ==> e.result == Err(open.error)) &&
      (open.Ok? && !SendsBody(r.httpMethod) ==>
        e.result == Ok(Prepared(Xhr(Opened, NormalizeMethod(r.httpMethod), url, credentials, HeaderLines(headers)), None))) &&
      (open.Ok? && SendsBody(r.httpMethod) ==> (
        e.result == match RequestBody(r.contentType, r.parameters, stringify)
          case Err(err) => Err(err)
          case Ok(body) => Ok(Prepared(
            Xhr(Opened, NormalizeMethod(r.httpMethod), url, credentials,
                HeaderLines(headers) + [RequestHeader("Content-Type", r.contentType)]),
            Some(body)))))
  {
    var url := FormattedResource(r.resource, r.urlSegments, baseUrl).value;
    var r2 := r.(resource := url, credentials := MergeCredentials(r.credentials, defaultCredentials));
    var open := Open(NewXhr(), r2.httpMethod, r2.resource, r2.credentials);
    if open.Ok? {
      var x := open.value;
      SetHeadersOpened(x, headers);
      assert x.headers + HeaderLines(headers) == HeaderLines(headers);
    }
  }

  /** A request whose method `open` forbids, TRACE among them, throws SecurityError instead of being sent. */
  lemma ForbiddenMethodNotSent(baseUrl: Option<string>, headers: seq<Entry>, defaultCredentials: Option<Credentials>,
                               r: RequestState, stringify: JsValue -> string)
    requires FormattedResource(r.resource, r.urlSegments, baseUrl).Ok?
    requires IsForbiddenMethod(r.httpMethod)
    ensures ExecutePlan(baseUrl, headers, defaultCredentials, r, stringify).result == Err(DomException("SecurityError"))
  {
    var url := FormattedResource(r.resource, r.urlSegments, baseUrl).value;
    ForbiddenMethodsRejected(NewXhr(), r.httpMethod, url, MergeCredentials(r.credentials, defaultCredentials));
  }

  /** The request's own credentials take precedence over the client's defaults, which fill in for none. */
  lemma CredentialsPrecedence(baseUrl: Option<string>, headers: seq<Entry>, defaultCredentials: Option<Credentials>,
                              r: RequestState, stringify: JsValue -> string)
    requires FormattedResource(r.resource, r.urlSegments, baseUrl).Ok?
    ensures r.credentials.Some? ==> ExecutePlan(baseUrl, headers, defaultCredentials, r, stringify).request.credentials == r.credentials
    ensures r.credentials.None? ==> ExecutePlan(baseUrl, headers, defaultCredentials, r, stringify).request.credentials == defaultCredentials
  {
  }

  /** `client.status` as the callback sees it: 1223 is reported as 204 No Content. */
  function ReportedStatus(status: int): (s: int)
    ensures s != NoContentAlias
    ensures status == NoContentAlias ==> s == NoContent
    ensures status != NoContentAlias ==> s == status
  {
    if status == NoContentAlias then NoContent else status
  }

  /**
   * The arguments the callback receives: the first child of the XML
   * document, the parsed JSON, the response text with the parser's error,
   * or the response text as received; each with the status.
   */
  datatype CallbackArgs<N, J> =
    | XmlRoot(firstChild: Option<N>, status: int)
    | Parsed(value: J, status: int)
    | Unparsed(text: string, status: int, error: JsError)
    | RawText(responseText: Option<string>, status: int)

  /**
   * The callback's arguments once the request is done. `contentType` is
   * the `Content-Type` response header, `responseXml` the child nodes of
   * `responseXML` when it is a document, and `parseJson` stands for
   * `JSON.parse`.
   */
  function ResolveResponse<N, J>(status: int, contentType: Option<string>, responseXml: Option<seq<N>>,
                                 responseText: Option<string>, parseJson: string -> Result<J, JsError>): (a: CallbackArgs<N, J>)
    ensures a.status == ReportedStatus(status)
    ensures contentType.None? ==> a == RawText(responseText, ReportedStatus(status))
    ensures (contentType.Some? && (IndexOf(contentType.value, "xml").None? || responseXml.None?) &&
             (IndexOf(contentType.value, "json").None? || responseText.None?)) ==>
      a == RawText(responseText, ReportedStatus(status))
    ensures a.XmlRoot? <==> contentType.Some? && IndexOf(contentType.value, "xml").Some? && responseXml.Some?
    ensures a.XmlRoot? ==> a.firstChild == (if responseXml.value == [] then None else Some(responseXml.value[0]))
  {
    var s := ReportedStatus(status);
    if contentType.Some? && IndexOf(contentType.value, "xml").Some? && responseXml.Some? then
      XmlRoot(if responseXml.value == [] then None else Some(responseXml.value[0]), s)
    else if contentType.Some? && IndexOf(contentType.value, "json").Some? && responseText.Some? then
      match parseJson(responseText.value)
      case Ok(v) => Parsed(v, s)
      case Err(e) => Unparsed(responseText.value, s, e)
    else RawText(responseText, s)
  }

  /**
   * The callback as written: the source assigns 204 to `client.status`,
   * an accessor without a setter, and in strict mode the assignment throws.
   */
  function ResolveResponseAsWritten<N, J>(status: int, contentType: Option<string>, responseXml: Option<seq<N>>,
                                          responseText: Option<string>, parseJson: string -> Result<J, JsError>): (r: Result<CallbackArgs<N, J>, JsError>)
    ensures status == NoContentAlias <==> r.Err?
  {
    if status == NoContentAlias then Err(TypeError("status"))
    else Ok(ResolveResponse(status, contentType, responseXml, responseText, parseJson))
  }

  /**
   * As written, a 1223 response never reaches the callback as 204; every
   * other status is handled as intended.
   */
  lemma StatusAliasAsWritten<N, J>(status: int, contentType: Option<string>, responseXml: Option<seq<N>>,
                                   responseText: Option<string>, parseJson: string -> Result<J, JsError>)
    ensures ResolveResponseAsWritten(NoContentAlias, contentType, responseXml, responseText, parseJson) == Err(TypeError("status"))
    ensures ResolveResponse(NoContentAlias, contentType, responseXml, responseText, parseJson).status == NoContent
    ensures status != NoContentAlias ==>
      ResolveResponseAsWritten(status, contentType, responseXml, responseText, parseJson) ==
      Ok(ResolveResponse(status, contentType, responseXml, responseText, parseJson))
  {
  }

  /**
   * A JSON response is parsed when the parser accepts it; otherwise the
   * callback receives the text and the parser's error.
   */
  lemma JsonResponse<N, J>(status: int, contentType: string, responseText: string, parseJson: string -> Result<J, JsError>)
    requires IndexOf(contentType, "xml").None? && IndexOf(contentType, "json").Some?
    ensures var a := ResolveResponse<N, J>(status, Some(contentType), None, Some(responseText), parseJson);
      match parseJson(responseText)
      case Ok(v) => a == Parsed(v, ReportedStatus(status))
      case Err(e) => a == Unparsed(responseText, ReportedStatus(status), e)
  {
  }

  class RestClient {
    var baseUrl: Option<string>
    var headers: seq<Entry>
    var defaultCredentials: Option<Credentials>

    /** `new RestClient()`: the base URL is "", with no headers and no default credentials. */
    constructor ()
      ensures baseUrl == Some("") && headers == [] && defaultCredentials.None?
    {
      baseUrl := Some("");
      headers := [];
      defaultCredentials := None;
    }

    method SetDefaultCredentials(user: JsValue, password: JsValue)
      modifies this
      ensures defaultCredentials == Some(Credentials(user, password))
      ensures baseUrl == old(baseUrl) && headers == old(headers)
    {
      defaultCredentials := Some(Credentials(user, password));
    }

    method ClearDefaultCredentials()
      modifies this
      ensures defaultCredentials.None?
      ensures baseUrl == old(baseUrl) && headers == old(headers)
    {
      defaultCredentials := None;
    }

    method AddHeader(key: string, value: JsValue)
      modifies this
      ensures headers == old(headers) + [Entry(key, value)]
      ensures baseUrl == old(baseUrl) && defaultCredentials == old(defaultCredentials)
    {
      headers := headers + [Entry(key, value)];
    }

    /**
     * `execute` up to `send`, with the client's headers set after `open`.
     * The request's resource and credentials are updated in place.
     */
    method Execute(request: RestRequest, stringify: JsValue -> string) returns (r: Result<Prepared, JsError>)
      modifies request
      ensures var e := ExecutePlan(baseUrl, headers, defaultCredentials, old(request.State()), stringify);
        request.State() == e.request && r == e.result
    {
      var url := request.GetFormattedResource(baseUrl);
      if url.Err? {
        return Err(url.error);
      }
      request.credentials := if request.credentials.Some? then request.credentials else defaultCredentials;
      var open := Open(NewXhr(), request.httpMethod, url.value, request.credentials);
      if open.Err? {
        return Err(open.error);
      }
      var client := open.value;
      var i := 0;
      while i < |headers|
        invariant 0 <= i <= |headers|
        invariant client.state == Opened
        invariant SetHeaders(client, headers[i..]) == SetHeaders(open.value, headers)
      {
        assert headers[i..][1..] == headers[i + 1..];
        var next := SetRequestHeader(client, headers[i].key, headers[i].value);
        client := next.value;
        i := i + 1;
      }
      assert headers[i..] == [];
      if request.httpMethod == Post || request.httpMethod == Put {
        client := SetRequestHeader(client, "Content-Type", Value(request.contentType)).value;
        var body := request.GetRequestBody(stringify);
        if body.Err? {
          return Err(body.error);
        }
        return Ok(Prepared(client, Some(body.value)));
      }
      return Ok(Prepared(client, None));
    }
  }
}

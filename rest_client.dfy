/**
 * The decision logic of `RestClient`: how a request's defaults are filled
 * in from the client, how the HTTP request message is built (headers, and
 * which body goes with which method and content type), and how the
 * response is turned into content (raw string, XML through `Transform`
 * and the data-contract serializer, or JSON).
 *
 * Sending the message, parsing XML and JSON and reading objects are not
 * part of this model: they are passed in as functions.
 */
module Clients {
  import opened Wrappers
  import opened Exceptions
  import opened Text
  import opened Http
  import Parameters
  import XmlTransform
  import PercentEncoding

  datatype ContentType = ByteArray | FormUrlEncoded | Json | Xml | MultiPartFormData

  /** JSON serializer settings; only their presence matters here. */
  datatype JsonSettings = JsonSettings(name: string)

  /** A header as added; `None` is a null value. */
  datatype Header = Header(key: string, value: Option<string>)

  /** A header as it goes on the message. */
  datatype HeaderLine = HeaderLine(key: string, value: string)

  /** Whether a body parameter is a file upload, and its file name. */
  datatype FileInfo = NotAFile | FileUpload(fileName: Option<string>)

  datatype BodyParameter = BodyParameter(param: Parameters.EncodedParameter, file: FileInfo)

  /**
   * What the client reads from a request. Request headers hold the
   * `ToString()` of their values (`None` for a null object);
   * `requestBody` and `requestMediaType` are what the request's
   * `GetRequestBody` and `GetContentType` return.
   */
  datatype ClientRequest = ClientRequest(
    httpMethod: string,
    dateFormat: Option<string>,
    jsonSerializerSettings: Option<JsonSettings>,
    headers: seq<Header>,
    contentType: ContentType,
    parameters: seq<BodyParameter>,
    requestBody: string,
    requestMediaType: string,
    ignoreRootElement: bool,
    ignoreXmlAttributes: bool,
    returnRawString: bool)

  /** One part of a multipart body. */
  datatype Part =
    | StreamPart(name: string, bytes: seq<Byte>, fileName: Option<string>)
    | BytesPart(bytes: seq<Byte>)
    | StringPart(name: string, text: string)

  datatype Content =
    | ByteArrayContent(bytes: seq<Byte>)
    | MultipartContent(parts: seq<Part>)
    | StringContent(text: string, mediaType: string)

  datatype HttpRequestMessage = HttpRequestMessage(
    httpMethod: string, uri: string, headers: seq<HeaderLine>, content: Option<Content>)

  /** Appends already-built items to the front of a result that may have failed. */
  function Then<X>(done: seq<X>, r: Result<seq<X>, Exception>): Result<seq<X>, Exception> {
    match r
    case Err(e) => Err(e)
    case Ok(rest) => Ok(done + rest)
  }

  lemma ThenNothing<X>(r: Result<seq<X>, Exception>)
    ensures Then([], r) == r
  {
    if r.Ok? {
      assert [] + r.value == r.value;
    }
  }

  lemma ThenThen<X>(a: seq<X>, b: seq<X>, r: Result<seq<X>, Exception>)
    ensures Then(a, Then(b, r)) == Then(a + b, r)
  {
    if r.Ok? {
      assert a + (b + r.value) == (a + b) + r.value;
    }
  }

  /**
   * The client's date format and JSON settings are handed down to a request
   * that has none of its own; nothing else about the request changes.
   */
  function InheritDefaults(r: ClientRequest, dateFormat: Option<string>, jsonSettings: Option<JsonSettings>): (u: ClientRequest)
    ensures u.(dateFormat := r.dateFormat, jsonSerializerSettings := r.jsonSerializerSettings) == r
  {
    r.(dateFormat := if !IsNullOrWhiteSpace(dateFormat) && IsNullOrWhiteSpace(r.dateFormat) then dateFormat else r.dateFormat,
       jsonSerializerSettings := if jsonSettings.Some? && r.jsonSerializerSettings.None? then jsonSettings else r.jsonSerializerSettings)
  }

  /** A client header with a null value is sent with an empty one. */
  function ClientHeaderLine(h: Header): HeaderLine {
    HeaderLine(h.key, if h.value.Some? then h.value.value else "")
  }

  function ClientHeaderLines(hs: seq<Header>): (r: seq<HeaderLine>)
    ensures |r| == |hs|
    ensures forall i :: 0 <= i < |hs| ==> r[i].key == hs[i].key
  {
    seq(|hs|, i requires 0 <= i < |hs| => ClientHeaderLine(hs[i]))
  }

  /**
   * The request's headers: a null value fails (`ToString()` on null);
   * otherwise every header is sent, in order, with its value.
   */
  function RequestHeaderLines(hs: seq<Header>): (r: Result<seq<HeaderLine>, Exception>)
    ensures r.Err? <==> exists i :: 0 <= i < |hs| && hs[i].value.None?
    ensures r.Err? ==> r.error == NullReferenceException
    ensures r.Ok? ==> (|r.value| == |hs| &&
      forall i :: 0 <= i < |hs| ==> r.value[i] == HeaderLine(hs[i].key, hs[i].value.value))
    decreases |hs|
  {
    if hs == [] then Ok([])
    else if hs[0].value.None? then Err(NullReferenceException)
    else
      var rest := RequestHeaderLines(hs[1..]);
      assert forall i :: 1 <= i < |hs| ==> hs[i] == hs[1..][i - 1];
      Then([HeaderLine(hs[0].key, hs[0].value.value)], rest)
  }

  /** `HttpMethod` equality ignores case. GET, HEAD and TRACE carry no body. */
  predicate HasBody(httpMethod: string) {
    !EqualsIgnoreCase(httpMethod, "GET") && !EqualsIgnoreCase(httpMethod, "HEAD") &&
    !EqualsIgnoreCase(httpMethod, "TRACE")
  }

  /** `ToString()` of an encoded value: a byte array prints its type name. */
  function ValueToString(v: Parameters.EncodedValue): string {
    match v
    case Str(t) => t
    case Bytes(_) => "System.Byte[]"
  }

  /**
   * One multipart part. A file whose value is not a stream makes
   * `new StreamContent(null)`, which fails; a blank file name leaves the
   * part without one. A byte-array parameter is added without a name.
   */
  function PartOf(p: BodyParameter): (r: Result<Part, Exception>)
    ensures p.file.FileUpload? ==> (r.Err? <==> !p.param.value.Stream?)
    ensures p.file.FileUpload? && r.Ok? ==>
      r.value.StreamPart? && r.value.name == p.param.key && r.value.bytes == p.param.value.bytes &&
      (r.value.fileName.None? <==> IsNullOrEmpty(p.file.fileName))
    ensures p.file.NotAFile? ==> (r.Err? <==> Parameters.GetEncodedValue(p.param).Err?)
    ensures p.file.FileUpload? && r.Ok? && !IsNullOrEmpty(p.file.fileName) ==> r.value.fileName == p.file.fileName
    ensures p.file.NotAFile? && r.Ok? && p.param.encoding != Parameters.ByteArray ==>
      r.value == StringPart(p.param.key, ValueToString(Parameters.GetEncodedValue(p.param).value))
    ensures p.file.NotAFile? && r.Ok? && p.param.encoding == Parameters.ByteArray ==>
      r.value == BytesPart(p.param.value.bytes)
  {
    match p.file
    case FileUpload(fileName) =>
      if !p.param.value.Stream? then Err(ArgumentNullException("content"))
      else Ok(StreamPart(p.param.key, p.param.value.bytes, if IsNullOrEmpty(fileName) then None else fileName))
    case NotAFile =>
      match Parameters.GetEncodedValue(p.param)
      case Err(e) => Err(e)
      case Ok(v) =>
        if p.param.encoding == Parameters.ByteArray then
          (match v
           case Bytes(b) => Ok(BytesPart(b))
           case Str(_) => Err(ArgumentNullException("content")))
        else Ok(StringPart(p.param.key, ValueToString(v)))
  }

  /**
   * The multipart body: one part per parameter, in order; the first
   * parameter that fails stops the request with its exception.
   */
  function Parts(ps: seq<BodyParameter>): (r: Result<seq<Part>, Exception>)
    ensures r.Ok? <==> forall i :: 0 <= i < |ps| ==> PartOf(ps[i]).Ok?
    ensures r.Ok? ==> (|r.value| == |ps| && forall i :: 0 <= i < |ps| ==> r.value[i] == PartOf(ps[i]).value)
    decreases |ps|
  {
    if ps == [] then Ok([])
    else
      assert forall i :: 1 <= i < |ps| ==> ps[i] == ps[1..][i - 1];
      match PartOf(ps[0])
      case Err(e) => Err(e)
      case Ok(p) => Then([p], Parts(ps[1..]))
  }

  /** A failing multipart body fails with the exception of its first failing parameter. */
  lemma {:induction false} PartsFirstFailure(ps: seq<BodyParameter>)
    ensures Parts(ps).Err? ==>
      exists i :: 0 <= i < |ps| && PartOf(ps[i]) == Err(Parts(ps).error) &&
                  forall j :: 0 <= j < i ==> PartOf(ps[j]).Ok?
    decreases |ps|
  {
    if ps != [] && PartOf(ps[0]).Ok? && Parts(ps).Err? {
      PartsFirstFailure(ps[1..]);
      var k :| 0 <= k < |ps[1..]| && PartOf(ps[1..][k]) == Err(Parts(ps[1..]).error) &&
               forall j :: 0 <= j < k ==> PartOf(ps[1..][j]).Ok?;
      assert PartOf(ps[k + 1]) == Err(Parts(ps).error);
      assert forall j :: 1 <= j < k + 1 ==> ps[j] == ps[1..][j - 1];
    }
  }

  /**
   * The body: none for GET, HEAD and TRACE; for a byte-array request the
   * first parameter's bytes (none without parameters); a multipart body;
   * or else the request's serialized body as a string.
   */
  function Body(r: ClientRequest): (b: Result<Option<Content>, Exception>)
    ensures !HasBody(r.httpMethod) ==> b == Ok(None)
    ensures HasBody(r.httpMethod) && r.contentType in {FormUrlEncoded, Json, Xml} ==>
      b == Ok(Some(StringContent(r.requestBody, r.requestMediaType)))
    ensures HasBody(r.httpMethod) && r.contentType == ByteArray && r.parameters == [] ==> b == Ok(None)
    ensures HasBody(r.httpMethod) && r.contentType == ByteArray && r.parameters != [] ==>
      var first := r.parameters[0].param;
      (b.Ok? <==> first.encoding == Parameters.ByteArray && first.value.Stream?) &&
      (b.Ok? ==> b.value == Some(ByteArrayContent(first.value.bytes))) &&
      (b.Err? ==> b.error == if Parameters.GetEncodedValue(first).Err? then Parameters.GetEncodedValue(first).error
                             else ArgumentNullException("content"))
    ensures HasBody(r.httpMethod) && r.contentType == MultiPartFormData ==>
      (b.Ok? <==> Parts(r.parameters).Ok?) &&
      (b.Ok? ==> b.value == Some(MultipartContent(Parts(r.parameters).value))) &&
      (b.Err? ==> b.error == Parts(r.parameters).error)
  {
    if !HasBody(r.httpMethod) then Ok(None)
    else
      match r.contentType
      case ByteArray =>
        if |r.parameters| == 0 then Ok(None)
        else
          (match Parameters.GetEncodedValue(r.parameters[0].param)
           case Err(e) => Err(e)
           case Ok(Bytes(bytes)) => Ok(Some(ByteArrayContent(bytes)))
           case Ok(Str(_)) => Err(ArgumentNullException("content")))
      case MultiPartFormData =>
        (match Parts(r.parameters)
         case Err(e) => Err(e)
         case Ok(parts) => Ok(Some(MultipartContent(parts))))
      case _ => Ok(Some(StringContent(r.requestBody, r.requestMediaType)))
  }

  /**
   * The message for a request: the client's headers, then the request's,
   * then the body. A failing request header stops the request before its
   * body is looked at.
   */
  function RequestMessage(clientHeaders: seq<Header>, r: ClientRequest, uri: string): (m: Result<HttpRequestMessage, Exception>)
    ensures RequestHeaderLines(r.headers).Err? ==> m == Err(NullReferenceException)
    ensures RequestHeaderLines(r.headers).Ok? ==> (m.Err? <==> Body(r).Err?)
    ensures m.Ok? ==> (m.value.httpMethod == r.httpMethod && m.value.uri == uri &&
      m.value.headers == ClientHeaderLines(clientHeaders) + RequestHeaderLines(r.headers).value &&
      m.value.content == Body(r).value)
  {
    match RequestHeaderLines(r.headers)
    case Err(e) => Err(e)
    case Ok(lines) =>
      match Body(r)
      case Err(e) => Err(e)
      case Ok(content) => Ok(HttpRequestMessage(r.httpMethod, uri, ClientHeaderLines(clientHeaders) + lines, content))
  }

  /**
   * What the type argument `T` is: `string` itself, a type a string can be
   * cast to (such as `object`), or another type.
   */
  datatype TargetType = StringType | StringAssignable | OtherType

  /** Response content: the raw string, or a deserialized object. */
  datatype ResponseContent<T> = Raw(text: string) | Deserialized(value: T)

  /** A JSON deserializer failure: a serialization error, or any other exception. */
  datatype JsonFailure = SerializationFailure | OtherFailure(exception: Exception)

  /**
   * A data-contract serializer failure: a serialization error, with the
   * name of the node the reader stopped on, or any other exception.
   */
  datatype ReadFailure = ReadSerializationFailure(nodeName: string) | ReadOtherFailure(exception: Exception)

  /** An XML element, as `XElement.Parse` returns. */
  type XElement = n: XmlTransform.Node | n.Element? witness XmlTransform.Element(XmlTransform.Name("", ""), [], [])

  /**
   * The foreign parts of response handling: the JSON deserializer, the XML
   * parser (an `XmlException` message on failure), the data-contract
   * serializer and the date reformatter
   * `Transform` uses.
   */
  datatype Serializers<T> = Serializers(
    deserializeJson: (string, Option<JsonSettings>) -> Result<Option<T>, JsonFailure>,
    parseXml: string -> Result<XElement, string>,
    readObject: XmlTransform.Node -> Result<Option<T>, ReadFailure>,
    reformatDate: (string, string) -> Option<string>)

  const JsonFailed := "The JsonConverter failed. Please see InnerException for details."
  const NoElements := "Sequence contains no elements"

  /** The content of a successful response, except 204 No Content. */
  function GetRawResponseContent(response: HttpResponseMessage): (r: Option<string>)
    ensures r.Some? <==> IsSuccessStatusCode(response.statusCode) && response.statusCode != NoContent
    ensures r.Some? ==> r.value == response.content
  {
    if IsSuccessStatusCode(response.statusCode) && response.statusCode != NoContent then Some(response.content)
    else None
  }

  /** The first element among the nodes: what `Descendants().First()` returns for their parent. */
  function FirstElement(ns: seq<XmlTransform.Node>): (r: Option<XmlTransform.Node>)
    ensures r.None? <==> forall i :: 0 <= i < |ns| ==> !ns[i].Element?
    ensures r.Some? ==>
      exists i :: 0 <= i < |ns| && ns[i] == r.value && r.value.Element? &&
                  forall j :: 0 <= j < i ==> !ns[j].Element?
    decreases |ns|
  {
    if ns == [] then None
    else if ns[0].Element? then Some(ns[0])
    else
      assert forall i :: 1 <= i < |ns| ==> ns[i] == ns[1..][i - 1];
      var r := FirstElement(ns[1..]);
      if r.Some? then
        var k :| 0 <= k < |ns[1..]| && ns[1..][k] == r.value && r.value.Element? &&
          forall j :: 0 <= j < k ==> !ns[1..][j].Element?;
        assert ns[k + 1] == r.value;
        r
      else r
  }

  /** The settings `Transform` reads from the request. */
  function TransformSettings<T>(r: ClientRequest, ser: Serializers<T>): XmlTransform.Settings {
    XmlTransform.Settings(r.ignoreXmlAttributes, r.dateFormat, ser.reformatDate)
  }

  /**
   * The element handed to `Transform`: the parsed root, or, when the root
   * is ignored, its first descendant element, which is its first child
   * element.
   */
  function XmlStart<T>(r: ClientRequest, content: string, ser: Serializers<T>): (s: Result<XmlTransform.Node, Exception>)
    ensures s.Ok? ==> s.value.Element?
    ensures ser.parseXml(content).Err? ==> s == Err(XmlException(ser.parseXml(content).error))
    ensures ser.parseXml(content).Ok? && !r.ignoreRootElement ==> s == Ok(ser.parseXml(content).value)
    ensures ser.parseXml(content).Ok? && r.ignoreRootElement ==>
      var nodes := ser.parseXml(content).value.nodes;
      (s.Ok? <==> exists i :: 0 <= i < |nodes| && nodes[i].Element?) &&
      (s.Err? ==> s.error == InvalidOperationException(NoElements)) &&
      (s.Ok? ==> exists i :: 0 <= i < |nodes| && nodes[i] == s.value && forall j :: 0 <= j < i ==> !nodes[j].Element?)
  {
    match ser.parseXml(content)
    case Err(message) => Err(XmlException(message))
    case Ok(root) =>
      if !r.ignoreRootElement then Ok(root)
      else
        match FirstElement(root.nodes)
        case None => Err(InvalidOperationException(NoElements))
        case Some(child) => Ok(child)
  }

  /**
   * The transformed element the serializer reads. An element that
   * `Transform` drops leaves a null, whose `ToString()` fails.
   */
  function TransformedRoot<T>(r: ClientRequest, content: string, ser: Serializers<T>): (n: Result<XmlTransform.Node, Exception>)
    ensures n.Ok? ==> n.value.Element? && XmlTransform.Normalized(n.value)
  {
    match XmlStart(r, content, ser)
    case Err(e) => Err(e)
    case Ok(start) =>
      XmlTransform.TransformElement(start, TransformSettings(r, ser));
      XmlTransform.TransformNormalized(start, TransformSettings(r, ser));
      match XmlTransform.Transform(start, TransformSettings(r, ser))
      case Err(e) => Err(e)
      case Ok(None) => Err(NullReferenceException)
      case Ok(Some(n)) => Ok(n)
  }

  /**
   * The XML path: parse, pick the start element, transform, read. Only a
   * serialization error from the data-contract serializer is wrapped, with
   * the reader's node name; any other exception passes through.
   */
  function DeserializeApplicationXml<T>(r: ClientRequest, content: string, ser: Serializers<T>): (v: Result<Option<T>, Exception>)
    ensures TransformedRoot(r, content, ser).Err? ==> v == Err(TransformedRoot(r, content, ser).error)
    ensures TransformedRoot(r, content, ser).Ok? ==>
      var read := ser.readObject(TransformedRoot(r, content, ser).value);
      (read.Ok? ==> v == Ok(read.value)) &&
      (read.Err? && read.error.ReadSerializationFailure? ==>
        v == Err(PortableRestException("The serializer failed on node '" + read.error.nodeName + "'"))) &&
      (read.Err? && read.error.ReadOtherFailure? ==> v == Err(read.error.exception))
  {
    match TransformedRoot(r, content, ser)
    case Err(e) => Err(e)
    case Ok(n) =>
      match ser.readObject(n)
      case Err(ReadSerializationFailure(nodeName)) => Err(PortableRestException("The serializer failed on node '" + nodeName + "'"))
      case Err(ReadOtherFailure(e)) => Err(e)
      case Ok(value) => Ok(value)
  }

  /**
   * Dispatch on the response's media type: `application/xml` and
   * `text/xml` go to the XML path, everything else to JSON. Only a JSON
   * serialization error is wrapped; other exceptions pass through.
   */
  function DeserializeResponseContent<T>(r: ClientRequest, response: HttpResponseMessage, content: string, ser: Serializers<T>): (v: Result<Option<T>, Exception>)
    ensures response.mediaType.None? ==> v == Err(NullReferenceException)
    ensures response.mediaType == Some("application/xml") || response.mediaType == Some("text/xml") ==>
      v == DeserializeApplicationXml(r, content, ser)
    ensures (response.mediaType.Some? && response.mediaType.value != "application/xml" &&
             response.mediaType.value != "text/xml") ==>
      var json := ser.deserializeJson(content, r.jsonSerializerSettings);
      (json.Ok? ==> v == Ok(json.value)) &&
      (json == Err(SerializationFailure) ==> v == Err(PortableRestException(JsonFailed))) &&
      (json.Err? && json.error.OtherFailure? ==> v == Err(json.error.exception))
  {
    match response.mediaType
    case None => Err(NullReferenceException)
    case Some(mediaType) =>
      if mediaType == "application/xml" || mediaType == "text/xml" then DeserializeApplicationXml(r, content, ser)
      else
        match ser.deserializeJson(content, r.jsonSerializerSettings)
        case Ok(value) => Ok(value)
        case Err(SerializationFailure) => Err(PortableRestException(JsonFailed))
        case Err(OtherFailure(e)) => Err(e)
  }

  /**
   * The content of a response: nothing unless it succeeded with a body;
   * the raw string when `T` is `string` or the request asks for it (a cast
   * to an unrelated `T` gives null); otherwise the deserialized object.
   */
  function GetResponseContent<T>(r: ClientRequest, response: HttpResponseMessage, target: TargetType, ser: Serializers<T>): (c: Result<Option<ResponseContent<T>>, Exception>)
    ensures GetRawResponseContent(response).None? ==> c == Ok(None)
    ensures GetRawResponseContent(response).Some? && target == StringType ==> c == Ok(Some(Raw(response.content)))
    ensures GetRawResponseContent(response).Some? && r.returnRawString ==>
      c == Ok(if target == OtherType then None else Some(Raw(response.content)))
    ensures GetRawResponseContent(response).Some? && target != StringType && !r.returnRawString ==>
      var d := DeserializeResponseContent(r, response, response.content, ser);
      (d.Err? ==> c == Err(d.error)) &&
      (d.Ok? && d.value.None? ==> c == Ok(None)) &&
      (d.Ok? && d.value.Some? ==> c == Ok(Some(Deserialized(d.value.value))))
  {
    match GetRawResponseContent(response)
    case None => Ok(None)
    case Some(raw) =>
      if target == StringType || r.returnRawString then
        Ok(if target == OtherType then None else Some(Raw(raw)))
      else
        match DeserializeResponseContent(r, response, raw, ser)
        case Err(e) => Err(e)
        case Ok(None) => Ok(None)
        case Ok(Some(value)) => Ok(Some(Deserialized(value)))
  }

  /** The request's headers, one by one; the first null value stops the request. */
  method BuildRequestHeaders(hs: seq<Header>) returns (r: Result<seq<HeaderLine>, Exception>)
    ensures r == RequestHeaderLines(hs)
  {
    var own: seq<HeaderLine> := [];
    var i := 0;
    assert hs[0..] == hs;
    ThenNothing(RequestHeaderLines(hs));
    while i < |hs|
      invariant 0 <= i <= |hs|
      invariant RequestHeaderLines(hs) == Then(own, RequestHeaderLines(hs[i..]))
    {
      if hs[i].value.None? {
        return Err(NullReferenceException);
      }
      assert hs[i..][1..] == hs[i + 1..];
      ThenThen(own, [HeaderLine(hs[i].key, hs[i].value.value)], RequestHeaderLines(hs[i + 1..]));
      own := own + [HeaderLine(hs[i].key, hs[i].value.value)];
      i := i + 1;
    }
    assert hs[i..] == [] && own + [] == own;
    return Ok(own);
  }

  /** The multipart parts, one per parameter; the first failing parameter stops the request. */
  method BuildParts(ps: seq<BodyParameter>) returns (r: Result<seq<Part>, Exception>)
    ensures r == Parts(ps)
  {
    var parts: seq<Part> := [];
    var i := 0;
    assert ps[0..] == ps;
    ThenNothing(Parts(ps));
    while i < |ps|
      invariant 0 <= i <= |ps|
      invariant Parts(ps) == Then(parts, Parts(ps[i..]))
    {
      var part := PartOf(ps[i]);
      if part.Err? {
        return Err(part.error);
      }
      assert ps[i..][1..] == ps[i + 1..];
      ThenThen(parts, [part.value], Parts(ps[i + 1..]));
      parts := parts + [part.value];
      i := i + 1;
    }
    assert ps[i..] == [] && parts + [] == parts;
    return Ok(parts);
  }

  /** The body of the message, by method and content type. */
  method BuildBody(r: ClientRequest) returns (b: Result<Option<Content>, Exception>)
    ensures b == Body(r)
  {
    if !HasBody(r.httpMethod) {
      return Ok(None);
    }
    if r.contentType == ByteArray {
      if |r.parameters| == 0 {
        return Ok(None);
      }
      var v := Parameters.GetEncodedValue(r.parameters[0].param);
      if v.Err? {
        return Err(v.error);
      }
      if !v.value.Bytes? {
        return Err(ArgumentNullException("content"));
      }
      return Ok(Some(ByteArrayContent(v.value.bytes)));
    } else if r.contentType == MultiPartFormData {
      var parts := BuildParts(r.parameters);
      if parts.Err? {
        return Err(parts.error);
      }
      return Ok(Some(MultipartContent(parts.value)));
    }
    return Ok(Some(StringContent(r.requestBody, r.requestMediaType)));
  }

  /**
   * A request's own non-blank date format is never replaced; a blank one
   * takes the client's when the client has a non-blank one. JSON settings
   * follow the same rule with null for blank. Filling in twice changes
   * nothing more.
   */
  lemma InheritDefaultsPrecedence(r: ClientRequest, dateFormat: Option<string>, jsonSettings: Option<JsonSettings>)
    ensures !IsNullOrWhiteSpace(r.dateFormat) ==> InheritDefaults(r, dateFormat, jsonSettings).dateFormat == r.dateFormat
    ensures IsNullOrWhiteSpace(r.dateFormat) && !IsNullOrWhiteSpace(dateFormat) ==>
      InheritDefaults(r, dateFormat, jsonSettings).dateFormat == dateFormat
    ensures r.jsonSerializerSettings.Some? ==>
      InheritDefaults(r, dateFormat, jsonSettings).jsonSerializerSettings == r.jsonSerializerSettings
    ensures r.jsonSerializerSettings.None? ==>
      InheritDefaults(r, dateFormat, jsonSettings).jsonSerializerSettings == jsonSettings
    ensures InheritDefaults(InheritDefaults(r, dateFormat, jsonSettings), dateFormat, jsonSettings) ==
      InheritDefaults(r, dateFormat, jsonSettings)
  {
  }

  /** A byte-array body is the first parameter's alone: the others are never read. */
  lemma ByteArrayUsesFirstParameterOnly(r: ClientRequest, others: seq<BodyParameter>)
    requires r.contentType == ByteArray && |r.parameters| > 0
    ensures Body(r.(parameters := [r.parameters[0]] + others)) == Body(r)
  {
  }

  /**
   * A URI-encoded form field in a multipart body carries its value
   * percent-encoded: unescaping the part's text gives the value back.
   */
  lemma MultipartFieldRoundTrip(p: BodyParameter)
    requires p.file.NotAFile? && p.param.encoding == Parameters.UriEncoded && !p.param.value.Null?
    ensures PartOf(p).Ok? && PartOf(p).value.StringPart? && PartOf(p).value.name == p.param.key
    ensures PercentEncoding.Unescape(PartOf(p).value.text) == Some(Parameters.ToText(p.param.value).value)
  {
    Parameters.UriEncodedValueRoundTrip(p.param);
  }

  /** The request's headers follow the client's, each with its own value. */
  lemma MessageHeadersInOrder(clientHeaders: seq<Header>, r: ClientRequest, uri: string)
    requires RequestMessage(clientHeaders, r, uri).Ok?
    ensures var hs := RequestMessage(clientHeaders, r, uri).value.headers;
      |hs| == |clientHeaders| + |r.headers| &&
      (forall i :: 0 <= i < |clientHeaders| ==> hs[i] == ClientHeaderLine(clientHeaders[i])) &&
      (forall i :: 0 <= i < |r.headers| ==>
         Some(hs[|clientHeaders| + i].value) == r.headers[i].value && hs[|clientHeaders| + i].key == r.headers[i].key)
  {
    var hs := RequestMessage(clientHeaders, r, uri).value.headers;
    var own := RequestHeaderLines(r.headers).value;
    assert hs == ClientHeaderLines(clientHeaders) + own;
    forall i | 0 <= i < |r.headers|
      ensures Some(hs[|clientHeaders| + i].value) == r.headers[i].value
    {
      assert hs[|clientHeaders| + i] == own[i];
    }
  }

  /** An XML response never reaches the JSON deserializer. */
  lemma XmlIgnoresJson<T>(r: ClientRequest, response: HttpResponseMessage, content: string, ser: Serializers<T>,
                          json: (string, Option<JsonSettings>) -> Result<Option<T>, JsonFailure>)
    requires response.mediaType == Some("application/xml") || response.mediaType == Some("text/xml")
    ensures DeserializeResponseContent(r, response, content, ser.(deserializeJson := json)) ==
      DeserializeResponseContent(r, response, content, ser)
    ensures DeserializeResponseContent(r, response, content, ser) == DeserializeApplicationXml(r, content, ser)
  {
  }

  /** Any other media type never reaches the XML parser or the data-contract serializer. */
  lemma JsonIgnoresXml<T>(r: ClientRequest, response: HttpResponseMessage, content: string, ser: Serializers<T>,
                          parseXml: string -> Result<XElement, string>,
                          readObject: XmlTransform.Node -> Result<Option<T>, ReadFailure>)
    requires response.mediaType.Some?
    requires response.mediaType.value != "application/xml" && response.mediaType.value != "text/xml"
    ensures DeserializeResponseContent(r, response, content, ser.(parseXml := parseXml, readObject := readObject)) ==
      DeserializeResponseContent(r, response, content, ser)
    ensures ser.deserializeJson(content, r.jsonSerializerSettings) == Err(SerializationFailure) ==>
      DeserializeResponseContent(r, response, content, ser) == Err(PortableRestException(JsonFailed))
  {
  }

  /** Skipping the root of a document whose root has no child element fails. */
  lemma IgnoredRootNeedsChildElement<T>(r: ClientRequest, content: string, ser: Serializers<T>)
    requires r.ignoreRootElement && ser.parseXml(content).Ok?
    requires forall i :: 0 <= i < |ser.parseXml(content).value.nodes| ==> !ser.parseXml(content).value.nodes[i].Element?
    ensures DeserializeApplicationXml(r, content, ser) == Err(InvalidOperationException(NoElements))
  {
  }

  /**
   * A root with attributes that are copied into elements is never dropped:
   * unless a descendant's date fails to reformat, the serializer reads it,
   * renamed to its local name.
   */
  lemma RootWithAttributesIsRead<T>(r: ClientRequest, content: string, ser: Serializers<T>)
    requires !r.ignoreRootElement && !r.ignoreXmlAttributes && ser.parseXml(content).Ok?
    requires |ser.parseXml(content).value.attributes| > 0
    requires !XmlTransform.DateStep(ser.parseXml(content).value, TransformSettings(r, ser))
    ensures XmlTransform.Transform(ser.parseXml(content).value, TransformSettings(r, ser)).Ok? ==>
      TransformedRoot(r, content, ser).Ok? &&
      TransformedRoot(r, content, ser).value.name == XmlTransform.Name("", ser.parseXml(content).value.name.localName)
  {
    var root := ser.parseXml(content).value;
    XmlTransform.AttributeKeepsElement(root, TransformSettings(r, ser));
    XmlTransform.PrepareCopiesAttributes(root, TransformSettings(r, ser));
    XmlTransform.TransformElement(root, TransformSettings(r, ser));
  }

  class RestClient {
    var dateFormat: Option<string>
    var jsonSerializerSettings: Option<JsonSettings>
    var headers: seq<Header>

    constructor ()
      ensures dateFormat == None && jsonSerializerSettings == None && headers == []
    {
      dateFormat := None;
      jsonSerializerSettings := None;
      headers := [];
    }

    /** Adds a header sent with every request. */
    method AddHeader(key: string, value: Option<string>)
      modifies this
      ensures headers == old(headers) + [Header(key, value)]
      ensures dateFormat == old(dateFormat) && jsonSerializerSettings == old(jsonSerializerSettings)
    {
      headers := headers + [Header(key, value)];
    }

    /** The client's headers as sent: a null value becomes an empty one. */
    method BuildClientHeaders() returns (lines: seq<HeaderLine>)
      ensures lines == ClientHeaderLines(headers)
    {
      lines := [];
      var i := 0;
      while i < |headers|
        invariant 0 <= i <= |headers|
        invariant |lines| == i && forall j :: 0 <= j < i ==> lines[j] == ClientHeaderLine(headers[j])
      {
        lines := lines + [ClientHeaderLine(headers[i])];
        i := i + 1;
      }
    }

    /**
     * Fills in the request's defaults and builds its message for `uri` (the
     * request's resource URI against this client's base URL).
     */
    method GetHttpResponseMessage(request: ClientRequest, uri: string) returns (updated: ClientRequest, message: Result<HttpRequestMessage, Exception>)
      ensures updated == InheritDefaults(request, dateFormat, jsonSerializerSettings)
      ensures message == RequestMessage(headers, updated, uri)
    {
      updated := InheritDefaults(request, dateFormat, jsonSerializerSettings);
      var lines := BuildClientHeaders();
      var own := BuildRequestHeaders(updated.headers);
      if own.Err? {
        return updated, Err(own.error);
      }
      var content := BuildBody(updated);
      if content.Err? {
        return updated, Err(content.error);
      }
      message := Ok(HttpRequestMessage(updated.httpMethod, uri, lines + own.value, content.value));
    }

    /**
     * Builds and sends the message, fails on a non-success status, and
     * reads the content from the response with the updated request.
     * `send` stands for the transport.
     */
    method ExecuteAsync<T>(request: ClientRequest, uri: string, send: HttpRequestMessage -> HttpResponseMessage,
                           target: TargetType, ser: Serializers<T>)
      returns (r: Result<Option<ResponseContent<T>>, Exception>)
      ensures var u := InheritDefaults(request, dateFormat, jsonSerializerSettings);
        var m := RequestMessage(headers, u, uri);
        r == (if m.Err? then Err(m.error)
              else if !IsSuccessStatusCode(send(m.value).statusCode) then Err(HttpRequestException(send(m.value).statusCode))
              else GetResponseContent(u, send(m.value), target, ser))
    {
      var updated, message := GetHttpResponseMessage(request, uri);
      if message.Err? {
        return Err(message.error);
      }
      var response := send(message.value);
      if !IsSuccessStatusCode(response.statusCode) {
        return Err(HttpRequestException(response.statusCode));
      }
      r := GetResponseContent(updated, response, target, ser);
    }
  }
}

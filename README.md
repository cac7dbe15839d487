# PortableRest, modelled in Dafny

PortableRest is a small REST client library. It ships in two forms.

The .NET library:
- a `RestRequest` fills the `{key}` tokens of its resource with escaped URL segment values and joins the result to a base URL;
- a `RestClient` turns the request into an HTTP request message, reads the response, and deserializes it as JSON or as XML;
- the XML path first rewrites the document (`Transform`) so that the data-contract serializer can read it;
- `EncodedParameter` encodes body parameters;
- `BasicAuthenticator` adds an `Authorization` header;
- `RestResponse` pairs a response message with its content;
- `EnumerableExtensions` adds argument-checked `Aggregate` overloads.

The JavaScript port, `window.PortableRest`, offers the same request and client. It works over `XMLHttpRequest`, and a callback receives the response.

Each component is modelled in its own module:

| file | module | models |
|---|---|---|
| `rest_request.dfy` | `Requests` | the .NET `RestRequest` class |
| `rest_client.dfy` | `Clients` | the decision logic of the .NET `RestClient` |
| `xml_transform.dfy` | `XmlTransform` | `RestClient.Transform` |
| `encoded_parameter.dfy` | `Parameters` | `EncodedParameter` |
| `basic_authenticator.dfy` | `Authentication` | `BasicAuthenticator` |
| `rest_response.dfy` | `Responses` | `RestResponse` |
| `enumerable_extensions.dfy` | `Enumerables` | the `Aggregate` overloads |
| `portable_rest_js.dfy` | `PortableRestJs` | the JavaScript port |

Shared modules:
- `Wrappers`: `Option` and `Result`.
- `Exceptions`: .NET exceptions and JavaScript errors.
- `Text`: string search, `Replace` and JavaScript `replace`, ordinal order.
- `Utf8`, `PercentEncoding` (`Uri.EscapeDataString`, `Uri.EscapeUriString`, `encodeURIComponent`), `Base64`.
- `StableSort`: `OrderBy`.
- `Http`: the response message.

**How the model represents the source:**
- Objects whose fields the source updates become classes: both `RestRequest`s, both `RestClient`s, and the `BasicAuthenticator`.
- Values become datatypes.
- A C# `null` or a JavaScript `null`/`undefined` becomes `None`, or a `JsValue` constructor, wherever the source handles or trips on it.
- Exceptions become `Err` values.
- The source disagrees with itself about request parameters. `RestRequest.cs:20` keeps them as `KeyValuePair<string, object>` with a string `Method`, and `FileParameter.cs` has `Name`, `Data` and `FileName`. `RestClient.cs:345-383` instead reads `Encoding`, `GetEncodedValue()` and `FileParameter.Filename`/`Key`/`Value`, and compares `Method` with `HttpMethod` values. The client model follows `RestClient.cs` (`Clients.BodyParameter`, and `Clients.HasBody`, which ignores case); `Requests.Parameter` models the request's own list separately.
- Loops in the source are `while` loops, each proved against a function that specifies it.
- Foreign code is passed in as function parameters:
  - the HTTP transport, and the JSON and XML parsers;
  - the data-contract serializer, and date parsing;
  - `JSON.stringify` and `JSON.parse`.

**Where the .NET library and the JavaScript port differ** (each proved):
- .NET replaces every occurrence of a token; JavaScript replaces only the first. `PortableRestJs.FirstOccurrenceOnly` shows this, and `PortableRestJs.SingleSegmentAgreesWithDotNet` shows where they agree.
- .NET ignores an empty base URL. The JavaScript client's default base URL is `""`, and it still joins to it, which gives a leading `/` (`PortableRestJs.EmptyBaseStillJoins`).
- `encodeURIComponent` keeps `!*'()`, where `Uri.EscapeDataString` escapes them (`PercentEncoding.SubDelimsDiffer`).

## Model

| member | source | states |
|---|---|---|
| Text.ReplaceFirst | src/PortableRestJs/portableRest.js:164 | a string pattern replaces only its first occurrence, and a string without it is unchanged |
| Text.ReplaceFirstIsReplaceAllWhenUnique | src/PortableRest/RestRequest.cs:115 | replacing every occurrence and replacing the first agree when the token occurs exactly once |
| Text.Pieces | src/PortableRest/RestRequest.cs:115 | the text around the occurrences `Replace` finds: a single piece exactly when the pattern is absent, and otherwise the first piece ends where the first occurrence starts |
| Text.PiecesJoin | src/PortableRest/RestRequest.cs:115 | joining the pieces with the pattern gives the original text back |
| Text.PiecesFree | src/PortableRest/RestRequest.cs:115 | no piece contains the pattern |
| Text.PiecesContinue | src/PortableRest/RestRequest.cs:115 | after the first occurrence the scan goes on in the rest of the text, so each later occurrence is the first one after the previous one ends |
| Text.ReplaceAllPieces | src/PortableRest/RestRequest.cs:115 | `Replace` puts the replacement in every place the pattern was: its result is the pieces joined by the replacement |
| PercentEncoding.EscapeRoundTrip | src/PortableRest/EncodedParameter.cs:87 | unescaping an escaped string gives the string back, for each of the three escaping functions |
| PercentEncoding.EscapeKeepsSafeText | src/PortableRest/RestRequest.cs:115 | text made only of characters the escaping function keeps is left unchanged |
| PercentEncoding.EscapeAlphabet | src/PortableRest/EncodedParameter.cs:87 | escaped text holds only kept characters, `%` and upper-case hex digits |
| PercentEncoding.BracesAreEscaped | src/PortableRest/RestRequest.cs:115 | an escaped segment value never contains `{` or `}`, so it cannot form a new token |
| PercentEncoding.FormDelimitersAreEscaped | src/PortableRestJs/portableRest.js:193 | `encodeURIComponent` output never contains `&` or `=` |
| PercentEncoding.SubDelimsDiffer | src/PortableRestJs/portableRest.js:193 | each of `!*'()` is sent as it is by `encodeURIComponent` and `Uri.EscapeUriString`, but as `%` and two hex digits by `Uri.EscapeDataString` |
| Base64.DecodeEncode | src/PortableRest/EncodedParameter.cs:77 | decoding the Base 64 encoding gives the bytes back |
| Base64.EncodeAlphabet | src/PortableRest/EncodedParameter.cs:77 | Base 64 output holds only alphabet characters, with `=` only in the last two places |
| Utf8.DecodeEncode | src/PortableRest/Authentication/BasicAuthenticator.cs:40 | decoding the UTF-8 encoding gives the string back |
| StableSort.Sort | src/PortableRest/RestClient.cs:288 | the sorted children are a permutation of the input |
| StableSort.SortSorted | src/PortableRest/RestClient.cs:288 | the children come out ordered by their key (local name, or the node's text) |
| StableSort.SortStable | src/PortableRest/RestClient.cs:288 | children with equal keys keep their relative order, as `OrderBy` promises |
| XmlTransform.TransformPassesNonElements | src/PortableRest/RestClient.cs:263-264 | a node that is not an element is returned unchanged |
| XmlTransform.PrepareCopiesAttributes | src/PortableRest/RestClient.cs:266-272 | unless attributes are ignored, each attribute is appended as a child element with the same name and text, after the existing children |
| XmlTransform.PrepareReformatsDates | src/PortableRest/RestClient.cs:274-280 | with a date format, an element named like a date or time has its text replaced by the reformatted value, and fails when that text does not parse |
| XmlTransform.TransformElement | src/PortableRest/RestClient.cs:284-293 | an element left without children becomes null; otherwise it is rebuilt without a namespace or attributes, and a failure of a step is returned |
| XmlTransform.TransformKeepsKey | src/PortableRest/RestClient.cs:286-288 | a transformed element keeps the sort key it was ordered by |
| XmlTransform.TransformAllWithKey | src/PortableRest/RestClient.cs:288-293 | transforming the children and then keeping those with one key is transforming only the children with that key |
| XmlTransform.TransformSortsChildren | src/PortableRest/RestClient.cs:286-293 | the rebuilt children are the transforms of the stably sorted prepared children: for every key, the children with that key are the transforms of the prepared children with that key, in document order; text and other nodes pass through in sorted order |
| XmlTransform.TransformAllKeepsNonElements | src/PortableRest/RestClient.cs:289-293 | text and other non-element children pass through unchanged, in order |
| XmlTransform.TransformNormalized | src/PortableRest/RestClient.cs:261-294 | the result has, at every depth, no namespaces, no attributes and children ordered by key |
| XmlTransform.AttributeKeepsElement | src/PortableRest/RestClient.cs:266-284 | emptiness is judged after the attribute copy, so an element with attributes is never dropped |
| XmlTransform.EmptiedElementIsKept | src/PortableRest/RestClient.cs:284-293 | an element whose only child is empty is kept, but with no children |
| Parameters.New | src/PortableRest/EncodedParameter.cs:45-50 | the two-argument constructor keeps the key and value and selects URI encoding |
| Parameters.NewWithEncoding | src/PortableRest/EncodedParameter.cs:58-61 | the three-argument constructor uses the given encoding |
| Parameters.GetEncodedValue | src/PortableRest/EncodedParameter.cs:67-91 | Base64 and ByteArray fail with the "must be passed in as a stream" ArgumentException for a non-stream; ByteArray gives the bytes; Unencoded gives `ToString()`; Unencoded and UriEncoded fail on null |
| Parameters.Base64ValueRoundTrip | src/PortableRest/EncodedParameter.cs:74-78 | a Base64 parameter decodes back to the stream's bytes |
| Parameters.UriEncodedValueRoundTrip | src/PortableRest/EncodedParameter.cs:86-88 | a URI-encoded parameter unescapes back to the value's `ToString()` and holds only unreserved characters and escapes |
| Parameters.UriEncodedKeepsUnreserved | src/PortableRest/EncodedParameter.cs:86-88 | a value of unreserved characters is sent as it is |
| Requests.RestRequest.constructor | src/PortableRest/RestRequest.cs:55-60 | a new request is a GET with no segments, no parameters and no resource |
| Requests.RestRequest.WithResource | src/PortableRest/RestRequest.cs:67-71 | the resource and method are those given; the lists start empty |
| Requests.RestRequest.WithIgnoreRoot | src/PortableRest/RestRequest.cs:79-82 | as above, and `IgnoreRootElement` is the flag given |
| Requests.RestRequest.AddUrlSegment | src/PortableRest/RestRequest.cs:91-94 | appends the segment and changes nothing else |
| Requests.RestRequest.AddParameter | src/PortableRest/RestRequest.cs:101-104 | appends the parameter and changes nothing else |
| Requests.RestRequest.GetFormattedResource | src/PortableRest/RestRequest.cs:111-129 | returns the specified formatted resource and stores it back; on failure the resource keeps the replacements already made |
| Requests.ReplaceSegmentsInOrder | src/PortableRest/RestRequest.cs:113-116 | segments apply in insertion order, and the first failure stops the loop |
| Requests.OneSegment | src/PortableRest/RestRequest.cs:112-115 | one segment cuts the resource at the occurrences of its token into token-free pieces that rejoin to the resource, and the result is those pieces joined by the `EscapeUriString` value |
| Requests.AbsentTokenKeepsResource | src/PortableRest/RestRequest.cs:115 | a resource without the token is unchanged |
| Requests.NullResourceFails | src/PortableRest/RestRequest.cs:113-116 | a null resource with a segment fails, with NullReferenceException when the value is not null |
| Requests.StripsOneSlash | src/PortableRest/RestRequest.cs:118-121 | one leading slash is removed even without a base URL |
| Requests.JoinsBase | src/PortableRest/RestRequest.cs:123-126 | with a non-empty base URL the result is the base, or the base, `/` and the resource, and it always starts with the base |
| Requests.NotIdempotent | src/PortableRest/RestRequest.cs:115-128 | a second call with the same base URL prefixes the base once more |
| Requests.LaterSegmentSeesEarlierResult | src/PortableRest/RestRequest.cs:113-116 | a later segment can match a token that an earlier replacement completed |
| Enumerables.Aggregate | src/PortableRest/Extensions/EnumerableExtensions.cs:20-49 | a null source is reported before a null function, and both before an empty source; otherwise the left fold from the first element, and a single element is returned as is |
| Enumerables.AggregateSeeded | src/PortableRest/Extensions/EnumerableExtensions.cs:61-72 | a null source, then a null function, is reported; otherwise it succeeds, and an empty source gives the seed |
| Enumerables.AggregateSelect | src/PortableRest/Extensions/EnumerableExtensions.cs:85-101 | the null checks run in order source, function, selector; the result is the selector applied to the seeded fold |
| Enumerables.SeededAppend | src/PortableRest/Extensions/EnumerableExtensions.cs:61-72 | aggregating `s + t` continues from the aggregate of `s` |
| Responses.NewRestResponse | src/PortableRest/RestResponse.cs:22-52 | a null message is refused with ArgumentNullException("httpResponseMessage"); otherwise both getters return what was passed in |
| Clients.InheritDefaults | src/PortableRest/RestClient.cs:305-315 | only the date format and JSON settings of the request can change |
| Clients.InheritDefaultsPrecedence | src/PortableRest/RestClient.cs:305-315 | the request's own non-blank date format and non-null JSON settings win, blank ones take the client's, and filling in twice changes nothing more |
| Clients.ClientHeaderLines | src/PortableRest/RestClient.cs:331-335 | one line per client header, in order, with the same keys |
| Clients.RequestHeaderLines | src/PortableRest/RestClient.cs:338-342 | fails with NullReferenceException exactly when some header value is null; otherwise every header is sent, in order, with its value |
| Clients.PartOf | src/PortableRest/RestClient.cs:361-383 | a file part needs a stream and is named after its key; its file name is the given one when that is not blank, and absent otherwise; a byte-array field is the stream's bytes (`BytesPart`); other parts fail exactly when encoding fails and carry the encoded value's `ToString()` |
| Clients.Parts | src/PortableRest/RestClient.cs:359-386 | the multipart body exists exactly when every part does, with one part per parameter in order |
| Clients.PartsFirstFailure | src/PortableRest/RestClient.cs:361-383 | a failing multipart body fails with the exception of its first failing parameter |
| Clients.Body | src/PortableRest/RestClient.cs:345-392 | GET, HEAD and TRACE (ignoring case) carry no body; form, JSON and XML send the serialized body with its media type; a byte-array request without parameters has none, and with parameters it sends the first parameter's bytes exactly when that parameter is a byte-array stream, failing otherwise with its encoding error or `ArgumentNullException("content")`; a multipart request sends the parts `Parts` builds, or fails with its error |
| Clients.RequestMessage | src/PortableRest/RestClient.cs:328-392 | the message has the request's method and the URI; the client's headers come before the request's; a failing request header stops the request before the body; the content is the body |
| Clients.ByteArrayUsesFirstParameterOnly | src/PortableRest/RestClient.cs:348-355 | a byte-array body depends on the first parameter alone |
| Clients.MultipartFieldRoundTrip | src/PortableRest/RestClient.cs:379-382 | a URI-encoded multipart field is named after its key and unescapes back to its value |
| Clients.MessageHeadersInOrder | src/PortableRest/RestClient.cs:330-342 | the message holds the client's headers, then the request's headers, each with its own key and value |
| Clients.BuildRequestHeaders | src/PortableRest/RestClient.cs:338-342 | the header loop computes exactly the specified request headers |
| Clients.BuildParts | src/PortableRest/RestClient.cs:359-386 | the multipart loop computes exactly the specified parts |
| Clients.BuildBody | src/PortableRest/RestClient.cs:345-392 | the body computed is exactly the specified body |
| Clients.GetRawResponseContent | src/PortableRest/RestClient.cs:422-430 | content is read exactly for a 2xx status other than 204 |
| Clients.FirstElement | src/PortableRest/RestClient.cs:484 | the first child element in document order, or none exactly when there is no child element |
| Clients.XmlStart | src/PortableRest/RestClient.cs:483-484 | a parse failure is an `XmlException`; without `IgnoreRootElement` the start is the parsed root; with it, the start is the first child element of the root, and a root without child elements gives the "Sequence contains no elements" failure |
| Clients.TransformedRoot | src/PortableRest/RestClient.cs:483-486 | what the serializer reads is an element normalized as `Transform` promises |
| Clients.DeserializeApplicationXml | src/PortableRest/RestClient.cs:472-506 | a parse or transform failure propagates; a serialization failure of the serializer is wrapped in a `PortableRestException` naming the node it stopped on; any other serializer exception passes through unwrapped |
| Clients.DeserializeResponseContent | src/PortableRest/RestClient.cs:440-463 | a response without a content type fails with NullReferenceException; `application/xml` and `text/xml` take the XML path; any other media type returns the JSON deserializer's value, wraps its serialization failure in a `PortableRestException`, and passes any other exception through |
| Clients.XmlIgnoresJson | src/PortableRest/RestClient.cs:443-447 | `application/xml` and `text/xml` go to the XML path and never reach the JSON deserializer |
| Clients.JsonIgnoresXml | src/PortableRest/RestClient.cs:452-460 | other media types never reach the XML parser; a JSON serialization error becomes PortableRestException |
| Clients.IgnoredRootNeedsChildElement | src/PortableRest/RestClient.cs:484 | skipping a root that has no child element fails with "Sequence contains no elements" |
| Clients.RootWithAttributesIsRead | src/PortableRest/RestClient.cs:483-484 | a root whose attributes are copied is never dropped, and is read under its local name |
| Clients.GetResponseContent | src/PortableRest/RestClient.cs:404-415 | no content without a raw body; the raw string for `string` or `ReturnRawString` (null for an unrelated type); otherwise the deserialized value, null when the deserializer gives null, and the deserializer's error when it fails |
| Clients.RestClient.constructor | src/PortableRest/RestClient.cs:90-99 | a new client has no headers, no date format and no JSON settings |
| Clients.RestClient.AddHeader | src/PortableRest/RestClient.cs:122-125 | appends the header and changes nothing else |
| Clients.RestClient.BuildClientHeaders | src/PortableRest/RestClient.cs:331-335 | the client-header loop computes the specified header lines |
| Clients.RestClient.GetHttpResponseMessage | src/PortableRest/RestClient.cs:303-395 | the request gets the client's defaults, and the message is the one specified for the updated request |
| Clients.RestClient.ExecuteAsync | src/PortableRest/RestClient.cs:168-175 | a message failure propagates, a non-2xx status fails with its code, and otherwise the content is read |
| Authentication.Credentials | src/PortableRest/Authentication/BasicAuthenticator.cs:40 | `username:password`, with the colon right after the user name and null printed as empty |
| Authentication.AuthorizationValue | src/PortableRest/Authentication/BasicAuthenticator.cs:40-41 | the header value is `Basic ` followed by text that Base 64-decodes to the UTF-8 bytes of `username:password`, which decode back to that string |
| Authentication.BasicAuthenticator.constructor | src/PortableRest/Authentication/BasicAuthenticator.cs:24-28 | keeps the user name and password |
| Authentication.BasicAuthenticator.Authenticate | src/PortableRest/Authentication/BasicAuthenticator.cs:36-45 | appends one `Authorization` header to the client and changes nothing else |
| Authentication.TokenDecodes | src/PortableRest/Authentication/BasicAuthenticator.cs:40 | the token decodes (Base 64, then UTF-8) back to `username:password` |
| Authentication.CredentialsSplit | src/PortableRest/Authentication/BasicAuthenticator.cs:40 | a user name without a colon is recovered by splitting at the first colon |
| Authentication.NullIsEmpty | src/PortableRest/Authentication/BasicAuthenticator.cs:40 | a null user name or password authenticates as the empty one |
| Authentication.UserUPasswordP | src/PortableRest/Authentication/BasicAuthenticator.cs:36-45 | user `u` with password `p` sends `Basic dTpw` |
| PortableRestJs.NewRequestState | src/PortableRestJs/portableRest.js:113-119 | a new request has no segments, parameters or credentials, is form-urlencoded, and defaults to GET and `""` for missing or empty arguments |
| PortableRestJs.RestRequest.constructor | src/PortableRestJs/portableRest.js:98-120 | `new RestRequest(resource, method)` leaves the state specified above |
| PortableRestJs.RestRequestWithoutNewAsWritten | src/PortableRestJs/portableRest.js:108-111 | calling without `new` throws a ReferenceError for `ignoreRoot` |
| PortableRestJs.RestRequestWithoutNew | src/PortableRestJs/portableRest.js:108-111 | calling without `new` gives the same request as with it |
| PortableRestJs.RestRequest.AddUrlSegment | src/PortableRestJs/portableRest.js:122-129 | appends the segment and changes nothing else |
| PortableRestJs.RestRequest.AddParameter | src/PortableRestJs/portableRest.js:131-138 | appends the parameter and changes nothing else |
| PortableRestJs.RestRequest.SetCredentials | src/PortableRestJs/portableRest.js:140-147 | sets the credentials and changes nothing else |
| PortableRestJs.RestRequest.ClearCredentials | src/PortableRestJs/portableRest.js:149-152 | clears the credentials and changes nothing else |
| PortableRestJs.RestRequest.GetFormattedResource | src/PortableRestJs/portableRest.js:154-178 | returns the specified formatted resource and stores it back; on failure the resource keeps the replacements already made |
| PortableRestJs.ApplySegmentsInOrder | src/PortableRestJs/portableRest.js:161-165 | segments apply in insertion order, and a failure stops the loop |
| PortableRestJs.FirstOccurrenceOnly | src/PortableRestJs/portableRest.js:164 | a token used twice is filled only at its first occurrence |
| PortableRestJs.SingleSegmentAgreesWithDotNet | src/PortableRestJs/portableRest.js:164 | for a token that occurs once and an unreserved value, the result equals the .NET one |
| PortableRestJs.NoDollarInEncoded | src/PortableRestJs/portableRest.js:164 | an encoded value never contains `$`, so `replace` inserts it literally |
| PortableRestJs.NullResource | src/PortableRestJs/portableRest.js:161-177 | a null resource throws on the first segment, and without segments it gives the base URL or null |
| PortableRestJs.StripsOneSlash | src/PortableRestJs/portableRest.js:169-174 | with a base URL, one leading slash is dropped before joining |
| PortableRestJs.EmptyBaseStillJoins | src/PortableRestJs/portableRest.js:167-175 | the empty base URL still joins, which gives a leading `/` where .NET keeps the resource |
| PortableRestJs.JsNotIdempotent | src/PortableRestJs/portableRest.js:167-177 | a second call joins the base URL once more |
| PortableRestJs.RequestBody | src/PortableRestJs/portableRest.js:180-204 | XML throws the "not yet supported" error; JSON stringifies the first parameter's value, or gives `""` without parameters |
| PortableRestJs.FormBody | src/PortableRestJs/portableRest.js:189-195 | no parameters give an empty body |
| PortableRestJs.FormFieldsOfSpec | src/PortableRestJs/portableRest.js:189-195 | the fields exist exactly when no value is null or undefined, with one `key=value` field per parameter in order; otherwise `toString` throws |
| PortableRestJs.BuildFormBody | src/PortableRestJs/portableRest.js:189-195 | the form loop computes exactly the specified body |
| PortableRestJs.RestRequest.GetRequestBody | src/PortableRestJs/portableRest.js:180-204 | returns the specified body for the request's content type |
| PortableRestJs.FieldRoundTrip | src/PortableRestJs/portableRest.js:193 | a field reads back as its key and value |
| PortableRestJs.FormBodyRoundTrip | src/PortableRestJs/portableRest.js:189-195 | a form body reads back as the parameters, in order |
| PortableRestJs.NullishParameterThrows | src/PortableRestJs/portableRest.js:193 | a null or undefined parameter value makes the body throw |
| PortableRestJs.JsonUsesFirstParameterOnly | src/PortableRestJs/portableRest.js:198-200 | JSON sends only the first parameter's value |
| PortableRestJs.Open | src/PortableRestJs/portableRest.js:269-276 | `open` fails exactly for a method that is not a token (SyntaxError) or is CONNECT, TRACE or TRACK in any case (SecurityError); otherwise it records the normalized method, the URL and the credentials, with no headers |
| PortableRestJs.NormalizeMethod | src/PortableRestJs/portableRest.js:269-276 | the method equals the given one ignoring case, and differs from it only by upper-casing one of the six standard methods |
| PortableRestJs.NormalizeMethodIdempotent | src/PortableRestJs/portableRest.js:269-276 | normalizing twice is normalizing once, and keeps a token a token |
| PortableRestJs.ForbiddenMethodsRejected | src/PortableRestJs/portableRest.js:269-276 | CONNECT, TRACE and TRACK are refused with SecurityError whatever their case |
| PortableRestJs.LibraryMethodsOpen | src/PortableRestJs/portableRest.js:18-27 | of the library's methods, DELETE, GET, HEAD, OPTIONS, POST and PUT open unchanged, and TRACE is refused with SecurityError |
| PortableRestJs.SetRequestHeader | src/PortableRestJs/portableRest.js:261-265 | a header is refused with InvalidStateError exactly before `open`; otherwise it is appended |
| PortableRestJs.SetHeadersOpened | src/PortableRestJs/portableRest.js:261-265 | on an opened request every client header is set, in order |
| PortableRestJs.SetHeadersUnsent | src/PortableRestJs/portableRest.js:261-265 | before `open` the first header throws |
| PortableRestJs.MergeCredentials | src/PortableRestJs/portableRest.js:267 | the request's credentials win, and the client's defaults fill in for none |
| PortableRestJs.AsWrittenRejectsClientHeaders | src/PortableRestJs/portableRest.js:259-265 | as written, any client header makes `execute` throw InvalidStateError |
| PortableRestJs.AsWrittenAgreesWithoutHeaders | src/PortableRestJs/portableRest.js:257-284 | without client headers the written order and the corrected order prepare the same request |
| PortableRestJs.PreparedRequest | src/PortableRestJs/portableRest.js:257-284 | `open`'s error for a refused method is thrown; otherwise the request sent has the normalized method, the formatted URL, the merged credentials and the client headers in order; POST and PUT add `Content-Type` after them and send the body; other methods send none |
| PortableRestJs.ForbiddenMethodNotSent | src/PortableRestJs/portableRest.js:269-276 | a request whose method `open` forbids, the library's own TRACE among them, throws SecurityError instead of being sent |
| PortableRestJs.CredentialsPrecedence | src/PortableRestJs/portableRest.js:267-276 | the request keeps its own credentials or takes the client's default |
| PortableRestJs.RestClient.constructor | src/PortableRestJs/portableRest.js:206-220 | a new client has the base URL `""`, no headers and no default credentials |
| PortableRestJs.RestClient.SetDefaultCredentials | src/PortableRestJs/portableRest.js:222-229 | sets the default credentials and changes nothing else |
| PortableRestJs.RestClient.ClearDefaultCredentials | src/PortableRestJs/portableRest.js:231-234 | clears the default credentials and changes nothing else |
| PortableRestJs.RestClient.AddHeader | src/PortableRestJs/portableRest.js:236-243 | appends the header and changes nothing else |
| PortableRestJs.RestClient.Execute | src/PortableRestJs/portableRest.js:245-324 | the request's new state and what is sent are exactly the corrected plan |
| PortableRestJs.ReportedStatus | src/PortableRestJs/portableRest.js:292-295 | 1223 is reported as 204, and every other status unchanged; 1223 is never reported |
| PortableRestJs.ResolveResponse | src/PortableRestJs/portableRest.js:286-321 | the callback gets the reported status; XML content with a document gets its first child, and nothing else does; without a content type, or when neither the XML nor the JSON branch applies, it gets the response text |
| PortableRestJs.JsonResponse | src/PortableRestJs/portableRest.js:302-315 | JSON content is parsed, or the text is passed with the parser's error |
| PortableRestJs.ResolveResponseAsWritten | src/PortableRestJs/portableRest.js:292-295 | as written, the callback fails exactly for status 1223 |
| PortableRestJs.StatusAliasAsWritten | src/PortableRestJs/portableRest.js:292-295 | as written, 1223 throws where 204 was intended; every other status behaves as intended |

## Left out

- Sending requests is left out. The transport, `async`/`await`, cancellation and `XMLHttpRequest.send` are outside the model. The .NET response is a parameter (`send`), and the JavaScript model stops at what is handed to `send`.
- `RestClient.SendAsync` is left out. It builds a `RestResponse` through a three-argument constructor that is not part of this model.
- `SetUserAgent`, `ConfigureHandler`, the cookie container, the handler constructor and `Dispose` are left out. They only configure the transport.
- Four foreign parts are function parameters, not models:
  - the JSON deserializer;
  - `XElement.Parse`;
  - the data-contract serializer;
  - `DateTime.ParseExact`/`XmlConvert`.

  The model states what the client does with each one's result.
- The XML round trip through a `MemoryStream` and `XmlReader` is left out. The serializer reads the transformed node directly.
- The .NET `RestRequest` members that `RestClient` reads but that are not in its file are not modelled:
  - `GetResourceUri`;
  - `GetRequestBody`;
  - `GetContentType`;
  - `Headers`;
  - `ContentType`;
  - `ReturnRawString`;
  - `IgnoreXmlAttributes`.

  `RestClient` sees them as fields of a request value (`Clients.ClientRequest`), and the resource URI is a parameter.
- Clients.RestClient.GetHttpResponseMessage: the source writes the inherited defaults into the caller's request object. The model returns the updated request instead.
- XmlTransform.Transform: the source adds the attribute copies to the input element in place. The model builds new values, so that mutation of the caller's document is not captured.
- XmlTransform.SortKey: `OrderBy` uses the culture-sensitive default string comparer, and the model orders by code point. The key of a text node is its text with `&`, `<` and `>` written as entity references (`XmlTransform.EscapeText`), as `ToString()` prints it; any other non-element node is keyed by its markup. CDATA, comments and processing instructions are one opaque node kind.
- `TryAddWithoutValidation` and `MultipartFormDataContent.Add` can reject a header or a part name. The model accepts every header and every name.
- PortableRestJs.Open: URL parsing is not modelled. A URL the browser cannot parse against the document's base also throws SyntaxError in `open`, and the model opens it; a `null` resource is passed on as it is, where the browser would open the relative URL `null`.
- PortableRestJs.SetRequestHeader: repeated header names are kept as separate lines, not combined with `, `. The header-name and header-value validation of `XMLHttpRequest` is not modelled.
- PortableRestJs.ResolveResponse: the callback is modelled only at ready state 4. A missing callback, or one that is not a function, means no callback, and that is left to the caller.
- PortableRestJs.EncodeURIComponent: lone surrogates are not modelled. `encodeURIComponent` throws a URIError on them, but strings here are sequences of scalar characters.
- XmlTransform.IsDateOrTime: lower-cases ASCII letters only. The source's `ToLower()` follows the current culture, so under a Turkish culture `TIME` lowers to `tıme` and is not taken for a time, and `İ` (U+0130) is lowered as well. Neither is modelled.
- XmlTransform.TextOf: CDATA sections, comments and processing instructions are one opaque node kind that contributes no text. `XElement.Value` includes the text of CDATA sections, so a date held in a CDATA section is reformatted in the source but not in the model.
- Requests.StripSlash: tests the first character. The source's `StartsWith("/")` is culture-sensitive: a resource that begins with a character the culture ignores, followed by `/`, counts as starting with `/`, and `Substring(1)` then removes that character, not the slash. That case is not modelled.
- Requests.ReplaceSegment: `Uri.EscapeUriString` throws a `UriFormatException` on lone surrogates and on over-long input. Strings here are sequences of scalar characters with no length limit, so those failures are not modelled.
- Parameters.GetEncodedValue: `Uri.EscapeDataString` throws a `UriFormatException` on lone surrogates and on over-long input. Those failures are not modelled, for the same reason.
- PortableRestJs.RequestBody: `stringify` stands for `JSON.stringify` as a total function to strings. In the source, `JSON.stringify(undefined)` gives `undefined`, so no body is sent, and a cyclic value throws a `TypeError`. Neither is modelled.
- JavaScript error messages depend on the engine. The model keeps only the error kind, plus the name involved.
- Clients.RootWithAttributesIsRead is weaker than a plain "always read": it is conditional on `Transform` succeeding, because a descendant's date can still fail to parse.
- Enumerables.Aggregate and the other overloads fold over a sequence. Lazy enumeration and enumerator disposal are not modelled.

## Findings

| source | as written | input that shows it | evidently intended | confidence | as-written member | corrected member |
|---|---|---|---|---|---|---|
| src/PortableRestJs/portableRest.js:108-111 | called without `new`, the constructor forwards `ignoreRoot`, which is declared nowhere | `PortableRest.RestRequest("books")` | a request for `books`, as with `new` | high, not executed | PortableRestJs.RestRequestWithoutNewAsWritten | PortableRestJs.RestRequestWithoutNew |
| src/PortableRestJs/portableRest.js:259-276 | the client's headers are set before `open`, where `setRequestHeader` throws InvalidStateError (and `open` would clear them anyway) | a client with `addHeader("X-Key", "1")`, then `execute(request)` | the client's headers sent with every request | high, not executed | PortableRestJs.AsWrittenRejectsClientHeaders | PortableRestJs.RestClient.Execute |
| src/PortableRestJs/portableRest.js:292-295 | under `"use strict"`, 204 is assigned to `client.status`, an accessor without a setter, which throws a TypeError | a response whose status is 1223 | the callback receives status 204 | medium, not executed | PortableRestJs.StatusAliasAsWritten | PortableRestJs.ReportedStatus |

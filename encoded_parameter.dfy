/**
 * `EncodedParameter`: a body parameter with its own encoding, and
 * `GetEncodedValue`, which turns the value into what goes on the wire.
 */
module Parameters {
  import opened Wrappers
  import opened Exceptions
  import opened Text
  import Base64
  import PercentEncoding

  datatype ParameterEncoding = Base64 | ByteArray | UriEncoded | Unencoded

  /**
   * A parameter's value, an `object` in the source: `null`, a stream
   * (its bytes, and its type's name, which is what its `ToString` gives),
   * or any other object, by its `ToString`.
   */
  datatype ParamValue =
    | Null
    | Stream(bytes: seq<Byte>, typeName: string)
    | Object(text: string)

  /** `ToString()` of the value; `None` for the null reference. */
  function ToText(v: ParamValue): Option<string> {
    match v
    case Null => None
    case Stream(_, typeName) => Some(typeName)
    case Object(text) => Some(text)
  }

  /** What `GetEncodedValue` returns: a byte array or a string. */
  datatype EncodedValue = Bytes(bytes: seq<Byte>) | Str(text: string)

  datatype EncodedParameter = EncodedParameter(key: string, value: ParamValue, encoding: ParameterEncoding)

  /** The two-argument constructor: URI encoding by default. */
  function New(key: string, value: ParamValue): (p: EncodedParameter)
    ensures p.key == key && p.value == value && p.encoding == UriEncoded
  {
    EncodedParameter(key, value, UriEncoded)
  }

  /** The three-argument constructor: the given encoding replaces the default. */
  function NewWithEncoding(key: string, value: ParamValue, encoding: ParameterEncoding): (p: EncodedParameter)
    ensures p.key == key && p.value == value && p.encoding == encoding
  {
    New(key, value).(encoding := encoding)
  }

  const StreamRequired := "ByteArray encoded objects must be passed in as a stream."

  function GetEncodedValue(p: EncodedParameter): (r: Result<EncodedValue, Exception>)
    ensures (p.encoding == Base64 || p.encoding == ByteArray) ==>
      (r.Err? <==> !p.value.Stream?) && (r.Err? ==> r.error == ArgumentException(StreamRequired))
    ensures (p.encoding == Unencoded || p.encoding == UriEncoded) ==>
      (r.Err? <==> p.value.Null?) && (r.Err? ==> r.error == NullReferenceException)
    ensures p.encoding == ByteArray && p.value.Stream? ==> r == Ok(Bytes(p.value.bytes))
    ensures p.encoding == Unencoded && !p.value.Null? ==> r == Ok(Str(ToText(p.value).value))
  {
    match p.encoding
    case Base64 =>
      if !p.value.Stream? then Err(ArgumentException(StreamRequired))
      else Ok(Str(Base64.Encode(p.value.bytes)))
    case ByteArray =>
      if !p.value.Stream? then Err(ArgumentException(StreamRequired))
      else Ok(Bytes(p.value.bytes))
    case Unencoded =>
      (match ToText(p.value)
       case None => Err(NullReferenceException)
       case Some(t) => Ok(Str(t)))
    case UriEncoded =>
      match ToText(p.value)
      case None => Err(NullReferenceException)
      case Some(t) => Ok(Str(PercentEncoding.Escape(PercentEncoding.DataString, t)))
  }

  /** A Base64 parameter decodes back to the stream's bytes. */
  lemma Base64ValueRoundTrip(p: EncodedParameter)
    requires p.encoding == Base64 && p.value.Stream?
    ensures GetEncodedValue(p).Ok? && GetEncodedValue(p).value.Str?
    ensures Base64.Decode(GetEncodedValue(p).value.text) == Some(p.value.bytes)
  {
    Base64.DecodeEncode(p.value.bytes);
  }

  /**
   * A URI-encoded parameter unescapes back to the value's string form, and
   * holds only unreserved characters, `%` and upper-case hex digits.
   */
  lemma UriEncodedValueRoundTrip(p: EncodedParameter)
    requires p.encoding == UriEncoded && !p.value.Null?
    ensures GetEncodedValue(p).Ok? && GetEncodedValue(p).value.Str?
    ensures PercentEncoding.Unescape(GetEncodedValue(p).value.text) == Some(ToText(p.value).value)
    ensures forall i :: 0 <= i < |GetEncodedValue(p).value.text| ==>
      PercentEncoding.IsEscapedChar(PercentEncoding.DataString, GetEncodedValue(p).value.text[i])
  {
    PercentEncoding.EscapeRoundTrip(PercentEncoding.DataString, ToText(p.value).value);
    PercentEncoding.EscapeAlphabet(PercentEncoding.DataString, ToText(p.value).value);
  }

  /** A value made only of unreserved characters is sent as it is. */
  lemma UriEncodedKeepsUnreserved(p: EncodedParameter)
    requires p.encoding == UriEncoded && p.value.Object?
    requires forall i :: 0 <= i < |p.value.text| ==> PercentEncoding.IsUnreserved(p.value.text[i])
    ensures GetEncodedValue(p) == Ok(Str(p.value.text))
  {
    PercentEncoding.EscapeKeepsSafeText(PercentEncoding.DataString, p.value.text);
  }
}

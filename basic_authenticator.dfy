/**
 * HTTP Basic authentication (RFC 2617, now RFC 7617): the authenticator adds an
 * `Authorization` header whose value is `Basic ` followed by the Base 64
 * encoding of the UTF-8 bytes of `username:password`.
 */
module Authentication {
  import opened Wrappers
  import opened Text
  import Base64
  import Utf8
  import Clients

  const AuthorizationHeaderName := "Authorization"

  /** `string.Format` prints a null argument as the empty string. */
  function FormatArg(s: Option<string>): string {
    if s.Some? then s.value else ""
  }

  /** The user-pass string `username:password`. */
  function Credentials(username: Option<string>, password: Option<string>): (r: string)
    ensures |r| == |FormatArg(username)| + 1 + |FormatArg(password)|
    ensures r[|FormatArg(username)|] == ':'
  {
    FormatArg(username) + ":" + FormatArg(password)
  }

  function Token(username: Option<string>, password: Option<string>): string {
    Base64.Encode(Utf8.Encode(Credentials(username, password)))
  }

  /**
   * The header value: the scheme, a space and the token, which decodes
   * back to `username:password`.
   */
  function AuthorizationValue(username: Option<string>, password: Option<string>): (r: string)
    ensures Text.StartsWith(r, "Basic ")
    ensures Base64.Decode(r[6..]) == Some(Utf8.Encode(Credentials(username, password)))
    ensures Utf8.Decode(Base64.Decode(r[6..]).value) == Some(Credentials(username, password))
  {
    TokenDecodes(username, password);
    "Basic " + Token(username, password)
  }

  class BasicAuthenticator {
    const username: Option<string>
    const password: Option<string>

    constructor (username: Option<string>, password: Option<string>)
      ensures this.username == username && this.password == password
    {
      this.username := username;
      this.password := password;
    }

    /** Adds the `Authorization` header to the client's headers; the request is not read. */
    method Authenticate(client: Clients.RestClient, request: Clients.ClientRequest)
      modifies client
      ensures client.headers == old(client.headers) +
        [Clients.Header(AuthorizationHeaderName, Some(AuthorizationValue(username, password)))]
      ensures client.dateFormat == old(client.dateFormat)
      ensures client.jsonSerializerSettings == old(client.jsonSerializerSettings)
    {
      client.AddHeader(AuthorizationHeaderName, Some(AuthorizationValue(username, password)));
    }
  }

  /**
   * The token is the Base 64 encoding of the credentials: decoding it and
   * then the UTF-8 gives `username:password` back.
   */
  lemma TokenDecodes(username: Option<string>, password: Option<string>)
    ensures Base64.Decode(Token(username, password)) == Some(Utf8.Encode(Credentials(username, password)))
    ensures Utf8.Decode(Base64.Decode(Token(username, password)).value) == Some(Credentials(username, password))
  {
    Base64.DecodeEncode(Utf8.Encode(Credentials(username, password)));
    Utf8.DecodeEncode(Credentials(username, password));
  }

  /**
   * A user name without a colon can be told apart from the password: the
   * first colon of the credentials is the separator.
   */
  lemma CredentialsSplit(username: Option<string>, password: Option<string>)
    requires forall i :: 0 <= i < |FormatArg(username)| ==> FormatArg(username)[i] != ':'
    ensures var c := Credentials(username, password);
      var k := |FormatArg(username)|;
      c[k] == ':' && (forall i :: 0 <= i < k ==> c[i] != ':') &&
      c[..k] == FormatArg(username) && c[k + 1..] == FormatArg(password)
  {
    var c := Credentials(username, password);
    var k := |FormatArg(username)|;
    assert c == FormatArg(username) + ":" + FormatArg(password);
    assert forall i :: 0 <= i < k ==> c[i] == FormatArg(username)[i];
    assert c[..k] == FormatArg(username);
    assert c[k + 1..] == FormatArg(password);
  }

  /** A null user name and a null password authenticate as the empty ones. */
  lemma NullIsEmpty(username: Option<string>, password: Option<string>)
    ensures AuthorizationValue(None, password) == AuthorizationValue(Some(""), password)
    ensures AuthorizationValue(username, None) == AuthorizationValue(username, Some(""))
  {
  }

  /** User `u` with password `p` sends `Basic dTpw`. */
  lemma UserUPasswordP()
    ensures AuthorizationValue(Some("u"), Some("p")) == "Basic dTpw"
  {
    var c := Credentials(Some("u"), Some("p"));
    assert c == ['u', ':', 'p'];
    Utf8.EncodeAscii(c);
    var b := Utf8.Encode(c);
    assert b == [117, 58, 112];
    Base64.EncodeThree(b);
    assert Base64.EncodeGroup(117, 58, 112) == "dTpw";
  }
}

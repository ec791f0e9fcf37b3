/**
 * HttpUtil: the slash helpers, the status check, and how makeConnection
 * prepares a request (URL and headers). Sending it is not part of this model.
 */
module HttpUtil {
  import opened Wrappers
  import opened Strings

  datatype AuthType = Basic | Token | NoAuth
  datatype HttpMethod = Get | Post | Put | Delete

  /** A prepared request: its method, final URL and headers in the order they are added. */
  datatype PreparedRequest = PreparedRequest(verb: HttpMethod, url: string, headers: seq<(string, string)>)

  predicate EndsWithSlash(s: string)
  {
    |s| > 0 && s[|s| - 1] == '/'
  }

  /** removeEndingSlash: one trailing '/' removed, anything else returned as is. */
  function RemoveEndingSlash(s: string): (r: string)
    ensures EndsWithSlash(s) ==> r + "/" == s
    ensures !EndsWithSlash(s) ==> r == s
  {
    if EndsWithSlash(s) then s[..|s| - 1] else s
  }

  /** removeTrailingSlash: despite its name, one LEADING '/' removed. */
  function RemoveTrailingSlash(s: string): (r: string)
    ensures |s| > 0 && s[0] == '/' ==> "/" + r == s
    ensures !(|s| > 0 && s[0] == '/') ==> r == s
  {
    if |s| > 0 && s[0] == '/' then s[1..] else s
  }

  /** Appending a slash and removing it again gives the original string; only one slash goes. */
  lemma EndingSlashRoundTrip(s: string)
    ensures RemoveEndingSlash(s + "/") == s
    ensures RemoveEndingSlash(s + "//") == s + "/"
  {
    assert (s + "/")[..|s|] == s;
    assert (s + "//")[..|s| + 1] == s + "/";
  }

  /** removeTrailingSlash leaves a trailing slash alone and removes one leading slash. */
  lemma TrailingSlashIsLeading(s: string)
    requires |s| > 0 && s[0] != '/'
    ensures RemoveTrailingSlash(s + "/") == s + "/"
    ensures RemoveTrailingSlash("/" + s) == s
  {
    assert ("/" + s)[1..] == s;
    assert (s + "/")[0] == s[0];
  }

  /**
   * checkSuccessBasedOnHttpCode: a client-error (4xx) or server-error (5xx)
   * code is a failure; every other code, 1xx to 3xx or out of range,
   * counts as a success.
   */
  function CheckSuccessBasedOnHttpCode(code: int): (ok: bool)
    ensures !ok <==> 400 <= code < 500 || 500 <= code < 600
  {
    !(400 <= code <= 599)
  }

  /** String.replaceAll(" ", "%20"). */
  function EncodeSpaces(s: string): (r: string)
    ensures ' ' !in r
    ensures |r| >= |s|
  {
    if s == [] then [] else (if s[0] == ' ' then "%20" else [s[0]]) + EncodeSpaces(s[1..])
  }

  /** Reads "%20" back as a space, left to right. */
  function DecodeSpaces(s: string): string
  {
    if s == [] then []
    else if |s| >= 3 && s[..3] == "%20" then " " + DecodeSpaces(s[3..])
    else [s[0]] + DecodeSpaces(s[1..])
  }

  /** Without a '%' in the input, decoding the encoded URL gives the input back. */
  lemma {:induction false} SpacesRoundTrip(s: string)
    requires '%' !in s
    ensures DecodeSpaces(EncodeSpaces(s)) == s
  {
    if s != [] {
      SpacesRoundTrip(s[1..]);
      var rest := EncodeSpaces(s[1..]);
      if s[0] == ' ' {
        assert ("%20" + rest)[..3] == "%20";
        assert ("%20" + rest)[3..] == rest;
      } else {
        assert ([s[0]] + rest)[1..] == rest;
        if |[s[0]] + rest| >= 3 {
          assert ([s[0]] + rest)[..3][0] == s[0];
        }
      }
      assert s == [s[0]] + s[1..];
    }
  }

  /** The query part: none when the payload is null or blank, else "?" and the payload. */
  function Query(payload: Option<string>): string
  {
    if payload.None? || IsBlank(payload.value) then "" else "?" + payload.value
  }

  /** The URL makeConnection builds: one trailing slash dropped, the query added, spaces encoded. */
  function BuildUrl(baseUrl: string, payload: Option<string>): (r: string)
    ensures ' ' !in r
  {
    EncodeSpaces(RemoveEndingSlash(baseUrl) + Query(payload))
  }

  /** Decoding the URL recovers the base without its final slash, followed by the query. */
  lemma BuildUrlDecodes(baseUrl: string, payload: Option<string>)
    requires '%' !in baseUrl
    requires payload.Some? ==> '%' !in payload.value
    ensures DecodeSpaces(BuildUrl(baseUrl, payload)) == RemoveEndingSlash(baseUrl) + Query(payload)
    ensures payload.None? || IsBlank(payload.value) ==> DecodeSpaces(BuildUrl(baseUrl, payload)) == RemoveEndingSlash(baseUrl)
  {
    var u := RemoveEndingSlash(baseUrl) + Query(payload);
    forall i | 0 <= i < |u| ensures u[i] != '%' {
      if i < |RemoveEndingSlash(baseUrl)| {
        assert u[i] == baseUrl[i];
      } else {
        assert u[i] in Query(payload);
      }
    }
    SpacesRoundTrip(u);
    if payload.None? || IsBlank(payload.value) {
      assert u == RemoveEndingSlash(baseUrl);
    }
  }

  /** A line terminator, which '.' in a regular expression does not match. */
  predicate IsLineTerminator(c: char)
  {
    c == '\n' || c == '\r' || c as int == 0x85 || c as int == 0x2028 || c as int == 0x2029
  }

  /** String.matches(".+:.+"): no line terminator, and a ':' with something before and after it. */
  predicate MatchesCredentials(s: string)
  {
    (forall i :: 0 <= i < |s| ==> !IsLineTerminator(s[i])) &&
    exists i :: 0 < i < |s| - 1 && s[i] == ':'
  }

  /**
   * The Authorization header makeConnection adds, if any. The Base64 encoder
   * is a parameter.
   */
  function AuthHeader(authType: AuthType, authString: string, encode: string -> string): (r: Option<string>)
    ensures authType == NoAuth <==> r.None?
  {
    match authType
    case Basic => Some("Basic " + (if MatchesCredentials(authString) then encode(authString) else authString))
    case Token => Some("Token " + authString)
    case NoAuth => None
  }

  /**
   * makeConnection: the URL as built is parsed by `new URI`, which throws a
   * URISyntaxException when `parses` rejects it; otherwise the request
   * carries the URL, "Accept-Charset: UTF-8", then the Authorization header
   * if any. The URI grammar is a parameter.
   */
  function MakeConnection(baseUrl: string, payload: Option<string>, verb: HttpMethod,
                          authType: AuthType, authString: string, encode: string -> string,
                          parses: string -> bool): (r: Result<PreparedRequest>)
    ensures r.Threw? <==> !parses(BuildUrl(baseUrl, payload))
    ensures r.Threw? ==> r.error == UriSyntax
    ensures r.Ok? ==> r.value.verb == verb && r.value.url == BuildUrl(baseUrl, payload)
    ensures r.Ok? ==> |r.value.headers| >= 1 && r.value.headers[0] == ("Accept-Charset", "UTF-8")
    ensures r.Ok? ==> (authType == NoAuth <==> |r.value.headers| == 1)
    ensures r.Ok? && authType != NoAuth ==>
      r.value.headers[1] == ("Authorization", AuthHeader(authType, authString, encode).value)
  {
    var url := BuildUrl(baseUrl, payload);
    if !parses(url) then Threw(UriSyntax)
    else
      var auth := AuthHeader(authType, authString, encode);
      Ok(PreparedRequest(verb, url,
                         [("Accept-Charset", "UTF-8")] + (if auth.None? then [] else [("Authorization", auth.value)])))
  }

  /** Characters java.net.URI never accepts unescaped in a URL. */
  predicate IllegalInUri(c: char)
  {
    c == '"' || c == '<' || c == '>' || c == '|' || c == '\\' || c == '^' || c == '`' || c == '{' || c == '}'
  }

  /** EncodeSpaces keeps every character other than a space. */
  lemma {:induction false} EncodeKeeps(s: string, c: char)
    requires c != ' ' && c in s
    ensures c in EncodeSpaces(s)
  {
    if s[0] != c {
      EncodeKeeps(s[1..], c);
    }
  }

  /**
   * A base URL holding a character the URI grammar refuses makes
   * makeConnection throw: encoding the spaces does not remove it.
   */
  lemma IllegalBaseThrows(baseUrl: string, payload: Option<string>, verb: HttpMethod, authType: AuthType,
                          authString: string, encode: string -> string, parses: string -> bool, i: nat)
    requires forall u, k :: 0 <= k < |u| && parses(u) ==> !IllegalInUri(u[k])
    requires i < |baseUrl| && IllegalInUri(baseUrl[i])
    ensures MakeConnection(baseUrl, payload, verb, authType, authString, encode, parses) == Threw(UriSyntax)
  {
    var u := RemoveEndingSlash(baseUrl) + Query(payload);
    assert u[i] == baseUrl[i];
    EncodeKeeps(u, baseUrl[i]);
    var e := BuildUrl(baseUrl, payload);
    var k :| 0 <= k < |e| && e[k] == baseUrl[i];
  }

  /** Credentials "user:password" are encoded, as get and post with a user name send them. */
  lemma UserPasswordEncoded(user: string, password: string, encode: string -> string)
    requires user != [] && password != []
    requires forall i :: 0 <= i < |user| ==> !IsLineTerminator(user[i])
    requires forall i :: 0 <= i < |password| ==> !IsLineTerminator(password[i])
    ensures AuthHeader(Basic, user + ":" + password, encode) == Some("Basic " + encode(user + ":" + password))
  {
    var s := user + ":" + password;
    assert s[|user|] == ':';
    forall i | 0 <= i < |s| ensures !IsLineTerminator(s[i]) {
      if i < |user| {
        assert s[i] == user[i];
      } else if i > |user| {
        assert s[i] == password[i - |user| - 1];
      }
    }
  }

  /** getWithToken sends its token under the Basic scheme; a token without ':' goes unencoded. */
  lemma GetWithTokenUsesBasic(token: string, encode: string -> string)
    requires ':' !in token
    ensures AuthHeader(Basic, token, encode) == Some("Basic " + token)
    ensures AuthHeader(Basic, token, encode) != AuthHeader(Token, token, encode)
  {
    assert ("Basic " + token)[0] == 'B';
    assert ("Token " + token)[0] == 'T';
  }
}

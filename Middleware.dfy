/**
 * The HTTP Basic authentication gate of a Cloudflare Pages site
 * (`authHandling` in the functions middleware). For each request it throws
 * when no password is configured, answers 401 "Logged out." on `/logout`,
 * answers the 401 challenge when no credentials are sent or they are wrong,
 * answers 400 when the `Authorization` header is not `Basic <token>`, and
 * otherwise forwards to the next handler. The scheme is HTTP Basic as in
 * section 2 of RFC 7617.
 */
module Middleware {

  import opened Wrappers
  import JsString
  import SubtleCrypto

  type byte = SubtleCrypto.byte

  /** A response built by the gate itself: status, optional `WWW-Authenticate` header, body. */
  datatype Response = Response(status: int, wwwAuthenticate: Option<string>, body: string)

  /** What the gate does with a request: throw, answer it, or hand back the next handler's result. */
  datatype Outcome<D> = Throw(message: string) | Respond(response: Response) | Next(result: D)

  /** The request as the gate sees it: the URL's pathname and the `Authorization` header, if any. */
  datatype Request = Request(pathname: string, authorization: Option<string>)

  /**
   * The handler's context: the configured `PASSWORD` secret, the request and
   * what `context.next()` produces.
   */
  datatype Context<D> = Context(password: Option<string>, request: Request, next: D)

  /**
   * The runtime services the gate calls and this model does not define:
   * `Buffer.from(token, "base64").toString()` and `TextEncoder.encode`.
   */
  datatype Platform = Platform(decodeBase64: string -> string, encodeUtf8: string -> seq<byte>)

  const LogoutPath: string := "/logout"
  const MissingPassword: string := "PASSWORD secret is not set"
  /** The challenge: scheme Basic, realm "myrealm", and the charset parameter of section 2.1 of RFC 7617. */
  const Challenge: string := "Basic realm=\"myrealm\", charset=\"UTF-8\""
  const LoggedOut: Response := Response(401, None, "Logged out.")
  const MalformedHeader: Response := Response(400, None, "Malformed authorization header.")

  /** JavaScript truthiness of a value that is a string, `undefined` or `null`. */
  predicate Truthy(v: Option<string>) {
    v.Some? && v.value != ""
  }

  /** The 401 response that asks the browser for credentials. */
  function PromptToLogin(): (r: Response)
    ensures r.status == 401 && r.wwwAuthenticate == Some(Challenge)
    ensures r != LoggedOut && r != MalformedHeader
  {
    Response(401, Some(Challenge), "You need to login.")
  }

  /**
   * Compares two strings by their UTF-8 bytes; buffers of different lengths
   * are unequal without calling the constant-time primitive.
   */
  function TimingSafeEqual(a: string, b: string, encodeUtf8: string -> seq<byte>): (r: bool)
    ensures r <==> encodeUtf8(a) == encodeUtf8(b)
    ensures |encodeUtf8(a)| != |encodeUtf8(b)| ==> !r
    ensures a == b ==> r
  {
    var aBytes := encodeUtf8(a);
    var bBytes := encodeUtf8(b);
    if |aBytes| != |bBytes| then false
    else SubtleCrypto.TimingSafeEqual(aBytes, bBytes)
  }

  /** A header starting with `Basic`, one space and a non-space character. */
  ghost predicate WellFormedBasic(h: string) {
    |h| > 6 && h[..6] == "Basic " && h[6] != ' '
  }

  /** `t` is the whole run of non-space characters that starts right after `Basic `. */
  ghost predicate IsBasicToken(h: string, t: string) {
    |t| > 0 && ' ' !in t && 6 + |t| <= |h| && h[6..6 + |t|] == t
    && (6 + |t| == |h| || h[6 + |t|] == ' ')
  }

  /**
   * `const [scheme, encoded] = authorization.split(" ")` followed by the
   * check `!encoded || scheme !== "Basic"`: the encoded token, or None for a
   * malformed header.
   */
  function ParseAuthorization(authorization: string): (token: Option<string>)
    ensures token.Some? ==> token.value != "" && ' ' !in token.value
  {
    var fields := JsString.Split(authorization, ' ');
    var scheme := fields[0];
    var encoded := if |fields| >= 2 then Some(fields[1]) else None;
    if !Truthy(encoded) || scheme != "Basic" then None else encoded
  }

  /** The gate's decision for one request. */
  function AuthHandling<D>(ctx: Context<D>, platform: Platform): (o: Outcome<D>)
    ensures o.Throw? ==> o.message == MissingPassword
    ensures o.Respond? ==> o.response in {LoggedOut, PromptToLogin(), MalformedHeader}
    ensures o.Respond? && o.response.wwwAuthenticate.Some? ==> o.response == PromptToLogin()
    ensures o.Next? ==> o.result == ctx.next
  {
    var password := ctx.password;
    if !Truthy(password) then Throw(MissingPassword)
    else if ctx.request.pathname == LogoutPath then Respond(LoggedOut)
    else
      var authorization := ctx.request.authorization;
      if !Truthy(authorization) then Respond(PromptToLogin())
      else
        match ParseAuthorization(authorization.value)
        case None => Respond(MalformedHeader)
        case Some(encoded) =>
          var credentials := platform.decodeBase64(encoded);
          if !TimingSafeEqual(credentials, password.value, platform.encodeUtf8) then Respond(PromptToLogin())
          else Next(ctx.next)
  }

  /** The comparison is symmetric: it is equality of the encoded bytes. */
  lemma TimingSafeEqualSymmetric(a: string, b: string, encodeUtf8: string -> seq<byte>)
    ensures TimingSafeEqual(a, b, encodeUtf8) == TimingSafeEqual(b, a, encodeUtf8)
  {
  }

  /**
   * The header parse accepts exactly `Basic`, one space and a non-space
   * character, and then yields the run of non-space characters after the space.
   */
  lemma ParseAuthorizationAccepts(h: string)
    ensures ParseAuthorization(h).Some? <==> WellFormedBasic(h)
    ensures ParseAuthorization(h).Some? ==> IsBasicToken(h, ParseAuthorization(h).value)
  {
    var fields := JsString.Split(h, ' ');
    if WellFormedBasic(h) {
      assert h == "Basic" + [' '] + h[6..];
      JsString.SplitAtFirstSeparator("Basic", ' ', h[6..]);
    }
    if |fields| == 1 {
      JsString.SplitSingleField(h, ' ');
      assert |h| > 6 ==> h[5] in h;
    } else {
      JsString.SplitAfterFirstField(h, ' ');
      if fields[0] == "Basic" {
        var q := h[6..];
        assert JsString.Split(q, ' ')[0] == fields[1];
        assert h[..6] == "Basic ";
      }
    }
  }

  /** At most one token can follow `Basic ` in a header. */
  lemma BasicTokenUnique(h: string, t1: string, t2: string)
    requires IsBasicToken(h, t1) && IsBasicToken(h, t2)
    ensures t1 == t2
  {
  }

  /** Only the first two space-separated fields are read: whatever follows a further space is ignored. */
  lemma ParseIgnoresLaterFields(scheme: string, token: string, rest: string)
    requires ' ' !in scheme && ' ' !in token
    ensures ParseAuthorization(scheme + " " + token + " " + rest) == ParseAuthorization(scheme + " " + token)
  {
    JsString.SplitAtFirstSeparator(scheme, ' ', token + " " + rest);
    assert scheme + " " + token + " " + rest == scheme + [' '] + (token + [' '] + rest);
    JsString.SplitAtFirstSeparator(token, ' ', rest);
    JsString.SplitAtFirstSeparator(scheme, ' ', token);
    JsString.SplitNoSeparator(token, ' ');
  }

  /** A header that is only the scheme has no token. */
  lemma ParseSchemeOnly()
    ensures ParseAuthorization("Basic") == None
  {
  }

  /** Two spaces after the scheme make the second field empty. */
  lemma ParseDoubleSpace()
    ensures ParseAuthorization("Basic  x") == None
  {
  }

  /** The scheme is compared case-sensitively. */
  lemma ParseLowerCaseScheme()
    ensures ParseAuthorization("basic x") == None
  {
  }

  /** Other schemes are malformed. */
  lemma ParseBearer()
    ensures ParseAuthorization("Bearer abc") == None
  {
  }

  /** A third field is dropped. */
  lemma ParseThirdField()
    ensures ParseAuthorization("Basic abc def") == Some("abc")
  {
    var h := "Basic abc";
    assert "Basic" + " " + "abc" == h;
    assert h + " " + "def" == "Basic abc def";
    ParseIgnoresLaterFields("Basic", "abc", "def");
    ParseAuthorizationAccepts(h);
    assert h[6..9] == "abc";
    BasicTokenUnique(h, ParseAuthorization(h).value, "abc");
  }

  /** Without a password the gate throws, whatever the request and the platform. */
  lemma NoPasswordThrows<D>(ctx: Context<D>, platform: Platform)
    requires !Truthy(ctx.password)
    ensures AuthHandling(ctx, platform) == Throw(MissingPassword)
  {
  }

  /** `/logout` answers 401 without a challenge, even when valid credentials are sent. */
  lemma LogoutNeverChallenges<D>(ctx: Context<D>, platform: Platform)
    requires Truthy(ctx.password) && ctx.request.pathname == LogoutPath
    ensures AuthHandling(ctx, platform) == Respond(LoggedOut)
    ensures LoggedOut.status == 401 && LoggedOut.wwwAuthenticate.None?
  {
  }

  /** A missing or empty `Authorization` header gets the challenge. */
  lemma MissingHeaderChallenges<D>(ctx: Context<D>, platform: Platform)
    requires Truthy(ctx.password) && ctx.request.pathname != LogoutPath
    requires !Truthy(ctx.request.authorization)
    ensures AuthHandling(ctx, platform) == Respond(PromptToLogin())
  {
  }

  /** A present header gets 400 exactly when it is not `Basic`, one space and a non-space character. */
  lemma MalformedHeaderRejected<D>(ctx: Context<D>, platform: Platform)
    requires Truthy(ctx.password) && ctx.request.pathname != LogoutPath
    requires Truthy(ctx.request.authorization)
    ensures AuthHandling(ctx, platform) == Respond(MalformedHeader)
            <==> !WellFormedBasic(ctx.request.authorization.value)
  {
    ParseAuthorizationAccepts(ctx.request.authorization.value);
  }

  /** A well-formed header with the wrong credentials is answered like a request without one. */
  lemma WrongCredentialsLikeMissing<D>(ctx: Context<D>, platform: Platform, token: string)
    requires Truthy(ctx.password) && ctx.request.pathname != LogoutPath
    requires ctx.request.authorization.Some? && WellFormedBasic(ctx.request.authorization.value)
    requires IsBasicToken(ctx.request.authorization.value, token)
    requires platform.encodeUtf8(platform.decodeBase64(token)) != platform.encodeUtf8(ctx.password.value)
    ensures AuthHandling(ctx, platform) == Respond(PromptToLogin())
    ensures AuthHandling(ctx, platform) == AuthHandling(ctx.(request := ctx.request.(authorization := None)), platform)
  {
    var h := ctx.request.authorization.value;
    ParseAuthorizationAccepts(h);
    BasicTokenUnique(h, ParseAuthorization(h).value, token);
  }

  /**
   * The request reaches the next handler exactly when a password is set, the
   * path is not `/logout`, the header is a well-formed Basic header and its
   * whole decoded token has the password's bytes; the next handler's result
   * is then returned unchanged.
   */
  lemma ForwardsOnlyAuthenticated<D>(ctx: Context<D>, platform: Platform)
    ensures AuthHandling(ctx, platform).Next?
            <==> Truthy(ctx.password) && ctx.request.pathname != LogoutPath
                 && Truthy(ctx.request.authorization)
                 && WellFormedBasic(ctx.request.authorization.value)
                 && exists token :: IsBasicToken(ctx.request.authorization.value, token)
                                    && platform.encodeUtf8(platform.decodeBase64(token))
                                       == platform.encodeUtf8(ctx.password.value)
    ensures AuthHandling(ctx, platform).Next? ==> AuthHandling(ctx, platform) == Next(ctx.next)
  {
    if Truthy(ctx.request.authorization) {
      var h := ctx.request.authorization.value;
      ParseAuthorizationAccepts(h);
      if WellFormedBasic(h) {
        forall token | IsBasicToken(h, token)
          ensures token == ParseAuthorization(h).value
        {
          BasicTokenUnique(h, ParseAuthorization(h).value, token);
        }
      }
    }
  }

  /** The header `Basic <token>` parses to `<token>` when the token has no space. */
  lemma ParseBasicToken(token: string)
    requires |token| > 0 && ' ' !in token
    ensures ParseAuthorization("Basic " + token) == Some(token)
  {
    var h := "Basic " + token;
    ParseAuthorizationAccepts(h);
    assert h[6..6 + |token|] == token;
    BasicTokenUnique(h, ParseAuthorization(h).value, token);
  }

  /** The secret `secret123`, sent base64-encoded, passes the gate. */
  lemma ExampleSecretForwarded<D>(platform: Platform, next: D)
    requires platform.decodeBase64("c2VjcmV0MTIz") == "secret123"
    ensures AuthHandling(Context(Some("secret123"), Request("/", Some("Basic c2VjcmV0MTIz")), next), platform)
            == Next(next)
  {
    ParseBasicToken("c2VjcmV0MTIz");
    assert "Basic " + "c2VjcmV0MTIz" == "Basic c2VjcmV0MTIz";
  }

  /** A wrong password is challenged, given an encoder that keeps ASCII at one byte per character. */
  lemma ExampleWrongPasswordChallenged<D>(platform: Platform, next: D)
    requires platform.decodeBase64("d3Jvbmc=") == "wrong"
    requires |platform.encodeUtf8("wrong")| == 5 && |platform.encodeUtf8("secret123")| == 9
    ensures AuthHandling(Context(Some("secret123"), Request("/", Some("Basic d3Jvbmc=")), next), platform)
            == Respond(PromptToLogin())
  {
    ParseBasicToken("d3Jvbmc=");
    assert "Basic " + "d3Jvbmc=" == "Basic d3Jvbmc=";
  }

  /** Without a header the site root is challenged, `/logout` is not, and a Bearer header is malformed. */
  lemma ExampleOtherRequests<D>(platform: Platform, next: D)
    ensures AuthHandling(Context(Some("secret123"), Request("/", None), next), platform)
            == Respond(PromptToLogin())
    ensures AuthHandling(Context(Some("secret123"), Request("/logout", None), next), platform)
            == Respond(LoggedOut)
    ensures AuthHandling(Context(Some("secret123"), Request("/", Some("Bearer abc")), next), platform)
            == Respond(MalformedHeader)
  {
  }
}

/** `ApiKeyGuard`: the key a request presents, looked for in a fixed order,
    and the check against the configured key. */
module ApiKeyGuard {
  import opened Common
  import opened Text

  /** A header or query value as Express hands it over: absent, a string, or
      something else (a repeated header or parameter arrives as an array). */
  datatype Param = Missing | Str(s: string) | NotString

  /** The parts of a request the guard reads. */
  datatype Request = Request(authorization: Option<string>, xApiKey: Param, apiKeyQuery: Param)

  /** `p && typeof p === 'string'` */
  predicate NonEmptyString(p: Param)
  {
    p.Str? && p.s != ""
  }

  /** `const [type, key] = header.split(' ')`: the second word when the first
      is exactly `Bearer` or `ApiKey` and the second is not empty. */
  function KeyFromAuthorization(header: string): Option<string>
  {
    var parts := Split(header, ' ');
    if (parts[0] == "Bearer" || parts[0] == "ApiKey") && |parts| > 1 && parts[1] != "" then Some(parts[1])
    else None
  }

  /** `extractApiKey`: the Authorization header, then `x-api-key`, then the
      `api_key` query parameter. */
  function ExtractApiKey(req: Request): (key: Option<string>)
    ensures key.Some? ==> key.value != ""
  {
    if Truthy(req.authorization) && KeyFromAuthorization(req.authorization.value).Some? then
      KeyFromAuthorization(req.authorization.value)
    else if NonEmptyString(req.xApiKey) then Some(req.xApiKey.s)
    else if NonEmptyString(req.apiKeyQuery) then Some(req.apiKeyQuery.s)
    else None
  }

  /** `canActivate` with `validApiKey` the configured `config.apiKey`. */
  function CanActivate(req: Request, validApiKey: Option<string>): (r: Result<bool, Exception>)
    ensures r.Success? ==> r.value
    ensures r.Success? <==>
      ExtractApiKey(req).Some? && validApiKey.Some? && ExtractApiKey(req).value == validApiKey.value
    ensures r.Failure? ==> r.error.Unauthorized?
  {
    var apiKey := ExtractApiKey(req);
    if apiKey.None? then Failure(Unauthorized("API key is required"))
    else if !Truthy(validApiKey) then Failure(Unauthorized("API key authentication is not configured"))
    else if apiKey.value != validApiKey.value then Failure(Unauthorized("Invalid API key"))
    else Success(true)
  }

  /** The failures in their order: no key presented, whatever is configured;
      then no key configured; then a different key. */
  lemma CanActivateFailures(req: Request, validApiKey: Option<string>)
    ensures ExtractApiKey(req).None? ==>
      CanActivate(req, validApiKey) == Failure(Unauthorized("API key is required"))
    ensures ExtractApiKey(req).Some? && !Truthy(validApiKey) ==>
      CanActivate(req, validApiKey) == Failure(Unauthorized("API key authentication is not configured"))
    ensures ExtractApiKey(req).Some? && Truthy(validApiKey) && ExtractApiKey(req).value != validApiKey.value ==>
      CanActivate(req, validApiKey) == Failure(Unauthorized("Invalid API key"))
  {
  }

  /** The pieces of `s + [sep] + rest` when `s` has no separator and `rest`
      starts a new piece: `s` is the first and `rest`'s first piece follows. */
  lemma FirstTwoPieces(s: string, sep: char, key: string, tail: string)
    requires sep !in s && sep !in key && (tail == [] || tail[0] == sep)
    ensures |Split(s + [sep] + key + tail, sep)| >= 2
    ensures Split(s + [sep] + key + tail, sep)[0] == s
    ensures Split(s + [sep] + key + tail, sep)[1] == key
  {
    assert s + [sep] + key + tail == s + [sep] + (key + tail);
    SplitAfterHead(s, sep, key + tail);
    if tail == [] {
      assert key + tail == key;
      SplitWithoutSeparator(key, sep);
    } else {
      assert key + tail == key + [sep] + tail[1..];
      SplitAfterHead(key, sep, tail[1..]);
    }
  }

  /** `Bearer <key>` and `ApiKey <key>` give the key, whatever words follow. */
  lemma AuthorizationGivesKey(scheme: string, key: string, tail: string)
    requires scheme == "Bearer" || scheme == "ApiKey"
    requires key != [] && ' ' !in key && (tail == [] || tail[0] == ' ')
    ensures KeyFromAuthorization(scheme + " " + key + tail) == Some(key)
  {
    assert ' ' !in scheme;
    FirstTwoPieces(scheme, ' ', key, tail);
  }

  /** Conversely, a key is taken from the header only when the header is the
      scheme, one space and the key, then the end or another space. */
  lemma AuthorizationKeyShape(header: string)
    requires KeyFromAuthorization(header).Some?
    ensures var key := KeyFromAuthorization(header).value;
      && key != [] && ' ' !in key
      && (StartsWith(header, "Bearer " + key) || StartsWith(header, "ApiKey " + key))
      && (|header| == 7 + |key| || header[7 + |key|] == ' ')
  {
    var parts := Split(header, ' ');
    var key := parts[1];
    SplitJoin(header, ' ');
    var rest := Join(parts[2..], " ");
    assert header == parts[0] + " " + Join(parts[1..], " ");
    if |parts| == 2 {
      assert Join(parts[1..], " ") == key;
      assert header == parts[0] + " " + key;
    } else {
      assert parts[1..][1..] == parts[2..];
      assert Join(parts[1..], " ") == key + " " + rest;
      assert header == parts[0] + " " + key + " " + rest;
      assert header[7 + |key|] == ' ';
    }
    assert header[..7 + |key|] == parts[0] + " " + key;
  }

  /** A header that yields no key is as good as no header: the other sources
      are consulted. */
  lemma MalformedAuthorizationFallsThrough(req: Request)
    requires req.authorization.Some? && KeyFromAuthorization(req.authorization.value).None?
    ensures ExtractApiKey(req) == ExtractApiKey(req.(authorization := None))
  {
  }

  /** A key from the header wins over the other sources, and `x-api-key`
      wins over the query parameter. */
  lemma ApiKeySourcePriority(req: Request)
    ensures req.authorization.Some? && KeyFromAuthorization(req.authorization.value).Some? ==>
      ExtractApiKey(req) == KeyFromAuthorization(req.authorization.value)
    ensures ExtractApiKey(req.(authorization := None)) ==
      if NonEmptyString(req.xApiKey) then Some(req.xApiKey.s)
      else if NonEmptyString(req.apiKeyQuery) then Some(req.apiKeyQuery.s)
      else None
  {
    if req.authorization.Some? && KeyFromAuthorization(req.authorization.value).Some? {
      assert req.authorization.value != "";
    }
  }
}

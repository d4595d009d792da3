/** `GoogleAuthService`: the OAuth client's configuration, the consent URL,
    and the token record kept in a file, refreshed when it has expired.  The
    file is the `stored` slot (absent when it is missing or unreadable);
    Google's token endpoint is an input. */
module GoogleAuth {
  import opened Common

  /** The token record, as far as the service reads it. */
  datatype Tokens = Tokens(accessToken: Option<string>, refreshToken: Option<string>, expiryDate: Option<int>)

  /** What `new OAuth2Client(clientId, clientSecret, redirectUri)` is given. */
  datatype OAuthClient = OAuthClient(clientId: string, clientSecret: string, redirectUri: string)

  datatype Settings = Settings(client: OAuthClient, tokenPath: string)

  /** The options of `generateAuthUrl`. */
  datatype AuthUrlOptions = AuthUrlOptions(accessType: string, scope: seq<string>, prompt: string)

  const DefaultTokenPath: string := "./tokens.json"

  const MissingConfiguration: string := "Missing required Google OAuth configuration"

  /** Read and modify mail, read mail, files created by the app, spreadsheets. */
  const Scopes: seq<string> := [
    "https://www.googleapis.com/auth/gmail.modify",
    "https://www.googleapis.com/auth/gmail.readonly",
    "https://www.googleapis.com/auth/drive.file",
    "https://www.googleapis.com/auth/spreadsheets"
  ]

  /** The constructor's reading of the configuration. */
  function Configure(clientId: Option<string>, clientSecret: Option<string>, redirectUri: Option<string>,
                     tokenDbPath: Option<string>): (r: Result<Settings, Exception>)
    ensures r.Success? <==> Truthy(clientId) && Truthy(clientSecret) && Truthy(redirectUri)
    ensures r.Failure? ==> r.error == Error(MissingConfiguration)
    ensures r.Success? ==> r.value.client == OAuthClient(clientId.value, clientSecret.value, redirectUri.value)
    ensures r.Success? ==> r.value.tokenPath != ""
    ensures r.Success? && Truthy(tokenDbPath) ==> r.value.tokenPath == tokenDbPath.value
  {
    var tokenPath := OrElse(tokenDbPath, DefaultTokenPath);
    if !Truthy(clientId) || !Truthy(clientSecret) || !Truthy(redirectUri) then Failure(Error(MissingConfiguration))
    else Success(Settings(OAuthClient(clientId.value, clientSecret.value, redirectUri.value), tokenPath))
  }

  /** Without a token path configured, tokens live in `./tokens.json`. */
  lemma DefaultPath(clientId: string, clientSecret: string, redirectUri: string, tokenDbPath: Option<string>)
    requires clientId != "" && clientSecret != "" && redirectUri != "" && !Truthy(tokenDbPath)
    ensures Configure(Some(clientId), Some(clientSecret), Some(redirectUri), tokenDbPath).value.tokenPath == DefaultTokenPath
  {
  }

  function NoTokensMessage(tokenPath: string): string
  {
    "No tokens found at " + tokenPath + ". Please authorize first."
  }

  /** `(tokens.expiry_date ?? 0) < Date.now()` */
  predicate Expired(t: Tokens, now: int)
  {
    (if t.expiryDate.Some? then t.expiryDate.value else 0) < now
  }

  /** How `getClient` ends, what it leaves in the client's credentials and in
      the stored record, and whether it asked for a refresh. */
  datatype ClientStep = ClientStep(outcome: Result<(), Exception>, credentials: Option<Tokens>, stored: Option<Tokens>, refreshed: bool)

  /** `getClient` from the record `stored` and the credentials
      `credentials`, at time `now`; `refresh` is the token endpoint's answer
      to a refresh with the given credentials. */
  function ClientStepOf(tokenPath: string, stored: Option<Tokens>, credentials: Option<Tokens>, now: int,
                        refresh: Tokens -> Result<Tokens, Exception>): ClientStep
  {
    if stored.None? then ClientStep(Failure(Error(NoTokensMessage(tokenPath))), credentials, stored, false)
    else
      var tokens := stored.value;
      if !Expired(tokens, now) then ClientStep(Success(()), Some(tokens), stored, false)
      else
        match refresh(tokens)
        case Failure(e) => ClientStep(Failure(e), Some(tokens), stored, true)
        case Success(renewed) => ClientStep(Success(()), Some(renewed), Some(renewed), true)
  }

  class GoogleAuthService {
    const client: OAuthClient
    const tokenPath: string
    /** The credentials set on the OAuth client. */
    var credentials: Option<Tokens>
    /** The token file's record: absent when the file is missing or does
        not parse. */
    var stored: Option<Tokens>

    /** The service once `Configure` has accepted the configuration. */
    constructor (settings: Settings, stored: Option<Tokens>)
      ensures client == settings.client && tokenPath == settings.tokenPath
      ensures credentials == None && this.stored == stored
    {
      client := settings.client;
      tokenPath := settings.tokenPath;
      credentials := None;
      this.stored := stored;
    }

    /** `getAuthUrl`: the four scopes, offline access, the consent prompt;
        nothing changes. */
    method GetAuthUrl() returns (options: AuthUrlOptions)
      ensures options.scope == Scopes && options.accessType == "offline" && options.prompt == "consent"
    {
      var scopes := [
        "https://www.googleapis.com/auth/gmail.modify",
        "https://www.googleapis.com/auth/gmail.readonly",
        "https://www.googleapis.com/auth/drive.file",
        "https://www.googleapis.com/auth/spreadsheets"
      ];
      options := AuthUrlOptions("offline", scopes, "consent");
    }

    /** `saveTokens`: `exchange` is the token endpoint's answer to the code.
        The exchanged tokens overwrite the record; the client's credentials
        are not set. */
    method SaveTokens(exchange: Result<Tokens, Exception>) returns (r: Result<(), Exception>)
      modifies this
      ensures exchange.Success? ==> r == Success(()) && stored == Some(exchange.value)
      ensures exchange.Failure? ==> r == Failure(exchange.error) && stored == old(stored)
      ensures credentials == old(credentials)
    {
      if exchange.Failure? {
        return Failure(exchange.error);
      }
      stored := Some(exchange.value);
      return Success(());
    }

    /** `getClient`: load the record, set it on the client, and refresh it
        when it has expired, setting and storing the new tokens. */
    method GetClient(now: int, refresh: Tokens -> Result<Tokens, Exception>) returns (r: Result<(), Exception>, refreshed: bool)
      modifies this
      ensures ClientStep(r, credentials, stored, refreshed) == ClientStepOf(tokenPath, old(stored), old(credentials), now, refresh)
    {
      refreshed := false;
      if stored.None? {
        return Failure(Error("No tokens found at " + tokenPath + ". Please authorize first.")), refreshed;
      }
      var tokens := stored.value;
      credentials := Some(tokens);
      var expiry := if tokens.expiryDate.Some? then tokens.expiryDate.value else 0;
      if expiry < now {
        refreshed := true;
        var newTokens := refresh(tokens);
        if newTokens.Failure? {
          return Failure(newTokens.error), refreshed;
        }
        credentials := Some(newTokens.value);
        stored := Some(newTokens.value);
      }
      return Success(()), refreshed;
    }
  }

  // ---------------------------------------------------------------------------
  // What `getClient` promises

  /** Without a record, `getClient` fails before anything else: no refresh,
      nothing changed. */
  lemma NoTokensNoRefresh(tokenPath: string, credentials: Option<Tokens>, now: int, refresh: Tokens -> Result<Tokens, Exception>)
    ensures var step := ClientStepOf(tokenPath, None, credentials, now, refresh);
      && step.outcome == Failure(Error(NoTokensMessage(tokenPath)))
      && !step.refreshed && step.credentials == credentials && step.stored == None
  {
  }

  /** A refresh is asked for exactly when the record's expiry, 0 when it has
      none, lies strictly before `now`: a record without expiry is refreshed
      at any positive time, and one expiring at `now` is not. */
  lemma RefreshIffExpired(tokenPath: string, tokens: Tokens, credentials: Option<Tokens>, now: int,
                          refresh: Tokens -> Result<Tokens, Exception>)
    ensures var step := ClientStepOf(tokenPath, Some(tokens), credentials, now, refresh);
      step.refreshed <==> (if tokens.expiryDate.Some? then tokens.expiryDate.value else 0) < now
    ensures tokens.expiryDate.None? && now > 0 ==> ClientStepOf(tokenPath, Some(tokens), credentials, now, refresh).refreshed
    ensures tokens.expiryDate == Some(now) ==> !ClientStepOf(tokenPath, Some(tokens), credentials, now, refresh).refreshed
  {
  }

  /** After a refresh the client and the record hold the same new tokens;
      without one the client holds the record and the record is untouched. */
  lemma CredentialsFollowRecord(tokenPath: string, tokens: Tokens, credentials: Option<Tokens>, now: int,
                                refresh: Tokens -> Result<Tokens, Exception>)
    ensures var step := ClientStepOf(tokenPath, Some(tokens), credentials, now, refresh);
      && (step.refreshed && step.outcome.Success? ==>
            step.stored == step.credentials == Some(refresh(tokens).value))
      && (!step.refreshed ==> step.stored == Some(tokens) && step.credentials == Some(tokens) && step.outcome.Success?)
      && (step.outcome.Failure? ==> step.stored == Some(tokens))
  {
  }

  /** A refresh that returns tokens valid at `now` settles the record: a
      second `getClient` at the same time asks for nothing and changes
      nothing. */
  lemma RefreshSettles(tokenPath: string, tokens: Tokens, credentials: Option<Tokens>, now: int,
                       refresh: Tokens -> Result<Tokens, Exception>)
    requires var step := ClientStepOf(tokenPath, Some(tokens), credentials, now, refresh);
      step.outcome.Success? && !Expired(step.stored.value, now)
    ensures var step := ClientStepOf(tokenPath, Some(tokens), credentials, now, refresh);
      var again := ClientStepOf(tokenPath, step.stored, step.credentials, now, refresh);
      && again == ClientStep(Success(()), step.credentials, step.stored, false)
  {
  }
}

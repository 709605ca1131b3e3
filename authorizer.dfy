/**
 * The authorizer: the choice between the cached token and the interactive
 * consent flow, the consent flow's outcome and the persistence of a new
 * token (authorize, getNewToken and storeToken, index.js:37-108).
 *
 * File reads, JSON parsing and serialisation, the terminal prompt and the
 * token exchange are abstract: the file system is a map from paths to
 * bytes, parsing and serialisation are function parameters, and the
 * exchange and `mkdir` outcomes are inputs.
 */
module Authorizer {
  import opened Wrappers
  import opened Credentials

  type Bytes = seq<bv8>
  type Files = map<string, Bytes>

  /** The outcome of `fs.readFile`. */
  datatype ReadResult = ReadError | Contents(bytes: Bytes)

  /** Where the credential for this run comes from. */
  datatype TokenSource = UseCached(token: Token) | Interactive

  /** The outcome of exchanging the authorization code (`oauth2Client.getToken`). */
  datatype ExchangeResult = ExchangeError | Granted(token: Token)

  /** The outcome of `fs.mkdirSync(TOKEN_DIR)`. */
  datatype MkdirResult = Created | MkdirFailed(code: string)

  /** An exception that escapes the authorizer. */
  datatype Fault = MkdirFault(code: string) | CallbackFault

  /**
   * What one run of the authorizer did: whether the consent URL was shown and
   * a code read, the files afterwards, the tokens handed to the callback in
   * order, and the exception that escaped, if any.
   */
  datatype AuthOutcome = AuthOutcome(prompted: bool, files: Files, delivered: seq<Token>, thrown: Option<Fault>)

  const AlreadyExists := "EEXIST"

  /** `fs.readFile`: succeeds exactly when the file exists, and yields its contents. */
  function ReadFile(files: Files, path: string): (r: ReadResult)
    ensures r.Contents? <==> path in files
    ensures r.Contents? ==> r.bytes == files[path]
  {
    if path in files then Contents(files[path]) else ReadError
  }

  /**
   * A failed read or a failed parse goes to the interactive flow; otherwise
   * the parsed token is used unchanged, whatever its expiry.
   */
  function ChooseTokenSource(read: ReadResult, parse: Bytes -> Option<Token>): (src: TokenSource)
    ensures src.Interactive? <==> read.ReadError? || parse(read.bytes).None?
    ensures src.UseCached? ==> read.Contents? && parse(read.bytes) == Some(src.token)
  {
    match read
    case ReadError => Interactive
    case Contents(bytes) =>
      match parse(bytes)
      case None => Interactive
      case Some(token) => UseCached(token)
  }

  /** The `catch` around `mkdirSync`: "already exists" is swallowed, every other code is rethrown. */
  function MkdirRethrows(mkdir: MkdirResult): (thrown: Option<string>)
    ensures thrown.None? <==> mkdir.Created? || mkdir.code == AlreadyExists
    ensures thrown.Some? ==> mkdir.MkdirFailed? && thrown.value == mkdir.code
  {
    match mkdir
    case Created => None
    case MkdirFailed(code) => if code != AlreadyExists then Some(code) else None
  }

  /** storeToken: make sure the directory exists, then write the serialised token to TOKEN_PATH. */
  function StoreToken(env: Env, files: Files, serialize: Token -> Bytes, mkdir: MkdirResult, token: Token)
    : (r: Result<Files, string>)
    ensures r.Success? <==> MkdirRethrows(mkdir).None?
    ensures r.Success? ==> r.value.Keys == files.Keys + {TokenPath(env)}
    ensures r.Success? ==> r.value[TokenPath(env)] == serialize(token)
    ensures r.Success? ==> forall p :: p in files && p != TokenPath(env) ==> r.value[p] == files[p]
    ensures r.Failure? ==> mkdir.MkdirFailed? && r.error == mkdir.code
  {
    match MkdirRethrows(mkdir)
    case Some(code) => Failure(code)
    case None => Success(files[TokenPath(env) := serialize(token)])
  }

  /**
   * getNewToken after the code has been read: on an exchange error nothing
   * more happens; otherwise the token is stored and handed to the callback,
   * unless storing throws. `callbackThrows` says whether the callback throws
   * synchronously when it is invoked.
   */
  function GetNewToken(env: Env, files: Files, serialize: Token -> Bytes, exchange: ExchangeResult,
                       mkdir: MkdirResult, callbackThrows: bool): (o: AuthOutcome)
    ensures o.prompted
    ensures exchange.ExchangeError? ==> o.files == files && o.delivered == [] && o.thrown.None?
    ensures exchange.Granted? && MkdirRethrows(mkdir).Some? ==>
              o.files == files && o.delivered == [] && o.thrown == Some(MkdirFault(mkdir.code))
    ensures exchange.Granted? && MkdirRethrows(mkdir).None? ==>
              o.delivered == [exchange.token] && o.files == files[TokenPath(env) := serialize(exchange.token)]
    ensures o.thrown.None? <==> exchange.ExchangeError? || (MkdirRethrows(mkdir).None? && !callbackThrows)
    ensures o.thrown == Some(CallbackFault) <==>
              exchange.Granted? && MkdirRethrows(mkdir).None? && callbackThrows
  {
    match exchange
    case ExchangeError => AuthOutcome(true, files, [], None)
    case Granted(token) =>
      match StoreToken(env, files, serialize, mkdir, token)
      case Failure(code) => AuthOutcome(true, files, [], Some(MkdirFault(code)))
      case Success(files') =>
        AuthOutcome(true, files', [token], if callbackThrows then Some(CallbackFault) else None)
  }

  /**
   * authorize with the `catch` confined to the parse: a cached token that
   * parses is handed to the callback once and nothing else happens.
   */
  function Authorize(env: Env, files: Files, parse: Bytes -> Option<Token>, serialize: Token -> Bytes,
                     exchange: ExchangeResult, mkdir: MkdirResult, callbackThrows: bool): (o: AuthOutcome)
    ensures |o.delivered| <= 1
    ensures o.thrown.Some? && o.thrown.value.MkdirFault? ==> o.delivered == []
    ensures !o.prompted ==> o.files == files && |o.delivered| == 1
  {
    match ChooseTokenSource(ReadFile(files, TokenPath(env)), parse)
    case UseCached(token) =>
      AuthOutcome(false, files, [token], if callbackThrows then Some(CallbackFault) else None)
    case Interactive => GetNewToken(env, files, serialize, exchange, mkdir, callbackThrows)
  }

  /**
   * authorize as index.js:45-56 writes it: the `try` covers the callback as
   * well as the parse, so a callback that throws synchronously sends a run
   * with a good cached token into the interactive flow too.
   */
  function AuthorizeAsWritten(env: Env, files: Files, parse: Bytes -> Option<Token>,
                              serialize: Token -> Bytes, exchange: ExchangeResult, mkdir: MkdirResult,
                              callbackThrows: bool): (o: AuthOutcome)
    ensures |o.delivered| <= 2
    ensures !callbackThrows ==> o == Authorize(env, files, parse, serialize, exchange, mkdir, callbackThrows)
  {
    match ChooseTokenSource(ReadFile(files, TokenPath(env)), parse)
    case UseCached(token) =>
      if callbackThrows then
        var retry := GetNewToken(env, files, serialize, exchange, mkdir, callbackThrows);
        retry.(delivered := [token] + retry.delivered)
      else
        AuthOutcome(false, files, [token], None)
    case Interactive => GetNewToken(env, files, serialize, exchange, mkdir, callbackThrows)
  }

  /** A cached token that parses is used as-is: no prompt, no write, one callback with that token. */
  lemma CachedTokenUsedAsIs(env: Env, files: Files, parse: Bytes -> Option<Token>, serialize: Token -> Bytes,
                            exchange: ExchangeResult, mkdir: MkdirResult, token: Token)
    requires TokenPath(env) in files && parse(files[TokenPath(env)]) == Some(token)
    ensures Authorize(env, files, parse, serialize, exchange, mkdir, false)
              == AuthOutcome(false, files, [token], None)
  {
  }

  /** No expiry check: a cached token whose expiry date lies before `now` is still used unchanged. */
  lemma ExpiredCachedTokenStillUsed(env: Env, files: Files, parse: Bytes -> Option<Token>,
                                    serialize: Token -> Bytes, exchange: ExchangeResult, mkdir: MkdirResult,
                                    token: Token, now: int)
    requires TokenPath(env) in files && parse(files[TokenPath(env)]) == Some(token)
    requires token.expiryDate.Some? && token.expiryDate.value < now
    ensures !Authorize(env, files, parse, serialize, exchange, mkdir, false).prompted
    ensures Authorize(env, files, parse, serialize, exchange, mkdir, false).delivered == [token]
  {
    CachedTokenUsedAsIs(env, files, parse, serialize, exchange, mkdir, token);
  }

  /** A missing token file, or one that does not parse, leads to the interactive flow. */
  lemma UnusableCacheGoesInteractive(env: Env, files: Files, parse: Bytes -> Option<Token>,
                                     serialize: Token -> Bytes, exchange: ExchangeResult, mkdir: MkdirResult,
                                     callbackThrows: bool)
    requires TokenPath(env) !in files || parse(files[TokenPath(env)]).None?
    ensures Authorize(env, files, parse, serialize, exchange, mkdir, callbackThrows).prompted
  {
  }

  /** A failed code exchange returns without storing a token and without invoking the callback. */
  lemma ExchangeErrorAborts(env: Env, files: Files, parse: Bytes -> Option<Token>, serialize: Token -> Bytes,
                            mkdir: MkdirResult, callbackThrows: bool)
    requires TokenPath(env) !in files || parse(files[TokenPath(env)]).None?
    ensures Authorize(env, files, parse, serialize, ExchangeError, mkdir, callbackThrows)
              == AuthOutcome(true, files, [], None)
  {
  }

  /**
   * Round trip: a token obtained interactively and stored is picked up by the
   * next run (same environment), which neither prompts nor writes.
   */
  lemma StoredTokenReloaded(env: Env, files: Files, parse: Bytes -> Option<Token>, serialize: Token -> Bytes,
                            token: Token, mkdir: MkdirResult, exchange2: ExchangeResult, mkdir2: MkdirResult)
    requires TokenPath(env) !in files || parse(files[TokenPath(env)]).None?
    requires parse(serialize(token)) == Some(token)
    requires MkdirRethrows(mkdir).None?
    ensures var first := Authorize(env, files, parse, serialize, Granted(token), mkdir, false);
            var second := Authorize(env, first.files, parse, serialize, exchange2, mkdir2, false);
            first.prompted && first.delivered == [token] && first.thrown.None? &&
            !second.prompted && second.files == first.files && second.delivered == [token]
  {
    var first := Authorize(env, files, parse, serialize, Granted(token), mkdir, false);
    assert first.files[TokenPath(env)] == serialize(token);
    CachedTokenUsedAsIs(env, first.files, parse, serialize, exchange2, mkdir2, token);
  }

  /**
   * As written, a valid cached token and a callback that throws synchronously
   * (fetchAndSaveTemp's `config.get` on a missing key) lead to a prompt and a
   * second callback.
   */
  lemma AsWrittenPromptsDespiteCachedToken()
    ensures var env := Env(Some("/home/u"), None, None);
            var token := Token("access", None, None);
            var files := map[TokenPath(env) := [0x7b as bv8, 0x7d as bv8]];
            var o := AuthorizeAsWritten(env, files, (b: Bytes) => Some(token), (t: Token) => [],
                                        Granted(token), Created, true);
            o.prompted && o.delivered == [token, token]
  {
  }

  /** The corrected flow with the same inputs: no prompt, the callback invoked once. */
  lemma CorrectedUsesCachedTokenOnce(env: Env, files: Files, parse: Bytes -> Option<Token>,
                                     serialize: Token -> Bytes, exchange: ExchangeResult, mkdir: MkdirResult,
                                     token: Token, callbackThrows: bool)
    requires TokenPath(env) in files && parse(files[TokenPath(env)]) == Some(token)
    ensures var o := Authorize(env, files, parse, serialize, exchange, mkdir, callbackThrows);
            !o.prompted && o.files == files && o.delivered == [token] &&
            (o.thrown.Some? <==> callbackThrows)
  {
  }

  /**
   * As written, for every input: a cached token that parses, followed by a
   * callback that throws, is delivered first and then the prompt follows.
   */
  lemma AsWrittenThrowingCallbackPrompts(env: Env, files: Files, parse: Bytes -> Option<Token>,
                                         serialize: Token -> Bytes, exchange: ExchangeResult, mkdir: MkdirResult,
                                         token: Token)
    requires TokenPath(env) in files && parse(files[TokenPath(env)]) == Some(token)
    ensures var o := AuthorizeAsWritten(env, files, parse, serialize, exchange, mkdir, true);
            o.prompted && |o.delivered| >= 1 && o.delivered[0] == token
  {
  }

  /** As written and corrected agree whenever the cache is unusable, whatever the callback does. */
  lemma AsWrittenAgreesOnUnusableCache(env: Env, files: Files, parse: Bytes -> Option<Token>,
                                       serialize: Token -> Bytes, exchange: ExchangeResult, mkdir: MkdirResult,
                                       callbackThrows: bool)
    requires TokenPath(env) !in files || parse(files[TokenPath(env)]).None?
    ensures AuthorizeAsWritten(env, files, parse, serialize, exchange, mkdir, callbackThrows)
              == Authorize(env, files, parse, serialize, exchange, mkdir, callbackThrows)
  {
  }
}

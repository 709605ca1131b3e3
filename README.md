# homeheat, modelled in Dafny

homeheat is a single-shot Node.js utility. It authorises against Google Sheets with a cached OAuth2 token, falling back to an interactive consent flow when there is no usable token. It then reads the sensors of a Hue bridge and appends one spreadsheet row per temperature sensor. This project models the three pieces of logic inside that plumbing, plus the error decisions around them:

- `Credentials` (credentials.dfy): the cached-token location, `TOKEN_DIR` and `TOKEN_PATH`. The home base is computed with JavaScript `||` semantics: the first truthy of `HOME`, `HOMEPATH`, `USERPROFILE`, otherwise the last operand as string concatenation renders it (`undefined` becomes `"undefined"`).
- `Authorizer` (authorizer.dfy): `authorize`, `getNewToken` and `storeToken` as pure functions over abstract I/O outcomes:
  - the file system is a map from path to bytes;
  - JSON parsing and serialisation are function parameters;
  - the token exchange and `mkdirSync` outcomes are inputs;
  - whether the continuation throws synchronously is an input.

  Each run yields an `AuthOutcome`: whether the operator was prompted, the files afterwards, the tokens handed to the callback in order, and the exception that escaped.
- `Collector` (collector.dfy): the row-building loop of `fetchAndSaveTemp`. `AppendRequest` is the mutable request object. `FetchAndSaveTemp` is the loop that pushes rows into its `values` (the source's `resource.values`). `TemperatureRows` is the filter-map specification the loop is proved against. The lemmas about `TemperatureRows` establish:
  - only `ZLLTemperature` entries contribute;
  - each one contributes exactly one row, in iteration order;
  - no matches means no rows.

  The scaled temperature is an exact real, `raw / 100`.
- `Wrappers` (wrappers.dfy): `Option` and `Result`.

Where a reader might expect otherwise, the model follows the code:
- The home directory is the first *truthy* variable, not the first *defined* one, so an empty `HOME` falls through to `HOMEPATH`. When none is truthy, the path starts with the last variable's string form.
- A cached token is accepted whenever it parses. Nothing checks that it is structurally a token, and nothing checks its expiry.
- The `try` in `authorize` also covers the callback (see Findings).

## Model

| member | source | states |
|---|---|---|
| Credentials.OrChain | index.js:15-16 | the value of an `a \|\| b \|\| c` chain is the first truthy operand, or the string form of the last operand when none is truthy |
| Credentials.HomeBaseIsFirstTruthy | index.js:15-16 | the home base is HOME if truthy, else HOMEPATH if truthy, else USERPROFILE's value (`"undefined"` when unset) |
| Credentials.HomeBase | index.js:16 | the home base is the value of one of HOME, HOMEPATH, USERPROFILE, or `"undefined"` when USERPROFILE is unset and none is truthy |
| Credentials.TokenDir | index.js:15-17 | TOKEN_DIR starts with the home base and ends with `/.credentials/` |
| Credentials.TokenPath | index.js:18 | TOKEN_PATH starts with TOKEN_DIR and ends with `google-api-creds.json` |
| Credentials.TokenPathLayout | index.js:15-18 | TOKEN_PATH is TOKEN_DIR followed by `google-api-creds.json` and always ends with `/.credentials/google-api-creds.json` |
| Credentials.HomeBaseOfTokenPathInverts | index.js:15-18 | dropping the fixed suffix from TOKEN_PATH gives back the home base (inverse of the path construction) |
| Credentials.TokenPathInjective | index.js:15-18 | two environments share a token file exactly when they resolve to the same home base |
| Authorizer.ReadFile | index.js:45 | reading the token file succeeds exactly when the file exists, and yields its contents |
| Authorizer.ChooseTokenSource | index.js:45-55 | the interactive flow is taken if and only if the read fails or the contents do not parse; otherwise the parsed token is used unchanged |
| Authorizer.MkdirRethrows | index.js:99-105 | a `mkdir` error is swallowed if and only if its code is `EEXIST`; any other code is rethrown unchanged |
| Authorizer.StoreToken | index.js:98-106 | on success the token file holds the serialised token and every other file is unchanged; on failure the mkdir code is propagated and nothing is written |
| Authorizer.GetNewToken | index.js:68-90 | always prompts; an exchange error changes nothing and calls back nobody; a granted token is stored at the token path with every other file unchanged, then delivered once, unless storing throws; nothing is thrown exactly when the exchange fails or mkdir succeeds and the callback does not throw |
| Authorizer.Authorize | index.js:37-57 | corrected authorize: at most one callback; no prompt implies no write and exactly one callback; a mkdir fault implies no callback |
| Authorizer.AuthorizeAsWritten | index.js:45-56 | authorize as written: at most two callbacks, and identical to the corrected flow whenever the callback does not throw |
| Authorizer.CachedTokenUsedAsIs | index.js:45-51 | a cached token that parses yields no prompt, no write and exactly one callback with that token |
| Authorizer.ExpiredCachedTokenStillUsed | index.js:49-51 | an expired cached token is still used unchanged, because nothing checks expiry |
| Authorizer.UnusableCacheGoesInteractive | index.js:45-54 | a missing or unparsable token file leads to the prompt |
| Authorizer.ExchangeErrorAborts | index.js:80-84 | a failed code exchange stores nothing, invokes no callback and throws nothing |
| Authorizer.StoredTokenReloaded | index.js:45-108 | a token obtained interactively and stored is reused by the next run, which neither prompts nor writes |
| Authorizer.AsWrittenPromptsDespiteCachedToken | index.js:49-54 | as written, a valid cached token plus a throwing callback leads to a prompt and two callbacks |
| Authorizer.AsWrittenThrowingCallbackPrompts | index.js:49-54 | as written, for every input, a parsable cached token followed by a throwing callback is delivered first and then the prompt follows |
| Authorizer.AsWrittenAgreesOnUnusableCache | index.js:45-54 | as written and corrected flows coincide whenever the token file is missing or does not parse, whatever the callback does |
| Authorizer.CorrectedUsesCachedTokenOnce | index.js:49-51 | corrected: a valid cached token is delivered once without a prompt, whether or not the callback throws |
| Collector.RowOf | index.js:135-140 | a row has four cells: `lastupdated` and `uniqueid` as text, then the raw temperature and a scaled value whose 100-fold equals the raw temperature |
| Collector.TemperatureRows | index.js:132-140 | the filter-map specification yields no more rows than entries, each of four cells |
| Collector.MatchingIndices | index.js:132-133 | lists, in strictly increasing order, exactly the positions of the entries whose type is `ZLLTemperature` |
| Collector.TemperatureRowsAppend | index.js:132-140 | the rows of a concatenation of entry lists are the rows of each part, in order |
| Collector.RowsFollowMatchingEntries | index.js:132-140 | the row count equals the number of matching entries, and row j is the row of the j-th matching entry |
| Collector.OnlyTemperatureSensorsContribute | index.js:133-140 | every row comes from an entry whose type is exactly `ZLLTemperature` |
| Collector.EveryTemperatureSensorContributes | index.js:133-140 | every `ZLLTemperature` entry contributes its row |
| Collector.NoTemperatureSensorsNoRows | index.js:121-151 | `values` stays empty if and only if no entry is a temperature sensor, which includes an empty map |
| Collector.SingleReadingExample | index.js:135-140 | one reading of 2150 from sensor `AA` gives exactly the row `["2020-01-01T00:00:00", "AA", 2150, 21.5]` |
| Collector.AppendRequest.constructor | index.js:115-124 | the request starts with empty values, `INSERT_ROWS`, `USER_ENTERED` and the given spreadsheet id, range and auth |
| Collector.FetchAndSaveTemp | index.js:114-151 | the request's values equal `TemperatureRows(data)`; the insert and input options, spreadsheet id, range and auth are unchanged; the request is produced even when there are no rows |

## Left out

- The HTTP fetch of the Hue bridge and the Sheets `values.append` call (index.js:126-129, 151-159) are network I/O. `FetchAndSaveTemp` takes the parsed sensor map as input. It returns the request that is handed to the append call.
- Several library calls are abstract outcomes rather than modelled code: OAuth2 client construction, `generateAuthUrl`, the `readline` prompt and `getToken` (index.js:38-42, 69-80). The prompt is the `prompted` flag, and the exchange is an `ExchangeResult` input.
- Reading the client-secret file in `start` (index.js:166-173) and `config.get` (index.js:25-27, 116-117) are configuration I/O. Their values are parameters.
- `fs.readFile`, `fs.writeFile` and `fs.mkdirSync` are modelled only as a map from path to bytes plus an abstract `mkdir` outcome. Directories are not modelled.
- Authorizer.StoreToken: assumes a Node runtime before version 10, where `fs.writeFile` without a callback (index.js:106) is accepted and the write takes place. A failed write there is rethrown asynchronously by Node's default callback and escapes uncaught; the model does not capture that failure. On Node 10 and later the call itself throws a TypeError (invalid callback) before anything is written. `storeToken` then throws, the callback at index.js:87 never runs and no token is ever cached, so under that runtime `StoreToken`, `GetNewToken` and `StoredTokenReloaded` describe behaviour the program does not have.
- JSON parsing and serialisation are abstract function parameters. JavaScript floating point is replaced by exact reals.
- Console logging (index.js:73, 82, 107, 142-146, 153, 158) has no behaviour to verify.
- Callback and promise sequencing is flattened into one outcome per run. A sensor record that lacks `state` (a TypeError in the source) cannot be expressed in the `Sensor` datatype.
- Collector.TemperatureRows: its own contract only bounds the row count and the row width. The full characterisation is in `RowsFollowMatchingEntries`, `MatchingIndices` and the lemmas after them.

## Findings

| source | as written | input that shows it | evidently intended | confidence | as-written member | corrected member |
|---|---|---|---|---|---|---|
| index.js:49-54 | the `try` wraps both `JSON.parse(token)` and `callback(oauth2Client)`, so an exception thrown synchronously by the callback is caught and `getNewToken` runs | a cached token that parses, while `fetchAndSaveTemp` throws synchronously from `config.get('sheets.id')` on a missing key: the operator is prompted despite the valid token, and the callback runs a second time | only a parse failure should fall back to the interactive flow, so a valid cached token is delivered once and never prompts | medium, not executed | Authorizer.AsWrittenPromptsDespiteCachedToken | Authorizer.CorrectedUsesCachedTokenOnce |

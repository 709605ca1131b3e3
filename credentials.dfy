/**
 * The OAuth2 token material and the place on disk where it is cached
 * (index.js:15-18).
 */
module Credentials {
  import opened Wrappers

  /** OAuth2 token material as the Google client library stores it. */
  datatype Token = Token(accessToken: string, refreshToken: Option<string>, expiryDate: Option<int>)

  /** The three environment variables the token directory is derived from; None is `undefined`. */
  datatype Env = Env(home: Option<string>, homePath: Option<string>, userProfile: Option<string>)

  const CredentialsDir := "/.credentials/"
  const TokenFileName := "google-api-creds.json"

  /** JavaScript truthiness of an environment variable: defined and not the empty string. */
  predicate Truthy(v: Option<string>) {
    v.Some? && v.value != ""
  }

  /** What string concatenation makes of the value: `undefined + "x"` is `"undefinedx"`. */
  function JsString(v: Option<string>): string {
    match v
    case None => "undefined"
    case Some(s) => s
  }

  /** Index i holds the first truthy value of vs. */
  predicate FirstTruthyAt(vs: seq<Option<string>>, i: int) {
    0 <= i < |vs| && Truthy(vs[i]) && forall j :: 0 <= j < i ==> !Truthy(vs[j])
  }

  /**
   * The value of the JavaScript expression `vs[0] || vs[1] || ... || vs[n-1]`:
   * the first truthy operand, or the last operand when none is truthy.
   */
  function OrChain(vs: seq<Option<string>>): (r: string)
    requires |vs| > 0
    ensures forall i :: FirstTruthyAt(vs, i) ==> r == vs[i].value
    ensures (forall i :: 0 <= i < |vs| ==> !Truthy(vs[i])) ==> r == JsString(vs[|vs| - 1])
  {
    if |vs| == 1 || Truthy(vs[0]) then
      if Truthy(vs[0]) then vs[0].value else JsString(vs[0])
    else
      var rest := OrChain(vs[1..]);
      assert forall i :: FirstTruthyAt(vs, i) ==> i > 0 && FirstTruthyAt(vs[1..], i - 1);
      rest
  }

  /** `process.env.HOME || process.env.HOMEPATH || process.env.USERPROFILE` */
  function HomeBase(env: Env): (base: string)
    ensures Some(base) in [env.home, env.homePath, env.userProfile] ||
            (base == "undefined" && env.userProfile.None?)
  {
    OrChain([env.home, env.homePath, env.userProfile])
  }

  /** TOKEN_DIR */
  function TokenDir(env: Env): (dir: string)
    ensures |dir| == |HomeBase(env)| + |CredentialsDir|
    ensures dir[..|HomeBase(env)|] == HomeBase(env) && dir[|HomeBase(env)|..] == CredentialsDir
  {
    HomeBase(env) + CredentialsDir
  }

  /** TOKEN_PATH */
  function TokenPath(env: Env): (path: string)
    ensures |path| == |TokenDir(env)| + |TokenFileName|
    ensures path[..|TokenDir(env)|] == TokenDir(env) && path[|TokenDir(env)|..] == TokenFileName
  {
    TokenDir(env) + TokenFileName
  }

  /** The home base is the first truthy of HOME, HOMEPATH, USERPROFILE, in that order. */
  lemma HomeBaseIsFirstTruthy(env: Env)
    ensures Truthy(env.home) ==> HomeBase(env) == env.home.value
    ensures !Truthy(env.home) && Truthy(env.homePath) ==> HomeBase(env) == env.homePath.value
    ensures (!Truthy(env.home) && !Truthy(env.homePath) && Truthy(env.userProfile)) ==>
              HomeBase(env) == env.userProfile.value
    ensures (!Truthy(env.home) && !Truthy(env.homePath) && !Truthy(env.userProfile)) ==>
              HomeBase(env) == JsString(env.userProfile)
  {
    var vs := [env.home, env.homePath, env.userProfile];
    if Truthy(env.home) {
      assert FirstTruthyAt(vs, 0);
    } else if Truthy(env.homePath) {
      assert FirstTruthyAt(vs, 1);
    } else if Truthy(env.userProfile) {
      assert FirstTruthyAt(vs, 2);
    }
  }

  /** The token path is TOKEN_DIR followed by the file name, and always ends in the same suffix. */
  lemma TokenPathLayout(env: Env)
    ensures TokenPath(env) == TokenDir(env) + TokenFileName
    ensures TokenPath(env) == HomeBase(env) + "/.credentials/google-api-creds.json"
    ensures |TokenPath(env)| >= |"/.credentials/google-api-creds.json"|
    ensures TokenPath(env)[|TokenPath(env)| - |"/.credentials/google-api-creds.json"|..]
              == "/.credentials/google-api-creds.json"
  {
    assert CredentialsDir + TokenFileName == "/.credentials/google-api-creds.json";
    assert TokenPath(env) == HomeBase(env) + (CredentialsDir + TokenFileName);
  }

  /** Inverse of TokenPath on its first part: dropping the fixed suffix gives back the home base. */
  function HomeBaseOfTokenPath(path: string): (base: string)
    requires |path| >= |CredentialsDir + TokenFileName|
    ensures (base + CredentialsDir + TokenFileName == path) <==>
              path[|path| - |CredentialsDir + TokenFileName|..] == CredentialsDir + TokenFileName
  {
    path[..|path| - |CredentialsDir + TokenFileName|]
  }

  lemma HomeBaseOfTokenPathInverts(env: Env)
    ensures |TokenPath(env)| >= |CredentialsDir + TokenFileName|
    ensures HomeBaseOfTokenPath(TokenPath(env)) == HomeBase(env)
  {
    TokenPathLayout(env);
    var suffix := CredentialsDir + TokenFileName;
    assert TokenPath(env) == HomeBase(env) + suffix;
  }

  /** Two environments share a token file exactly when they resolve to the same home base. */
  lemma TokenPathInjective(e1: Env, e2: Env)
    ensures TokenPath(e1) == TokenPath(e2) <==> HomeBase(e1) == HomeBase(e2)
  {
    if TokenPath(e1) == TokenPath(e2) {
      HomeBaseOfTokenPathInverts(e1);
      HomeBaseOfTokenPathInverts(e2);
    }
  }
}

/** Process configuration: the strict check that the collaborators'
    credentials are set, and the configuration record read from the
    environment with its defaults. The environment is an input map. */
module Env {
  import opened Wrappers
  import opened Text

  /** `process.env`: every variable that is set, with its text. */
  type Vars = map<string, string>

  /** The credentials a strict start-up insists on, in the order reported. */
  const Required: seq<string> := ["DEEPSEEK_API_KEY", "KIE_API_KEY", "ELEVENLABS_API_KEY",
                                  "YOUTUBE_CLIENT_ID", "YOUTUBE_CLIENT_SECRET", "YOUTUBE_REFRESH_TOKEN"]

  const MissingPrefix := "Missing required environment variables: "

  const DefaultStorageBucket := "local-cache"

  /** `!process.env[key]`: the variable is absent or empty. */
  predicate Unset(vars: Vars, key: string) {
    key !in vars || vars[key] == ""
  }

  /** `r` is `keys` with some entries dropped and the rest in order. */
  ghost predicate Subsequence(r: seq<string>, keys: seq<string>)
    decreases |keys|
  {
    if |r| == 0 then true
    else if |keys| == 0 then false
    else (r[0] == keys[0] && Subsequence(r[1..], keys[1..])) || Subsequence(r, keys[1..])
  }

  /** `keys.filter((key) => !process.env[key])`. */
  function MissingFrom(keys: seq<string>, vars: Vars): (r: seq<string>)
    ensures forall k :: k in r <==> k in keys && Unset(vars, k)
    decreases |keys|
  {
    if |keys| == 0 then []
    else if Unset(vars, keys[0]) then [keys[0]] + MissingFrom(keys[1..], vars)
    else MissingFrom(keys[1..], vars)
  }

  /** The missing keys are reported in the order they are listed. */
  lemma {:induction false} MissingInOrder(keys: seq<string>, vars: Vars)
    ensures Subsequence(MissingFrom(keys, vars), keys)
    decreases |keys|
  {
    if |keys| > 0 {
      MissingInOrder(keys[1..], vars);
      var rest := MissingFrom(keys[1..], vars);
      if Unset(vars, keys[0]) {
        assert ([keys[0]] + rest)[1..] == rest;
      } else if |rest| > 0 {
        assert Subsequence(rest, keys[1..]);
      }
    }
  }

  /** The required credentials that are absent or empty, in the order
      they are listed. */
  function Missing(vars: Vars): (r: seq<string>)
    ensures forall k :: k in r <==> k in Required && Unset(vars, k)
    ensures Subsequence(r, Required)
  {
    MissingInOrder(Required, vars);
    MissingFrom(Required, vars)
  }

  /** `assertEnv(strict)`: a lenient start-up checks nothing; a strict one
      fails, naming the missing credentials, when any is absent or empty. */
  function AssertEnv(strict: bool, vars: Vars): (r: Outcome<string>)
    ensures !strict ==> r == Pass
    ensures strict ==> (r.Pass? <==> forall k :: k in Required ==> !Unset(vars, k))
    ensures r.Fail? ==> r.error == MissingPrefix + Join(Missing(vars), ", ") && |Missing(vars)| > 0
  {
    if !strict then Pass
    else
      var missing := Missing(vars);
      if |missing| > 0 then Fail(MissingPrefix + Join(missing, ", "))
      else
        assert forall k :: k in Required ==> !Unset(vars, k);
        Pass
  }

  /** The `n` characters of `text` from offset `o`. */
  function Slice(text: string, o: nat, n: nat): string
    requires o + n <= |text|
  {
    text[o..o + n]
  }

  /** `s` occurs in `text` at some offset. */
  ghost predicate Occurs(s: string, text: string) {
    exists o: nat :: o + |s| <= |text| && Slice(text, o, |s|) == s
  }

  lemma OccursExtend(s: string, text: string, before: string, after: string)
    requires Occurs(s, text)
    ensures Occurs(s, before + text + after)
  {
    var o: nat :| o + |s| <= |text| && Slice(text, o, |s|) == s;
    assert Slice(before + text + after, |before| + o, |s|) == s;
  }

  /** Each part of a joined list appears in the joined text. */
  lemma {:induction false} JoinShowsParts(parts: seq<string>, sep: string, i: nat)
    requires i < |parts|
    ensures Occurs(parts[i], Join(parts, sep))
    decreases |parts|
  {
    if |parts| == 1 {
      assert Slice(Join(parts, sep), 0, |parts[0]|) == parts[0];
    } else if i == 0 {
      assert Slice(Join(parts, sep), 0, |parts[0]|) == parts[0];
    } else {
      JoinShowsParts(parts[1..], sep, i - 1);
      OccursExtend(parts[i], Join(parts[1..], sep), parts[0] + sep, "");
      assert parts[0] + sep + Join(parts[1..], sep) + "" == Join(parts, sep);
    }
  }

  /** A strict start-up's failure message names every required credential
      that is absent or empty. */
  lemma AssertEnvNamesMissing(vars: Vars, key: string)
    requires key in Required && Unset(vars, key)
    ensures AssertEnv(true, vars).Fail?
    ensures Occurs(key, AssertEnv(true, vars).error)
  {
    var missing := Missing(vars);
    var i :| 0 <= i < |missing| && missing[i] == key;
    JoinShowsParts(missing, ", ", i);
    OccursExtend(key, Join(missing, ", "), MissingPrefix, "");
    assert MissingPrefix + Join(missing, ", ") + "" == AssertEnv(true, vars).error;
  }

  /** The configuration record `env`. */
  datatype Config = Config(isDev: bool, deepseekKey: string, kieKey: string, soraEndpoint: string,
                           soraApiKey: string, elevenLabsKey: string, youtubeClientId: string,
                           youtubeClientSecret: string, youtubeRefreshToken: string, storageBucket: string)

  /** `process.env[key]`. */
  function Lookup(vars: Vars, key: string): Option<string> {
    if key in vars then Some(vars[key]) else None
  }

  /** `process.env[key] ?? fallback`: only an absent variable takes the
      fallback; a variable set to the empty text keeps it. */
  function OrDefault(vars: Vars, key: string, fallback: string): (v: string)
    ensures key in vars ==> v == vars[key]
    ensures key !in vars ==> v == fallback
  {
    Lookup(vars, key).GetOr(fallback)
  }

  /** `v` is what `process.env[key] ?? fallback` reads: the variable's
      text when it is set, even to the empty text, and `fallback` when it
      is absent. */
  predicate ReadAs(vars: Vars, key: string, fallback: string, v: string) {
    && (key in vars ==> v == vars[key])
    && (key !in vars ==> v == fallback)
  }

  /** Read the configuration: development unless `NODE_ENV` is exactly
      "production"; every credential and the video endpoint default to the
      empty text and the storage bucket to "local-cache". */
  function LoadConfig(vars: Vars): (c: Config)
    ensures c.isDev <==> Lookup(vars, "NODE_ENV") != Some("production")
    ensures ReadAs(vars, "DEEPSEEK_API_KEY", "", c.deepseekKey)
    ensures ReadAs(vars, "KIE_API_KEY", "", c.kieKey)
    ensures ReadAs(vars, "AZURE_SORA_ENDPOINT", "", c.soraEndpoint)
    ensures ReadAs(vars, "AZURE_SORA_API_KEY", "", c.soraApiKey)
    ensures ReadAs(vars, "ELEVENLABS_API_KEY", "", c.elevenLabsKey)
    ensures ReadAs(vars, "YOUTUBE_CLIENT_ID", "", c.youtubeClientId)
    ensures ReadAs(vars, "YOUTUBE_CLIENT_SECRET", "", c.youtubeClientSecret)
    ensures ReadAs(vars, "YOUTUBE_REFRESH_TOKEN", "", c.youtubeRefreshToken)
    ensures ReadAs(vars, "STORAGE_BUCKET", DefaultStorageBucket, c.storageBucket)
  {
    Config(Lookup(vars, "NODE_ENV") != Some("production"),
           OrDefault(vars, "DEEPSEEK_API_KEY", ""),
           OrDefault(vars, "KIE_API_KEY", ""),
           OrDefault(vars, "AZURE_SORA_ENDPOINT", ""),
           OrDefault(vars, "AZURE_SORA_API_KEY", ""),
           OrDefault(vars, "ELEVENLABS_API_KEY", ""),
           OrDefault(vars, "YOUTUBE_CLIENT_ID", ""),
           OrDefault(vars, "YOUTUBE_CLIENT_SECRET", ""),
           OrDefault(vars, "YOUTUBE_REFRESH_TOKEN", ""),
           OrDefault(vars, "STORAGE_BUCKET", DefaultStorageBucket))
  }

  /** The six credentials of the configuration, in the order of `Required`. */
  function Credentials(c: Config): seq<string> {
    [c.deepseekKey, c.kieKey, c.elevenLabsKey, c.youtubeClientId, c.youtubeClientSecret, c.youtubeRefreshToken]
  }

  /** Each credential of the configuration is the variable it is read from,
      or empty when that variable is absent. */
  lemma CredentialsRead(vars: Vars)
    ensures forall i :: 0 <= i < 6 ==>
      Credentials(LoadConfig(vars))[i] == (if Required[i] in vars then vars[Required[i]] else "")
  {
  }

  /** A strict start-up that passes leaves no credential empty; one that
      fails has an empty credential. */
  lemma StrictCheckGuardsCredentials(vars: Vars)
    ensures AssertEnv(true, vars).Pass? <==> forall i :: 0 <= i < 6 ==> Credentials(LoadConfig(vars))[i] != ""
  {
    CredentialsRead(vars);
    if AssertEnv(true, vars).Fail? {
      var k :| k in Required && Unset(vars, k);
      var i :| 0 <= i < 6 && Required[i] == k;
      assert Credentials(LoadConfig(vars))[i] == "";
    } else {
      forall i | 0 <= i < 6 ensures Credentials(LoadConfig(vars))[i] != "" {
        assert Required[i] in Required;
      }
    }
  }
}

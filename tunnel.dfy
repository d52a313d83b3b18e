/**
 * The tunnel manager's configuration logic: which tunnel provider a
 * configuration starts, the configuration chosen from the environment when
 * none is given, and the search for the `cloudflared` binary along PATH.
 *
 * The environment is a map from variable name to value (a missing variable
 * reads as ""), and the file system is the predicate `present`, true of the
 * paths `os.Stat` finds. Go's `split` works on bytes; here a string is a
 * sequence of characters, which splits the same way on the ASCII separator
 * ':' because no byte of a multi-byte UTF-8 character is ASCII.
 */
module Tunnel {
  import opened Common
  import Text
  import Collections

  type Env = map<string, string>

  /** `os.Getenv`. */
  function Getenv(env: Env, name: string): string
  {
    if name in env then env[name] else ""
  }

  const NgrokTokenVar := "NGROK_AUTHTOKEN"
  const CloudflareTokenVar := "CLOUDFLARE_TUNNEL_TOKEN"
  const PathVar := "PATH"

  /** `ProviderType` is a string type: a configuration may name any provider. */
  const ProviderCloudflare := "cloudflare"
  const ProviderNgrok := "ngrok"
  const ProviderNone := "none"

  datatype Config = Config(provider: string, ngrokAuthToken: string, cloudflareTunnelToken: string)

  /** The provider `createProvider` builds, with the token it is given. */
  datatype Provider =
    | CloudflareProvider(token: string)
    | NgrokProvider(authToken: string)
    | NoneProvider

  /**
   * `createProvider`: a token in the configuration is used before the one in
   * the environment; ngrok without a token from either falls back to no
   * tunnel, and so does a provider type the switch does not know. So the
   * provider is a real tunnel only for the two known types: Cloudflare always
   * (with a token or without), ngrok exactly when some token is found.
   */
  function CreateProvider(cfg: Config, env: Env): (p: Provider)
    ensures p.CloudflareProvider? <==> cfg.provider == ProviderCloudflare
    ensures p.NgrokProvider? <==> cfg.provider == ProviderNgrok && (cfg.ngrokAuthToken != "" || Getenv(env, NgrokTokenVar) != "")
    ensures p.NgrokProvider? ==> p.authToken != ""
    ensures cfg.provider != ProviderCloudflare && cfg.provider != ProviderNgrok ==> p == NoneProvider
  {
    if cfg.provider == ProviderCloudflare then
      CloudflareProvider(if cfg.cloudflareTunnelToken != "" then cfg.cloudflareTunnelToken else Getenv(env, CloudflareTokenVar))
    else if cfg.provider == ProviderNgrok then
      var authToken := if cfg.ngrokAuthToken != "" then cfg.ngrokAuthToken else Getenv(env, NgrokTokenVar);
      if authToken == "" then NoneProvider else NgrokProvider(authToken)
    else NoneProvider
  }

  /**
   * The configured token decides whenever there is one: the environment
   * then plays no part.
   */
  lemma ConfigTokenWins(cfg: Config, env: Env, env': Env)
    requires cfg.provider == ProviderCloudflare ==> cfg.cloudflareTunnelToken != ""
    requires cfg.provider == ProviderNgrok ==> cfg.ngrokAuthToken != ""
    ensures CreateProvider(cfg, env) == CreateProvider(cfg, env')
    ensures cfg.provider == ProviderCloudflare ==> CreateProvider(cfg, env) == CloudflareProvider(cfg.cloudflareTunnelToken)
    ensures cfg.provider == ProviderNgrok ==> CreateProvider(cfg, env) == NgrokProvider(cfg.ngrokAuthToken)
  {
  }

  // ----- PATH -----

  /**
   * Go's `split`: walk the string, close a part at each separator and start
   * the next one after it, then add the part after the last separator.
   */
  method Split(s: string, sep: char) returns (parts: seq<string>)
    ensures parts == Text.Split(s, sep)
  {
    parts := [];
    var start := 0;
    var i := 0;
    while i < |s|
      invariant 0 <= start <= i <= |s|
      invariant parts + [s[start..i]] == Text.Split(s[..i], sep)
    {
      SplitLoopStep(s, sep, parts, start, i);
      if s[i] == sep {
        parts := parts + [s[start..i]];
        start := i + 1;
      }
      i := i + 1;
    }
    assert s[..|s|] == s;
    parts := parts + [s[start..]];
  }

  /** One character more: a separator closes the current part, any other character extends it. */
  lemma SplitLoopStep(s: string, sep: char, parts: seq<string>, start: nat, i: nat)
    requires start <= i < |s|
    requires parts + [s[start..i]] == Text.Split(s[..i], sep)
    ensures s[i] == sep ==> (parts + [s[start..i]]) + [s[i + 1..i + 1]] == Text.Split(s[..i + 1], sep)
    ensures s[i] != sep ==> parts + [s[start..i + 1]] == Text.Split(s[..i + 1], sep)
  {
    Text.SplitSnoc(s[..i], s[i], sep);
    assert s[..i + 1] == s[..i] + [s[i]];
    if s[i] == sep {
      assert s[i + 1..i + 1] == [];
    } else {
      var prior := parts + [s[start..i]];
      assert prior[..|prior| - 1] == parts;
      assert s[start..i + 1] == s[start..i] + [s[i]];
    }
  }

  /** The components of a PATH value: the non-empty parts between the ':'s, in order. */
  function PathList(path: string): (r: seq<string>)
    ensures forall i :: 0 <= i < |r| ==> r[i] != ""
  {
    Collections.Select(Text.Split(path, ':'), Collections.Ident, "", false)
  }

  /** `splitPathList`: split at ':' and keep the parts that are not empty. */
  method SplitPathList(path: string) returns (list: seq<string>)
    ensures list == PathList(path)
  {
    var parts := Split(path, ':');
    list := Collections.SelectLoop(parts, Collections.Ident, "", false);
  }

  /**
   * A directory is listed exactly when it is a non-empty component of PATH,
   * no listed directory contains ':', and joining the list with ':' gives
   * back PATH whenever PATH has no empty component.
   */
  lemma PathListComponents(path: string, dir: string)
    ensures dir in PathList(path) <==> dir in Text.Split(path, ':') && dir != ""
    ensures forall i :: 0 <= i < |PathList(path)| ==> ':' !in PathList(path)[i]
    ensures "" !in Text.Split(path, ':') ==> PathList(path) == Text.Split(path, ':')
    ensures "" !in Text.Split(path, ':') ==> Text.Join(PathList(path), ':') == path
  {
    var parts := Text.Split(path, ':');
    Collections.SelectMembership(parts, Collections.Ident, "", false, dir);
    Text.SplitPartsFree(path, ':');
    forall i | 0 <= i < |PathList(path)|
      ensures ':' !in PathList(path)[i]
    {
      var d := PathList(path)[i];
      Collections.SelectMembership(parts, Collections.Ident, "", false, d);
    }
    if "" !in parts {
      Collections.SelectAll(parts, Collections.Ident, "", false);
      Text.JoinSplit(path, ':');
    }
  }

  /**
   * `splitPath`: no directories when PATH is empty, otherwise the list of
   * its components. The early return changes nothing: an empty PATH splits
   * into a single empty part, which the filter drops.
   */
  method SplitPath(env: Env) returns (dirs: seq<string>)
    ensures Getenv(env, PathVar) == "" ==> dirs == []
    ensures dirs == PathList(Getenv(env, PathVar))
  {
    var pathEnv := Getenv(env, PathVar);
    if pathEnv == "" {
      assert Text.Split(pathEnv, ':') == [""];
      return [];
    }
    dirs := SplitPathList(pathEnv);
  }

  /** The first `dir + "/" + name` that is present, trying the directories in order. */
  function FirstPresent(dirs: seq<string>, present: string -> bool, name: string): (r: Option<string>)
    ensures r.Some? ==> present(r.value) && exists i :: 0 <= i < |dirs| && r.value == dirs[i] + "/" + name
    ensures r.None? ==> forall i :: 0 <= i < |dirs| ==> !present(dirs[i] + "/" + name)
    decreases |dirs|
  {
    if dirs == [] then None
    else if present(dirs[0] + "/" + name) then Some(dirs[0] + "/" + name)
    else
      var r := FirstPresent(dirs[1..], present, name);
      assert r.Some? ==> exists i :: 0 <= i < |dirs| && r.value == dirs[i] + "/" + name by {
        if r.Some? {
          var j :| 0 <= j < |dirs| - 1 && r.value == dirs[1..][j] + "/" + name;
          assert dirs[1..][j] == dirs[j + 1];
        }
      }
      assert r.None? ==> forall i :: 0 <= i < |dirs| ==> !present(dirs[i] + "/" + name) by {
        if r.None? {
          forall i | 1 <= i < |dirs|
            ensures !present(dirs[i] + "/" + name)
          {
            assert dirs[i] == dirs[1..][i - 1];
          }
        }
      }
      r
  }

  /** `findInPath`: the first candidate along PATH that exists; an error when there is none. */
  method FindInPath(env: Env, present: string -> bool, name: string) returns (r: Option<string>)
    ensures r == FirstPresent(PathList(Getenv(env, PathVar)), present, name)
  {
    var dirs := SplitPath(env);
    var i := 0;
    while i < |dirs|
      invariant 0 <= i <= |dirs|
      invariant FirstPresent(dirs[i..], present, name) == FirstPresent(dirs, present, name)
    {
      var candidate := dirs[i] + "/" + name;
      assert dirs[i..][1..] == dirs[i + 1..];
      if present(candidate) {
        return Some(candidate);
      }
      i := i + 1;
    }
    r := None;
  }

  /** `LookupCloudflared` succeeds. */
  predicate CloudflaredFound(env: Env, present: string -> bool)
  {
    FirstPresent(PathList(Getenv(env, PathVar)), present, "cloudflared").Some?
  }

  /**
   * `DefaultConfig`: an ngrok token in the environment first, then a
   * Cloudflare token, then a `cloudflared` binary on PATH, and no tunnel
   * otherwise.
   */
  function DefaultConfig(env: Env, present: string -> bool): (cfg: Config)
    ensures cfg.provider == ProviderNone <==>
      Getenv(env, NgrokTokenVar) == "" && Getenv(env, CloudflareTokenVar) == "" && !CloudflaredFound(env, present)
    ensures cfg.provider == ProviderNgrok ==> cfg.ngrokAuthToken == Getenv(env, NgrokTokenVar) != ""
    ensures cfg.provider in {ProviderNgrok, ProviderCloudflare, ProviderNone}
  {
    if Getenv(env, NgrokTokenVar) != "" then Config(ProviderNgrok, Getenv(env, NgrokTokenVar), "")
    else if Getenv(env, CloudflareTokenVar) != "" then Config(ProviderCloudflare, "", Getenv(env, CloudflareTokenVar))
    else if CloudflaredFound(env, present) then Config(ProviderCloudflare, "", "")
    else Config(ProviderNone, "", "")
  }

  /**
   * What the default configuration starts: ngrok with the environment's
   * token when there is one, else Cloudflare with the environment's token,
   * else Cloudflare without a token when `cloudflared` is on PATH, else no
   * tunnel; so a tunnel is started exactly when one of the three is there.
   */
  lemma DefaultProvider(env: Env, present: string -> bool)
    ensures var p := CreateProvider(DefaultConfig(env, present), env);
      (Getenv(env, NgrokTokenVar) != "" ==> p == NgrokProvider(Getenv(env, NgrokTokenVar)))
      && (Getenv(env, NgrokTokenVar) == "" && Getenv(env, CloudflareTokenVar) != "" ==>
            p == CloudflareProvider(Getenv(env, CloudflareTokenVar)))
      && (Getenv(env, NgrokTokenVar) == "" && Getenv(env, CloudflareTokenVar) == "" ==>
            p == if CloudflaredFound(env, present) then CloudflareProvider("") else NoneProvider)
    ensures CreateProvider(DefaultConfig(env, present), env) != NoneProvider <==>
      Getenv(env, NgrokTokenVar) != "" || Getenv(env, CloudflareTokenVar) != "" || CloudflaredFound(env, present)
  {
  }
}

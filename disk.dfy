/** `_get_instance_disk`: where a disk is fetched from, and whether it is
    fetched at all. The local file system is the set of existing paths. */
module DiskFetch {
  import opened Wrappers
  import opened Entities

  /** The netloc vSphere puts into a device URL when it leaves the host to
      the client. */
  const WildcardHost := "*"

  /** The URL wget is given: for a wildcard netloc,
      `'{scheme}://{host}{path}'` from the parsed URL (params, query and
      fragment are dropped); any other URL is used unchanged. */
  function EffectiveUrl(url: string, parts: UrlParts, host: string): (r: string)
    ensures parts.netloc == WildcardHost ==> r == parts.scheme + "://" + host + parts.path
    ensures parts.netloc != WildcardHost ==> r == url
  {
    if parts.netloc == WildcardHost then parts.scheme + "://" + host + parts.path
    else url
  }

  /** `urlunparse` for a URL with a scheme and a network location: the
      reference the rewrite is compared against. */
  function Unparse(parts: UrlParts): string
  {
    parts.scheme + "://" + parts.netloc + parts.path
      + (if parts.params == "" then "" else ";" + parts.params)
      + (if parts.query == "" then "" else "?" + parts.query)
      + (if parts.fragment == "" then "" else "#" + parts.fragment)
  }

  /** When the URL is what its parts unparse to, the rewrite is the same
      URL with the real host put in place of '*' and without params, query
      and fragment; a URL naming a real host is left as it is. */
  lemma EffectiveUrlSubstitutesHost(url: string, parts: UrlParts, host: string)
    requires url == Unparse(parts)
    ensures parts.netloc == WildcardHost ==>
      EffectiveUrl(url, parts, host) == Unparse(UrlParts(parts.scheme, host, parts.path, "", "", ""))
    ensures parts.netloc != WildcardHost ==> EffectiveUrl(url, parts, host) == Unparse(parts)
  {
  }

  /** What one call did: whether it ended normally, the file system after
      it, and the wget run it made, if any. */
  datatype Fetched = Fetched(ok: bool, fs: set<string>, events: seq<Event>)

  /** `_get_instance_disk(device_url, path)`: run wget only when `path`
      does not exist yet; a failing wget raises (ok == false). */
  function GetInstanceDisk(env: Environment, fs: set<string>, url: string, path: string): (r: Fetched)
    ensures fs <= r.fs <= fs + {path}
    ensures r.ok ==> path in r.fs
    ensures !r.ok ==> r.fs == fs
    ensures path in fs ==> r == Fetched(true, fs, [])
    ensures path !in fs ==> r.events == [Wget(EffectiveUrl(url, env.parse(url), env.host), path)]
    ensures path !in fs ==> r.ok == env.fetch(EffectiveUrl(url, env.parse(url), env.host), path)
  {
    if path in fs then Fetched(true, fs, [])
    else
      var source := EffectiveUrl(url, env.parse(url), env.host);
      if env.fetch(source, path) then Fetched(true, fs + {path}, [Wget(source, path)])
      else Fetched(false, fs, [Wget(source, path)])
  }

  /** A second call for a path the first call obtained runs no wget and
      leaves the file system as it is. */
  lemma GetInstanceDiskIdempotent(env: Environment, fs: set<string>, url: string, path: string)
    requires GetInstanceDisk(env, fs, url, path).ok
    ensures var after := GetInstanceDisk(env, fs, url, path).fs;
      GetInstanceDisk(env, after, url, path) == Fetched(true, after, [])
  {
  }
}

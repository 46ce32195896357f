/** The preview's base path, preview/src/lib/base-path.ts: the base URL the
    site is served under, and `withBasePath`, which puts that base in front
    of a site-relative path and leaves absolute http(s) URLs alone. */
module BasePath {
  import opened Common
  import opened Strings

  /** resolveBaseUrl: Vite's BASE_URL, else VITE_BASE_PATH, else "/". Only
      an absent value falls through (`??`); an empty one is kept. */
  function ResolveBaseUrl(metaBaseUrl: Option<string>, envBasePath: Option<string>): (base: string)
    ensures metaBaseUrl.Some? ==> base == metaBaseUrl.value
    ensures metaBaseUrl.None? && envBasePath.Some? ==> base == envBasePath.value
    ensures metaBaseUrl.None? && envBasePath.None? ==> base == "/"
  {
    metaBaseUrl.GetOr(envBasePath.GetOr("/"))
  }

  /** `/^https?:\/\//`. */
  predicate IsHttpUrl(target: string) {
    StartsWith(target, "http://") || StartsWith(target, "https://")
  }

  /** The base with exactly one trailing slash added when it has none. */
  function NormalizedBase(baseUrl: string): (b: string)
    ensures EndsWith(b, "/")
    ensures EndsWith(baseUrl, "/") ==> b == baseUrl
    ensures !EndsWith(baseUrl, "/") ==> b == baseUrl + "/"
  {
    if EndsWith(baseUrl, "/") then baseUrl else baseUrl + "/"
  }

  function WithBasePath(baseUrl: string, target: string): (r: string)
    ensures IsHttpUrl(target) ==> r == target
    ensures !IsHttpUrl(target) ==>
      && StartsWith(r, NormalizedBase(baseUrl))
      && var rest := r[|NormalizedBase(baseUrl)|..];
         && (rest == [] || rest[0] != '/') && EndsWith(target, rest)
         && forall i :: 0 <= i < |target| - |rest| ==> target[i] == '/'
  {
    if IsHttpUrl(target) then target
    else
      var base := NormalizedBase(baseUrl);
      var normalizedTarget := TrimStartChar(target, '/');
      var r := base + normalizedTarget;
      assert r[..|base|] == base && r[|base|..] == normalizedTarget;
      assert target[|target| - |normalizedTarget|..] == normalizedTarget;
      r
  }

  /** Leading slashes of a site path make no difference. */
  lemma LeadingSlashIgnored(baseUrl: string, target: string)
    requires !IsHttpUrl(target)
    ensures WithBasePath(baseUrl, "/" + target) == WithBasePath(baseUrl, target)
  {
    var t := "/" + target;
    assert !IsHttpUrl(t) by {
      assert t[0] == '/';
    }
    assert t[1..] == target;
    assert TrimStartChar(t, '/') == TrimStartChar(target, '/');
  }

  /** The preview's default base "/" turns a site path into the root path. */
  lemma RootBase(target: string)
    requires !IsHttpUrl(target) && (target == [] || target[0] != '/')
    ensures WithBasePath("/", target) == "/" + target
  {
    assert EndsWith("/", "/");
  }
}

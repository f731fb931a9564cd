/**
 * The public environment the URL helpers read, and the shape of a Directus
 * asset URL. `PUBLIC_SERVER` is absent or a string; server mode is the
 * exact string `'true'`. Whether the code runs in the browser is a
 * separate flag the framework supplies.
 */
module UrlEnv {
  import opened Wrappers

  datatype Env = Env(
    publicServer: Option<string>,
    externalApiUrl: string,
    internalApiUrl: string,
    externalHostUrl: string,
    internalHostUrl: string)

  /** The image transformations; the enum's string values are not part of this model. */
  datatype Transformation = Default | Thumbnail | Preview

  predicate ServerMode(env: Env)
  {
    env.publicServer == Some("true")
  }

  /** The path of an asset below an API URL. */
  function AssetPath(api: string, id: string): string
  {
    api + "/assets/" + id
  }

  /** The query naming a stored transformation preset. */
  function KeyQuery(preset: string): string
  {
    "?key=resaundtill-" + preset
  }

  /** The test `Between` makes holds of every string of the form `prefix + mid + suffix`. */
  predicate HasAffixes(url: string, prefix: string, suffix: string)
  {
    |prefix| + |suffix| <= |url| && url[..|prefix|] == prefix && url[|url| - |suffix|..] == suffix
  }

  lemma {:induction false} AffixesOfConcat(prefix: string, mid: string, suffix: string)
    ensures HasAffixes(prefix + mid + suffix, prefix, suffix)
  {
    var url := prefix + mid + suffix;
    assert url[..|prefix|] == prefix;
    assert url[|url| - |suffix|..] == suffix;
  }

  /** The part of `url` between `prefix` and `suffix`, if it has that form. */
  function Between(url: string, prefix: string, suffix: string): (r: Option<string>)
    ensures r.Some? <==> exists mid :: url == prefix + mid + suffix
    ensures r.Some? ==> url == prefix + r.value + suffix
  {
    assert (exists mid :: url == prefix + mid + suffix) ==> HasAffixes(url, prefix, suffix) by {
      forall mid | url == prefix + mid + suffix ensures HasAffixes(url, prefix, suffix) {
        AffixesOfConcat(prefix, mid, suffix);
      }
    }
    if HasAffixes(url, prefix, suffix) then
      var mid := url[|prefix|..|url| - |suffix|];
      assert url == prefix + mid + suffix;
      Some(mid)
    else
      None
  }

  /** Wrapping a string in a prefix and a suffix is undone by `Between`. */
  lemma {:induction false} BetweenRoundTrip(prefix: string, mid: string, suffix: string)
    ensures Between(prefix + mid + suffix, prefix, suffix) == Some(mid)
  {
    var url := prefix + mid + suffix;
    assert url[..|prefix|] == prefix;
    assert url[|url| - |suffix|..] == suffix;
    assert url[|prefix|..|url| - |suffix|] == mid;
  }

  /** The id an asset URL under `api` with query `query` names. */
  function AssetId(url: string, api: string, query: string): Option<string>
  {
    Between(url, api + "/assets/", query)
  }

  /** The id is recovered from the URL, so distinct ids give distinct URLs. */
  lemma {:induction false} AssetIdRoundTrip(api: string, id: string, query: string)
    ensures AssetId(AssetPath(api, id) + query, api, query) == Some(id)
  {
    BetweenRoundTrip(api + "/assets/", id, query);
  }

  /** URLs that differ only in their preset differ. */
  lemma {:induction false} PresetsDistinguish(api: string, id: string, p1: string, p2: string)
    requires p1 != p2
    ensures AssetPath(api, id) + KeyQuery(p1) != AssetPath(api, id) + KeyQuery(p2)
  {
    var base := AssetPath(api, id) + "?key=resaundtill-";
    assert AssetPath(api, id) + KeyQuery(p1) == base + p1;
    assert AssetPath(api, id) + KeyQuery(p2) == base + p2;
    assert (base + p1)[|base|..] == p1 && (base + p2)[|base|..] == p2;
  }
}

/** `getURL`: the API URL by environment. */
module GetUrlUtil {
  import opened Wrappers
  import opened UrlEnv

  function GetUrl(env: Env, browser: bool): (r: string)
    ensures r == env.internalApiUrl || r == env.externalApiUrl
  {
    if ServerMode(env) then
      (if browser then env.externalApiUrl else env.internalApiUrl)
    else
      env.externalApiUrl
  }

  /**
   * The two-level table collapses to one condition: the internal API is
   * used exactly on the server in server mode, the external one otherwise.
   */
  lemma InternalOnlyOnServer(env: Env, browser: bool)
    requires env.internalApiUrl != env.externalApiUrl
    ensures GetUrl(env, browser) == env.internalApiUrl <==> ServerMode(env) && !browser
    ensures GetUrl(env, browser) == env.externalApiUrl <==> !ServerMode(env) || browser
  {
  }

  /** Any value of `PUBLIC_SERVER` but `'true'`, absence included, is not server mode. */
  lemma OnlyTrueIsServerMode(env: Env, browser: bool)
    requires env.publicServer != Some("true")
    ensures GetUrl(env, browser) == env.externalApiUrl
  {
  }
}

/** The URL helpers of `api.util.ts`. */
module ApiUtil {
  import opened Wrappers
  import opened UrlEnv
  import GetUrlUtil
  import DirectusUrlUtil

  const DefaultFallback: string := "images/gallery/travel.jpg"

  function GetApiUrl(env: Env, browser: bool): (r: string)
    ensures r == env.internalApiUrl || r == env.externalApiUrl
  {
    if ServerMode(env) then
      (if browser then env.externalApiUrl else env.internalApiUrl)
    else
      env.externalApiUrl
  }

  function GetHostUrl(env: Env, browser: bool): (r: string)
    ensures r == env.internalHostUrl || r == env.externalHostUrl
  {
    if ServerMode(env) then
      (if browser then env.externalHostUrl else env.internalHostUrl)
    else
      env.internalHostUrl
  }

  /** All three API URL helpers choose the same URL in every environment. */
  lemma ApiUrlsAgree(env: Env, browser: bool)
    ensures GetApiUrl(env, browser) == GetUrlUtil.GetUrl(env, browser)
    ensures GetApiUrl(env, browser) == DirectusUrlUtil.GetApiUrl(env, browser)
  {
  }

  /**
   * The host helpers differ: this one reads `browser` and defaults to the
   * internal host, the other ignores `browser`. With distinct hosts they
   * disagree exactly on the server side in server mode.
   */
  lemma HostUrlsDiffer(env: Env, browser: bool)
    requires env.internalHostUrl != env.externalHostUrl
    ensures GetHostUrl(env, browser) != DirectusUrlUtil.GetHostUrl(env) <==> ServerMode(env) && !browser
  {
  }

  /** A missing or empty id is falsy. */
  predicate HasId(id: Option<string>)
  {
    id.Some? && id.value != ""
  }

  /**
   * `imageUrlBuilder`: the fallback image below the host for a falsy id,
   * otherwise the asset below the API with the preset named `name(t)`
   * unless `t` is the default.
   */
  function ImageUrlBuilder(env: Env, browser: bool, id: Option<string>, t: Transformation, fallback: string, name: Transformation -> string): (r: string)
    ensures !HasId(id) ==> r == GetHostUrl(env, browser) + "/" + fallback
    ensures HasId(id) && t == Default ==> AssetId(r, GetApiUrl(env, browser), "") == Some(id.value)
    ensures HasId(id) && t != Default ==> AssetId(r, GetApiUrl(env, browser), KeyQuery(name(t))) == Some(id.value)
  {
    if !HasId(id) then
      GetHostUrl(env, browser) + "/" + fallback
    else
      var key := if t == Default then "" else KeyQuery(name(t));
      AssetIdRoundTrip(GetApiUrl(env, browser), id.value, key);
      AssetPath(GetApiUrl(env, browser), id.value) + key
  }

  /** With the default arguments a falsy id gives the travel picture below the host. */
  lemma FallbackImage(env: Env, browser: bool, name: Transformation -> string)
    ensures ImageUrlBuilder(env, browser, None, Default, DefaultFallback, name)
      == GetHostUrl(env, browser) + "/images/gallery/travel.jpg"
  {
    var host := GetHostUrl(env, browser);
    assert host + "/" + DefaultFallback == host + "/images/gallery/travel.jpg";
  }

  /** The default transformation adds no query: the URL is the bare asset path. */
  lemma {:induction false} DefaultHasNoQuery(env: Env, browser: bool, id: string, fallback: string, name: Transformation -> string)
    requires id != ""
    ensures ImageUrlBuilder(env, browser, Some(id), Default, fallback, name) == AssetPath(GetApiUrl(env, browser), id)
  {
    assert AssetPath(GetApiUrl(env, browser), id) + "" == AssetPath(GetApiUrl(env, browser), id);
  }
}

/** The URL helpers of `directus-url.util.ts`. */
module DirectusUrlUtil {
  import opened Wrappers
  import opened UrlEnv

  function GetApiUrl(env: Env, browser: bool): (r: string)
    ensures r == env.internalApiUrl || r == env.externalApiUrl
  {
    if ServerMode(env) then
      (if browser then env.externalApiUrl else env.internalApiUrl)
    else
      env.externalApiUrl
  }

  /** `getHostUrl`: the external host in server mode, the internal one otherwise; `browser` plays no part. */
  function GetHostUrl(env: Env): (r: string)
    ensures ServerMode(env) ==> r == env.externalHostUrl
    ensures !ServerMode(env) ==> r == env.internalHostUrl
  {
    if ServerMode(env) then env.externalHostUrl else env.internalHostUrl
  }

  /** The preset a transformation selects; the default and anything else is `webp`. */
  function Preset(t: Transformation): (p: string)
    ensures p == "thumbnail" || p == "preview" || p == "webp"
  {
    if t == Thumbnail then "thumbnail" else if t == Preview then "preview" else "webp"
  }

  /** The three transformations select three different presets. */
  lemma {:induction false} PresetInjective(t1: Transformation, t2: Transformation)
    ensures Preset(t1) == Preset(t2) <==> t1 == t2
  {
    assert "thumbnail" != "preview" && "thumbnail" != "webp" && "preview" != "webp" by {
      assert "thumbnail"[0] != "preview"[0] && "thumbnail"[0] != "webp"[0] && "preview"[0] != "webp"[0];
    }
  }

  /** `imageUrlBuilder`: always the asset below the API with a preset query. */
  function ImageUrlBuilder(env: Env, browser: bool, id: string, t: Transformation): (r: string)
    ensures AssetId(r, GetApiUrl(env, browser), KeyQuery(Preset(t))) == Some(id)
  {
    AssetIdRoundTrip(GetApiUrl(env, browser), id, KeyQuery(Preset(t)));
    AssetPath(GetApiUrl(env, browser), id) + KeyQuery(Preset(t))
  }

  /** For one id, the three transformations give three different URLs. */
  lemma {:induction false} TransformationsDistinguish(env: Env, browser: bool, id: string, t1: Transformation, t2: Transformation)
    ensures ImageUrlBuilder(env, browser, id, t1) == ImageUrlBuilder(env, browser, id, t2) <==> t1 == t2
  {
    PresetInjective(t1, t2);
    if t1 != t2 {
      PresetsDistinguish(GetApiUrl(env, browser), id, Preset(t1), Preset(t2));
    }
  }
}

/** `imageUrlBuilder` of `image-url-builderutils.ts`, on top of `getURL`. */
module ImageUrlBuilderUtils {
  import opened Wrappers
  import opened UrlEnv
  import GetUrlUtil
  import Helpers

  /** A Directus id: a string or a number (a whole number here). */
  datatype Id = StrId(s: string) | NumId(n: nat)

  /** JavaScript truthiness of an id: not the empty string and not zero. */
  predicate Truthy(id: Id)
  {
    match id
    case StrId(s) => s != ""
    case NumId(n) => n != 0
  }

  /** The id as a template literal prints it. */
  function IdText(id: Id): (r: string)
    ensures Truthy(id) ==> r != ""
  {
    match id
    case StrId(s) => s
    case NumId(n) => Helpers.Digits(n)
  }

  function Preset(asThumbnail: bool): (p: string)
    ensures p == "thumbnail" || p == "webp"
  {
    if asThumbnail then "thumbnail" else "webp"
  }

  /** `null` for a falsy id, otherwise the asset below `getURL()` with the thumbnail or webp preset. */
  function ImageUrlBuilder(env: Env, browser: bool, id: Id, asThumbnail: bool): (r: Option<string>)
    ensures r.None? <==> !Truthy(id)
    ensures r.Some? ==> AssetId(r.value, GetUrlUtil.GetUrl(env, browser), KeyQuery(Preset(asThumbnail))) == Some(IdText(id))
  {
    if Truthy(id) then
      AssetIdRoundTrip(GetUrlUtil.GetUrl(env, browser), IdText(id), KeyQuery(Preset(asThumbnail)));
      Some(AssetPath(GetUrlUtil.GetUrl(env, browser), IdText(id)) + KeyQuery(Preset(asThumbnail)))
    else
      None
  }

  /** The default (`asThumbnail = false`) and the thumbnail URLs of one id differ. */
  lemma {:induction false} ThumbnailDiffersFromDefault(env: Env, browser: bool, id: Id)
    requires Truthy(id)
    ensures ImageUrlBuilder(env, browser, id, true) != ImageUrlBuilder(env, browser, id, false)
    ensures ImageUrlBuilder(env, browser, id, false).value
      == AssetPath(GetUrlUtil.GetUrl(env, browser), IdText(id)) + "?key=resaundtill-webp"
  {
    assert "thumbnail"[0] != "webp"[0];
    PresetsDistinguish(GetUrlUtil.GetUrl(env, browser), IdText(id), "thumbnail", "webp");
  }
}

/** The frontend's site settings (`SettingsContext`): the defaults it starts
    from and `processSettings`, which turns the two image settings from
    server-relative paths into absolute URLs on the backend. */
module SiteSettings {
  import opened Wrappers
  import opened Text

  /** A JSON value as the settings object carries it. Objects and arrays are
      not told apart: both are truthy and have no `startsWith`. */
  datatype Json = JNull | JBool(b: bool) | JNumber(n: int) | JString(s: string) | JStructure

  /** JavaScript truthiness of a JSON value. */
  predicate Truthy(v: Json) {
    match v
    case JNull => false
    case JBool(b) => b
    case JNumber(n) => n != 0
    case JString(s) => s != ""
    case JStructure => true
  }

  type Settings = map<string, Json>

  const WebsiteName: string := "website_name"
  const WebsiteLogoUrl: string := "website_logo_url"
  const HomepageImageUrl: string := "homepage_image_url"

  /** The two keys `processSettings` rewrites, in the order it visits them. */
  const ImageKeys: seq<string> := [WebsiteLogoUrl, HomepageImageUrl]

  const BackendUrl: string := "http://localhost:5000"

  /** The settings before (or without) an answer from the backend. */
  function Defaults(): (r: Settings)
    ensures r.Keys == {WebsiteName, WebsiteLogoUrl, HomepageImageUrl}
    ensures r[WebsiteName] == JString("Imparadise")
    ensures r[WebsiteLogoUrl] == JNull && r[HomepageImageUrl] == JNull
  {
    map[WebsiteName := JString("Imparadise"), WebsiteLogoUrl := JNull, HomepageImageUrl := JNull]
  }

  /** A value that is a non-empty string starting with '/'. */
  predicate IsRelativePath(v: Json) {
    v.JString? && v.s != "" && StartsWith(v.s, "/")
  }

  /** The value `processSettings` leaves under an image key; `None` when the
      value is truthy but not a string, where `startsWith` is not a function
      and the call throws. */
  function RewriteValue(v: Json): (r: Option<Json>)
    ensures r.None? <==> Truthy(v) && !v.JString?
    ensures r.Some? && IsRelativePath(v) ==> r.value == JString(BackendUrl + v.s)
    ensures r.Some? && !IsRelativePath(v) ==> r.value == v
  {
    if !Truthy(v) then Some(v)
    else match v
      case JString(s) => if StartsWith(s, "/") then Some(JString(BackendUrl + s)) else Some(v)
      case _ => None
  }

  /** One turn of the `forEach`: a missing key reads as `undefined`, which is
      falsy, so it stays missing. */
  function RewriteKey(m: Settings, key: string): (r: Option<Settings>)
    ensures r.Some? <==> key !in m || RewriteValue(m[key]).Some?
    ensures r.Some? ==> r.value.Keys == m.Keys
    ensures r.Some? ==> forall k :: k in m && k != key ==> r.value[k] == m[k]
    ensures r.Some? && key in m ==> r.value[key] == RewriteValue(m[key]).value
  {
    if key !in m then Some(m)
    else match RewriteValue(m[key])
      case None => None
      case Some(v) => Some(m[key := v])
  }

  /** `processSettings(data)`: a copy of `data` with both image keys
      rewritten; `None` when it throws. */
  function ProcessSettings(data: Settings): (r: Option<Settings>)
    ensures r.Some? <==> forall k :: k in ImageKeys && k in data ==> RewriteValue(data[k]).Some?
    ensures r.Some? ==> r.value.Keys == data.Keys
    ensures r.Some? ==> forall k :: k in data && k !in ImageKeys ==> r.value[k] == data[k]
    ensures r.Some? ==> forall k :: k in data && k in ImageKeys ==> r.value[k] == RewriteValue(data[k]).value
  {
    match RewriteKey(data, WebsiteLogoUrl)
    case None => None
    case Some(m) => RewriteKey(m, HomepageImageUrl)
  }

  /** A rewritten value is the backend's origin followed by the original path,
      which can be read back off it. */
  lemma RewriteIsPrefixing(v: Json)
    requires IsRelativePath(v)
    ensures RewriteValue(v).Some?
    ensures var w := RewriteValue(v).value.s;
            StartsWith(w, BackendUrl) && w[|BackendUrl|..] == v.s
  {
    var w := BackendUrl + v.s;
    assert w[..|BackendUrl|] == BackendUrl;
    assert w[|BackendUrl|..] == v.s;
  }

  /** A rewritten URL starts with "http", not '/', so processing the
      result again changes nothing. */
  lemma ProcessSettingsIdempotent(data: Settings)
    requires ProcessSettings(data).Some?
    ensures ProcessSettings(ProcessSettings(data).value) == ProcessSettings(data)
  {
    var p := ProcessSettings(data).value;
    forall k | k in ImageKeys && k in p
      ensures RewriteValue(p[k]) == Some(p[k])
    {
      if IsRelativePath(data[k]) {
        assert p[k].s[0] == 'h';
      }
    }
    var q := ProcessSettings(p).value;
    assert q == p;
  }

  /** The defaults pass through unchanged. */
  lemma DefaultsAreProcessed()
    ensures ProcessSettings(Defaults()) == Some(Defaults())
  {
    var d := Defaults();
    var m := RewriteKey(d, WebsiteLogoUrl).value;
    assert m == d;
    assert RewriteKey(m, HomepageImageUrl).value == d;
  }

  /** `fetchSiteSettings`: `response` is the body of a successful request,
      `None` when the request failed or the body is falsy. Without a usable
      body, or when processing throws, the current settings stay. */
  function FetchSettings(current: Settings, response: Option<Settings>): (r: Settings)
    ensures response.None? ==> r == current
    ensures response.Some? && ProcessSettings(response.value).None? ==> r == current
    ensures response.Some? && ProcessSettings(response.value).Some? ==> r == ProcessSettings(response.value).value
  {
    match response
    case None => current
    case Some(data) =>
      match ProcessSettings(data)
      case None => current
      case Some(p) => p
  }
}

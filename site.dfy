/** The site's configured base URL (`web/src/_data/site.js`). */
module Site {
  import opened Wrappers
  import opened Text

  const DefaultSiteUrl: string := "https://etho.clooney.io"

  /** `normalizeSiteUrl(value)` for a value that is a string or absent (`None`: `null` or
      `undefined`): `String(value || "").trim()`, the default when that is empty, and
      otherwise the trimmed text without one trailing `/`. */
  function NormalizeSiteUrl(value: Option<string>): string {
    var raw := JsTrim(OrEmpty(value));
    if raw == "" then DefaultSiteUrl else WithoutTrailingSlash(raw)
  }

  /** `raw.endsWith("/") ? raw.slice(0, -1) : raw`. */
  function WithoutTrailingSlash(raw: string): string {
    if EndsWith(raw, "/") then raw[..|raw| - 1] else raw
  }

  /** The result is the trimmed value, shortened by exactly its trailing `/` when it has
      one and unchanged when it has none. */
  lemma WithoutTrailingSlashSpec(raw: string)
    ensures var r := WithoutTrailingSlash(raw);
      && StartsWith(raw, r) && |raw| - |r| <= 1
      && (r == raw <==> !EndsWith(raw, "/"))
      && (EndsWith(raw, "/") ==> r + "/" == raw)
  {
    if EndsWith(raw, "/") {
      assert raw == raw[..|raw| - 1] + "/";
    }
  }

  /** An absent, empty or all-white-space value gives the default; any other value is
      trimmed and then loses one trailing `/`, if it has one. */
  lemma NormalizeSiteUrlSpec(value: Option<string>)
    ensures var raw := JsTrim(OrEmpty(value));
      var r := NormalizeSiteUrl(value);
      && (raw == "" ==> r == DefaultSiteUrl)
      && (raw != "" ==> StartsWith(raw, r) && |raw| - |r| <= 1)
      && (raw != "" ==> (r == raw <==> !EndsWith(raw, "/")))
      && (raw != "" && EndsWith(raw, "/") ==> r + "/" == raw)
  {
    WithoutTrailingSlashSpec(JsTrim(OrEmpty(value)));
  }

  /** The exported `url`: `normalizeSiteUrl(process.env.SITE_URL || DEFAULT_SITE_URL)`;
      an unset, empty or all-white-space `SITE_URL` gives the default. */
  function SiteUrl(env: Option<string>): (r: string)
    ensures JsTrim(OrEmpty(env)) == "" ==> r == DefaultSiteUrl
  {
    if OrEmpty(env) == "" then DefaultIsNormal(); NormalizeSiteUrl(Some(DefaultSiteUrl))
    else NormalizeSiteUrl(env)
  }

  lemma DefaultTrimmed()
    ensures JsTrim(DefaultSiteUrl) == DefaultSiteUrl
    ensures !EndsWith(DefaultSiteUrl, "/")
  {
    var d := DefaultSiteUrl;
    assert d[0] == 'h' && d[|d| - 1] == 'o';
    assert TrimStart(d, IsJsSpace) == d;
  }

  /** The default is already normal. */
  lemma DefaultIsNormal()
    ensures NormalizeSiteUrl(Some(DefaultSiteUrl)) == DefaultSiteUrl
  {
    DefaultTrimmed();
  }

  /** `TrimStart` and `TrimEnd` return the input itself exactly when they drop nothing. */
  lemma TrimKeepsLength(s: string)
    requires |JsTrim(s)| == |s|
    ensures JsTrim(s) == s
  {
    var t := TrimStart(s, IsJsSpace);
    assert |t| == |s|;
  }

  /** A URL is left as it is exactly when it is non-empty, has no white space at either
      end, and does not end with `/`. */
  lemma FixedPoints(u: string)
    ensures NormalizeSiteUrl(Some(u)) == u <==> u != "" && JsTrim(u) == u && !EndsWith(u, "/")
  {
    var raw := JsTrim(u);
    if NormalizeSiteUrl(Some(u)) == u {
      if raw == "" {
        DefaultTrimmed();
      } else {
        assert |raw| <= |u|;
        assert |NormalizeSiteUrl(Some(u))| <= |raw|;
        TrimKeepsLength(u);
        assert !EndsWith(raw, "/");
      }
    }
  }

  /** A trailing slash and surrounding white space make no difference. */
  lemma SlashAndSpaceIgnored()
    ensures NormalizeSiteUrl(Some(" a/\n")) == "a"
  {
    var s := " a/\n";
    var u := "a/\n";
    var t := "a/";
    assert s[1..] == u && u[..2] == t;
    assert IsJsSpace(s[0]) && !IsJsSpace(u[0]);
    assert TrimStart(u, IsJsSpace) == u;
    assert TrimStart(s, IsJsSpace) == u;
    assert IsJsSpace(u[2]) && !IsJsSpace(t[1]);
    assert TrimEnd(t, IsJsSpace) == t;
    assert TrimEnd(u, IsJsSpace) == t;
    assert t[..1] == "a";
  }
}

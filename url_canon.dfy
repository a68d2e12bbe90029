/** `normalize_url`: the canonical form of a video link that keys the metadata cache.
    The same function appears in both sheet-pipeline scripts; it is modelled once here.

    A URL is handled as the record `urllib.parse.urlparse` produces. Its query is the
    sequence of decoded key/value pairs in order, blank values included, which is what
    `parse_qsl(query, keep_blank_values=True)` yields; `parse_qs` without
    `keep_blank_values` is that sequence with the blank pairs dropped. */
module UrlCanon {
  import opened Text

  type Pair = (string, string)

  datatype Url = Url(scheme: string, netloc: string, path: string, params: string,
                     query: seq<Pair>, fragment: string)

  /** What `urlparse` makes of a string: the record, or the message of the `ValueError`
      it raises (for instance on an unbalanced `[` in the network location). */
  datatype Parsed = Parsed(url: Url) | Unparseable(message: string)

  /** `urlparse`, left abstract. */
  type Parser = string -> Parsed

  /** Query keys that only track where a link was shared from. */
  const TrackingKeys: set<string> :=
    {"utm_source", "utm_medium", "utm_campaign", "utm_term", "utm_content", "si", "feature", "t"}

  const ShortLinkHost: string := "youtu.be"

  /** `path.strip("/").split("/")[0]`: the first segment of a short link's path. */
  function ShortLinkId(path: string): string {
    FirstSegment(Trim(path, IsSlash))
  }

  predicate IsSlash(c: char) {
    c == '/'
  }

  function FirstSegment(s: string): (r: string)
    ensures |r| <= |s| && r == s[..|r|]
    ensures forall i :: 0 <= i < |r| ==> r[i] != '/'
    ensures |r| < |s| ==> s[|r|] == '/'
  {
    if s == [] || s[0] == '/' then [] else [s[0]] + FirstSegment(s[1..])
  }

  /** A short link with a video id is rewritten; one without falls through. */
  predicate IsShortLink(u: Url) {
    Lower(u.netloc) == ShortLinkHost && ShortLinkId(u.path) != ""
  }

  /** The long form `https://www.youtube.com/watch?v=<id>`. */
  function WatchUrl(id: string): Url {
    Url("https", "www.youtube.com", "/watch", "", [("v", id)], "")
  }

  /** A pair survives `parse_qs` (non-blank value) and the tracking filter. */
  predicate Keep(p: Pair) {
    p.1 != "" && p.0 !in TrackingKeys
  }

  function KeptPairs(q: seq<Pair>): (r: seq<Pair>)
    ensures forall p :: p in r ==> p in q && Keep(p)
  {
    if q == [] then [] else (if Keep(q[0]) then [q[0]] else []) + KeptPairs(q[1..])
  }

  /** The values recorded under key `k`, in order. */
  function ValuesOf(q: seq<Pair>, k: string): seq<string> {
    if q == [] then [] else (if q[0].0 == k then [q[0].1] else []) + ValuesOf(q[1..], k)
  }

  function WithKey(q: seq<Pair>, k: string): (r: seq<Pair>)
    ensures forall p :: p in r ==> p in q && p.0 == k
  {
    if q == [] then [] else (if q[0].0 == k then [q[0]] else []) + WithKey(q[1..], k)
  }

  function WithoutKey(q: seq<Pair>, k: string): (r: seq<Pair>)
    ensures |r| <= |q|
    ensures q != [] && q[0].0 == k ==> |r| < |q|
    ensures forall p :: p in r ==> p in q && p.0 != k
  {
    if q == [] then [] else (if q[0].0 == k then [] else [q[0]]) + WithoutKey(q[1..], k)
  }

  /** The pairs regrouped the way `parse_qs` builds its dict and `urlencode` flattens it:
      keys in order of first appearance, each followed by all of its values in order. */
  function GroupByKey(q: seq<Pair>): seq<Pair>
    decreases |q|
  {
    if q == [] then [] else WithKey(q, q[0].0) + GroupByKey(WithoutKey(q, q[0].0))
  }

  /** The distinct keys, in order of first appearance. */
  function FirstKeys(q: seq<Pair>): seq<string>
    decreases |q|
  {
    if q == [] then [] else [q[0].0] + FirstKeys(WithoutKey(q, q[0].0))
  }

  /** Pairs that share a key stand next to each other. */
  predicate Grouped(q: seq<Pair>) {
    forall i, j, l :: 0 <= i < j < l < |q| && q[i].0 == q[l].0 ==> q[j].0 == q[i].0
  }

  /** One trailing slash is removed from every path except "/". */
  function TrimTrailingSlash(path: string): string {
    if path != "/" && EndsWith(path, "/") then path[..|path| - 1] else path
  }

  /** `normalize_url` after parsing: drop the fragment, rewrite a short link, otherwise
      filter and regroup the query, default the scheme and trim one trailing slash. */
  function NormalizeParsed(u: Url): (r: Url)
    ensures r.scheme != ""
  {
    var v := u.(fragment := "");
    if IsShortLink(v) then WatchUrl(ShortLinkId(v.path))
    else v.(scheme := if v.scheme == "" then "https" else v.scheme,
            path := TrimTrailingSlash(v.path),
            query := GroupByKey(KeptPairs(v.query)))
  }

  /** `uses_netloc` of Python 3.12's `urllib.parse`: the schemes written with a `//` part even
      when the network location is empty. */
  const UsesNetloc: set<string> :=
    {"", "ftp", "http", "gopher", "nntp", "telnet", "imap", "wais", "file", "mms", "https", "shttp",
     "snews", "prospero", "rtsp", "rtsps", "rtspu", "rsync", "svn", "svn+ssh", "sftp", "nfs", "git",
     "git+ssh", "ws", "wss", "itms-services"}

  /** `urlunparse` of Python 3.12, with percent-encoding left out: the params go after the path
      behind `;`. With a network location, `//` and the location are written, and a relative
      path gets a leading `/`. Without one, `//` is written before a path that starts with `//`,
      and before an empty or `/`-rooted path of a scheme in `UsesNetloc`; a relative path is left
      as it is. `scheme:` goes in front, and `?query` and `#fragment` behind, each only when
      non-empty. */
  function Render(u: Url): (r: string)
    ensures u.scheme != "" ==> r != [] && StartsWith(r, u.scheme + ":")
    ensures u.netloc != "" ==> StartsWith(r, (if u.scheme == "" then "" else u.scheme + ":") + "//" + u.netloc)
  {
    var head := if u.scheme == "" then "" else u.scheme + ":";
    assert StartsWith(head + Hierarchy(u), head);
    assert u.netloc != "" ==> StartsWith(Hierarchy(u), "//" + u.netloc);
    assert u.netloc != "" ==> StartsWith(head + Hierarchy(u), head + "//" + u.netloc);
    head + Hierarchy(u) + Trailer(u)
  }

  /** The network location and path part of `urlunparse`. */
  function Hierarchy(u: Url): string {
    var path := if u.params == "" then u.path else u.path + ";" + u.params;
    if u.netloc != "" then "//" + u.netloc + (if path != "" && path[0] != '/' then "/" + path else path)
    else WithoutLocation(u.scheme, path)
  }

  /** The path part of `urlunsplit` when the network location is empty. */
  function WithoutLocation(scheme: string, path: string): string {
    if StartsWith(path, "//") then "//" + path
    else if scheme != "" && scheme in UsesNetloc && (path == "" || path[0] == '/') then "//" + path
    else path
  }

  /** The query and fragment part of `urlunparse`. */
  function Trailer(u: Url): string {
    (if u.query == [] then "" else "?" + EncodeQuery(u.query))
    + (if u.fragment == "" then "" else "#" + u.fragment)
  }

  function EncodeQuery(q: seq<Pair>): string {
    Join(PairTexts(q), "&")
  }

  function PairTexts(q: seq<Pair>): (r: seq<string>)
    ensures |r| == |q|
  {
    if q == [] then [] else [q[0].0 + "=" + q[0].1] + PairTexts(q[1..])
  }

  /** `normalize_url(url)`: the cache key of a raw link. Blank input gives "", the key
      that is never used; input `urlparse` rejects comes back trimmed. */
  function NormalizeUrl(raw: string, parse: Parser): (r: string)
    ensures r == "" <==> Strip(raw) == ""
  {
    var s := Strip(raw);
    if s == "" then ""
    else match parse(s)
      case Unparseable(_) => s
      case Parsed(u) =>
        var n := NormalizeParsed(u);
        assert StartsWith(Render(n), n.scheme + ":");
        Render(n)
  }

  /** `normalize_url` as a function value, given `urlparse`. */
  function Normalizer(parse: Parser): (canon: string -> string)
    ensures forall s :: canon(s) == "" <==> Strip(s) == ""
  {
    s => NormalizeUrl(s, parse)
  }

  // ---------------------------------------------------------------------------------
  // What normalisation guarantees

  /** A `youtu.be` link with a video id becomes exactly the long watch URL. */
  lemma ShortLinkRewritten(raw: string, parse: Parser, u: Url)
    requires Strip(raw) != "" && parse(Strip(raw)) == Parsed(u)
    requires Lower(u.netloc) == ShortLinkHost && ShortLinkId(u.path) != ""
    ensures NormalizeUrl(raw, parse) == "https://www.youtube.com/watch?v=" + ShortLinkId(u.path)
  {
    assert IsShortLink(u.(fragment := ""));
    RenderWatch(ShortLinkId(u.path));
  }

  /** Without a network location, a rooted path gets an empty `//` part under a scheme in
      `UsesNetloc` and none under another scheme. */
  lemma RenderRootedPath()
    ensures Render(Url("https", "", "/x", "", [], "")) == "https:///x"
    ensures Render(Url("mailto", "", "/x", "", [], "")) == "mailto:/x"
  {
    assert "mailto" !in UsesNetloc by {
      assert "mailto"[0] == 'm';
    }
    assert !StartsWith("/x", "//") by {
      assert "/x"[..2][1] != "//"[1];
    }
    assert WithoutLocation("https", "/x") == "///x";
    assert WithoutLocation("mailto", "/x") == "/x";
  }

  /** Without a network location, a relative path gets no `//` part, even under a scheme in
      `UsesNetloc`. */
  lemma RenderRelativePath()
    ensures Render(Url("https", "", "x", "", [], "")) == "https:x"
  {
    assert !StartsWith("x", "//");
    assert WithoutLocation("https", "x") == "x";
  }

  /** Without a network location, a path that starts with `//` gets another `//`. */
  lemma RenderDoubleSlashPath()
    ensures Render(Url("https", "", "//x", "", [], "")) == "https:////x"
  {
    assert StartsWith("//x", "//");
    assert WithoutLocation("https", "//x") == "////x";
  }

  lemma RenderWatch(id: string)
    ensures Render(WatchUrl(id)) == "https://www.youtube.com/watch?v=" + id
  {
    var u := WatchUrl(id);
    assert Render(u) == "https:" + Hierarchy(u) + Trailer(u);
    WatchHierarchy(id);
    WatchTrailer(id);
    WatchText(id);
  }

  lemma WatchText(id: string)
    ensures "https:" + "//www.youtube.com/watch" + ("?v=" + id) == "https://www.youtube.com/watch?v=" + id
  {
  }

  lemma WatchHierarchy(id: string)
    ensures Hierarchy(WatchUrl(id)) == "//www.youtube.com/watch"
  {
    var u := WatchUrl(id);
    assert u.netloc != "" && u.params == "" && u.path[0] == '/';
    assert Hierarchy(u) == "//" + u.netloc + u.path;
    WatchHierarchyText();
  }

  lemma WatchHierarchyText()
    ensures "//" + "www.youtube.com" + "/watch" == "//www.youtube.com/watch"
  {
  }

  lemma WatchTrailer(id: string)
    ensures Trailer(WatchUrl(id)) == "?v=" + id
  {
    var q := [("v", id)];
    assert EncodeQuery(q) == "v=" + id by {
      assert q[1..] == [];
      assert "v" + "=" == "v=";
      assert PairTexts(q) == ["v=" + id];
    }
    assert "?" + ("v=" + id) + "" == "?v=" + id;
  }

  /** Everything but the short-link rewrite: the fragment is gone, the scheme defaults to
      https, exactly one trailing slash leaves a non-root path, host and params stay. */
  lemma GeneralShape(u: Url)
    requires !IsShortLink(u)
    ensures var r := NormalizeParsed(u);
      && r.fragment == ""
      && r.scheme == (if u.scheme == "" then "https" else u.scheme)
      && r.netloc == u.netloc && r.params == u.params
      && (if u.path != "/" && EndsWith(u.path, "/") then r.path + "/" == u.path
          else r.path == u.path)
  {
    assert !IsShortLink(u.(fragment := ""));
    var p := u.path;
    if p != "/" && EndsWith(p, "/") {
      assert p[..|p| - 1] + "/" == p;
    }
  }

  /** Every result has a scheme and no fragment. */
  lemma SchemeAndFragment(u: Url)
    ensures NormalizeParsed(u).scheme != "" && NormalizeParsed(u).fragment == ""
  {
  }

  lemma {:induction false} ValuesOfAppend(a: seq<Pair>, b: seq<Pair>, k: string)
    ensures ValuesOf(a + b, k) == ValuesOf(a, k) + ValuesOf(b, k)
    decreases |a|
  {
    if a == [] {
      assert a + b == b;
    } else {
      var head := if a[0].0 == k then [a[0].1] else [];
      assert (a + b)[0] == a[0];
      assert (a + b)[1..] == a[1..] + b;
      ValuesOfAppend(a[1..], b, k);
      calc {
        ValuesOf(a + b, k);
        head + ValuesOf(a[1..] + b, k);
        head + (ValuesOf(a[1..], k) + ValuesOf(b, k));
        (head + ValuesOf(a[1..], k)) + ValuesOf(b, k);
        ValuesOf(a, k) + ValuesOf(b, k);
      }
    }
  }

  lemma {:induction false} ValuesOfWithKey(q: seq<Pair>, k: string, k': string)
    ensures ValuesOf(WithKey(q, k), k') == if k' == k then ValuesOf(q, k) else []
    decreases |q|
  {
    if q != [] {
      ValuesOfWithKey(q[1..], k, k');
      ValuesOfAppend(if q[0].0 == k then [q[0]] else [], WithKey(q[1..], k), k');
    }
  }

  lemma {:induction false} ValuesOfWithoutKey(q: seq<Pair>, k: string, k': string)
    ensures ValuesOf(WithoutKey(q, k), k') == if k' == k then [] else ValuesOf(q, k')
    decreases |q|
  {
    if q != [] {
      ValuesOfWithoutKey(q[1..], k, k');
      ValuesOfAppend(if q[0].0 == k then [] else [q[0]], WithoutKey(q[1..], k), k');
    }
  }

  /** Regrouping keeps every key's values, in their original order. */
  lemma {:induction false} GroupKeepsValues(q: seq<Pair>, k: string)
    ensures ValuesOf(GroupByKey(q), k) == ValuesOf(q, k)
    decreases |q|
  {
    if q != [] {
      var k0 := q[0].0;
      var w := WithoutKey(q, k0);
      GroupKeepsValues(w, k);
      ValuesOfAppend(WithKey(q, k0), GroupByKey(w), k);
      ValuesOfWithKey(q, k0, k);
      ValuesOfWithoutKey(q, k0, k);
    }
  }

  lemma {:induction false} GroupElements(q: seq<Pair>)
    ensures forall p :: p in GroupByKey(q) <==> p in q
    decreases |q|
  {
    if q != [] {
      var k0 := q[0].0;
      var w := WithoutKey(q, k0);
      GroupElements(w);
      forall p | p in q ensures p in GroupByKey(q) {
        if p.0 == k0 {
          WithKeyComplete(q, k0, p);
        } else {
          WithoutKeyComplete(q, k0, p);
        }
      }
    }
  }

  lemma {:induction false} WithKeyComplete(q: seq<Pair>, k: string, p: Pair)
    requires p in q && p.0 == k
    ensures p in WithKey(q, k)
    decreases |q|
  {
    if q[0] != p {
      WithKeyComplete(q[1..], k, p);
    }
  }

  lemma {:induction false} WithoutKeyComplete(q: seq<Pair>, k: string, p: Pair)
    requires p in q && p.0 != k
    ensures p in WithoutKey(q, k)
    decreases |q|
  {
    if q[0] != p {
      WithoutKeyComplete(q[1..], k, p);
    }
  }

  lemma GroupedAppend(a: seq<Pair>, b: seq<Pair>, k: string)
    requires forall p :: p in a ==> p.0 == k
    requires forall p :: p in b ==> p.0 != k
    requires Grouped(b)
    ensures Grouped(a + b)
  {
    var c := a + b;
    forall x | 0 <= x < |c| ensures x < |a| ==> c[x].0 == k ensures x >= |a| ==> c[x].0 != k {
      if x < |a| {
        assert c[x] == a[x];
      } else {
        assert c[x] == b[x - |a|];
      }
    }
    forall i, j, l | 0 <= i < j < l < |c| && c[i].0 == c[l].0 ensures c[j].0 == c[i].0 {
      if i >= |a| {
        assert c[i] == b[i - |a|] && c[j] == b[j - |a|] && c[l] == b[l - |a|];
      }
    }
  }

  /** The regrouped query really is grouped. */
  lemma {:induction false} GroupIsGrouped(q: seq<Pair>)
    ensures Grouped(GroupByKey(q))
    decreases |q|
  {
    if q != [] {
      var k0 := q[0].0;
      var w := WithoutKey(q, k0);
      GroupIsGrouped(w);
      GroupElements(w);
      GroupedAppend(WithKey(q, k0), GroupByKey(w), k0);
    }
  }

  lemma {:induction false} WithoutKeyAppend(a: seq<Pair>, b: seq<Pair>, k: string)
    ensures WithoutKey(a + b, k) == WithoutKey(a, k) + WithoutKey(b, k)
    decreases |a|
  {
    if a == [] {
      assert a + b == b;
    } else {
      var h: seq<Pair> := if a[0].0 == k then [] else [a[0]];
      calc {
        WithoutKey(a + b, k);
        { assert (a + b)[0] == a[0]; assert (a + b)[1..] == a[1..] + b; }
        h + WithoutKey(a[1..] + b, k);
        { WithoutKeyAppend(a[1..], b, k); }
        h + (WithoutKey(a[1..], k) + WithoutKey(b, k));
        (h + WithoutKey(a[1..], k)) + WithoutKey(b, k);
      }
    }
  }

  lemma {:induction false} WithoutAbsentKey(q: seq<Pair>, k: string)
    requires forall p :: p in q ==> p.0 != k
    ensures WithoutKey(q, k) == q
    decreases |q|
  {
    if q != [] {
      WithoutAbsentKey(q[1..], k);
    }
  }

  lemma {:induction false} WithoutOnlyKey(q: seq<Pair>, k: string)
    requires forall p :: p in q ==> p.0 == k
    ensures WithoutKey(q, k) == []
    decreases |q|
  {
    if q != [] {
      WithoutOnlyKey(q[1..], k);
    }
  }

  lemma {:induction false} WithAbsentKey(q: seq<Pair>, k: string)
    requires forall p :: p in q ==> p.0 != k
    ensures WithKey(q, k) == []
    decreases |q|
  {
    if q != [] {
      WithAbsentKey(q[1..], k);
    }
  }

  /** Regrouping keeps the order in which keys first appear. */
  lemma {:induction false} GroupKeepsKeyOrder(q: seq<Pair>)
    ensures FirstKeys(GroupByKey(q)) == FirstKeys(q)
    decreases |q|
  {
    if q != [] {
      var k0 := q[0].0;
      var a: seq<Pair> := WithKey(q, k0);
      var w := WithoutKey(q, k0);
      var g: seq<Pair> := GroupByKey(w);
      var ag: seq<Pair> := a + g;
      GroupKeepsKeyOrder(w);
      WithKeyComplete(q, k0, q[0]);
      assert ag[0].0 == k0 by { assert a[0] in a; }
      assert WithoutKey(ag, k0) == g by {
        GroupElements(w);
        WithoutKeyAppend(a, g, k0);
        WithoutOnlyKey(a, k0);
        WithoutAbsentKey(g, k0);
      }
      calc {
        FirstKeys(GroupByKey(q));
        FirstKeys(ag);
        [k0] + FirstKeys(g);
        [k0] + FirstKeys(w);
        FirstKeys(q);
      }
    }
  }

  /** In a grouped sequence the pairs of the first key form a prefix. */
  lemma {:induction false} GroupedSplit(q: seq<Pair>)
    requires q != [] && Grouped(q)
    ensures q == WithKey(q, q[0].0) + WithoutKey(q, q[0].0)
    decreases |q|
  {
    var k := q[0].0;
    var t := q[1..];
    if t != [] {
      assert Grouped(t) by {
        forall i, j, l | 0 <= i < j < l < |t| && t[i].0 == t[l].0 ensures t[j].0 == t[i].0 {
          assert t[i] == q[i + 1] && t[j] == q[j + 1] && t[l] == q[l + 1];
        }
      }
      if t[0].0 == k {
        GroupedSplit(t);
      } else {
        forall p | p in t ensures p.0 != k {
          var l :| 0 <= l < |t| && t[l] == p;
          if l > 0 {
            assert q[1] == t[0] && q[l + 1] == p;
          }
        }
        WithAbsentKey(t, k);
        WithoutAbsentKey(t, k);
      }
    }
  }

  /** Regrouping a grouped sequence changes nothing. */
  lemma {:induction false} GroupOfGrouped(q: seq<Pair>)
    requires Grouped(q)
    ensures GroupByKey(q) == q
    decreases |q|
  {
    if q != [] {
      var k := q[0].0;
      var a := WithKey(q, k);
      var w := WithoutKey(q, k);
      GroupedSplit(q);
      assert w == q[|a|..];
      assert Grouped(w) by {
        forall i, j, l | 0 <= i < j < l < |w| && w[i].0 == w[l].0 ensures w[j].0 == w[i].0 {
          assert w[i] == q[i + |a|] && w[j] == q[j + |a|] && w[l] == q[l + |a|];
        }
      }
      GroupOfGrouped(w);
    }
  }

  lemma {:induction false} KeptValues(q: seq<Pair>, k: string)
    ensures ValuesOf(KeptPairs(q), k) == if k in TrackingKeys then [] else NonBlank(ValuesOf(q, k))
    decreases |q|
  {
    if q != [] {
      KeptValues(q[1..], k);
      ValuesOfAppend(if Keep(q[0]) then [q[0]] else [], KeptPairs(q[1..]), k);
      var h: seq<string> := if q[0].0 == k then [q[0].1] else [];
      assert ValuesOf(q, k) == h + ValuesOf(q[1..], k);
      NonBlankAppend(h, ValuesOf(q[1..], k));
    }
  }

  lemma {:induction false} NonBlankAppend(a: seq<string>, b: seq<string>)
    ensures NonBlank(a + b) == NonBlank(a) + NonBlank(b)
    decreases |a|
  {
    if a == [] {
      assert a + b == b;
    } else {
      assert (a + b)[0] == a[0];
      assert (a + b)[1..] == a[1..] + b;
      NonBlankAppend(a[1..], b);
    }
  }

  lemma {:induction false} KeptOfKept(q: seq<Pair>)
    requires forall p :: p in q ==> Keep(p)
    ensures KeptPairs(q) == q
    decreases |q|
  {
    if q != [] {
      KeptOfKept(q[1..]);
    }
  }

  /** The query of a normalised URL: no tracking key is left; every other key keeps its
      non-blank values in their original order; keys appear in the order in which they
      first appeared among the kept pairs, and each key's pairs stand together. */
  lemma QueryNormalized(u: Url, k: string)
    requires !IsShortLink(u)
    ensures var q := NormalizeParsed(u).query;
      && ValuesOf(q, k) == (if k in TrackingKeys then [] else NonBlank(ValuesOf(u.query, k)))
      && Grouped(q)
      && FirstKeys(q) == FirstKeys(KeptPairs(u.query))
      && forall p :: p in q ==> Keep(p)
  {
    assert !IsShortLink(u.(fragment := ""));
    var kept := KeptPairs(u.query);
    GroupKeepsValues(kept, k);
    KeptValues(u.query, k);
    GroupIsGrouped(kept);
    GroupKeepsKeyOrder(kept);
    GroupElements(kept);
  }

  /** Normalising twice is normalising once, unless the path ends in two slashes: only
      one trailing slash goes per pass. */
  lemma Idempotent(u: Url)
    requires |u.path| <= 2 || !EndsWith(u.path, "//")
    ensures NormalizeParsed(NormalizeParsed(u)) == NormalizeParsed(u)
  {
    var v := u.(fragment := "");
    var r := NormalizeParsed(u);
    if IsShortLink(v) {
      WatchUrlIsFixed(ShortLinkId(v.path));
    } else {
      assert r.netloc == u.netloc;
      if Lower(u.netloc) == ShortLinkHost {
        SlashOnlyPath(u.path);
        SlashOnlyPath(r.path);
      }
      assert !IsShortLink(r.(fragment := ""));
      QueryIdempotent(v.query);
      PathIdempotent(u.path);
    }
  }

  lemma WatchUrlIsFixed(id: string)
    requires id != ""
    ensures NormalizeParsed(WatchUrl(id)) == WatchUrl(id)
  {
    var w := WatchUrl(id);
    assert |Lower(w.netloc)| == 15;
    assert !IsShortLink(w);
    assert KeptPairs(w.query) == w.query by {
      assert "v" !in TrackingKeys;
      assert w.query[1..] == [];
    }
    GroupOfGrouped(w.query);
  }

  lemma QueryIdempotent(q: seq<Pair>)
    ensures GroupByKey(KeptPairs(GroupByKey(KeptPairs(q)))) == GroupByKey(KeptPairs(q))
  {
    var kept := KeptPairs(q);
    var g := GroupByKey(kept);
    GroupElements(kept);
    KeptOfKept(g);
    GroupIsGrouped(kept);
    GroupOfGrouped(g);
  }

  lemma PathIdempotent(p: string)
    requires |p| <= 2 || !EndsWith(p, "//")
    ensures TrimTrailingSlash(TrimTrailingSlash(p)) == TrimTrailingSlash(p)
  {
    if p != "/" && EndsWith(p, "/") && |p| > 2 {
      var t := p[..|p| - 1];
      assert t[|t| - 1] == p[|p| - 2];
      assert p[|p| - 2..] == [p[|p| - 2], '/'];
    }
  }

  /** A path yields no short-link id exactly when it is made of slashes only. */
  lemma SlashOnlyPath(p: string)
    ensures ShortLinkId(p) == "" <==> forall i :: 0 <= i < |p| ==> p[i] == '/'
  {
    var s := Trim(p, IsSlash);
    TrimEmptyIffAllSpace(p, IsSlash);
    if s != [] {
      assert !IsSlash(s[0]);
    }
  }

  /** The code strips a single slash per pass, so "/p//" needs two passes. */
  lemma NotIdempotentOnDoubleSlash()
    ensures var u := Url("https", "x.com", "/p//", "", [], "");
      NormalizeParsed(NormalizeParsed(u)) != NormalizeParsed(u)
  {
    var u := Url("https", "x.com", "/p//", "", [], "");
    assert |Lower(u.netloc)| == 5;
    assert NormalizeParsed(u).path == "/p/";
    assert NormalizeParsed(NormalizeParsed(u)).path == "/p";
  }

  /** The short and the long form of one video, the latter with a share tag, agree. */
  lemma ShortAndLongFormsAgree()
    ensures NormalizeParsed(Url("https", "youtu.be", "/abc123", "", [], ""))
         == NormalizeParsed(Url("https", "www.youtube.com", "/watch", "",
                                [("v", "abc123"), ("feature", "share")], ""))
  {
    ShortFormExample();
    LongFormExample();
  }

  lemma ShortFormExample()
    ensures NormalizeParsed(Url("https", "youtu.be", "/abc123", "", [], "")) == WatchUrl("abc123")
  {
    ShortHostIsLowerCase();
    ShortLinkIdExample();
  }

  lemma ShortHostIsLowerCase()
    ensures Lower(ShortLinkHost) == ShortLinkHost
  {
    var h := ShortLinkHost;
    forall i | 0 <= i < |h| ensures LowerChar(h[i]) == h[i] {
    }
  }

  lemma ShortLinkIdExample()
    ensures ShortLinkId("/abc123") == "abc123"
  {
    var s := "abc123";
    assert ("/" + s)[1..] == s;
    assert TrimStart(s, IsSlash) == s;
    assert TrimStart("/" + s, IsSlash) == s;
    assert TrimEnd(s, IsSlash) == s;
    assert FirstSegment(s) == s by {
      assert forall i :: 0 <= i < |s| ==> s[i] != '/';
      FirstSegmentWhole(s);
    }
  }

  lemma FirstSegmentWhole(s: string)
    requires forall i :: 0 <= i < |s| ==> s[i] != '/'
    ensures FirstSegment(s) == s
  {
  }

  lemma LongFormExample()
    ensures NormalizeParsed(Url("https", "www.youtube.com", "/watch", "",
                                [("v", "abc123"), ("feature", "share")], "")) == WatchUrl("abc123")
  {
    var q := [("v", "abc123"), ("feature", "share")];
    assert KeptPairs(q) == [("v", "abc123")] by {
      assert "feature" in TrackingKeys && "v" !in TrackingKeys;
      assert q[1..] == [("feature", "share")];
      assert q[1..][1..] == [];
    }
    assert |Lower("www.youtube.com")| == 15;
    WatchUrlIsFixed("abc123");
  }

  /** A sheet link typed without a scheme, `youtube.com/watch?v=abcdef`, is parsed with an empty
      location, so its key gets `https:` but no `//` part. */
  lemma SchemelessLinkKey()
    ensures Render(NormalizeParsed(Url("", "", "youtube.com/watch", "", [("v", "abcdef")], "")))
            == "https:youtube.com/watch?v=abcdef"
  {
    SchemelessNormalized();
    SchemelessRendered();
  }

  lemma SchemelessNormalized()
    ensures NormalizeParsed(Url("", "", "youtube.com/watch", "", [("v", "abcdef")], ""))
            == Url("https", "", "youtube.com/watch", "", [("v", "abcdef")], "")
  {
    var q := [("v", "abcdef")];
    assert KeptPairs(q) == q by {
      assert "v" !in TrackingKeys;
      assert q[1..] == [];
    }
    assert GroupByKey(q) == q by {
      assert Grouped(q);
      GroupOfGrouped(q);
    }
    assert Lower("") == "";
    assert !EndsWith("youtube.com/watch", "/");
  }

  lemma SchemelessRendered()
    ensures Render(Url("https", "", "youtube.com/watch", "", [("v", "abcdef")], ""))
            == "https:youtube.com/watch?v=abcdef"
  {
    var n := Url("https", "", "youtube.com/watch", "", [("v", "abcdef")], "");
    assert Render(n) == "https:" + Hierarchy(n) + Trailer(n);
    SchemelessHierarchy();
    WatchTrailer("abcdef");
    assert Trailer(n) == Trailer(WatchUrl("abcdef"));
    SchemelessText();
  }

  lemma SchemelessHierarchy()
    ensures WithoutLocation("https", "youtube.com/watch") == "youtube.com/watch"
  {
    assert !StartsWith("youtube.com/watch", "//") by {
      assert "youtube.com/watch"[..2][0] != "//"[0];
    }
    assert "youtube.com/watch"[0] != '/';
  }

  lemma SchemelessText()
    ensures "https:" + "youtube.com/watch" + ("?v=" + "abcdef") == "https:youtube.com/watch?v=abcdef"
  {
  }

  /** With and without one trailing slash, a non-short link gets the same key. */
  lemma TrailingSlashIgnored(u: Url)
    requires Lower(u.netloc) != ShortLinkHost
    requires u.path != "" && !EndsWith(u.path, "/")
    ensures NormalizeParsed(u.(path := u.path + "/")) == NormalizeParsed(u)
  {
    assert (u.path + "/")[..|u.path|] == u.path;
  }
}

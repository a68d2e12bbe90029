/** `video_enrich.py`: collect the links of all rows, fetch the ones the cache lacks, and add
    a title and a thumbnail column next to every link column. */
module Enrich {
  import opened Wrappers
  import opened Text
  import opened UrlCanon
  import opened Rows
  import opened VideoFetch

  /** `video_info.json`: canonical URL to record. */
  type Cache = map<string, Info>

  /** `VIDEO_LINK_FIELDS` when the environment does not set it. */
  const DefaultLinkFields: seq<string> := ["timestamp 1 link", "ts 2 link"]

  const LinkSuffix: string := " link"

  /** `base_name_from_link_field`: the field name without a trailing " link" (any case). */
  function BaseName(field: string): string {
    WithoutLinkSuffix(Strip(field))
  }

  /** A stripped field name without its trailing " link" (any case) and the blanks before
      it. */
  function WithoutLinkSuffix(s: string): string {
    if EndsWith(Lower(s), LinkSuffix) then RStrip(s[..|s| - |LinkSuffix|]) else s
  }

  /** The base name is the stripped field name `s`, or, when that ends in " link" in any
      case, what precedes the suffix with the blanks before it removed. */
  lemma BaseNameSpec(s: string)
    ensures var r := WithoutLinkSuffix(s);
      if EndsWith(Lower(s), LinkSuffix)
      then |r| <= |s| - |LinkSuffix| && r == s[..|r|] && (r == [] || !IsPySpace(r[|r| - 1]))
           && forall i :: |r| <= i < |s| - |LinkSuffix| ==> IsPySpace(s[i])
      else r == s
  {
    if EndsWith(Lower(s), LinkSuffix) {
      RStripOfPrefix(s, |s| - |LinkSuffix|);
    }
  }

  /** Right-stripping a prefix of `s` gives a shorter prefix of `s`, and what it drops
      is blank. */
  lemma RStripOfPrefix(s: string, n: nat)
    requires n <= |s|
    ensures var r := RStrip(s[..n]);
      |r| <= n && r == s[..|r|] && (r == [] || !IsPySpace(r[|r| - 1]))
      && forall i :: |r| <= i < n ==> IsPySpace(s[i])
  {
    var t := s[..n];
    var r := RStrip(t);
    assert r == t[..|r|];
    assert forall i :: |r| <= i < n ==> IsPySpace(t[i]) && t[i] == s[i];
  }

  /** A field named "<name> link", with no blank at either end of the name, has the base
      name "<name>": "timestamp 1 link" gives "timestamp 1". */
  lemma BaseNameOfLinkField(name: string)
    requires name != [] && !IsPySpace(name[0]) && !IsPySpace(name[|name| - 1])
    ensures BaseName(name + LinkSuffix) == name
  {
    var f := name + LinkSuffix;
    StripOfTrimmed(f);
    StripOfTrimmed(name);
    var tail := Lower(f)[|f| - 5..];
    forall k | 0 <= k < 5 ensures tail[k] == LinkSuffix[k] {
      assert tail[k] == LowerChar(f[|name| + k]);
      assert f[|name| + k] == LinkSuffix[k];
    }
    assert f[..|f| - 5] == name;
  }

  /** A text with no blank at either end is its own strip. */
  lemma StripOfTrimmed(s: string)
    requires s != [] && !IsPySpace(s[0]) && !IsPySpace(s[|s| - 1])
    ensures Strip(s) == s && RStrip(s) == s
  {
  }

  function TitleKey(base: string): string {
    base + " title"
  }

  function ThumbKey(base: string): string {
    base + " thumbnail"
  }

  /** A title column is never a thumbnail column, and different bases give different
      columns. */
  lemma DerivedColumnsDistinct(a: string, b: string)
    ensures TitleKey(a) != ThumbKey(b)
    ensures TitleKey(a) == TitleKey(b) <==> a == b
    ensures ThumbKey(a) == ThumbKey(b) <==> a == b
  {
    var ta, tb := TitleKey(a), ThumbKey(b);
    assert ta[|ta| - 1] == 'e' && tb[|tb| - 1] == 'l';
    if TitleKey(a) == TitleKey(b) {
      assert a == TitleKey(a)[..|a|] && b == TitleKey(b)[..|b|];
    }
    if ThumbKey(a) == ThumbKey(b) {
      assert a == ThumbKey(a)[..|a|] && b == ThumbKey(b)[..|b|];
    }
  }

  // ---------------------------------------------------------------------------------
  // Collecting the URLs to fetch

  /** `wanted`: each URL the first time it is seen, unless the cache has it already. */
  function Wanted(links: seq<Link>, cache: Cache): seq<string>
    decreases |links|
  {
    if links == [] then []
    else
      var init := links[..|links| - 1];
      var u := links[|links| - 1].0;
      Wanted(init, cache) + (if u in Seen(init) || u in cache then [] else [u])
  }

  /** The URLs to fetch are distinct, and they are exactly the seen URLs the cache lacks. */
  lemma {:induction false} WantedSpec(links: seq<Link>, cache: Cache)
    ensures NoDup(Wanted(links, cache))
    ensures forall u :: u in Wanted(links, cache) <==> u in Seen(links) && u !in cache
    decreases |links|
  {
    if links != [] {
      WantedSpec(links[..|links| - 1], cache);
    }
  }

  lemma {:induction false} SeenHasNoBlank(links: seq<Link>)
    requires forall l :: l in links ==> l.0 != ""
    ensures "" !in Seen(links)
    decreases |links|
  {
    if links != [] {
      var init := links[..|links| - 1];
      assert forall l :: l in init ==> l in links;
      SeenHasNoBlank(init);
    }
  }

  /** Once the cache holds every seen URL nothing is wanted: a second run fetches nothing. */
  lemma NothingWanted(links: seq<Link>, cache: Cache)
    requires Seen(links) <= cache.Keys
    ensures Wanted(links, cache) == []
  {
    WantedSpec(links, cache);
  }

  lemma LinksSnoc(items: seq<Item>, fields: seq<string>, canon: string -> string, i: nat)
    requires i < |items|
    ensures Links(items[..i + 1], fields, canon)
         == Links(items[..i], fields, canon)
            + (if items[i].Record? then RowLinks(items[i].row, fields, canon) else [])
  {
    assert items[..i + 1][..i] == items[..i];
  }

  lemma RowLinksSnoc(row: Row, fields: seq<string>, canon: string -> string, j: nat)
    requires j < |fields|
    ensures RowLinks(row, fields[..j + 1], canon)
         == RowLinks(row, fields[..j], canon)
            + (if LinkUrl(row, fields[j], canon) != "" then [(LinkUrl(row, fields[j], canon), row)] else [])
  {
    assert fields[..j + 1][..j] == fields[..j];
  }

  lemma SeenWantedSnoc(links: seq<Link>, l: Link, cache: Cache)
    ensures Seen(links + [l]) == Seen(links) + {l.0}
    ensures Wanted(links + [l], cache)
         == Wanted(links, cache) + (if l.0 in Seen(links) || l.0 in cache then [] else [l.0])
  {
    assert (links + [l])[..|links|] == links;
  }

  /** The first loop of `main`: walks the rows and their link fields, building `seen` and
      `wanted`. */
  method CollectWanted(items: seq<Item>, fields: seq<string>, canon: string -> string, cache: Cache)
    returns (wanted: seq<string>, seen: set<string>)
    ensures seen == Seen(Links(items, fields, canon))
    ensures wanted == Wanted(Links(items, fields, canon), cache)
  {
    wanted, seen := [], {};
    for i := 0 to |items|
      invariant seen == Seen(Links(items[..i], fields, canon))
      invariant wanted == Wanted(Links(items[..i], fields, canon), cache)
    {
      LinksSnoc(items, fields, canon, i);
      if items[i].Record? {
        wanted, seen := CollectRow(items[i].row, fields, canon, cache, Links(items[..i], fields, canon),
                                   wanted, seen);
      } else {
        assert Links(items[..i + 1], fields, canon) == Links(items[..i], fields, canon);
      }
    }
    assert items[..|items|] == items;
  }

  /** The inner loop of the first loop: the link fields of one row object, continuing from
      the state left by the links `before` it. */
  method CollectRow(row: Row, fields: seq<string>, canon: string -> string, cache: Cache,
                    ghost before: seq<Link>, wanted0: seq<string>, seen0: set<string>)
    returns (wanted: seq<string>, seen: set<string>)
    requires seen0 == Seen(before) && wanted0 == Wanted(before, cache)
    ensures seen == Seen(before + RowLinks(row, fields, canon))
    ensures wanted == Wanted(before + RowLinks(row, fields, canon), cache)
  {
    wanted, seen := wanted0, seen0;
    assert fields[..0] == [] && before + [] == before;
    for j := 0 to |fields|
      invariant seen == Seen(before + RowLinks(row, fields[..j], canon))
      invariant wanted == Wanted(before + RowLinks(row, fields[..j], canon), cache)
    {
      var url := LinkUrl(row, fields[j], canon);
      CollectStep(row, fields, canon, cache, before, j);
      if url == "" {
        continue;
      }
      if url in seen {
        continue;
      }
      seen := seen + {url};
      if url !in cache {
        wanted := wanted + [url];
      }
    }
    assert fields[..|fields|] == fields;
  }

  /** One field of the inner loop: how `seen` and `wanted` grow. */
  lemma CollectStep(row: Row, fields: seq<string>, canon: string -> string, cache: Cache,
                    before: seq<Link>, j: nat)
    requires j < |fields|
    ensures var done := before + RowLinks(row, fields[..j], canon);
      var next := before + RowLinks(row, fields[..j + 1], canon);
      var url := LinkUrl(row, fields[j], canon);
      && Seen(next) == Seen(done) + (if url == "" then {} else {url})
      && Wanted(next, cache)
         == Wanted(done, cache) + (if url == "" || url in Seen(done) || url in cache then [] else [url])
  {
    var done := before + RowLinks(row, fields[..j], canon);
    var url := LinkUrl(row, fields[j], canon);
    RowLinksSnoc(row, fields, canon, j);
    if url == "" {
      assert before + RowLinks(row, fields[..j + 1], canon) == done;
    } else {
      assert before + RowLinks(row, fields[..j + 1], canon) == done + [(url, row)];
      SeenWantedSnoc(done, (url, row), cache);
    }
  }

  // ---------------------------------------------------------------------------------
  // Fetching

  /** The cache after fetching `urls` in order with `fetch` (`Fetch` for the given `urlparse`
      and network); the i-th fetch is stamped `clock(i)`. */
  function Fetched(urls: seq<string>, cache: Cache, fetch: string -> Result<Info>, clock: nat -> string): Cache
    decreases |urls|
  {
    if urls == [] then cache
    else
      var n := |urls| - 1;
      Fetched(urls[..n], cache, fetch, clock)[urls[n] := Recorded(fetch(urls[n]), clock(n))]
  }

  /** Fetching adds exactly the fetched URLs to the keys. */
  lemma {:induction false} FetchedKeys(urls: seq<string>, cache: Cache, fetch: string -> Result<Info>, clock: nat -> string)
    ensures Fetched(urls, cache, fetch, clock).Keys == cache.Keys + set u | u in urls
    decreases |urls|
  {
    if urls != [] {
      var n := |urls| - 1;
      FetchedKeys(urls[..n], cache, fetch, clock);
      assert forall u :: u in urls <==> u in urls[..n] || u == urls[n];
    }
  }

  /** Fetching leaves every entry it does not fetch alone. */
  lemma {:induction false} FetchedKeeps(urls: seq<string>, cache: Cache, fetch: string -> Result<Info>, clock: nat -> string)
    ensures var c := Fetched(urls, cache, fetch, clock);
      forall k :: k in cache && k !in urls ==> k in c && c[k] == cache[k]
    decreases |urls|
  {
    if urls != [] {
      var n := |urls| - 1;
      FetchedKeys(urls[..n], cache, fetch, clock);
      FetchedKeeps(urls[..n], cache, fetch, clock);
      assert forall u :: u in urls[..n] ==> u in urls;
    }
  }

  /** Fetching distinct URLs stores for each the outcome of its own fetch. */
  lemma {:induction false} FetchedRecords(urls: seq<string>, cache: Cache, fetch: string -> Result<Info>, clock: nat -> string)
    requires NoDup(urls)
    ensures var c := Fetched(urls, cache, fetch, clock);
      forall i :: 0 <= i < |urls| ==> urls[i] in c && c[urls[i]] == Recorded(fetch(urls[i]), clock(i))
    decreases |urls|
  {
    if urls != [] {
      var n := |urls| - 1;
      var init := urls[..n];
      FetchedKeys(init, cache, fetch, clock);
      FetchedRecords(init, cache, fetch, clock);
      var c := Fetched(urls, cache, fetch, clock);
      assert c == Fetched(init, cache, fetch, clock)[urls[n] := Recorded(fetch(urls[n]), clock(n))];
      forall i | 0 <= i < n
        ensures urls[i] in c && c[urls[i]] == Recorded(fetch(urls[i]), clock(i))
      {
        assert init[i] == urls[i] && urls[i] != urls[n];
      }
    }
  }

  /** The second loop of `main`: fetch every wanted URL and store the stamped outcome. */
  method FetchMissing(wanted: seq<string>, cache0: Cache, fetch: string -> Result<Info>, clock: nat -> string)
    returns (cache: Cache)
    ensures cache == Fetched(wanted, cache0, fetch, clock)
  {
    cache := cache0;
    for i := 0 to |wanted|
      invariant cache == Fetched(wanted[..i], cache0, fetch, clock)
    {
      assert wanted[..i + 1][..i] == wanted[..i];
      var info := Recorded(fetch(wanted[i]), clock(i));
      cache := cache[wanted[i] := info];
    }
    assert wanted[..|wanted|] == wanted;
  }

  // ---------------------------------------------------------------------------------
  // Enriching

  /** `info.get("title") or ""` for the link's key; "" for a blank link or a missing entry. */
  function DerivedTitle(url: string, cache: Cache): string {
    if url == "" || url !in cache then "" else OrEmpty(cache[url].title)
  }

  function DerivedThumb(url: string, cache: Cache): string {
    if url == "" || url !in cache then "" else OrEmpty(cache[url].thumbnail)
  }

  /** The columns written for `fields`, each field naming its pair of columns through
      `base` (`BaseName` in the script). */
  function DerivedKeys(fields: seq<string>, base: string -> string): set<string>
    decreases |fields|
  {
    if fields == [] then {}
    else
      var b := base(fields[|fields| - 1]);
      DerivedKeys(fields[..|fields| - 1], base) + {TitleKey(b), ThumbKey(b)}
  }

  /** `out = dict(row)` with a title and a thumbnail column per link field, later fields
      overwriting earlier ones that share a base name. */
  function AddColumns(row: Row, fields: seq<string>, base: string -> string, canon: string -> string,
                      cache: Cache): Row
    decreases |fields|
  {
    if fields == [] then row
    else
      var f := fields[|fields| - 1];
      var b := base(f);
      var url := LinkUrl(row, f, canon);
      AddColumns(row, fields[..|fields| - 1], base, canon, cache)
        [TitleKey(b) := Str(DerivedTitle(url, cache))]
        [ThumbKey(b) := Str(DerivedThumb(url, cache))]
  }

  /** The row keeps all its columns and gains exactly the derived ones. */
  lemma {:induction false} AddColumnsKeys(row: Row, fields: seq<string>, base: string -> string,
                                         canon: string -> string, cache: Cache)
    ensures AddColumns(row, fields, base, canon, cache).Keys == row.Keys + DerivedKeys(fields, base)
    decreases |fields|
  {
    if fields != [] {
      AddColumnsKeys(row, fields[..|fields| - 1], base, canon, cache);
    }
  }

  /** A column no field writes keeps its value. */
  lemma {:induction false} AddColumnsKeeps(row: Row, fields: seq<string>, base: string -> string,
                                          canon: string -> string, cache: Cache)
    ensures var r := AddColumns(row, fields, base, canon, cache);
      forall k :: k in row && k !in DerivedKeys(fields, base) ==> k in r && r[k] == row[k]
    decreases |fields|
  {
    if fields != [] {
      AddColumnsKeeps(row, fields[..|fields| - 1], base, canon, cache);
    }
  }

  /** Every written column holds a string, so none is null. */
  lemma {:induction false} AddColumnsStrings(row: Row, fields: seq<string>, base: string -> string,
                                            canon: string -> string, cache: Cache)
    ensures var r := AddColumns(row, fields, base, canon, cache);
      forall k :: k in DerivedKeys(fields, base) ==> k in r && r[k].Str?
    decreases |fields|
  {
    if fields != [] {
      AddColumnsStrings(row, fields[..|fields| - 1], base, canon, cache);
    }
  }

  /** The enrichment of one row object. */
  function EnrichRow(row: Row, fields: seq<string>, canon: string -> string, cache: Cache): Row {
    AddColumns(row, fields, BaseName, canon, cache)
  }

  /** The columns of a link field hold its derived title and thumbnail, unless a later
      field with the same base name overwrites them. */
  lemma {:induction false} AddColumnsField(row: Row, fields: seq<string>, base: string -> string,
                                          canon: string -> string, cache: Cache, i: nat)
    requires i < |fields|
    requires forall j :: i < j < |fields| ==> base(fields[j]) != base(fields[i])
    ensures var r := AddColumns(row, fields, base, canon, cache);
      TitleKey(base(fields[i])) in r && ThumbKey(base(fields[i])) in r
    ensures var r := AddColumns(row, fields, base, canon, cache);
      var b := base(fields[i]);
      var url := LinkUrl(row, fields[i], canon);
      r[TitleKey(b)] == Str(DerivedTitle(url, cache)) && r[ThumbKey(b)] == Str(DerivedThumb(url, cache))
    decreases |fields|
  {
    var n := |fields| - 1;
    var b := base(fields[i]);
    DerivedColumnsDistinct(b, b);
    if i < n {
      var init := fields[..n];
      assert init[i] == fields[i];
      forall j | i < j < n ensures base(init[j]) != base(init[i]) {
        assert init[j] == fields[j];
      }
      AddColumnsField(row, init, base, canon, cache, i);
      var bn := base(fields[n]);
      DerivedColumnsDistinct(b, bn);
      DerivedColumnsDistinct(bn, b);
      AddColumnsStep(row, fields, base, canon, cache, TitleKey(b));
      AddColumnsStep(row, fields, base, canon, cache, ThumbKey(b));
    }
  }

  lemma AddColumnsStep(row: Row, fields: seq<string>, base: string -> string, canon: string -> string,
                       cache: Cache, k: string)
    requires fields != [] && k in AddColumns(row, fields[..|fields| - 1], base, canon, cache)
    requires k != TitleKey(base(fields[|fields| - 1])) && k != ThumbKey(base(fields[|fields| - 1]))
    ensures k in AddColumns(row, fields, base, canon, cache)
    ensures AddColumns(row, fields, base, canon, cache)[k] == AddColumns(row, fields[..|fields| - 1], base, canon, cache)[k]
  {
  }

  /** For the script's own base names: each link field's columns hold what its link finds in
      the cache, unless a later field shares its base name; every original column not
      overwritten is kept; every written column holds a string. */
  lemma EnrichRowSpec(row: Row, fields: seq<string>, canon: string -> string, cache: Cache, i: nat)
    requires i < |fields|
    requires forall j :: i < j < |fields| ==> BaseName(fields[j]) != BaseName(fields[i])
    ensures var r := EnrichRow(row, fields, canon, cache);
      var b := BaseName(fields[i]);
      var url := LinkUrl(row, fields[i], canon);
      && TitleKey(b) in r && ThumbKey(b) in r
      && r[TitleKey(b)] == Str(DerivedTitle(url, cache)) && r[ThumbKey(b)] == Str(DerivedThumb(url, cache))
  {
    AddColumnsField(row, fields, BaseName, canon, cache, i);
  }

  function EnrichItem(it: Item, fields: seq<string>, canon: string -> string, cache: Cache): Item {
    match it
    case Record(row) => Record(EnrichRow(row, fields, canon, cache))
    case Other(_) => it
  }

  /** The third loop of `main`: every item in order, object rows enriched, others as is. */
  method EnrichRows(items: seq<Item>, fields: seq<string>, canon: string -> string, cache: Cache)
    returns (enriched: seq<Item>)
    ensures |enriched| == |items|
    ensures forall i :: 0 <= i < |items| ==> enriched[i] == EnrichItem(items[i], fields, canon, cache)
  {
    enriched := [];
    for i := 0 to |items|
      invariant |enriched| == i
      invariant forall k :: 0 <= k < i ==> enriched[k] == EnrichItem(items[k], fields, canon, cache)
    {
      if items[i].Record? {
        var out := EnrichRow(items[i].row, fields, canon, cache);
        enriched := enriched + [Record(out)];
      } else {
        enriched := enriched + [items[i]];
      }
    }
  }

  /** `main` with the files read and written by the caller: the enriched rows, the updated
      cache and the URLs fetched (in fetch order). */
  method Run(items: seq<Item>, fields: seq<string>, cache0: Cache, parse: Parser, net: Net,
             clock: nat -> string)
    returns (enriched: seq<Item>, cache: Cache, fetched: seq<string>)
    ensures var links := Links(items, fields, Normalizer(parse));
      && fetched == Wanted(links, cache0)
      && NoDup(fetched)
      && (forall u :: u in fetched <==> u in Seen(links) && u !in cache0)
      && cache.Keys == cache0.Keys + Seen(links)
      && "" !in cache.Keys - cache0.Keys
      && (forall k :: k in cache0 ==> cache[k] == cache0[k])
      && (forall i :: 0 <= i < |fetched| ==>
            cache[fetched[i]] == Recorded(Fetch(fetched[i], parse, net), clock(i)))
      && Wanted(links, cache) == []
    ensures |enriched| == |items|
    ensures forall i :: 0 <= i < |items| ==>
      enriched[i] == EnrichItem(items[i], fields, Normalizer(parse), cache)
  {
    var canon := Normalizer(parse);
    var seen;
    fetched, seen := CollectWanted(items, fields, canon, cache0);
    var fetch := (u: string) => Fetch(u, parse, net);
    cache := FetchMissing(fetched, cache0, fetch, clock);
    enriched := EnrichRows(items, fields, canon, cache);
    ghost var links := Links(items, fields, canon);
    WantedSpec(links, cache0);
    FetchedKeys(fetched, cache0, fetch, clock);
    FetchedKeeps(fetched, cache0, fetch, clock);
    FetchedRecords(fetched, cache0, fetch, clock);
    SeenHasNoBlank(links);
    assert cache.Keys == cache0.Keys + Seen(links);
    NothingWanted(links, cache);
  }
}

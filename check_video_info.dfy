/** `check_video_info.py`: list the cache records that lack a title or a thumbnail, skipping
    unavailable videos and Twitch VODs whose rows are all older than a cutoff. */
module CheckVideoInfo {
  import opened Wrappers
  import opened Text
  import opened Lex
  import opened UrlCanon
  import opened Rows
  import opened VideoFetch
  import opened Calendar

  /** `SKIP_MEDIA_TYPE` and `CUTOFF_MONTHS` when the environment does not set them. */
  const DefaultSkipMediaType: string := "VOD\U{23F3}"
  const DefaultCutoffMonths: int := 2

  /** `urlparse`, `datetime.fromisoformat(s).date()` (`None` where it raises), the cutoff date
      and the media type of VODs that may be skipped. */
  datatype Context = Context(parse: Parser, iso: string -> Option<Date>, cutoff: Date,
                             skipMediaType: string)

  /** `parse_iso_date`: a falsy or blank value has no date; a trailing "Z" is read as UTC. */
  function ParseIsoDate(v: Value, iso: string -> Option<Date>): (r: Option<Date>)
    ensures !Truthy(v) || Strip(PyStr(v)) == "" ==> r == None
    ensures Truthy(v) && Strip(PyStr(v)) != "" && !EndsWith(Strip(PyStr(v)), "Z") ==> r == iso(Strip(PyStr(v)))
    ensures Truthy(v) && Strip(PyStr(v)) != "" && EndsWith(Strip(PyStr(v)), "Z") ==>
      r == iso(Strip(PyStr(v))[..|Strip(PyStr(v))| - 1] + "+00:00")
  {
    if !Truthy(v) then None
    else
      var s := Strip(PyStr(v));
      if s == "" then None
      else if EndsWith(s, "Z") then iso(s[..|s| - 1] + "+00:00")
      else iso(s)
  }

  /** The row's date: "Date", else "Added date", else "date". */
  function RowDate(row: Row, iso: string -> Option<Date>): (r: Option<Date>)
    ensures ParseIsoDate(Get(row, "Date"), iso).Some? ==> r == ParseIsoDate(Get(row, "Date"), iso)
    ensures ParseIsoDate(Get(row, "Date"), iso).None? && ParseIsoDate(Get(row, "Added date"), iso).Some? ==>
      r == ParseIsoDate(Get(row, "Added date"), iso)
    ensures ParseIsoDate(Get(row, "Date"), iso).None? && ParseIsoDate(Get(row, "Added date"), iso).None? ==>
      r == ParseIsoDate(Get(row, "date"), iso)
    ensures r.None? <==> (ParseIsoDate(Get(row, "Date"), iso).None?
                          && ParseIsoDate(Get(row, "Added date"), iso).None?
                          && ParseIsoDate(Get(row, "date"), iso).None?)
  {
    var d1 := ParseIsoDate(Get(row, "Date"), iso);
    if d1.Some? then d1
    else
      var d2 := ParseIsoDate(Get(row, "Added date"), iso);
      if d2.Some? then d2 else ParseIsoDate(Get(row, "date"), iso)
  }

  /** `is_twitch` on a cache key; a key `urlparse` rejects is taken as not Twitch. */
  predicate IsTwitchUrl(url: string, parse: Parser) {
    parse(url).Parsed? && IsTwitch(parse(url).url)
  }

  /** `str(row.get("Media type", "") or "").strip()`. */
  function MediaType(row: Row): string {
    Strip(PyStr(Get(row, "Media type")))
  }

  /** `should_skip_old_twitch_vod(row, url)`. */
  predicate ShouldSkip(row: Row, url: string, ctx: Context) {
    && IsTwitchUrl(url, ctx.parse)
    && MediaType(row) == ctx.skipMediaType
    && RowDate(row, ctx.iso).Some?
    && Before(RowDate(row, ctx.iso).value, ctx.cutoff)
  }

  /** The per-row skip rule: never for a key that is not Twitch, a media type other than the
      skipped one, or a row with no parsable date. */
  lemma ShouldSkipNever(row: Row, url: string, ctx: Context)
    ensures !IsTwitchUrl(url, ctx.parse) ==> !ShouldSkip(row, url, ctx)
    ensures MediaType(row) != ctx.skipMediaType ==> !ShouldSkip(row, url, ctx)
    ensures (ParseIsoDate(Get(row, "Date"), ctx.iso).None? && ParseIsoDate(Get(row, "Added date"), ctx.iso).None?
             && ParseIsoDate(Get(row, "date"), ctx.iso).None?) ==> !ShouldSkip(row, url, ctx)
  {
  }

  /** Otherwise a row is skipped exactly when the first parsable of "Date", "Added date" and
      "date" is strictly before the cutoff. */
  lemma ShouldSkipByDate(row: Row, url: string, ctx: Context)
    requires IsTwitchUrl(url, ctx.parse) && MediaType(row) == ctx.skipMediaType
    ensures var d1 := ParseIsoDate(Get(row, "Date"), ctx.iso);
      d1.Some? ==> (ShouldSkip(row, url, ctx) <==> Before(d1.value, ctx.cutoff))
    ensures var d1 := ParseIsoDate(Get(row, "Date"), ctx.iso);
      var d2 := ParseIsoDate(Get(row, "Added date"), ctx.iso);
      d1.None? && d2.Some? ==> (ShouldSkip(row, url, ctx) <==> Before(d2.value, ctx.cutoff))
    ensures var d1 := ParseIsoDate(Get(row, "Date"), ctx.iso);
      var d2 := ParseIsoDate(Get(row, "Added date"), ctx.iso);
      var d3 := ParseIsoDate(Get(row, "date"), ctx.iso);
      d1.None? && d2.None? && d3.Some? ==> (ShouldSkip(row, url, ctx) <==> Before(d3.value, ctx.cutoff))
  {
    var d1 := ParseIsoDate(Get(row, "Date"), ctx.iso);
    var d2 := ParseIsoDate(Get(row, "Added date"), ctx.iso);
    var d3 := ParseIsoDate(Get(row, "date"), ctx.iso);
    var r := RowDate(row, ctx.iso);
    assert ShouldSkip(row, url, ctx) <==> r.Some? && Before(r.value, ctx.cutoff);
    if d1.Some? {
      assert r == d1;
    } else if d2.Some? {
      assert r == d2;
    } else {
      assert r == d3;
    }
  }

  /** On 15 June 2024 the default cutoff of two months is 15 April 2024. */
  lemma DefaultCutoffExample()
    ensures MonthsBefore(Date(2024, 6, 15), DefaultCutoffMonths) == Some(Date(2024, 4, 15))
  {
  }

  /** With that cutoff, a Twitch VOD row dated four months back is stale and one dated one
      month back is not. */
  lemma StaleExamples(row: Row, url: string, ctx: Context)
    requires IsTwitchUrl(url, ctx.parse) && MediaType(row) == ctx.skipMediaType
    requires ctx.cutoff == Date(2024, 4, 15)
    ensures ParseIsoDate(Get(row, "Date"), ctx.iso) == Some(Date(2024, 2, 15)) ==> ShouldSkip(row, url, ctx)
    ensures ParseIsoDate(Get(row, "Date"), ctx.iso) == Some(Date(2024, 5, 15)) ==> !ShouldSkip(row, url, ctx)
  {
    ShouldSkipByDate(row, url, ctx);
    assert Before(Date(2024, 2, 15), Date(2024, 4, 15));
    assert !Before(Date(2024, 5, 15), Date(2024, 4, 15));
  }

  /** `is_blank`: absent, or nothing but whitespace. */
  predicate IsBlank(v: Option<string>) {
    !(v.Some? && Strip(v.value) != "")
  }

  lemma IsBlankSpec(v: Option<string>)
    ensures IsBlank(v) <==> v.None? || forall i :: 0 <= i < |v.value| ==> IsPySpace(v.value[i])
  {
    if v.Some? {
      TrimEmptyIffAllSpace(v.value, IsPySpace);
    }
  }

  /** The names of the missing fields, title first. */
  function Missing(info: Info): (r: seq<string>)
    ensures "title" in r <==> IsBlank(info.title)
    ensures "thumbnail" in r <==> IsBlank(info.thumbnail)
    ensures |r| <= 2
  {
    (if IsBlank(info.title) then ["title"] else []) + (if IsBlank(info.thumbnail) then ["thumbnail"] else [])
  }

  // ---------------------------------------------------------------------------------
  // The media types of a flagged record

  function MediaTypesOf(rows: seq<Row>): (r: seq<string>)
    ensures |r| == |rows|
    ensures forall i :: 0 <= i < |rows| ==> r[i] == MediaType(rows[i])
  {
    seq(|rows|, i requires 0 <= i < |rows| => MediaType(rows[i]))
  }

  /** The distinct non-blank media types of the rows, sorted. */
  function ShownMediaTypes(rows: seq<Row>): seq<string> {
    NonBlank(SortedDistinct(MediaTypesOf(rows)))
  }

  lemma {:induction false} NonBlankSorted(s: seq<string>)
    requires StrictlySorted(s)
    ensures StrictlySorted(NonBlank(s))
    decreases |s|
  {
    if s != [] {
      var t := s[1..];
      assert StrictlySorted(t) by {
        forall i, j | 0 <= i < j < |t| ensures Less(t[i], t[j]) {
          assert t[i] == s[i + 1] && t[j] == s[j + 1];
        }
      }
      NonBlankSorted(t);
      if s[0] != "" {
        HeadBelowTail(s);
        SortedCons(s[0], NonBlank(t));
      }
    }
  }

  /** The media types shown are sorted without repeats, and they are exactly the non-blank
      media types of the rows. */
  lemma ShownMediaTypesSpec(rows: seq<Row>)
    ensures StrictlySorted(ShownMediaTypes(rows))
    ensures forall t :: t in ShownMediaTypes(rows) <==> t != "" && t in MediaTypesOf(rows)
  {
    NonBlankSorted(SortedDistinct(MediaTypesOf(rows)));
  }

  /** `", ".join([m for m in media_types if m]) or "NO_ROW"`. */
  function MediaTypesText(rows: seq<Row>): (r: string)
    ensures ShownMediaTypes(rows) == [] ==> r == "NO_ROW"
    ensures ShownMediaTypes(rows) != [] ==> r == Join(ShownMediaTypes(rows), ", ") && r != ""
  {
    var shown := ShownMediaTypes(rows);
    if shown == [] then "NO_ROW"
    else
      assert shown[0] in shown;
      JoinNonEmpty(shown, ", ");
      Join(shown, ", ")
  }

  lemma JoinNonEmpty(parts: seq<string>, sep: string)
    requires parts != [] && parts[0] != ""
    ensures Join(parts, sep) != ""
  {
    var j := Join(parts, sep);
    if |parts| == 1 {
      assert j == parts[0];
    } else {
      assert j == parts[0] + sep + Join(parts[1..], sep);
    }
  }

  // ---------------------------------------------------------------------------------
  // Classifying one cache record

  /** A line of the report. */
  datatype Flag = Flag(url: string, missing: string, source: string, rows: nat, mediaTypes: string)

  /** What the loop over the cache does with one record. */
  datatype Verdict = Ignored | Unavailable | Stale | Complete | Flagged(flag: Flag)

  /** A cache value: a record, or some other JSON value. */
  datatype Stored = Entry(info: Info) | NotAnObject

  predicate AllSkip(rows: seq<Row>, url: string, ctx: Context) {
    forall i :: 0 <= i < |rows| ==> ShouldSkip(rows[i], url, ctx)
  }

  /** One iteration of the loop over the cache, with `rows` the rows linking to `url`. */
  function Classify(url: string, stored: Stored, rows: seq<Row>, ctx: Context): (v: Verdict)
    ensures v == Ignored <==> stored.NotAnObject?
    ensures v == Unavailable <==> stored.Entry? && stored.info.source == Some("youtube_unavailable")
    ensures v == Stale ==> rows != [] && AllSkip(rows, url, ctx)
    ensures stored.Entry? && stored.info.source != Some("youtube_unavailable") && rows != [] && AllSkip(rows, url, ctx)
            ==> v == Stale
    ensures v.Flagged? ==> v.flag.url == url && v.flag.rows == |rows| && v.flag.source == OrEmpty(stored.info.source)
                           && v.flag.missing == Join(Missing(stored.info), ", ") && Missing(stored.info) != []
                           && v.flag.mediaTypes == MediaTypesText(rows)
    ensures v == Complete ==> !IsBlank(stored.info.title) && !IsBlank(stored.info.thumbnail)
    ensures stored.Entry? && stored.info.source != Some("youtube_unavailable") && !AllSkip(rows, url, ctx)
            ==> (v.Flagged? || v == Complete)
  {
    match stored
    case NotAnObject => Ignored
    case Entry(info) =>
      if info.source == Some("youtube_unavailable") then Unavailable
      else if rows != [] && AllSkip(rows, url, ctx) then Stale
      else
        var missing := Missing(info);
        if missing == [] then Complete
        else Flagged(Flag(url, Join(missing, ", "), OrEmpty(info.source), |rows|, MediaTypesText(rows)))
  }

  /** The skip rule needs a linked row: a record without rows is never skipped as stale, and
      neither is one whose key is not a Twitch URL. */
  lemma StaleNeedsTwitchRows(url: string, stored: Stored, rows: seq<Row>, ctx: Context)
    requires Classify(url, stored, rows, ctx) == Stale
    ensures rows != [] && IsTwitchUrl(url, ctx.parse)
  {
    assert ShouldSkip(rows[0], url, ctx);
  }

  /** The report line names exactly what is missing. */
  lemma MissingText(info: Info)
    requires Missing(info) != []
    ensures Join(Missing(info), ", ")
         == (if IsBlank(info.title) && IsBlank(info.thumbnail) then "title, thumbnail"
             else if IsBlank(info.title) then "title" else "thumbnail")
  {
    var m := Missing(info);
    if IsBlank(info.title) && IsBlank(info.thumbnail) {
      assert m == ["title", "thumbnail"];
      assert m[1..] == ["thumbnail"];
      assert Join(m, ", ") == "title" + ", " + "thumbnail";
    }
  }

  // ---------------------------------------------------------------------------------
  // Grouping rows by URL

  function Lookup(m: map<string, seq<Row>>, u: string): seq<Row> {
    if u in m then m[u] else []
  }

  /** `url_rows`: every row appended under each of its link keys, in order. */
  function RowsByUrl(links: seq<Link>): map<string, seq<Row>>
    decreases |links|
  {
    if links == [] then map[]
    else
      var init := RowsByUrl(links[..|links| - 1]);
      var l := links[|links| - 1];
      init[l.0 := Lookup(init, l.0) + [l.1]]
  }

  /** The rows of a key, in order: one per link to it. */
  function RowsFor(links: seq<Link>, u: string): seq<Row>
    decreases |links|
  {
    if links == [] then []
    else RowsFor(links[..|links| - 1], u) + (if links[|links| - 1].0 == u then [links[|links| - 1].1] else [])
  }

  /** `url_rows` holds the seen keys, each with the rows linking to it in order. */
  lemma {:induction false} RowsByUrlSpec(links: seq<Link>, u: string)
    ensures RowsByUrl(links).Keys == Seen(links)
    ensures Lookup(RowsByUrl(links), u) == RowsFor(links, u)
    decreases |links|
  {
    if links != [] {
      RowsByUrlSpec(links[..|links| - 1], u);
    }
  }

  lemma RowsByUrlSnoc(links: seq<Link>, l: Link)
    ensures RowsByUrl(links + [l]) == RowsByUrl(links)[l.0 := Lookup(RowsByUrl(links), l.0) + [l.1]]
  {
    assert (links + [l])[..|links|] == links;
  }

  /** The first loop of `main`. */
  method GroupRowsByUrl(items: seq<Item>, fields: seq<string>, canon: string -> string)
    returns (urlRows: map<string, seq<Row>>)
    ensures urlRows == RowsByUrl(Links(items, fields, canon))
  {
    urlRows := map[];
    for i := 0 to |items|
      invariant urlRows == RowsByUrl(Links(items[..i], fields, canon))
    {
      assert items[..i + 1][..i] == items[..i];
      if items[i].Record? {
        urlRows := GroupRow(items[i].row, fields, canon, Links(items[..i], fields, canon), urlRows);
      } else {
        assert Links(items[..i + 1], fields, canon) == Links(items[..i], fields, canon);
      }
    }
    assert items[..|items|] == items;
  }

  /** The inner loop: the link fields of one row object. */
  method GroupRow(row: Row, fields: seq<string>, canon: string -> string, ghost before: seq<Link>,
                  urlRows0: map<string, seq<Row>>)
    returns (urlRows: map<string, seq<Row>>)
    requires urlRows0 == RowsByUrl(before)
    ensures urlRows == RowsByUrl(before + RowLinks(row, fields, canon))
  {
    urlRows := urlRows0;
    assert fields[..0] == [] && before + [] == before;
    for j := 0 to |fields|
      invariant urlRows == RowsByUrl(before + RowLinks(row, fields[..j], canon))
    {
      var url := LinkUrl(row, fields[j], canon);
      GroupStep(row, fields, canon, before, j);
      if url != "" {
        urlRows := urlRows[url := Lookup(urlRows, url) + [row]];
      }
    }
    assert fields[..|fields|] == fields;
  }

  /** One field of the inner loop. */
  lemma GroupStep(row: Row, fields: seq<string>, canon: string -> string, before: seq<Link>, j: nat)
    requires j < |fields|
    ensures var done := before + RowLinks(row, fields[..j], canon);
      var url := LinkUrl(row, fields[j], canon);
      RowsByUrl(before + RowLinks(row, fields[..j + 1], canon))
      == if url == "" then RowsByUrl(done) else RowsByUrl(done)[url := Lookup(RowsByUrl(done), url) + [row]]
  {
    var done := before + RowLinks(row, fields[..j], canon);
    var url := LinkUrl(row, fields[j], canon);
    assert fields[..j + 1][..j] == fields[..j];
    if url != "" {
      assert before + RowLinks(row, fields[..j + 1], canon) == done + [(url, row)];
      RowsByUrlSnoc(done, (url, row));
    } else {
      assert before + RowLinks(row, fields[..j + 1], canon) == done;
    }
  }

  // ---------------------------------------------------------------------------------
  // The loop over the cache

  /** The verdicts for the cache records in file order. */
  function Verdicts(entries: seq<(string, Stored)>, urlRows: map<string, seq<Row>>, ctx: Context): (r: seq<Verdict>)
    ensures |r| == |entries|
    ensures forall i :: 0 <= i < |entries| ==>
      r[i] == Classify(entries[i].0, entries[i].1, Lookup(urlRows, entries[i].0), ctx)
  {
    if entries == [] then []
    else Verdicts(entries[..|entries| - 1], urlRows, ctx)
         + [Classify(entries[|entries| - 1].0, entries[|entries| - 1].1,
                     Lookup(urlRows, entries[|entries| - 1].0), ctx)]
  }

  function SkippedCount(vs: seq<Verdict>): nat {
    if vs == [] then 0
    else SkippedCount(vs[..|vs| - 1]) + (if vs[|vs| - 1] == Unavailable || vs[|vs| - 1] == Stale then 1 else 0)
  }

  function Flags(vs: seq<Verdict>): seq<Flag> {
    if vs == [] then []
    else Flags(vs[..|vs| - 1]) + (if vs[|vs| - 1].Flagged? then [vs[|vs| - 1].flag] else [])
  }

  /** Every record is skipped, flagged or neither, never both; the report lists exactly the
      flagged records. */
  lemma {:induction false} CountsBound(vs: seq<Verdict>)
    ensures SkippedCount(vs) + |Flags(vs)| <= |vs|
    ensures forall f :: f in Flags(vs) <==> Flagged(f) in vs
    decreases |vs|
  {
    if vs != [] {
      var init := vs[..|vs| - 1];
      CountsBound(init);
      assert vs == init + [vs[|vs| - 1]];
    }
  }

  lemma VerdictsSnoc(entries: seq<(string, Stored)>, urlRows: map<string, seq<Row>>, ctx: Context, i: nat)
    requires i < |entries|
    ensures var vs := Verdicts(entries[..i + 1], urlRows, ctx);
      var v := Classify(entries[i].0, entries[i].1, Lookup(urlRows, entries[i].0), ctx);
      && SkippedCount(vs) == SkippedCount(Verdicts(entries[..i], urlRows, ctx))
                             + (if v == Unavailable || v == Stale then 1 else 0)
      && Flags(vs) == Flags(Verdicts(entries[..i], urlRows, ctx)) + (if v.Flagged? then [v.flag] else [])
  {
    var vs := Verdicts(entries[..i + 1], urlRows, ctx);
    assert entries[..i + 1][..i] == entries[..i];
    assert vs[..i] == Verdicts(entries[..i], urlRows, ctx);
  }

  /** The second loop of `main`: `total`, `skipped` and `flagged`. */
  method CheckCache(entries: seq<(string, Stored)>, urlRows: map<string, seq<Row>>, ctx: Context)
    returns (total: nat, skipped: nat, flagged: seq<Flag>)
    ensures total == |entries|
    ensures skipped == SkippedCount(Verdicts(entries, urlRows, ctx))
    ensures flagged == Flags(Verdicts(entries, urlRows, ctx))
  {
    total := |entries|;
    skipped, flagged := 0, [];
    for i := 0 to |entries|
      invariant skipped == SkippedCount(Verdicts(entries[..i], urlRows, ctx))
      invariant flagged == Flags(Verdicts(entries[..i], urlRows, ctx))
    {
      var (url, stored) := entries[i];
      var v := Classify(url, stored, Lookup(urlRows, url), ctx);
      VerdictsSnoc(entries, urlRows, ctx, i);
      if v == Unavailable || v == Stale {
        skipped := skipped + 1;
      } else if v.Flagged? {
        flagged := flagged + [v.flag];
      }
    }
    assert entries[..|entries|] == entries;
  }

  /** `main` with the files read by the caller and the report returned: the cutoff is
      `CUTOFF_MONTHS` before `today`. */
  method Check(items: seq<Item>, fields: seq<string>, entries: seq<(string, Stored)>, parse: Parser,
               iso: string -> Option<Date>, today: Date, cutoffMonths: int, skipMediaType: string)
    returns (total: nat, skipped: nat, flagged: seq<Flag>)
    requires ValidDate(today) && MonthsBefore(today, cutoffMonths).Some?
    ensures var ctx := Context(parse, iso, MonthsBefore(today, cutoffMonths).value, skipMediaType);
      var vs := Verdicts(entries, RowsByUrl(Links(items, fields, Normalizer(parse))), ctx);
      && total == |entries|
      && skipped == SkippedCount(vs) && flagged == Flags(vs)
      && skipped + |flagged| <= total
  {
    var canon := Normalizer(parse);
    var urlRows := GroupRowsByUrl(items, fields, canon);
    var cutoff := SubtractMonths(today, cutoffMonths);
    var ctx := Context(parse, iso, cutoff.value, skipMediaType);
    total, skipped, flagged := CheckCache(entries, urlRows, ctx);
    CountsBound(Verdicts(entries, urlRows, ctx));
  }
}

# Project Etho: the video-metadata pipeline and the site's month archive, in Dafny

Project Etho keeps a spreadsheet of Etho's appearances across the web and builds a static
site from it. This project models the parts of that system that compute something.

- **The enrichment script** (`sheet-pipeline/video_enrich.py`) works in three loops:
  - it collects the video links of every sheet row under a canonical key (`normalize_url`);
  - it fetches a title and a thumbnail for each key that the cache `video_info.json` lacks;
  - it adds a `<base> title` and a `<base> thumbnail` column next to every link column.
- **The audit script** (`sheet-pipeline/check_video_info.py`) lists the cache records that
  lack a title or a thumbnail. It skips two kinds of record:
  - YouTube videos recorded as unavailable;
  - Twitch VODs whose linked rows are all VODs older than a cutoff some months back.
- **The one-off pruner** (`sheet-pipeline/archive/clean_video_info.py`) drops the cache
  records whose thumbnail is Twitch's placeholder logo.
- **The site's month archive** (`web/src/_data/videosByMonth.js`) puts every video whose
  date starts with a year and a month into that month's bucket. Buckets are listed newest
  month first.
- **The site's base URL** (`web/src/_data/site.js`) is derived from `SITE_URL`.

## Modules

| module | models |
|---|---|
| `Wrappers` | `Option` and `Result` |
| `Text` | Python's `strip`/`rstrip`/`join`, ASCII `lower`, and JavaScript's `trim`; integer rendering |
| `Lex` | code-point string order, and Python's `sorted(set(...))` |
| `Rows` | JSON cells, `row.get`, and the link keys of rows (both scripts walk them alike) |
| `UrlCanon` | `normalize_url` over a parsed URL record |
| `VideoFetch` | `is_youtube`, `is_twitch`, `youtube_video_id`, the id regular expression, the thumbnail probe, `fetch_video_info` |
| `Enrich` | `base_name_from_link_field` and the three loops of `main` in `video_enrich.py` |
| `Calendar` | `subtract_months` and `calendar.monthrange` |
| `CheckVideoInfo` | `parse_iso_date`, the skip rule, `is_blank`, the `url_rows` loop, the audit loop |
| `VideosByMonth` | `Number.parseInt`, `getYearMonth`, the buckets loop, the descending sort |
| `Site` | `normalizeSiteUrl` and the exported `url` |
| `CleanVideoInfo` | the placeholder-thumbnail filter |

## How the outside world is modelled

Everything outside the scripts' own logic is a parameter.

- **`urlparse`** is a function from strings to a parsed `Url` record, or to the message of
  the `ValueError` it raises.
- **The network** is the `Net` record: the oEmbed title, the HEAD probe, and the `og:`
  metadata of a Twitch page.
- **The clock** gives the `fetched_at` stamp of the i-th fetch.
- **`datetime.fromisoformat`** and today's date are parameters of the audit.

The normaliser is also passed as a function value into the row loops. So are the month
function and the key format of the archive. This keeps each proof about one loop
independent of the string functions it calls.

Both Python scripts carry identical copies of `normalize_url`. The model defines it once,
in `UrlCanon`; the rows below cite the copy in `video_enrich.py`.

## Model

| member | source | states |
|---|---|---|
| Text.TrimStart | sheet-pipeline/video_enrich.py:88 | leading strip: the result is a suffix of the input, everything dropped is white space, and the result starts with a non-space |
| Text.TrimEnd | sheet-pipeline/video_enrich.py:260 | trailing strip: the result is a prefix, everything dropped is white space, and the result ends with a non-space |
| Text.TrimEmptyIffAllSpace | sheet-pipeline/video_enrich.py:88-90 | a text strips to "" exactly when all its characters are white space (the blank-link test) |
| Text.NatToStringInjective | web/src/_data/videosByMonth.js:25 | different naturals render differently |
| Text.IntToStringInjective | web/src/_data/videosByMonth.js:25 | different integers render differently, so different years give different key prefixes |
| Lex.LessIrreflexive | web/src/_data/videosByMonth.js:38 | the string order is irreflexive |
| Lex.LessTransitive | web/src/_data/videosByMonth.js:38 | the string order is transitive |
| Lex.LessTotal | web/src/_data/videosByMonth.js:38 | any two different strings are ordered one way or the other |
| Lex.LessAsymmetric | web/src/_data/videosByMonth.js:38 | the string order is asymmetric |
| Lex.InsertSorted | sheet-pipeline/check_video_info.py:176-180 | inserting into a strictly sorted sequence keeps it strictly sorted and adds exactly the new element |
| Lex.SortedDistinct | sheet-pipeline/check_video_info.py:176-180 | `sorted(set(xs))` is strictly ascending and holds exactly the elements of `xs` |
| Lex.StrictlySortedUnique | sheet-pipeline/check_video_info.py:176-180 | two strictly sorted sequences with the same elements are equal, so the result of `sorted(set(...))` is determined |
| Rows.PyStr | sheet-pipeline/video_enrich.py:279 | `str(v or "")` is empty exactly when the cell is falsy, and it is the text itself for a string cell |
| Rows.Get | sheet-pipeline/video_enrich.py:279 | `row.get(key)` is the cell when present, null when absent |
| Rows.RowLinks | sheet-pipeline/video_enrich.py:278-281 | a row gives at most one key per link field, all non-empty and tagged with the row |
| Rows.Links | sheet-pipeline/video_enrich.py:275-281 | every link key collected from the rows is non-empty |
| Rows.RowLinksComplete | sheet-pipeline/video_enrich.py:278-281 | every field whose cell normalises to a non-empty key contributes that key |
| Rows.RowLinksSound | sheet-pipeline/video_enrich.py:278-281 | every link of a row comes from one of the link fields |
| Rows.LinksComplete | sheet-pipeline/video_enrich.py:275-281 | the links of every object row are links of the whole list |
| Rows.LinksSound | sheet-pipeline/video_enrich.py:275-277 | every link of the list comes from an object row; non-object items give none |
| UrlCanon.FirstSegment | sheet-pipeline/video_enrich.py:102 | `split("/")[0]`: the longest slash-free prefix, stopped by a slash |
| UrlCanon.KeptPairs | sheet-pipeline/video_enrich.py:107-112 | the surviving query pairs have a non-blank value and no tracking key |
| UrlCanon.WithKey | sheet-pipeline/video_enrich.py:107 | the pairs under one key are pairs of the query with that key |
| UrlCanon.WithoutKey | sheet-pipeline/video_enrich.py:107 | the pairs under other keys are pairs of the query without that key, and are fewer when the first pair has that key |
| UrlCanon.Render | sheet-pipeline/video_enrich.py:127 | `urlunparse` of a URL with a scheme starts with `scheme:` and so is never empty; a URL with a location starts with `scheme://location` |
| UrlCanon.RenderRootedPath | sheet-pipeline/video_enrich.py:127 | without a location, a rooted path gets an empty `//` part under `https` (`https:///x`) and none under `mailto` (`mailto:/x`) |
| UrlCanon.RenderRelativePath | sheet-pipeline/video_enrich.py:127 | without a location, a relative path gets no `//` part even under `https` (`https:x`) |
| UrlCanon.RenderDoubleSlashPath | sheet-pipeline/video_enrich.py:127 | without a location, a path starting with `//` gets another `//` (`https:////x`) |
| UrlCanon.SchemelessLinkKey | sheet-pipeline/video_enrich.py:81-127 | a link typed without a scheme, `youtube.com/watch?v=abcdef`, gets the key `https:youtube.com/watch?v=abcdef` |
| UrlCanon.PairTexts | sheet-pipeline/video_enrich.py:114 | `urlencode` renders one `k=v` text per pair |
| UrlCanon.NormalizeUrl | sheet-pipeline/video_enrich.py:81-127 | the key is "" exactly when the stripped link is blank |
| UrlCanon.Normalizer | sheet-pipeline/video_enrich.py:81-90 | the normaliser as a function value keeps that property for every input |
| UrlCanon.ShortLinkRewritten | sheet-pipeline/video_enrich.py:100-104 | a `youtu.be` link with an id becomes exactly `https://www.youtube.com/watch?v=<id>` |
| UrlCanon.RenderWatch | sheet-pipeline/video_enrich.py:104 | the watch record renders as that exact URL |
| UrlCanon.GeneralShape | sheet-pipeline/video_enrich.py:97-125 | outside the short-link case: no fragment, the scheme defaults to https, host and params kept, one trailing slash removed from a non-root path |
| UrlCanon.SchemeAndFragment | sheet-pipeline/video_enrich.py:97-119 | every normalised URL has a scheme and no fragment |
| UrlCanon.ValuesOfAppend | sheet-pipeline/video_enrich.py:107 | the values under a key distribute over concatenation |
| UrlCanon.ValuesOfWithKey | sheet-pipeline/video_enrich.py:107 | selecting a key keeps its values and drops all others |
| UrlCanon.ValuesOfWithoutKey | sheet-pipeline/video_enrich.py:107 | removing a key drops its values and keeps all others |
| UrlCanon.GroupKeepsValues | sheet-pipeline/video_enrich.py:107-114 | the `parse_qs`/`urlencode` regrouping keeps every key's values in their order |
| UrlCanon.GroupElements | sheet-pipeline/video_enrich.py:107-114 | regrouping keeps exactly the same pairs |
| UrlCanon.WithKeyComplete | sheet-pipeline/video_enrich.py:107 | every pair with the key is selected |
| UrlCanon.WithoutKeyComplete | sheet-pipeline/video_enrich.py:107 | every pair with another key is kept |
| UrlCanon.GroupedAppend | sheet-pipeline/video_enrich.py:114 | one key's block followed by a grouped rest without that key is grouped |
| UrlCanon.GroupIsGrouped | sheet-pipeline/video_enrich.py:107-114 | in the regrouped query, pairs with the same key stand together |
| UrlCanon.WithoutKeyAppend | sheet-pipeline/video_enrich.py:107 | removing a key distributes over concatenation |
| UrlCanon.WithoutAbsentKey | sheet-pipeline/video_enrich.py:107 | removing an absent key changes nothing |
| UrlCanon.WithoutOnlyKey | sheet-pipeline/video_enrich.py:107 | removing the only key leaves nothing |
| UrlCanon.WithAbsentKey | sheet-pipeline/video_enrich.py:107 | selecting an absent key gives nothing |
| UrlCanon.GroupKeepsKeyOrder | sheet-pipeline/video_enrich.py:107-114 | regrouping keeps the order in which keys first appear (dict insertion order) |
| UrlCanon.GroupedSplit | sheet-pipeline/video_enrich.py:107-114 | in a grouped query the first key's pairs form a prefix |
| UrlCanon.GroupOfGrouped | sheet-pipeline/video_enrich.py:107-114 | regrouping a grouped query changes nothing |
| UrlCanon.KeptValues | sheet-pipeline/video_enrich.py:107-112 | after filtering, a tracking key has no values and any other key has its non-blank values in order |
| UrlCanon.NonBlankAppend | sheet-pipeline/video_enrich.py:107 | dropping blank values distributes over concatenation |
| UrlCanon.KeptOfKept | sheet-pipeline/video_enrich.py:107-112 | filtering an already filtered query changes nothing |
| UrlCanon.QueryNormalized | sheet-pipeline/video_enrich.py:106-115 | the new query has no tracking key; every other key keeps its non-blank values in order, keys stay in first-appearance order, and equal keys stand together |
| UrlCanon.Idempotent | sheet-pipeline/video_enrich.py:81-127 | normalising the parsed record twice is normalising it once, except for paths ending in "//"; the round trip through the rendered string is not covered (see Left out) |
| UrlCanon.WatchUrlIsFixed | sheet-pipeline/video_enrich.py:100-127 | the long watch URL a short link becomes is left unchanged by a second normalisation |
| UrlCanon.QueryIdempotent | sheet-pipeline/video_enrich.py:106-115 | the query step is idempotent |
| UrlCanon.PathIdempotent | sheet-pipeline/video_enrich.py:121-125 | the trailing-slash step is idempotent unless the path ends in "//" |
| UrlCanon.SlashOnlyPath | sheet-pipeline/video_enrich.py:102-103 | a short link has no id exactly when its path is all slashes |
| UrlCanon.NotIdempotentOnDoubleSlash | sheet-pipeline/video_enrich.py:121-125 | "/p//" becomes "/p/" and then "/p", so the exception in `Idempotent` is real |
| UrlCanon.ShortAndLongFormsAgree | sheet-pipeline/video_enrich.py:100-127 | `youtu.be/abc123` and `www.youtube.com/watch?v=abc123&feature=share` get the same key |
| UrlCanon.ShortFormExample | sheet-pipeline/video_enrich.py:100-104 | `youtu.be/abc123` becomes the watch URL of `abc123` |
| UrlCanon.ShortHostIsLowerCase | sheet-pipeline/video_enrich.py:101 | the short host is already lower case, so the case-folded comparison matches it |
| UrlCanon.ShortLinkIdExample | sheet-pipeline/video_enrich.py:102 | the id of "/abc123" is "abc123" |
| UrlCanon.FirstSegmentWhole | sheet-pipeline/video_enrich.py:102 | a slash-free text is its own first segment |
| UrlCanon.LongFormExample | sheet-pipeline/video_enrich.py:106-127 | the `feature` tracking tag is dropped from a watch URL |
| UrlCanon.TrailingSlashIgnored | sheet-pipeline/video_enrich.py:121-125 | with and without one trailing slash, a non-short link gets the same key |
| VideoFetch.HostTestsIgnoreCase | sheet-pipeline/video_enrich.py:147-153 | `is_youtube` and `is_twitch` see the host only through its lower-case form |
| VideoFetch.ContainsAfter | sheet-pipeline/video_enrich.py:149 | Python's `in` finds a text after any prefix |
| VideoFetch.NotContainsLonger | sheet-pipeline/video_enrich.py:149 | Python's `in` never finds a longer text |
| VideoFetch.ShortLinkIsYoutube | sheet-pipeline/video_enrich.py:147-153 | a `youtu.be` host is YouTube and not Twitch |
| VideoFetch.TwitchHost | sheet-pipeline/video_enrich.py:152-153 | a host ending in `twitch.tv`, in any case, is Twitch |
| VideoFetch.IdRun | sheet-pipeline/video_enrich.py:130 | the greedy `[A-Za-z0-9_-]` run: the longest prefix of id characters |
| VideoFetch.MatchAt | sheet-pipeline/video_enrich.py:130 | a match at one position yields at least six id characters |
| VideoFetch.MatchMarkers | sheet-pipeline/video_enrich.py:130 | a match after any of the markers yields at least six id characters |
| VideoFetch.SearchFrom | sheet-pipeline/video_enrich.py:140 | a search result has at least six characters |
| VideoFetch.RegexVideoId | sheet-pipeline/video_enrich.py:130-141 | the id found by `_YT_ID_RE.search` has at least six characters |
| VideoFetch.SearchFromSpec | sheet-pipeline/video_enrich.py:140 | the search fails exactly when no position matches, and otherwise returns the leftmost match |
| VideoFetch.ShortsPath | sheet-pipeline/video_enrich.py:130-141 | a `/shorts/<id>` path yields exactly its id |
| VideoFetch.IdRunWhole | sheet-pipeline/video_enrich.py:130 | a text made of id characters is taken whole |
| VideoFetch.QueryVideoId | sheet-pipeline/video_enrich.py:137-139 | `q["v"][0]` exists exactly when a non-blank `v` value does, and is the first of them |
| VideoFetch.YoutubeVideoId | sheet-pipeline/video_enrich.py:134-144 | no id for a non-YouTube host; the query id first on youtube.com; the path's first segment on youtu.be; never an empty id |
| VideoFetch.ThumbnailCandidates | sheet-pipeline/video_enrich.py:185-192 | four candidate thumbnail URLs |
| VideoFetch.Thumbnail | sheet-pipeline/video_enrich.py:185-197 | the first candidate that answers a HEAD request, or `hqdefault` when none does |
| VideoFetch.ProbeThumbnail | sheet-pipeline/video_enrich.py:193-197 | the probing loop returns exactly `Thumbnail` |
| VideoFetch.NonBlankStripped | sheet-pipeline/video_enrich.py:180 | a title counts only when it is non-blank after stripping, and is then stored stripped |
| VideoFetch.TwitchMeta | sheet-pipeline/video_enrich.py:213-222 | an unreachable page gives neither title nor image |
| VideoFetch.FetchVideoInfo | sheet-pipeline/video_enrich.py:225-253 | YouTube: the oEmbed title, a thumbnail exactly when an id is found, namely the first candidate that answers HEAD, else `hqdefault`; source by what was found; Twitch: the page's `og:` metadata with source `twitch_og`; otherwise `unknown` |
| VideoFetch.Fetch | sheet-pipeline/video_enrich.py:293-297 | the fetch fails exactly when `urlparse` raises, with its message |
| VideoFetch.Recorded | sheet-pipeline/video_enrich.py:293-304 | the stored record carries the time stamp; a failure becomes an `error` record holding the message |
| VideoFetch.YoutubeSourceTags | sheet-pipeline/video_enrich.py:232-243 | for YouTube, `youtube_oembed` iff a title, `youtube_thumb` iff only a thumbnail, no source iff nothing |
| Enrich.BaseNameSpec | sheet-pipeline/video_enrich.py:256-261 | the base name is the stripped field, or its prefix before a trailing " link" (any case) with the blanks before it removed |
| Enrich.BaseNameOfLinkField | sheet-pipeline/video_enrich.py:256-261 | `"<name> link"` has base name `name` |
| Enrich.StripOfTrimmed | sheet-pipeline/video_enrich.py:258 | a text with no blank at either end is its own strip |
| Enrich.DerivedColumnsDistinct | sheet-pipeline/video_enrich.py:320-321 | a title column is never a thumbnail column, and different bases give different columns |
| Enrich.WantedSpec | sheet-pipeline/video_enrich.py:271-286 | the URLs to fetch are distinct, and are exactly the seen URLs that the cache lacks |
| Enrich.SeenHasNoBlank | sheet-pipeline/video_enrich.py:279-281 | the empty key is never seen |
| Enrich.NothingWanted | sheet-pipeline/video_enrich.py:282-286 | once the cache holds every seen URL, nothing is wanted |
| Enrich.LinksSnoc | sheet-pipeline/video_enrich.py:275-277 | the links of one more row are the old links plus that row's |
| Enrich.RowLinksSnoc | sheet-pipeline/video_enrich.py:278-281 | the links of one more field are the old links plus that field's |
| Enrich.SeenWantedSnoc | sheet-pipeline/video_enrich.py:282-286 | one more link adds its key to `seen`, and to `wanted` when it is new and not cached |
| Enrich.CollectWanted | sheet-pipeline/video_enrich.py:271-286 | the first loop computes exactly `Seen` and `Wanted` of all row links |
| Enrich.CollectRow | sheet-pipeline/video_enrich.py:278-286 | the inner loop extends `seen` and `wanted` by one row's links |
| Enrich.CollectStep | sheet-pipeline/video_enrich.py:279-286 | one field's step of `seen` and `wanted` |
| Enrich.FetchedKeys | sheet-pipeline/video_enrich.py:291-304 | fetching adds exactly the fetched URLs to the cache keys |
| Enrich.FetchedKeeps | sheet-pipeline/video_enrich.py:291-304 | entries not fetched are left alone |
| Enrich.FetchedRecords | sheet-pipeline/video_enrich.py:291-304 | for distinct URLs, each gets the stamped outcome of its own fetch |
| Enrich.FetchMissing | sheet-pipeline/video_enrich.py:290-305 | the fetch loop computes exactly `Fetched` |
| Enrich.AddColumnsKeys | sheet-pipeline/video_enrich.py:314-330 | the enriched row keeps all its columns and gains exactly the derived ones |
| Enrich.AddColumnsKeeps | sheet-pipeline/video_enrich.py:314 | a column no field writes keeps its value |
| Enrich.AddColumnsStrings | sheet-pipeline/video_enrich.py:323-330 | every derived column holds a string |
| Enrich.AddColumnsField | sheet-pipeline/video_enrich.py:315-330 | a field's columns hold its link's cached title and thumbnail ("" when blank or uncached), unless a later field has the same base |
| Enrich.AddColumnsStep | sheet-pipeline/video_enrich.py:315-330 | a later field leaves the columns of other bases alone |
| Enrich.EnrichRowSpec | sheet-pipeline/video_enrich.py:314-332 | the same, for the script's own base names |
| Enrich.EnrichRows | sheet-pipeline/video_enrich.py:308-332 | the third loop enriches every object row and keeps other items as they are, in order |
| Enrich.Run | sheet-pipeline/video_enrich.py:264-335 | the whole run: which URLs are fetched, the new cache, and enriched rows over that cache; a second run fetches nothing |
| Calendar.DaysInMonth | sheet-pipeline/check_video_info.py:110 | a month has 28 to 31 days, and 29 only in February of a leap year |
| Calendar.SubtractMonths | sheet-pipeline/check_video_info.py:104-111 | the loop computes exactly `MonthsBefore` |
| Calendar.MonthsBeforeSpec | sheet-pipeline/check_video_info.py:104-111 | `subtract_months` raises exactly when the month overshoots (`monthrange` rejects it) or the year drops below 1 (`date()` rejects it); otherwise the result is valid, `months` months earlier, its day clamped |
| Calendar.MonthsBeforeNotLater | sheet-pipeline/check_video_info.py:104-111 | going back a non-negative number of months never moves forward |
| Calendar.EndOfMarchExamples | sheet-pipeline/check_video_info.py:110 | 31 March 2024 minus one month is 29 February, and similar cases |
| CheckVideoInfo.ParseIsoDate | sheet-pipeline/check_video_info.py:89-101 | a falsy or blank value has no date; otherwise the stripped text is parsed, a trailing "Z" first replaced by "+00:00" |
| CheckVideoInfo.RowDate | sheet-pipeline/check_video_info.py:120-124 | the first of "Date", "Added date", "date" that parses: an earlier field that parses wins; none when none parses |
| CheckVideoInfo.ShouldSkipNever | sheet-pipeline/check_video_info.py:114-126 | a row is never skipped for a key that is not Twitch, another media type, or no parsable date |
| CheckVideoInfo.ShouldSkipByDate | sheet-pipeline/check_video_info.py:114-128 | otherwise a row is skipped exactly when its first parsable date is strictly before the cutoff |
| CheckVideoInfo.DefaultCutoffExample | sheet-pipeline/check_video_info.py:127 | on 15 June 2024 the default two-month cutoff is 15 April 2024 |
| CheckVideoInfo.StaleExamples | sheet-pipeline/check_video_info.py:114-128 | with that cutoff, a VOD row dated 15 February is stale and one dated 15 May is not |
| CheckVideoInfo.IsBlankSpec | sheet-pipeline/check_video_info.py:131-132 | blank iff absent or all white space |
| CheckVideoInfo.Missing | sheet-pipeline/check_video_info.py:170-174 | "title" / "thumbnail" are listed exactly when blank |
| CheckVideoInfo.MediaTypesOf | sheet-pipeline/check_video_info.py:176-180 | one stripped media type per linked row |
| CheckVideoInfo.NonBlankSorted | sheet-pipeline/check_video_info.py:186 | dropping blanks keeps a sequence strictly sorted |
| CheckVideoInfo.ShownMediaTypesSpec | sheet-pipeline/check_video_info.py:176-186 | the shown media types are strictly sorted and are exactly the non-blank media types of the rows |
| CheckVideoInfo.MediaTypesText | sheet-pipeline/check_video_info.py:186 | "NO_ROW" when no media type is shown, else their non-empty join |
| CheckVideoInfo.JoinNonEmpty | sheet-pipeline/check_video_info.py:186 | a join that starts with a non-empty part is non-empty |
| CheckVideoInfo.Classify | sheet-pipeline/check_video_info.py:157-187 | a non-object value is ignored; `youtube_unavailable` is skipped; a record with linked rows that are all stale is skipped, and only such a record; otherwise flagged with its report line (url, missing fields, source or "", row count, media types) iff something is missing |
| CheckVideoInfo.StaleNeedsTwitchRows | sheet-pipeline/check_video_info.py:114-128 | a record is skipped as stale only when it has linked rows and a Twitch key |
| CheckVideoInfo.MissingText | sheet-pipeline/check_video_info.py:170-183 | the report line is "title", "thumbnail" or "title, thumbnail" |
| CheckVideoInfo.RowsByUrlSpec | sheet-pipeline/check_video_info.py:144-151 | `url_rows` holds exactly the seen keys, each with its linking rows in order |
| CheckVideoInfo.RowsByUrlSnoc | sheet-pipeline/check_video_info.py:150-151 | one more link appends its row under its key |
| CheckVideoInfo.GroupRowsByUrl | sheet-pipeline/check_video_info.py:144-151 | the first loop computes exactly `RowsByUrl` |
| CheckVideoInfo.GroupRow | sheet-pipeline/check_video_info.py:148-151 | the inner loop adds one row's links |
| CheckVideoInfo.GroupStep | sheet-pipeline/check_video_info.py:148-151 | one field's step of the inner loop |
| CheckVideoInfo.Verdicts | sheet-pipeline/check_video_info.py:157-187 | one verdict per cache record, in cache order: the i-th is `Classify` of the i-th record with the rows linking to its key |
| CheckVideoInfo.CountsBound | sheet-pipeline/check_video_info.py:153-187 | skipped plus flagged never exceed the total, and the flags are exactly the flagged verdicts |
| CheckVideoInfo.VerdictsSnoc | sheet-pipeline/check_video_info.py:157-187 | one more record adds its own verdict to the counts |
| CheckVideoInfo.CheckCache | sheet-pipeline/check_video_info.py:153-187 | the audit loop computes `total`, `skipped` and `flagged` from the verdicts |
| CheckVideoInfo.Check | sheet-pipeline/check_video_info.py:135-191 | the whole audit over the rows' `url_rows`, with the cutoff `CUTOFF_MONTHS` before today |
| VideosByMonth.DigitPrefix | web/src/_data/videosByMonth.js:8-9 | the longest run of leading digits |
| VideosByMonth.DigitPrefixOfDigits | web/src/_data/videosByMonth.js:8-9 | an all-digit text is its own digit run |
| VideosByMonth.DigitsValueOfNat | web/src/_data/videosByMonth.js:8-9 | the value of a natural's rendering is the natural |
| VideosByMonth.ParseDigits | web/src/_data/videosByMonth.js:8-9 | `parseInt` of a non-empty all-digit text is its value |
| VideosByMonth.ParseNatToString | web/src/_data/videosByMonth.js:8-9 | `parseInt` reads back a rendered natural |
| VideosByMonth.ParseIntExample | web/src/_data/videosByMonth.js:8-9 | leading space is skipped, the sign read, and trailing junk ignored (" -7x" is -7) |
| VideosByMonth.ParseIntSignOnly | web/src/_data/videosByMonth.js:8-9 | a sign without digits is NaN |
| VideosByMonth.GetYearMonth | web/src/_data/videosByMonth.js:3-15 | null for a non-string or short date; a year and month exactly when both parse, the year is non-zero and the month in 1..12 |
| VideosByMonth.Pad2 | web/src/_data/videosByMonth.js:25 | the padded month has at least two characters |
| VideosByMonth.Pad2OfMonth | web/src/_data/videosByMonth.js:25 | a month pads to exactly two digits |
| VideosByMonth.MonthKeyInjective | web/src/_data/videosByMonth.js:25 | different months never share a key |
| VideosByMonth.FourDigits | web/src/_data/videosByMonth.js:25 | years 1000-9999 render with four digits |
| VideosByMonth.DigitsValueTwo | web/src/_data/videosByMonth.js:9 | two digits have the value 10a+b |
| VideosByMonth.ParsePad2 | web/src/_data/videosByMonth.js:9 | the padded month parses back |
| VideosByMonth.MonthKeyRoundTrip | web/src/_data/videosByMonth.js:3-25 | a four-digit year's key is a date `getYearMonth` reads back to the same year and month |
| VideosByMonth.DateMonth | web/src/_data/videosByMonth.js:20 | a video's month has a non-zero year and a month in 1..12 |
| VideosByMonth.KeyOf | web/src/_data/videosByMonth.js:20-25 | a video has a key exactly when it has a month |
| VideosByMonth.Find | web/src/_data/videosByMonth.js:26 | the bucket with a key is found exactly when it exists |
| VideosByMonth.InMonth | web/src/_data/videosByMonth.js:19-36 | the videos of a month are videos of the input with that key |
| VideosByMonth.InMonthSnoc | web/src/_data/videosByMonth.js:35 | one more video extends only its own month |
| VideosByMonth.NoBucketNoVideos | web/src/_data/videosByMonth.js:26-35 | a month with no bucket has no videos |
| VideosByMonth.NewUnique | web/src/_data/videosByMonth.js:26-33 | opening a bucket for a new key keeps keys unique |
| VideosByMonth.NewFilled | web/src/_data/videosByMonth.js:26-35 | a new bucket holds exactly its first video, and older ones are unchanged |
| VideosByMonth.NewCovered | web/src/_data/videosByMonth.js:26-35 | after opening a bucket, every dated video still has one |
| VideosByMonth.OldFilled | web/src/_data/videosByMonth.js:35 | appending to an existing bucket keeps every bucket exactly its month |
| VideosByMonth.OldCovered | web/src/_data/videosByMonth.js:35 | appending keeps every dated video covered |
| VideosByMonth.PlaceKeepsGrouped | web/src/_data/videosByMonth.js:19-36 | one loop step preserves the grouping invariant |
| VideosByMonth.BucketsGrouped | web/src/_data/videosByMonth.js:17-36 | after the loop: unique keys, each bucket exactly its month's videos in order, every dated video in a bucket |
| VideosByMonth.BucketVideosShareMonth | web/src/_data/videosByMonth.js:25-35 | every video in a bucket has the bucket's year and month |
| VideosByMonth.InsertDescending | web/src/_data/videosByMonth.js:38 | insertion adds exactly one bucket |
| VideosByMonth.SortDescending | web/src/_data/videosByMonth.js:38 | the sort is a permutation |
| VideosByMonth.ConsDescending | web/src/_data/videosByMonth.js:38 | a head not below the next key keeps the order descending |
| VideosByMonth.InsertDescendingSorted | web/src/_data/videosByMonth.js:38 | insertion keeps descending order |
| VideosByMonth.SortDescendingSorted | web/src/_data/videosByMonth.js:38 | the sort's result is in descending key order |
| VideosByMonth.UniqueKeysCount | web/src/_data/videosByMonth.js:17 | with unique keys, each bucket occurs at most once |
| VideosByMonth.PermutationKeepsUniqueKeys | web/src/_data/videosByMonth.js:38 | rearranging buckets keeps keys unique |
| VideosByMonth.GroupByMonth | web/src/_data/videosByMonth.js:17-36 | the loop computes exactly `Buckets` |
| VideosByMonth.ByMonth | web/src/_data/videosByMonth.js:17-38 | strictly newest month first; each bucket is a well-formed month holding exactly that month's videos in order; every dated video has a bucket |
| Site.WithoutTrailingSlashSpec | web/src/_data/site.js:8 | the result is the text shortened by exactly its trailing "/", or the text itself when there is none |
| Site.NormalizeSiteUrlSpec | web/src/_data/site.js:3-9 | blank gives the default; otherwise the trimmed value less one trailing "/" |
| Site.SiteUrl | web/src/_data/site.js:14 | an unset or blank `SITE_URL` gives the default |
| Site.DefaultTrimmed | web/src/_data/site.js:1 | the default has no white space at its ends and no trailing "/" |
| Site.DefaultIsNormal | web/src/_data/site.js:1-9 | the default is left unchanged by normalisation |
| Site.TrimKeepsLength | web/src/_data/site.js:4 | a trim that keeps the length changes nothing |
| Site.FixedPoints | web/src/_data/site.js:3-9 | a URL is left unchanged exactly when it is non-empty, trimmed and without a trailing "/" |
| Site.SlashAndSpaceIgnored | web/src/_data/site.js:3-9 | " a/\n" normalises to "a" |
| CleanVideoInfo.Clean | sheet-pipeline/archive/clean_video_info.py:15-19 | kept entries are unchanged and never the placeholder; every non-placeholder entry is kept |
| CleanVideoInfo.Run | sheet-pipeline/archive/clean_video_info.py:11-27 | a non-object document fails with its message; otherwise the cleaned entries, with the removed and kept counts |
| CleanVideoInfo.RemovedCount | sheet-pipeline/archive/clean_video_info.py:14-20 | before equals kept plus removed, so the removed count is exactly the placeholder entries |
| CleanVideoInfo.CleanIdempotent | sheet-pipeline/archive/clean_video_info.py:15-19 | cleaning twice is cleaning once |
| CleanVideoInfo.CleanExample | sheet-pipeline/archive/clean_video_info.py:15-19 | the placeholder entry is dropped and an entry without a thumbnail is kept |

## Left out

- Reading and writing the JSON files is not modelled. This covers `load_json`, `save_json`, the atomic replace, and the printed progress lines. The scripts' entry points take the decoded values.
- The top-level type checks of the two main scripts are not modelled: `video_enrich.py` requires the cache to be an object, and `check_video_info.py` requires the rows to be an array and the cache an object. The models take a `seq` of items and a map, so neither case can arise. (`CleanVideoInfo.Run` does model the same check.)
- Configuration from the environment is not read. `VIDEO_LINK_FIELDS`, `SKIP_MEDIA_TYPE` and `CUTOFF_MONTHS` are parameters, and their defaults are constants.
- The network is an oracle (`Net`): the HTTP requests, the oEmbed JSON, timeouts and throttling (`time.sleep`) are not modelled. `scrape_meta`'s HTML regex and `html.unescape` are part of that oracle. Only the stripping of the result is modelled.
- `urlparse` is an oracle.
- Enrich.Run: a cache record that is not an object (null, a string, a list) cannot be represented, because `Cache` maps keys to `Info`. The script calls `info.get` on such a record for a linked URL (video_enrich.py:328-330). That raises before `save_json`, so the run's fetches are lost. The model promises nothing about that crash.
- CleanVideoInfo.Run: an entry that is not an object cannot be represented either. There, `info.get` raises at clean_video_info.py:18 and nothing is written. The model covers only the non-object document.
- UrlCanon.Render: models `urlunparse` as Python 3.12 writes it, without percent-encoding.
  - It uses that release's `uses_netloc` list, which includes `rtsps` and `itms-services`.
  - With an empty location, `//` is written before a path starting with `//`, and before an empty or rooted path of a listed scheme. It is not written before a relative path.
  - So a link typed without a scheme, such as `youtube.com/watch?v=abcdef`, gets the key `https:youtube.com/watch?v=abcdef` (`UrlCanon.SchemelessLinkKey`).
  - Older Python releases wrote `//` in more of these cases, and lacked the two schemes. They would give `https:///youtube.com/watch?v=abcdef` for the same link. That behaviour is not modelled, so keys written by an older interpreter can differ from the modelled ones.
  - `urlencode` is modelled as `k=v` joined by `&`.
- Text.Lower folds ASCII letters only. Python's `str.lower` also folds other letters, for example the Kelvin sign to `k`, and can change the length. This affects the " link" suffix test of `base_name_from_link_field` and the host tests, only for hosts or field names with non-ASCII capitals.
- Rows.PyStr: cells holding floating-point numbers are not represented (`Value` has no float case). `str(1.5 or "")` would be "1.5". Nested arrays and objects in cells are not represented either.
- The clock (`time.gmtime`, `date.today`) and `datetime.fromisoformat` are parameters.
- `fetch_video_info` exceptions: the model assumes that only `urlparse` can raise inside it, since every network helper catches its own errors. Any other exception would give the same `error` record.
- CheckVideoInfo.IsTwitchUrl: a cache key that `urlparse` rejects would make the audit script stop with an exception. The model treats such a key as not Twitch instead.
- CheckVideoInfo.Check: requires that the cutoff date exists (`subtract_months` does not raise for today and `CUTOFF_MONTHS`). The script computes the cutoff only when it tests a dated VOD row, so it raises there instead.
- VideosByMonth.SortDescending: `localeCompare` is modelled by code-point order, which agrees with it on the `YYYY-MM` keys of four-digit years. `Array.prototype.sort`'s own algorithm is replaced by an insertion sort; only its result is modelled.
- VideosByMonth.GetYearMonth: JavaScript measures string length in UTF-16 code units, and the model counts code points. The two differ only for dates with characters outside the Basic Multilingual Plane.
- VideosByMonth.ParseInt: the precision limit of JavaScript numbers is not modelled. Beyond 2^53 `parseInt` rounds, and the model does not.
- Cache values that are not strings are read as absent, because every `Info` field (`title`, `thumbnail`, `source`, `error`, `fetched_at`) is an `Option<string>`. For `source` this changes the audit report: check_video_info.py:184 reports `info.get("source") or ""`, which is the non-string value itself, where `CheckVideoInfo.Classify` reports "".
- `sheet-pipeline/pipeline.py`, `web/src/_data/enrichedVideos.js`, `web/src/assets/scripts/site.js` and `web/eleventy.config.js` are not part of this model. A video's `date` is taken as already normalised.
- Guarantees the code does not give, and the model does not give either:
  - Normalisation is not idempotent for paths ending in "//": the code strips one slash per pass (`UrlCanon.NotIdempotentOnDoubleSlash`).
  - Normalisation of the string is not idempotent when a short link's id carries query syntax or escapes, because the id goes into the watch URL unparsed (video_enrich.py:101-104). `https://youtu.be/abc&t=5` becomes `https://www.youtube.com/watch?v=abc&t=5`, and a second pass drops `t`, giving `...?v=abc`. `https://youtu.be/a%20b` becomes `...?v=a%20b`, and a second pass re-encodes it as `...?v=a+b`. `UrlCanon.Idempotent` is stated for the parsed record only: `urlparse`, `parse_qs` and percent-encoding are outside the model.
  - The enrichment run never refetches a cached record, however old; every wanted URL is fetched, and only those.
  - No `last_updated` stamp is written.

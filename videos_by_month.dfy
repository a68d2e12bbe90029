/** The site's month archive (`web/src/_data/videosByMonth.js`): every video whose date
    starts with a year and a month goes into the bucket for that month, buckets keep their
    videos in input order, and the buckets are listed newest month first. */
module VideosByMonth {
  import opened Wrappers
  import opened Text
  import opened Lex
  import opened Rows

  /** A normalised video: its `date` property (any JSON value; the loader defaults it to
      `""`) and the rest of its properties, which the bucketing only carries along. */
  datatype Video = Video(date: Value, rest: Row)

  datatype YearMonth = YearMonth(year: int, month: int)

  /** One entry of the `buckets` map: `{key, year, month, videos}`. */
  datatype Bucket = Bucket(key: string, year: int, month: int, videos: seq<Video>)

  // ---------------------------------------------------------------------------
  // Number.parseInt(s, 10)
  // ---------------------------------------------------------------------------

  /** The longest prefix of `s` made of decimal digits. */
  function DigitPrefix(s: string): (r: string)
    ensures |r| <= |s| && r == s[..|r|]
    ensures forall i :: 0 <= i < |r| ==> IsDigit(r[i])
    ensures |r| < |s| ==> !IsDigit(s[|r|])
    decreases |s|
  {
    if s != [] && IsDigit(s[0]) then [s[0]] + DigitPrefix(s[1..]) else []
  }

  /** The value of a string of decimal digits. */
  function DigitsValue(d: string): nat
    decreases |d|
  {
    if d == [] then 0
    else
      var c := d[|d| - 1];
      DigitsValue(d[..|d| - 1]) * 10 + (if IsDigit(c) then c as int - '0' as int else 0)
  }

  /** `Number.parseInt(s, 10)`: leading white space is skipped, one `+` or `-` sign is read,
      then the longest run of decimal digits; `None` stands for `NaN` (no digits at all).
      A negative zero is returned as `0`, which is as falsy as `-0`. */
  function ParseInt(s: string): Option<int> {
    ParseSigned(TrimStart(s, IsJsSpace))
  }

  function ParseSigned(t: string): Option<int> {
    if t != [] && t[0] == '-' then
      match ParseUnsigned(t[1..])
      case None => None
      case Some(n) => Some(-n)
    else if t != [] && t[0] == '+' then ParseUnsigned(t[1..])
    else ParseUnsigned(t)
  }

  function ParseUnsigned(u: string): Option<int> {
    var d := DigitPrefix(u);
    if d == [] then None else Some(DigitsValue(d))
  }

  lemma {:induction false} DigitPrefixOfDigits(s: string)
    requires forall i :: 0 <= i < |s| ==> IsDigit(s[i])
    ensures DigitPrefix(s) == s
    decreases |s|
  {
    if s != [] {
      DigitPrefixOfDigits(s[1..]);
      assert s == [s[0]] + s[1..];
    }
  }

  lemma {:induction false} DigitsValueOfNat(n: nat)
    ensures DigitsValue(NatToString(n)) == n
  {
    var s := NatToString(n);
    if n >= 10 {
      DigitsValueOfNat(n / 10);
      assert s[..|s| - 1] == NatToString(n / 10);
    }
  }

  /** `parseInt` of a string of decimal digits is the digits' value. */
  lemma ParseDigits(s: string)
    requires s != [] && forall i :: 0 <= i < |s| ==> IsDigit(s[i])
    ensures ParseInt(s) == Some(DigitsValue(s))
  {
    assert !IsJsSpace(s[0]);
    assert TrimStart(s, IsJsSpace) == s;
    assert ParseSigned(s) == ParseUnsigned(s);
    DigitPrefixOfDigits(s);
  }

  /** `parseInt` reads back the decimal rendering of a natural number. */
  lemma ParseNatToString(n: nat)
    ensures ParseInt(NatToString(n)) == Some(n)
  {
    ParseDigits(NatToString(n));
    DigitsValueOfNat(n);
  }

  /** Leading white space is skipped, the sign is read and the digits stop at the first
      other character: `parseInt(" -7x")` is `-7`. */
  lemma ParseIntExample()
    ensures ParseInt(" -7x") == Some(-7)
  {
    var s := " -7x";
    var t := "-7x";
    assert s[1..] == t && t[1..] == "7x";
    assert IsJsSpace(s[0]) && !IsJsSpace(t[0]);
    assert TrimStart(s, IsJsSpace) == t;
    var d := DigitPrefix("7x");
    assert d == "7" by {
      assert "7x"[1..] == "x";
      assert DigitPrefix("x") == [];
    }
    assert DigitsValue(d) == 7 by { assert d[..0] == []; }
  }

  /** A sign with no digits after it is `NaN`. */
  lemma ParseIntSignOnly()
    ensures ParseInt("-x") == None
  {
    var x := "-x";
    assert TrimStart(x, IsJsSpace) == x;
    assert x[1..] == "x";
  }

  // ---------------------------------------------------------------------------
  // getYearMonth and the bucket key
  // ---------------------------------------------------------------------------

  /** `getYearMonth(dateString)`: the year is `parseInt` of the first four characters and
      the month `parseInt` of the sixth and seventh; a value that is not a string, a string
      shorter than seven characters, a year that is zero or `NaN`, or a month outside 1..12
      gives `None` (`null`). */
  function GetYearMonth(date: Value): (r: Option<YearMonth>)
    ensures !date.Str? || |date.s| < 7 ==> r == None
    ensures r.Some? ==> r.value.year != 0 && 1 <= r.value.month <= 12
    ensures date.Str? && |date.s| >= 7 ==>
      (r.Some? <==> ParseInt(date.s[..4]).Some? && ParseInt(date.s[..4]).value != 0 &&
                    ParseInt(date.s[5..7]).Some? && 1 <= ParseInt(date.s[5..7]).value <= 12)
    ensures r.Some? ==> ParseInt(date.s[..4]) == Some(r.value.year) &&
                        ParseInt(date.s[5..7]) == Some(r.value.month)
  {
    match date
    case Str(s) =>
      if |s| < 7 then None
      else
        var year := ParseInt(s[..4]);
        var month := ParseInt(s[5..7]);
        if year.None? || month.None? || year.value == 0 || month.value == 0
           || month.value < 1 || month.value > 12
        then None
        else Some(YearMonth(year.value, month.value))
    case _ => None
  }

  /** `String(n).padStart(2, "0")`. */
  function Pad2(n: int): (r: string)
    ensures |r| >= 2
  {
    var s := IntToString(n);
    if |s| < 2 then "0" + s else s
  }

  /** The bucket key `${year}-${String(month).padStart(2, "0")}`. */
  function MonthKey(year: int, month: int): string {
    IntToString(year) + "-" + Pad2(month)
  }

  lemma Pad2OfMonth(m: int)
    requires 1 <= m <= 12
    ensures |Pad2(m)| == 2
    ensures m < 10 ==> Pad2(m) == ['0', DigitChar(m)]
    ensures m >= 10 ==> Pad2(m) == ['1', DigitChar(m - 10)]
  {
    if m >= 10 {
      assert NatToString(m) == NatToString(m / 10) + [DigitChar(m % 10)];
    }
  }

  /** Different months never share a key, so one bucket holds one month. */
  lemma MonthKeyInjective(y1: int, m1: int, y2: int, m2: int)
    requires 1 <= m1 <= 12 && 1 <= m2 <= 12
    requires MonthKey(y1, m1) == MonthKey(y2, m2)
    ensures y1 == y2 && m1 == m2
  {
    Pad2OfMonth(m1);
    Pad2OfMonth(m2);
    var k := MonthKey(y1, m1);
    var a := IntToString(y1) + "-";
    var b := IntToString(y2) + "-";
    assert k == a + Pad2(m1) == b + Pad2(m2);
    assert k[..|k| - 2] == a && k[..|k| - 2] == b;
    assert a[..|a| - 1] == IntToString(y1) && b[..|b| - 1] == IntToString(y2);
    IntToStringInjective(y1, y2);
    assert k[|k| - 2..] == Pad2(m1) && k[|k| - 2..] == Pad2(m2);
  }

  lemma FourDigits(year: int)
    requires 1000 <= year <= 9999
    ensures |NatToString(year)| == 4
  {
    assert NatToString(year) == NatToString(year / 10) + [DigitChar(year % 10)];
    assert NatToString(year / 10) == NatToString(year / 100) + [DigitChar(year / 10 % 10)];
    assert NatToString(year / 100) == NatToString(year / 1000) + [DigitChar(year / 100 % 10)];
  }

  lemma DigitsValueTwo(a: nat, b: nat)
    requires a < 10 && b < 10
    ensures DigitsValue([DigitChar(a), DigitChar(b)]) == 10 * a + b
  {
    var p := [DigitChar(a), DigitChar(b)];
    assert DigitsValue([DigitChar(a)]) == a by {
      assert [DigitChar(a)][..0] == [];
    }
    assert p[..1] == [DigitChar(a)];
  }

  lemma ParsePad2(m: int)
    requires 1 <= m <= 12
    ensures ParseInt(Pad2(m)) == Some(m)
  {
    Pad2OfMonth(m);
    var tens := if m < 10 then 0 else 1;
    var p := [DigitChar(tens), DigitChar(m - 10 * tens)];
    assert Pad2(m) == p;
    DigitsValueTwo(tens, m - 10 * tens);
    ParseDigits(p);
  }

  /** A four-digit year's key is itself a date string that `getYearMonth` reads back. */
  lemma MonthKeyRoundTrip(year: int, month: int)
    requires 1000 <= year <= 9999 && 1 <= month <= 12
    ensures GetYearMonth(Str(MonthKey(year, month))) == Some(YearMonth(year, month))
  {
    FourDigits(year);
    Pad2OfMonth(month);
    var k := MonthKey(year, month);
    assert k[..4] == NatToString(year);
    assert k[5..7] == Pad2(month);
    ParseNatToString(year);
    ParsePad2(month);
  }

  /** The month of a video: `getYearMonth(video.date)`. */
  function DateMonth(v: Video): (r: Option<YearMonth>)
    ensures r.Some? ==> r.value.year != 0 && 1 <= r.value.month <= 12
  {
    GetYearMonth(v.date)
  }

  /** What the bucket loop needs of the month function it is given (`DateMonth` has it):
      every month it reports has a non-zero year and a month in 1..12. */
  ghost predicate InRange(month: Video -> Option<YearMonth>) {
    forall v :: month(v).Some? ==> month(v).value.year != 0 && 1 <= month(v).value.month <= 12
  }

  /** The bucket key of a video, when `month` finds its month. The month function and the
      key format are parameters (`DateMonth` and `MonthKey` in the site) so that reasoning
      about buckets unfolds neither the date parser nor the number rendering. */
  function KeyOf(v: Video, month: Video -> Option<YearMonth>, format: (int, int) -> string): (r: Option<string>)
    ensures r.Some? <==> month(v).Some?
  {
    match month(v)
    case None => None
    case Some(ym) => Some(format(ym.year, ym.month))
  }

  // ---------------------------------------------------------------------------
  // The bucket loop
  // ---------------------------------------------------------------------------

  /** Position of the bucket with `key` (`buckets.has(key)` / `buckets.get(key)`). */
  function Find(bs: seq<Bucket>, key: string): (r: Option<nat>)
    ensures r.None? <==> forall i :: 0 <= i < |bs| ==> bs[i].key != key
    ensures r.Some? ==> r.value < |bs| && bs[r.value].key == key
  {
    if bs == [] then None
    else if bs[0].key == key then Some(0)
    else match Find(bs[1..], key)
      case None => None
      case Some(i) => assert bs[i + 1] == bs[1..][i]; Some(i + 1)
  }

  /** One step of the loop: skip a video without a month, open the month's bucket if it is
      new (at the end, as a `Map` keeps insertion order), then push the video into it. */
  function Place(bs: seq<Bucket>, v: Video, month: Video -> Option<YearMonth>, format: (int, int) -> string): seq<Bucket> {
    match month(v)
    case None => bs
    case Some(ym) =>
      var key := format(ym.year, ym.month);
      match Find(bs, key)
      case None => bs + [Bucket(key, ym.year, ym.month, [v])]
      case Some(i) => bs[i := bs[i].(videos := bs[i].videos + [v])]
  }

  /** The values of `buckets` after the loop over `vs`, in insertion order. */
  function Buckets(vs: seq<Video>, month: Video -> Option<YearMonth>, format: (int, int) -> string): seq<Bucket>
  {
    if vs == [] then [] else Place(Buckets(vs[..|vs| - 1], month, format), vs[|vs| - 1], month, format)
  }

  /** The videos of `vs` whose month key is `key`, in input order. */
  function InMonth(vs: seq<Video>, key: string, month: Video -> Option<YearMonth>, format: (int, int) -> string): (r: seq<Video>)
    ensures forall v :: v in r ==> v in vs && KeyOf(v, month, format) == Some(key)
  {
    if vs == [] then []
    else
      var v := vs[|vs| - 1];
      InMonth(vs[..|vs| - 1], key, month, format) + (if KeyOf(v, month, format) == Some(key) then [v] else [])
  }

  predicate UniqueKeys(bs: seq<Bucket>) {
    forall i, j :: 0 <= i < j < |bs| ==> bs[i].key != bs[j].key
  }

  /** A bucket's own fields agree: its key is built from its year and month, the month is
      in range, the year is non-zero, and it holds at least one video. */
  predicate WellFormed(b: Bucket, format: (int, int) -> string) {
    b.year != 0 && 1 <= b.month <= 12 && b.key == format(b.year, b.month) && b.videos != []
  }

  /** Each bucket is well formed and holds exactly the videos of `vs` with its key. */
  predicate Filled(bs: seq<Bucket>, vs: seq<Video>, month: Video -> Option<YearMonth>, format: (int, int) -> string) {
    forall i :: 0 <= i < |bs| ==>
      WellFormed(bs[i], format) && bs[i].videos == InMonth(vs, bs[i].key, month, format)
  }

  /** Every video of `vs` that has a month has a bucket. */
  predicate Covered(bs: seq<Bucket>, vs: seq<Video>, month: Video -> Option<YearMonth>, format: (int, int) -> string) {
    forall v :: v in vs && KeyOf(v, month, format).Some? ==> Find(bs, KeyOf(v, month, format).value).Some?
  }

  /** The loop's invariant, for `bs` built from `vs`. */
  predicate Grouped(bs: seq<Bucket>, vs: seq<Video>, month: Video -> Option<YearMonth>, format: (int, int) -> string) {
    UniqueKeys(bs) && Filled(bs, vs, month, format) && Covered(bs, vs, month, format)
  }

  lemma InMonthSnoc(vs: seq<Video>, v: Video, month: Video -> Option<YearMonth>, format: (int, int) -> string)
    ensures forall k :: (InMonth(vs + [v], k, month, format) ==
      InMonth(vs, k, month, format) + (if KeyOf(v, month, format) == Some(k) then [v] else []))
  {
    assert (vs + [v])[..|vs|] == vs;
  }

  lemma {:induction false} NoBucketNoVideos(bs: seq<Bucket>, vs: seq<Video>, key: string,
                                            month: Video -> Option<YearMonth>, format: (int, int) -> string)
    requires Covered(bs, vs, month, format) && Find(bs, key).None?
    ensures InMonth(vs, key, month, format) == []
    decreases |vs|
  {
    if vs != [] {
      var init := vs[..|vs| - 1];
      assert Covered(bs, init, month, format) by {
        forall v | v in init ensures v in vs { }
      }
      NoBucketNoVideos(bs, init, key, month, format);
    }
  }

  lemma NewUnique(bs: seq<Bucket>, b: Bucket)
    requires UniqueKeys(bs) && Find(bs, b.key).None?
    ensures UniqueKeys(bs + [b])
  {
    var r := bs + [b];
    forall i, j | 0 <= i < j < |r| ensures r[i].key != r[j].key {
      assert r[i] == bs[i];
    }
  }

  lemma NewFilled(bs: seq<Bucket>, vs: seq<Video>, v: Video,
                  month: Video -> Option<YearMonth>, format: (int, int) -> string)
    requires InRange(month) && Filled(bs, vs, month, format) && Covered(bs, vs, month, format)
    requires month(v).Some? && Find(bs, KeyOf(v, month, format).value).None?
    ensures var ym := month(v).value;
      Filled(bs + [Bucket(format(ym.year, ym.month), ym.year, ym.month, [v])], vs + [v], month, format)
  {
    var ym := month(v).value;
    var key := format(ym.year, ym.month);
    var r := bs + [Bucket(key, ym.year, ym.month, [v])];
    InMonthSnoc(vs, v, month, format);
    NoBucketNoVideos(bs, vs, key, month, format);
    forall i | 0 <= i < |r|
      ensures WellFormed(r[i], format) && r[i].videos == InMonth(vs + [v], r[i].key, month, format)
    {
      if i < |bs| {
        assert r[i] == bs[i];
      }
    }
  }

  lemma NewCovered(bs: seq<Bucket>, vs: seq<Video>, v: Video, b: Bucket,
                   month: Video -> Option<YearMonth>, format: (int, int) -> string)
    requires Covered(bs, vs, month, format) && KeyOf(v, month, format) == Some(b.key)
    ensures Covered(bs + [b], vs + [v], month, format)
  {
    var r := bs + [b];
    forall w | w in vs + [v] && KeyOf(w, month, format).Some? ensures Find(r, KeyOf(w, month, format).value).Some? {
      if w in vs {
        var j := Find(bs, KeyOf(w, month, format).value).value;
        assert r[j] == bs[j];
      } else {
        assert r[|bs|] == b;
      }
    }
  }

  lemma OldFilled(bs: seq<Bucket>, vs: seq<Video>, v: Video, i: nat,
                  month: Video -> Option<YearMonth>, format: (int, int) -> string)
    requires UniqueKeys(bs) && Filled(bs, vs, month, format)
    requires i < |bs| && KeyOf(v, month, format) == Some(bs[i].key)
    ensures Filled(bs[i := bs[i].(videos := bs[i].videos + [v])], vs + [v], month, format)
  {
    InMonthSnoc(vs, v, month, format);
  }

  lemma OldCovered(bs: seq<Bucket>, vs: seq<Video>, v: Video, i: nat,
                   month: Video -> Option<YearMonth>, format: (int, int) -> string)
    requires Covered(bs, vs, month, format)
    requires i < |bs| && KeyOf(v, month, format) == Some(bs[i].key)
    ensures Covered(bs[i := bs[i].(videos := bs[i].videos + [v])], vs + [v], month, format)
  {
    var r := bs[i := bs[i].(videos := bs[i].videos + [v])];
    forall w | w in vs + [v] && KeyOf(w, month, format).Some? ensures Find(r, KeyOf(w, month, format).value).Some? {
      if w in vs {
        var j := Find(bs, KeyOf(w, month, format).value).value;
        assert r[j].key == bs[j].key;
      } else {
        assert r[i].key == bs[i].key;
      }
    }
  }

  lemma PlaceKeepsGrouped(bs: seq<Bucket>, vs: seq<Video>, v: Video,
                          month: Video -> Option<YearMonth>, format: (int, int) -> string)
    requires InRange(month) && Grouped(bs, vs, month, format)
    ensures Grouped(Place(bs, v, month, format), vs + [v], month, format)
  {
    InMonthSnoc(vs, v, month, format);
    match month(v)
    case None =>
      assert Place(bs, v, month, format) == bs;
    case Some(ym) =>
      var key := format(ym.year, ym.month);
      match Find(bs, key)
      case None =>
        var b := Bucket(key, ym.year, ym.month, [v]);
        assert Place(bs, v, month, format) == bs + [b];
        NewUnique(bs, b);
        NewFilled(bs, vs, v, month, format);
        NewCovered(bs, vs, v, b, month, format);
      case Some(i) =>
        assert Place(bs, v, month, format) == bs[i := bs[i].(videos := bs[i].videos + [v])];
        assert UniqueKeys(bs[i := bs[i].(videos := bs[i].videos + [v])]);
        OldFilled(bs, vs, v, i, month, format);
        OldCovered(bs, vs, v, i, month, format);
  }

  /** The bucket loop groups: keys are unique, each bucket is a well-formed month holding
      exactly the videos of that month in input order, and every dated video's month has
      a bucket. */
  lemma {:induction false} BucketsGrouped(vs: seq<Video>, month: Video -> Option<YearMonth>, format: (int, int) -> string)
    requires InRange(month)
    ensures Grouped(Buckets(vs, month, format), vs, month, format)
    decreases |vs|
  {
    if vs != [] {
      var init := vs[..|vs| - 1];
      BucketsGrouped(init, month, format);
      PlaceKeepsGrouped(Buckets(init, month, format), init, vs[|vs| - 1], month, format);
      assert init + [vs[|vs| - 1]] == vs;
    }
  }

  /** Every video in a bucket of the site's keys has the bucket's year and month. */
  lemma BucketVideosShareMonth(b: Bucket, vs: seq<Video>, month: Video -> Option<YearMonth>)
    requires InRange(month) && WellFormed(b, MonthKey) && b.videos == InMonth(vs, b.key, month, MonthKey)
    ensures forall v :: v in b.videos ==> month(v) == Some(YearMonth(b.year, b.month))
  {
    forall v | v in b.videos ensures month(v) == Some(YearMonth(b.year, b.month)) {
      var ym := month(v).value;
      assert MonthKey(ym.year, ym.month) == MonthKey(b.year, b.month);
      MonthKeyInjective(ym.year, ym.month, b.year, b.month);
    }
  }

  // ---------------------------------------------------------------------------
  // Sorting by key, newest first
  // ---------------------------------------------------------------------------

  /** No bucket's key is below a later one's: `sort((a, b) => b.key.localeCompare(a.key))`. */
  predicate Descending(bs: seq<Bucket>) {
    forall i, j :: 0 <= i < j < |bs| ==> !Less(bs[i].key, bs[j].key)
  }

  function InsertDescending(b: Bucket, bs: seq<Bucket>): (r: seq<Bucket>)
    ensures multiset(r) == multiset(bs) + multiset{b}
    decreases |bs|
  {
    if bs == [] || !Less(b.key, bs[0].key) then [b] + bs
    else
      assert bs == [bs[0]] + bs[1..];
      [bs[0]] + InsertDescending(b, bs[1..])
  }

  /** The array sort's result: the same buckets, in descending key order. */
  function SortDescending(bs: seq<Bucket>): (r: seq<Bucket>)
    ensures multiset(r) == multiset(bs)
    decreases |bs|
  {
    if bs == [] then []
    else
      assert bs == [bs[0]] + bs[1..];
      InsertDescending(bs[0], SortDescending(bs[1..]))
  }

  /** Putting `b` in front keeps the order when it is not below the first bucket. */
  lemma ConsDescending(b: Bucket, bs: seq<Bucket>)
    requires Descending(bs) && (bs == [] || !Less(b.key, bs[0].key))
    ensures Descending([b] + bs)
  {
    var r := [b] + bs;
    forall j | 1 <= j < |r| ensures !Less(b.key, r[j].key) {
      if j > 1 && Less(b.key, bs[j - 1].key) {
        LessTotal(b.key, bs[0].key);
        if b.key != bs[0].key {
          LessTransitive(bs[0].key, b.key, bs[j - 1].key);
        }
      }
    }
    forall i, j | 0 <= i < j < |r| ensures !Less(r[i].key, r[j].key) {
      if i > 0 {
        assert r[i] == bs[i - 1] && r[j] == bs[j - 1];
      }
    }
  }

  lemma {:induction false} InsertDescendingSorted(b: Bucket, bs: seq<Bucket>)
    requires Descending(bs)
    ensures Descending(InsertDescending(b, bs))
    decreases |bs|
  {
    if bs == [] || !Less(b.key, bs[0].key) {
      ConsDescending(b, bs);
    } else {
      var t := bs[1..];
      var rest := InsertDescending(b, t);
      assert Descending(t) by {
        forall i, j | 0 <= i < j < |t| ensures !Less(t[i].key, t[j].key) {
          assert t[i] == bs[i + 1] && t[j] == bs[j + 1];
        }
      }
      InsertDescendingSorted(b, t);
      if rest != [] {
        assert rest[0] in multiset(rest);
        if rest[0] == b {
          LessAsymmetric(b.key, bs[0].key);
        } else {
          assert rest[0] in t;
          var k :| 0 <= k < |t| && t[k] == rest[0];
          assert bs[k + 1] == t[k];
        }
      }
      ConsDescending(bs[0], rest);
    }
  }

  lemma {:induction false} SortDescendingSorted(bs: seq<Bucket>)
    ensures Descending(SortDescending(bs))
    decreases |bs|
  {
    if bs != [] {
      SortDescendingSorted(bs[1..]);
      InsertDescendingSorted(bs[0], SortDescending(bs[1..]));
    }
  }

  lemma {:induction false} UniqueKeysCount(bs: seq<Bucket>, x: Bucket)
    requires UniqueKeys(bs)
    ensures multiset(bs)[x] <= 1
    decreases |bs|
  {
    if bs != [] {
      var t := bs[1..];
      assert bs == [bs[0]] + t;
      assert UniqueKeys(t) by {
        forall i, j | 0 <= i < j < |t| ensures t[i].key != t[j].key {
          assert t[i] == bs[i + 1] && t[j] == bs[j + 1];
        }
      }
      UniqueKeysCount(t, x);
      forall k | 0 <= k < |t| ensures t[k] != bs[0] {
        assert t[k] == bs[k + 1];
      }
      assert bs[0] !in t;
    }
  }

  /** A rearrangement of buckets with unique keys still has unique keys. */
  lemma PermutationKeepsUniqueKeys(bs: seq<Bucket>, r: seq<Bucket>)
    requires UniqueKeys(bs) && multiset(r) == multiset(bs)
    ensures UniqueKeys(r)
  {
    forall i, j | 0 <= i < j < |r| ensures r[i].key != r[j].key {
      if r[i].key == r[j].key {
        assert r[i] in multiset(bs) && r[j] in multiset(bs);
        var p :| 0 <= p < |bs| && bs[p] == r[i];
        var q :| 0 <= q < |bs| && bs[q] == r[j];
        assert p == q;
        assert r == r[..j] + r[j..];
        assert r[i] in r[..j] && r[j] in r[j..];
        assert multiset(r)[r[i]] >= 2;
        UniqueKeysCount(bs, r[i]);
      }
    }
  }

  // ---------------------------------------------------------------------------
  // The module's value
  // ---------------------------------------------------------------------------

  /** The `for (const video of enrichedVideos)` loop, for the month function `month` and
      the key format `format` (`getYearMonth` and the template literal in the site): the
      buckets in insertion order. */
  method GroupByMonth(videos: seq<Video>, month: Video -> Option<YearMonth>, format: (int, int) -> string)
    returns (buckets: seq<Bucket>)
    ensures buckets == Buckets(videos, month, format)
  {
    buckets := [];
    for n := 0 to |videos|
      invariant buckets == Buckets(videos[..n], month, format)
    {
      var video := videos[n];
      assert videos[..n + 1][..n] == videos[..n];
      assert Buckets(videos[..n + 1], month, format) == Place(buckets, video, month, format);
      var parsed := month(video);
      if parsed.Some? {
        var key := format(parsed.value.year, parsed.value.month);
        var at := Find(buckets, key);
        if at.None? {
          var created := Bucket(key, parsed.value.year, parsed.value.month, []);
          assert [] + [video] == [video];
          buckets := buckets + [created];
          at := Some(|buckets| - 1);
        }
        var i := at.value;
        buckets := buckets[i := buckets[i].(videos := buckets[i].videos + [video])];
      }
    }
    assert videos[..|videos|] == videos;
  }

  /** `videosByMonth`: the buckets loop over `videos`, then the descending sort. The list
      is newest month first with no key twice; each bucket is a well-formed month holding
      exactly the videos of that month in their input order (and so each dated video is in
      exactly one bucket, and undated ones in none); every dated video's month has a
      bucket. */
  method ByMonth(videos: seq<Video>) returns (r: seq<Bucket>)
    ensures forall i, j :: 0 <= i < j < |r| ==> Less(r[j].key, r[i].key)
    ensures forall b :: b in r ==>
      WellFormed(b, MonthKey) && b.videos == InMonth(videos, b.key, DateMonth, MonthKey)
    ensures forall v :: v in videos && KeyOf(v, DateMonth, MonthKey).Some? ==>
      exists b :: b in r && b.key == KeyOf(v, DateMonth, MonthKey).value
    ensures forall b, v :: b in r && v in b.videos ==> DateMonth(v) == Some(YearMonth(b.year, b.month))
  {
    var buckets := GroupByMonth(videos, DateMonth, MonthKey);
    BucketsGrouped(videos, DateMonth, MonthKey);
    r := SortDescending(buckets);
    SortDescendingSorted(buckets);
    PermutationKeepsUniqueKeys(buckets, r);
    forall i, j | 0 <= i < j < |r| ensures Less(r[j].key, r[i].key) {
      LessTotal(r[i].key, r[j].key);
    }
    forall b | b in r ensures WellFormed(b, MonthKey) && b.videos == InMonth(videos, b.key, DateMonth, MonthKey) {
      assert b in multiset(buckets);
      var k :| 0 <= k < |buckets| && buckets[k] == b;
    }
    forall b | b in r ensures forall v :: v in b.videos ==> DateMonth(v) == Some(YearMonth(b.year, b.month)) {
      BucketVideosShareMonth(b, videos, DateMonth);
    }
    forall v | v in videos && KeyOf(v, DateMonth, MonthKey).Some?
      ensures exists b :: b in r && b.key == KeyOf(v, DateMonth, MonthKey).value
    {
      var k := Find(buckets, KeyOf(v, DateMonth, MonthKey).value).value;
      assert buckets[k] in multiset(r);
    }
  }
}

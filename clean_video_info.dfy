/** The one-off cache pruner (`sheet-pipeline/archive/clean_video_info.py`): drop every
    cache entry whose thumbnail is Twitch's placeholder logo, so that the next enrichment
    run fetches those URLs again. */
module CleanVideoInfo {
  import opened Wrappers
  import opened VideoFetch

  const BadThumb: string := "https://static-cdn.jtvnw.net/ttv-static-metadata/twitch_logo3.jpg"

  /** The cache file as loaded: a JSON object of entries, or some other JSON value. */
  datatype Document = Object(entries: map<string, Info>) | NotAnObject

  /** What the script writes and reports: the kept entries and the two counts it prints. */
  datatype Outcome = Outcome(cleaned: map<string, Info>, removed: int, kept: nat)

  predicate Placeholder(info: Info) {
    info.thumbnail == Some(BadThumb)
  }

  /** The `cleaned` comprehension: the entries whose thumbnail is not the placeholder, under
      the same keys and with the same values. */
  function Clean(data: map<string, Info>): (r: map<string, Info>)
    ensures r.Keys <= data.Keys
    ensures forall url :: url in r ==> r[url] == data[url] && !Placeholder(r[url])
    ensures forall url :: url in data && !Placeholder(data[url]) ==> url in r
  {
    map url | url in data && !Placeholder(data[url]) :: data[url]
  }

  /** The keys the comprehension drops. */
  function Removed(data: map<string, Info>): set<string> {
    set url | url in data && Placeholder(data[url])
  }

  /** The whole script on a loaded document: a document that is not an object stops it
      with its message; otherwise it keeps the cleaned entries and reports
      `before - after` removed and `after` kept. */
  function Run(doc: Document): (r: Result<Outcome>)
    ensures doc.NotAnObject? <==> r.Failure?
    ensures r.Success? ==> r.value.cleaned == Clean(doc.entries)
    ensures r.Success? ==> r.value.removed == |Removed(doc.entries)| && r.value.kept == |r.value.cleaned|
  {
    match doc
    case NotAnObject => Failure("video_info.json must be a JSON object")
    case Object(data) =>
      var before := |data|;
      var cleaned := Clean(data);
      var after := |cleaned|;
      RemovedCount(data);
      Success(Outcome(cleaned, before - after, after))
  }

  /** The input's keys split into the kept and the removed ones, so `before - after` counts
      exactly the removed entries and is never negative. */
  lemma RemovedCount(data: map<string, Info>)
    ensures |data| == |Clean(data)| + |Removed(data)|
  {
    var kept := Clean(data).Keys;
    var removed := Removed(data);
    assert data.Keys == kept + removed;
    assert kept * removed == {};
  }

  /** Cleaning twice is cleaning once. */
  lemma CleanIdempotent(data: map<string, Info>)
    ensures Clean(Clean(data)) == Clean(data)
  {
  }

  /** An entry with the placeholder thumbnail is dropped whatever else it holds; one with
      no thumbnail at all is kept. */
  lemma CleanExample(ok: Info, bad: Info)
    requires ok.thumbnail == None && bad.thumbnail == Some(BadThumb)
    ensures Clean(map["a" := ok, "b" := bad]) == map["a" := ok]
  {
    var data := map["a" := ok, "b" := bad];
    assert Clean(data).Keys == {"a"};
  }
}

/** The MusicBrainz client of src/utils/music-brainz.ts. Every HTTP exchange
    is an oracle: the lookups are functions of the response the server gave
    (`ok` flag and decoded JSON body), and the paginated work listing is a
    loop that asks a page oracle for successive pages. */
module MusicBrainz {
  import opened Common

  /** Page size of the work listing. */
  const MaxLimit: nat := 100
  /** Pause between two page requests, in milliseconds. */
  const FetchIntervalMs: nat := 1000

  datatype RecordingRef = RecordingRef(id: string, title: string, video: bool, length: Option<int>)
  datatype ArtistRef = ArtistRef(id: string, name: string)

  /** One relation of a work. Artist relations carry `artist`, recording
      relations carry `recording`; the source tells them apart with
      `'artist' in relation` and `'recording' in relation`. */
  datatype WorkRelation = WorkRelation(
    relType: string,
    attributes: seq<string>,
    artist: Option<ArtistRef>,
    recording: Option<RecordingRef>)

  datatype Work = Work(relations: seq<WorkRelation>)

  /** The recording lookup's JSON: `artistCredit` holds the credited names,
      `urlRelations` the `url.resource` of each relation (absent when the
      relation has no `url`). */
  datatype Recording = Recording(
    title: Option<string>,
    firstReleaseDate: Option<string>,
    artistCredit: seq<string>,
    isrcs: seq<string>,
    urlRelations: seq<Option<string>>)

  /** An HTTP response as the client sees it. */
  datatype Response<T> = Response(ok: bool, status: int, body: T)

  /** getArtistIdByName: the body is the search result's `artists` list of
      ids. A non-ok response throws; no artist gives `''`. */
  function GetArtistIdByName(resp: Response<Option<seq<string>>>): (r: Result<string>)
    ensures r.Err? <==> !resp.ok
    ensures r.Ok? && r.value != "" ==> resp.body.Some? && resp.body.value != [] && r.value == resp.body.value[0]
    ensures r.Ok? && (resp.body.None? || resp.body.value == []) ==> r.value == ""
    ensures resp.ok && resp.body.Some? && resp.body.value != [] ==> r == Ok(resp.body.value[0])
  {
    if !resp.ok then Err("artist search failed")
    else match resp.body
      case Some(ids) => Ok(if |ids| > 0 then ids[0] else "")
      case None => Ok("")
  }

  /** getArtistNameById: the body is the artist's `name`. A non-ok response
      throws; a missing name gives `''`. */
  function GetArtistNameById(resp: Response<Option<string>>): (r: Result<string>)
    ensures r.Err? <==> !resp.ok
    ensures r.Ok? ==> (r.value == "" <==> resp.body.None? || resp.body.value == "")
    ensures resp.ok && resp.body.Some? ==> r == Ok(resp.body.value)
  {
    if !resp.ok then Err("artist lookup failed") else Ok(resp.body.GetOr(""))
  }

  /** fetchWorksPage: the body is the page's `works`. A non-ok response
      throws; a body without `works` is an empty page. */
  function FetchWorksPage(resp: Response<Option<seq<Work>>>): (r: Result<seq<Work>>)
    ensures r.Err? <==> !resp.ok
    ensures r.Ok? && resp.body.None? ==> r.value == []
    ensures resp.ok && resp.body.Some? ==> r == Ok(resp.body.value)
  {
    if !resp.ok then Err("work search failed") else Ok(resp.body.GetOr([]))
  }

  /** getRecording: a non-ok response throws; otherwise the decoded body,
      which may be `null`. */
  function GetRecording(resp: Response<Option<Recording>>): (r: Result<Option<Recording>>)
    ensures r.Err? <==> !resp.ok
    ensures resp.ok ==> r == Ok(resp.body)
  {
    if !resp.ok then Err("recording lookup failed") else Ok(resp.body)
  }

  datatype PageRequest = PageRequest(artistId: string, limit: nat, offset: nat)

  /** What the listing loop does, in order. */
  datatype Event = Fetch(request: PageRequest) | Sleep(ms: nat)

  type PageApi = PageRequest -> Response<Option<seq<Work>>>

  /** The request of the k-th call, counting from 0. */
  function NthRequest(artistId: string, k: nat): PageRequest {
    PageRequest(artistId, MaxLimit, MaxLimit * k)
  }

  /** The page the k-th call yields. */
  function Page(api: PageApi, artistId: string, k: nat): Result<seq<Work>> {
    FetchWorksPage(api(NthRequest(artistId, k)))
  }

  /** The loop ends after the k-th call: it threw, or the page was short. */
  predicate StopsAt(api: PageApi, artistId: string, k: nat) {
    Page(api, artistId, k).Err? || |Page(api, artistId, k).value| < MaxLimit
  }

  /** The works of calls 0 .. n-1, in fetch order. */
  function Collected(api: PageApi, artistId: string, n: nat): seq<Work>
    requires forall k :: 0 <= k < n ==> Page(api, artistId, k).Ok?
  {
    if n == 0 then [] else Collected(api, artistId, n - 1) + Page(api, artistId, n - 1).value
  }

  /** The events of `n` calls: a fetch per call and a pause between calls. */
  function Trace(artistId: string, n: nat): (t: seq<Event>)
    requires n >= 1
    ensures |t| == 2 * n - 1
  {
    if n == 1 then [Fetch(NthRequest(artistId, 0))]
    else Trace(artistId, n - 1) + [Sleep(FetchIntervalMs), Fetch(NthRequest(artistId, n - 1))]
  }

  /** The layout of a trace: the k-th fetch, with offset 100·k, sits at
      position 2k, and every position between two fetches is a pause. */
  lemma {:induction false} TraceShape(artistId: string, n: nat)
    requires n >= 1
    ensures forall k :: 0 <= k < n ==> Trace(artistId, n)[2 * k] == Fetch(PageRequest(artistId, MaxLimit, MaxLimit * k))
    ensures forall k :: 0 <= k < n - 1 ==> Trace(artistId, n)[2 * k + 1] == Sleep(FetchIntervalMs)
  {
    if n > 1 {
      TraceShape(artistId, n - 1);
      var t := Trace(artistId, n);
      var prev := Trace(artistId, n - 1);
      assert t == prev + [Sleep(FetchIntervalMs), Fetch(NthRequest(artistId, n - 1))];
      assert forall j :: 0 <= j < |prev| ==> t[j] == prev[j];
    }
  }

  /** getAllWorks. The source loops until a short page; it terminates only if
      some call stops it, which is therefore required here. `calls` is the
      number of requests sent. */
  method GetAllWorks(artistId: string, api: PageApi) returns (r: Result<seq<Work>>, calls: nat, trace: seq<Event>)
    requires exists k: nat :: StopsAt(api, artistId, k)
    ensures calls >= 1 && StopsAt(api, artistId, calls - 1)
    ensures forall k :: 0 <= k < calls - 1 ==> Page(api, artistId, k).Ok? && |Page(api, artistId, k).value| >= MaxLimit
    ensures trace == Trace(artistId, calls)
    ensures r.Err? <==> Page(api, artistId, calls - 1).Err?
    ensures r.Ok? ==> r.value == Collected(api, artistId, calls)
  {
    ghost var bound: nat :| StopsAt(api, artistId, bound);
    var offset: nat := 0;
    var all: seq<Work> := [];
    calls := 0;
    trace := [];
    while true
      invariant offset == MaxLimit * calls && calls <= bound
      invariant forall k :: 0 <= k < calls ==> Page(api, artistId, k).Ok? && |Page(api, artistId, k).value| >= MaxLimit
      invariant all == Collected(api, artistId, calls)
      invariant calls == 0 ==> trace == []
      invariant calls > 0 ==> trace == Trace(artistId, calls) + [Sleep(FetchIntervalMs)]
      decreases bound - calls
    {
      var request := PageRequest(artistId, MaxLimit, offset);
      trace := trace + [Fetch(request)];
      var batch := FetchWorksPage(api(request));
      calls := calls + 1;
      if batch.Err? {
        r := Err(batch.message);
        return;
      }
      all := all + batch.value;
      if |batch.value| < MaxLimit {
        break;
      }
      offset := offset + MaxLimit;
      trace := trace + [Sleep(FetchIntervalMs)];
    }
    r := Ok(all);
  }

  /** Any run satisfying GetAllWorks's contract against pages of 100, 100
      and 37 works makes three calls, pauses twice and returns 237 works. */
  lemma ThreePagesExample(api: PageApi, artistId: string, calls: nat)
    requires Page(api, artistId, 0).Ok? && |Page(api, artistId, 0).value| == 100
    requires Page(api, artistId, 1).Ok? && |Page(api, artistId, 1).value| == 100
    requires Page(api, artistId, 2).Ok? && |Page(api, artistId, 2).value| == 37
    requires calls >= 1 && StopsAt(api, artistId, calls - 1)
    requires forall k :: 0 <= k < calls - 1 ==> Page(api, artistId, k).Ok? && |Page(api, artistId, k).value| >= MaxLimit
    ensures calls == 3
    ensures |Collected(api, artistId, calls)| == 237
    ensures Trace(artistId, calls)
         == [Fetch(PageRequest(artistId, 100, 0)), Sleep(1000),
             Fetch(PageRequest(artistId, 100, 100)), Sleep(1000),
             Fetch(PageRequest(artistId, 100, 200))]
  {
    assert !StopsAt(api, artistId, 0) && !StopsAt(api, artistId, 1);
    assert |Collected(api, artistId, 1)| == 100;
    assert |Collected(api, artistId, 2)| == 200;
    assert NthRequest(artistId, 1) == PageRequest(artistId, 100, 100);
    assert NthRequest(artistId, 2) == PageRequest(artistId, 100, 200);
    assert Trace(artistId, 2) == [Fetch(PageRequest(artistId, 100, 0)), Sleep(1000),
                                  Fetch(PageRequest(artistId, 100, 100))];
  }

  /** A server that answers every request with the matching window of one
      fixed list of works. */
  ghost predicate ServesCatalog(api: PageApi, artistId: string, catalog: seq<Work>) {
    forall k: nat :: Page(api, artistId, k) == Ok(Window(catalog, k))
  }

  /** The works at positions 100k .. 100k+99 of the catalog. */
  function Window(catalog: seq<Work>, k: nat): seq<Work> {
    if MaxLimit * k >= |catalog| then []
    else if MaxLimit * k + MaxLimit >= |catalog| then catalog[MaxLimit * k..]
    else catalog[MaxLimit * k..MaxLimit * k + MaxLimit]
  }

  lemma {:induction false} CollectedPrefix(api: PageApi, artistId: string, catalog: seq<Work>, n: nat)
    requires ServesCatalog(api, artistId, catalog)
    ensures Collected(api, artistId, n) == CatalogPrefix(catalog, n)
  {
    if n > 0 {
      CollectedPrefix(api, artistId, catalog, n - 1);
      assert Page(api, artistId, n - 1) == Ok(Window(catalog, n - 1));
      WindowsJoin(catalog, n - 1);
    }
  }

  /** The first `n` windows of the catalog. */
  function CatalogPrefix(catalog: seq<Work>, n: nat): seq<Work> {
    if MaxLimit * n >= |catalog| then catalog else catalog[..MaxLimit * n]
  }

  /** The first `n` windows followed by window `n` are the first `n + 1`. */
  lemma WindowsJoin(catalog: seq<Work>, n: nat)
    ensures CatalogPrefix(catalog, n) + Window(catalog, n) == CatalogPrefix(catalog, n + 1)
  {
    var lo := MaxLimit * n;
    assert MaxLimit * (n + 1) == lo + MaxLimit;
    if lo >= |catalog| {
    } else if lo + MaxLimit >= |catalog| {
      assert catalog[..lo] + catalog[lo..] == catalog;
    } else {
      assert catalog[..lo] + catalog[lo..lo + MaxLimit] == catalog[..lo + MaxLimit];
    }
  }

  /** Against a server that pages one catalog consistently, every run that
      meets GetAllWorks's contract returns exactly that catalog after
      |catalog| / 100 + 1 calls; when the size is a multiple of 100 the last
      call is the extra empty page. */
  lemma AllWorksOfCatalog(api: PageApi, artistId: string, catalog: seq<Work>, calls: nat)
    requires ServesCatalog(api, artistId, catalog)
    requires calls >= 1 && StopsAt(api, artistId, calls - 1)
    requires forall k :: 0 <= k < calls - 1 ==> Page(api, artistId, k).Ok? && |Page(api, artistId, k).value| >= MaxLimit
    ensures calls == |catalog| / MaxLimit + 1
    ensures Collected(api, artistId, calls) == catalog
  {
    var n := |catalog| / MaxLimit;
    assert StopsAt(api, artistId, n) by {
      assert Page(api, artistId, n) == Ok(Window(catalog, n));
      assert MaxLimit * n + MaxLimit > |catalog|;
    }
    CollectedPrefix(api, artistId, catalog, calls);
    assert MaxLimit * calls >= |catalog|;
  }
}

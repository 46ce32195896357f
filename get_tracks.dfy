/** The `get-tracks` command of src/commands/get-tracks.ts: check the
    options, resolve the composer, load the saved catalog, list the
    composer's works, choose one canonical recording per work, look it up,
    find a Spotify link by the fallback order, and append the new tracks to
    the catalog. HTTP exchanges, the Spotify search and the saved file are
    inputs; serialising the catalog back to JSON is not modelled. */
module GetTracks {
  import opened Common
  import opened Strings
  import Sorting
  import MB = MusicBrainz

  datatype ComposerTrack = ComposerTrack(
    id: string,
    title: string,
    artist: string,
    isrc: string,
    releaseDate: string,
    spotifyUrl: string,
    isFallback: bool)

  datatype ComposerData = ComposerData(
    name: string,
    sortName: Option<string>,
    otherNames: Option<seq<string>>,
    tracks: seq<ComposerTrack>)

  // ------------------------------------------------------------------
  // Option check and composer resolution
  // ------------------------------------------------------------------

  /** How the composer was named on the command line. */
  datatype Target = ByArid(arid: string) | ByArtist(artist: string)

  /** The `--arid` / `--artist` check. An option that is absent or empty is
      passed as `""`, which is how the source's truthiness test sees both. */
  function CheckOptions(arid: string, artist: string): (r: Result<Target>)
    ensures r.Ok? ==> Named(r.value)
    ensures r.Ok? <==> (arid == "") != (artist == "")
    ensures r.Ok? && arid != "" ==> r.value == ByArid(arid)
    ensures r.Ok? && artist != "" ==> r.value == ByArtist(artist)
  {
    if arid == "" && artist == "" then Err("specify the composer with --artist or --arid")
    else if arid != "" && artist != "" then Err("specify only one of --artist and --arid")
    else if arid != "" then Ok(ByArid(arid))
    else Ok(ByArtist(artist))
  }

  /** The MusicBrainz endpoints the command calls, as oracles from the
      request argument to the server's response. */
  datatype MusicBrainzApi = MusicBrainzApi(
    nameById: string -> MB.Response<Option<string>>,
    idByName: string -> MB.Response<Option<seq<string>>>,
    pages: MB.PageApi,
    recording: string -> MB.Response<Option<MB.Recording>>)

  /** The option value is non-empty, as CheckOptions guarantees. */
  predicate Named(target: Target) {
    match target
    case ByArid(id) => id != ""
    case ByArtist(name) => name != ""
  }

  /** The composer's id and name, resolved from whichever option was given;
      an empty lookup result is an error, and so is a failed request. */
  function ResolveComposer(target: Target, api: MusicBrainzApi): (r: Result<(string, string)>)
    requires Named(target)
    ensures r.Ok? ==> r.value.0 != "" && r.value.1 != ""
    ensures r.Ok? && target.ByArid? ==> r.value.0 == target.arid
    ensures r.Ok? && target.ByArtist? ==> r.value.1 == target.artist
    ensures target.ByArid? ==>
      (r.Ok? <==> (MB.GetArtistNameById(api.nameById(target.arid)).Ok?
                   && MB.GetArtistNameById(api.nameById(target.arid)).value != ""))
    ensures target.ByArtist? ==>
      (r.Ok? <==> (MB.GetArtistIdByName(api.idByName(target.artist)).Ok?
                   && MB.GetArtistIdByName(api.idByName(target.artist)).value != ""))
  {
    match target
    case ByArid(id) =>
      (match MB.GetArtistNameById(api.nameById(id))
       case Err(m) => Err(m)
       case Ok(name) => if name == "" then Err("invalid artist id") else Ok((id, name)))
    case ByArtist(name) =>
      (match MB.GetArtistIdByName(api.idByName(name))
       case Err(m) => Err(m)
       case Ok(id) => if id == "" then Err("artist not found") else Ok((id, name)))
  }

  /** What reading `data/<id>.json` gave. */
  datatype SavedFile = Unreadable | EmptyText | Json(data: ComposerData) | Malformed

  /** The catalog the run starts from: a missing, unreadable or empty file
      starts a fresh catalog under the resolved name; text that is not JSON
      makes JSON.parse throw. */
  function LoadSaved(file: SavedFile, artistName: string): (r: Result<ComposerData>)
    ensures r.Err? <==> file.Malformed?
    ensures file.Json? ==> r == Ok(file.data)
    ensures (file.Unreadable? || file.EmptyText?) ==> r == Ok(ComposerData(artistName, None, None, []))
  {
    match file
    case Json(d) => Ok(d)
    case Malformed => Err("saved catalog is not valid JSON")
    case _ => Ok(ComposerData(artistName, None, None, []))
  }

  // ------------------------------------------------------------------
  // Works and the canonical recording
  // ------------------------------------------------------------------

  predicate IsComposerRelation(rel: MB.WorkRelation, artistId: string) {
    rel.artist.Some? && rel.relType == "composer" && rel.artist.value.id == artistId
  }

  /** The work has a `composer` relation held by the queried artist. */
  predicate IsComposerWork(w: MB.Work, artistId: string) {
    exists i :: 0 <= i < |w.relations| && IsComposerRelation(w.relations[i], artistId)
  }

  /** The works the queried artist composed, in listing order. */
  function ComposerWorks(works: seq<MB.Work>, artistId: string): (r: seq<MB.Work>)
    ensures forall i :: 0 <= i < |r| ==> r[i] in works && IsComposerWork(r[i], artistId)
    ensures forall i :: 0 <= i < |works| && IsComposerWork(works[i], artistId) ==> works[i] in r
  {
    Filter(works, w => IsComposerWork(w, artistId))
  }

  /** A recording relation that may be chosen: its attributes and recording. */
  datatype Candidate = Candidate(attributes: seq<string>, recording: MB.RecordingRef)

  /** The relations that carry a recording which is not a video. */
  function Candidates(relations: seq<MB.WorkRelation>): (r: seq<Candidate>)
    ensures forall i :: 0 <= i < |r| ==> !r[i].recording.video
    ensures forall i :: 0 <= i < |r| ==> exists j :: 0 <= j < |relations| && relations[j].recording == Some(r[i].recording)
                                                  && relations[j].attributes == r[i].attributes
    ensures (forall j :: 0 <= j < |relations| ==> relations[j].recording.None? || relations[j].recording.value.video) <==> r == []
  {
    if relations == [] then []
    else
      var rel := relations[0];
      var rest := Candidates(relations[1..]);
      assert forall i :: 0 <= i < |rest| ==> exists j :: 0 <= j < |relations| && relations[j].recording == Some(rest[i].recording)
                                                      && relations[j].attributes == rest[i].attributes by {
        forall i | 0 <= i < |rest| ensures exists j :: 0 <= j < |relations| && relations[j].recording == Some(rest[i].recording)
                                                      && relations[j].attributes == rest[i].attributes {
          var j :| 0 <= j < |relations[1..]| && relations[1..][j].recording == Some(rest[i].recording)
                   && relations[1..][j].attributes == rest[i].attributes;
          assert relations[j + 1] == relations[1..][j];
        }
      }
      if rel.recording.Some? && !rel.recording.value.video
      then [Candidate(rel.attributes, rel.recording.value)] + rest
      else rest
  }

  /** Candidates are taken relation by relation, so they keep the relations'
      order: the candidates of `a + b` are those of `a`, then those of `b`. */
  lemma {:induction false} CandidatesAppend(a: seq<MB.WorkRelation>, b: seq<MB.WorkRelation>)
    ensures Candidates(a + b) == Candidates(a) + Candidates(b)
  {
    if a == [] {
      assert a + b == b;
    } else {
      assert (a + b)[0] == a[0] && (a + b)[1..] == a[1..] + b;
      CandidatesAppend(a[1..], b);
    }
  }

  /** One relation gives one candidate, with its attributes and recording,
      exactly when it carries a recording that is not a video. */
  lemma CandidatesOfOne(rel: MB.WorkRelation)
    ensures Candidates([rel]) == if rel.recording.Some? && !rel.recording.value.video
                                 then [Candidate(rel.attributes, rel.recording.value)] else []
  {
    assert [rel][1..] == [];
  }

  /** Every relation with a non-video recording gives a candidate, with
      its attributes and recording. */
  lemma CandidatesComplete(relations: seq<MB.WorkRelation>, j: nat)
    requires j < |relations| && relations[j].recording.Some? && !relations[j].recording.value.video
    ensures Candidate(relations[j].attributes, relations[j].recording.value) in Candidates(relations)
  {
    var pre := relations[..j];
    var post := relations[j + 1..];
    assert relations == pre + [relations[j]] + post;
    CandidatesAppend(pre + [relations[j]], post);
    CandidatesAppend(pre, [relations[j]]);
    CandidatesOfOne(relations[j]);
  }

  /** The comparator of the candidate sort: fewer attributes first, then the
      shorter title (in UTF-16 units, as JavaScript counts), then a known
      length before an unknown one. */
  function CompareCandidates(a: Candidate, b: Candidate): int {
    var attributeCompare := |a.attributes| - |b.attributes|;
    if attributeCompare != 0 then attributeCompare
    else
      var titleCompare := Utf16Length(a.recording.title) - Utf16Length(b.recording.title);
      if titleCompare != 0 then titleCompare
      else if a.recording.length.Some? && b.recording.length.None? then -1
      else if a.recording.length.None? && b.recording.length.Some? then 1
      else 0
  }

  /** 0 for a recording with a known length, 1 for `null`. */
  function LengthRank(c: Candidate): int {
    if c.recording.length.Some? then 0 else 1
  }

  /** The comparator is the lexicographic order on (attribute count, title
      length, length rank): "not after" is exactly that order's `<=`. */
  lemma CompareCandidatesLex(a: Candidate, b: Candidate)
    ensures CompareCandidates(a, b) <= 0 <==>
      (|a.attributes| < |b.attributes|) ||
      (|a.attributes| == |b.attributes| && Utf16Length(a.recording.title) < Utf16Length(b.recording.title)) ||
      (|a.attributes| == |b.attributes| && Utf16Length(a.recording.title) == Utf16Length(b.recording.title)
       && LengthRank(a) <= LengthRank(b))
  {
  }

  /** The comparator is one Array.prototype.sort can use: antisymmetric in
      sign and transitive. */
  lemma CompareCandidatesConsistent()
    ensures Sorting.Consistent(CompareCandidates)
  {
    forall a, b ensures CompareCandidates(a, b) <= 0 <==> CompareCandidates(b, a) >= 0 {
      CompareCandidatesLex(a, b);
      CompareCandidatesLex(b, a);
    }
    forall a, b, c | Sorting.NotAfter(CompareCandidates, a, b) && Sorting.NotAfter(CompareCandidates, b, c)
      ensures Sorting.NotAfter(CompareCandidates, a, c)
    {
      CompareCandidatesLex(a, b);
      CompareCandidatesLex(b, c);
      CompareCandidatesLex(a, c);
    }
  }

  /** `relations.filter(...).sort(...)[0]?.recording`. */
  function Canonical(w: MB.Work): Option<MB.RecordingRef> {
    var sorted := Sorting.SortBy(Candidates(w.relations), CompareCandidates);
    if |sorted| == 0 then None else Some(sorted[0].recording)
  }

  /** The chosen recording is that of a least candidate under the
      comparator, and of the first such candidate in relation order; a work
      without candidates has none. `i` is the chosen candidate's index. */
  lemma CanonicalIsFirstLeast(w: MB.Work) returns (i: nat)
    ensures Canonical(w).None? <==> Candidates(w.relations) == []
    ensures Canonical(w).Some? ==>
      var cs := Candidates(w.relations);
      && i < |cs| && Canonical(w).value == cs[i].recording
      && (forall j :: 0 <= j < |cs| ==> CompareCandidates(cs[i], cs[j]) <= 0)
      && (forall j :: 0 <= j < i ==> CompareCandidates(cs[j], cs[i]) > 0)
  {
    var cs := Candidates(w.relations);
    assert |Sorting.SortBy(cs, CompareCandidates)| == |cs| by {
      assert |multiset(Sorting.SortBy(cs, CompareCandidates))| == |multiset(cs)|;
    }
    if cs != [] {
      CompareCandidatesConsistent();
      i := Sorting.SortByHead(cs, CompareCandidates);
    } else {
      i := 0;
    }
  }

  /** A candidate with strictly fewer attributes than every other candidate
      is chosen, wherever it stands (a plain version beats a "live" one). */
  lemma FewestAttributesWins(w: MB.Work, k: nat)
    requires k < |Candidates(w.relations)|
    requires forall j :: 0 <= j < |Candidates(w.relations)| && j != k ==>
      |Candidates(w.relations)[k].attributes| < |Candidates(w.relations)[j].attributes|
    ensures Canonical(w) == Some(Candidates(w.relations)[k].recording)
  {
    var cs := Candidates(w.relations);
    var i := CanonicalIsFirstLeast(w);
    if i != k {
      assert CompareCandidates(cs[i], cs[k]) <= 0;
      CompareCandidatesLex(cs[i], cs[k]);
    }
  }

  // ------------------------------------------------------------------
  // Spotify link resolution
  // ------------------------------------------------------------------

  const SpotifyUrlPrefix: string := "https://open.spotify.com"

  /** The first result of a Spotify search; `""` stands for a missing field. */
  datatype SearchHit = SearchHit(url: string, isrc: string)

  /** searchTrack: the query string to its first hit, or none (the wrapper
      turns every failure into `null`). */
  type SearchApi = string -> Option<SearchHit>

  function HitUrl(hit: Option<SearchHit>): string {
    if hit.Some? then hit.value.url else ""
  }

  function IsrcQuery(isrc: string): string {
    "isrc:" + isrc
  }

  function TitleQuery(title: string, artist: string): string {
    "track:" + title + " artist:" + artist
  }

  /** The first relation URL that starts with https://open.spotify.com, or
      `""` when there is none. */
  function DirectSpotifyUrl(urls: seq<Option<string>>): (u: string)
    ensures u != "" ==> StartsWith(u, SpotifyUrlPrefix)
    ensures u != "" <==> exists i :: 0 <= i < |urls| && urls[i].Some? && StartsWith(urls[i].value, SpotifyUrlPrefix)
    ensures u != "" ==> exists i :: 0 <= i < |urls| && urls[i] == Some(u)
                          && forall j :: 0 <= j < i ==> urls[j].None? || !StartsWith(urls[j].value, SpotifyUrlPrefix)
  {
    if urls == [] then ""
    else if urls[0].Some? && StartsWith(urls[0].value, SpotifyUrlPrefix) then urls[0].value
    else
      var u := DirectSpotifyUrl(urls[1..]);
      assert u != "" ==> exists i :: 0 <= i < |urls| && urls[i] == Some(u)
                          && forall j :: 0 <= j < i ==> urls[j].None? || !StartsWith(urls[j].value, SpotifyUrlPrefix) by {
        if u != "" {
          var i :| 0 <= i < |urls[1..]| && urls[1..][i] == Some(u)
                   && forall j :: 0 <= j < i ==> urls[1..][j].None? || !StartsWith(urls[1..][j].value, SpotifyUrlPrefix);
          assert urls[i + 1] == Some(u);
          forall j | 0 <= j < i + 1 ensures urls[j].None? || !StartsWith(urls[j].value, SpotifyUrlPrefix) {
            if j > 0 {
              assert urls[j] == urls[1..][j - 1];
            }
          }
        }
      }
      assert (exists i :: 0 <= i < |urls| && urls[i].Some? && StartsWith(urls[i].value, SpotifyUrlPrefix))
         ==> exists i :: 0 <= i < |urls[1..]| && urls[1..][i].Some? && StartsWith(urls[1..][i].value, SpotifyUrlPrefix) by {
        if exists i :: 0 <= i < |urls| && urls[i].Some? && StartsWith(urls[i].value, SpotifyUrlPrefix) {
          var i :| 0 <= i < |urls| && urls[i].Some? && StartsWith(urls[i].value, SpotifyUrlPrefix);
          assert urls[1..][i - 1] == urls[i];
        }
      }
      u
  }

  /** What the resolution settles for one recording, and the search queries
      it sent, in order. */
  datatype Enrichment = Enrichment(isrc: string, spotifyUrl: string, isFallback: bool, queries: seq<string>)

  /** The fallback order for a Spotify link: the direct relation link; else
      a search by the first ISRC, if one is known; else, when there is still
      no link and both title and artist are non-empty, a search by title and
      artist, whose ISRC fills in a missing one. */
  function Enrich(title: string, artist: string, knownIsrc: string, direct: string, search: SearchApi): (e: Enrichment)
    ensures direct != "" ==> e == Enrichment(knownIsrc, direct, false, [])
    ensures e.isFallback <==> direct == "" && e.spotifyUrl != ""
    ensures direct == "" && knownIsrc != "" ==> |e.queries| >= 1 && e.queries[0] == IsrcQuery(knownIsrc)
    ensures direct == "" && knownIsrc != "" && HitUrl(search(IsrcQuery(knownIsrc))) != "" ==>
      e.queries == [IsrcQuery(knownIsrc)] && e.spotifyUrl == HitUrl(search(IsrcQuery(knownIsrc)))
    ensures TitleQuery(title, artist) in e.queries <==>
      && direct == "" && title != "" && artist != ""
      && (knownIsrc == "" || HitUrl(search(IsrcQuery(knownIsrc))) == "")
    ensures |e.queries| <= 2
    ensures direct == "" ==>
      e.queries == (if knownIsrc != "" then [IsrcQuery(knownIsrc)] else [])
                 + (if title != "" && artist != "" && (knownIsrc == "" || HitUrl(search(IsrcQuery(knownIsrc))) == "")
                    then [TitleQuery(title, artist)] else [])
    ensures TitleQuery(title, artist) in e.queries ==> e.spotifyUrl == HitUrl(search(TitleQuery(title, artist)))
    ensures IsrcQuery(knownIsrc) in e.queries <==> direct == "" && knownIsrc != ""
    ensures forall i :: 0 <= i < |e.queries| ==> e.queries[i] == IsrcQuery(knownIsrc) || e.queries[i] == TitleQuery(title, artist)
    ensures e.spotifyUrl != "" ==>
      e.spotifyUrl == direct || (e.queries != [] && e.spotifyUrl == HitUrl(search(e.queries[|e.queries| - 1])))
    ensures direct == "" && e.queries == [] ==> e.spotifyUrl == ""
    ensures direct == "" && knownIsrc == "" && TitleQuery(title, artist) in e.queries
            && search(TitleQuery(title, artist)).Some? && search(TitleQuery(title, artist)).value.isrc != "" ==>
      e.isrc == search(TitleQuery(title, artist)).value.isrc
    ensures e.isrc != knownIsrc ==>
      (knownIsrc == "" && TitleQuery(title, artist) in e.queries
       && search(TitleQuery(title, artist)).Some?
       && e.isrc == search(TitleQuery(title, artist)).value.isrc)
  {
    if direct != "" then Enrichment(knownIsrc, direct, false, [])
    else
      var isrcQueries := if knownIsrc != "" then [IsrcQuery(knownIsrc)] else [];
      var isrcUrl := if knownIsrc != "" then HitUrl(search(IsrcQuery(knownIsrc))) else "";
      assert TitleQuery(title, artist) !in isrcQueries by {
        if knownIsrc != "" {
          assert TitleQuery(title, artist)[0] == 't' && IsrcQuery(knownIsrc)[0] == 'i';
        }
      }
      if isrcUrl == "" && title != "" && artist != "" then
        var q := TitleQuery(title, artist);
        var hit := search(q);
        var url := HitUrl(hit);
        var isrc := if knownIsrc == "" && hit.Some? && hit.value.isrc != "" then hit.value.isrc else knownIsrc;
        Enrichment(isrc, url, url != "", isrcQueries + [q])
      else
        Enrichment(knownIsrc, isrcUrl, isrcUrl != "", isrcQueries)
  }

  // ------------------------------------------------------------------
  // The catalog merge
  // ------------------------------------------------------------------

  /** The upstream services the per-work step consults. */
  datatype Upstream = Upstream(recording: string -> MB.Response<Option<MB.Recording>>, search: SearchApi)

  function IdsOf(tracks: seq<ComposerTrack>): set<string> {
    set i | 0 <= i < |tracks| :: tracks[i].id
  }

  predicate UniqueIds(tracks: seq<ComposerTrack>) {
    forall i, j :: 0 <= i < j < |tracks| ==> tracks[i].id != tracks[j].id
  }

  function FirstOr(s: seq<string>, default: string): string {
    if |s| > 0 then s[0] else default
  }

  /** The stored track for a looked-up recording; missing fields become `""`. */
  function TrackOf(id: string, detail: MB.Recording, search: SearchApi): (t: ComposerTrack)
    ensures t.id == id
    ensures detail.title.Some? ==> t.title == detail.title.value
    ensures detail.title.None? ==> t.title == ""
    ensures detail.artistCredit != [] ==> t.artist == detail.artistCredit[0]
    ensures detail.artistCredit == [] ==> t.artist == ""
    ensures detail.firstReleaseDate.Some? ==> t.releaseDate == detail.firstReleaseDate.value
    ensures detail.firstReleaseDate.None? ==> t.releaseDate == ""
    ensures var e := Enrich(t.title, t.artist, FirstOr(detail.isrcs, ""), DirectSpotifyUrl(detail.urlRelations), search);
      t.isrc == e.isrc && t.spotifyUrl == e.spotifyUrl && t.isFallback == e.isFallback
  {
    var title := detail.title.GetOr("");
    var artist := FirstOr(detail.artistCredit, "");
    var e := Enrich(title, artist, FirstOr(detail.isrcs, ""), DirectSpotifyUrl(detail.urlRelations), search);
    ComposerTrack(id, title, artist, e.isrc, detail.firstReleaseDate.GetOr(""), e.spotifyUrl, e.isFallback)
  }

  /** What one work adds to a catalog whose ids are `saved`: nothing when it
      has no candidate, when its chosen recording is saved, or when the
      lookup throws or returns nothing. */
  function NewTrack(w: MB.Work, saved: set<string>, up: Upstream): (r: Option<ComposerTrack>)
    ensures r.Some? <==> Canonical(w).Some? && Canonical(w).value.id !in saved
                         && MB.GetRecording(up.recording(Canonical(w).value.id)) .Ok?
                         && MB.GetRecording(up.recording(Canonical(w).value.id)).value.Some?
    ensures r.Some? ==> r.value.id == Canonical(w).value.id
    ensures r.Some? ==> var id := Canonical(w).value.id;
      r.value == TrackOf(id, MB.GetRecording(up.recording(id)).value.value, up.search)
  {
    match Canonical(w)
    case None => None
    case Some(rec) =>
      if rec.id in saved then None
      else match MB.GetRecording(up.recording(rec.id))
        case Err(_) => None
        case Ok(None) => None
        case Ok(Some(detail)) => Some(TrackOf(rec.id, detail, up.search))
  }

  function Step(w: MB.Work, tracks: seq<ComposerTrack>, up: Upstream): seq<ComposerTrack> {
    match NewTrack(w, IdsOf(tracks), up)
    case Some(t) => tracks + [t]
    case None => tracks
  }

  /** The tracks after processing the works in order, starting from `tracks`. */
  function MergeWorks(works: seq<MB.Work>, tracks: seq<ComposerTrack>, up: Upstream): seq<ComposerTrack>
    decreases |works|
  {
    if works == [] then tracks else MergeWorks(works[1..], Step(works[0], tracks, up), up)
  }

  /** The per-work loop of the command: `savedTracks` grows, `savedTrackIds`
      follows it, and the locals `isrc`, `spotifyUrl` and `isFallback` are
      reassigned as the fallback proceeds. */
  method AppendTracks(works: seq<MB.Work>, savedTracks: seq<ComposerTrack>, up: Upstream)
    returns (tracks: seq<ComposerTrack>)
    ensures tracks == MergeWorks(works, savedTracks, up)
  {
    tracks := savedTracks;
    var savedTrackIds := set i | 0 <= i < |savedTracks| :: savedTracks[i].id;
    for n := 0 to |works|
      invariant savedTrackIds == IdsOf(tracks)
      invariant MergeWorks(works[n..], tracks, up) == MergeWorks(works, savedTracks, up)
    {
      var work := works[n];
      MergeUnfold(works, n, tracks, up);
      var recording := Canonical(work);
      if recording.None? {
        continue;
      }
      var recordingId := recording.value.id;
      if recordingId in savedTrackIds {
        continue;
      }
      var recordDetail := MB.GetRecording(up.recording(recordingId));
      if recordDetail.Err? || recordDetail.value.None? {
        continue;
      }
      var track := TrackOf(recordingId, recordDetail.value.value, up.search);
      IdsOfAppend(tracks, track);
      tracks := tracks + [track];
      savedTrackIds := savedTrackIds + {recordingId};
    }
  }

  lemma MergeUnfold(works: seq<MB.Work>, n: nat, tracks: seq<ComposerTrack>, up: Upstream)
    requires n < |works|
    ensures MergeWorks(works[n..], tracks, up) == MergeWorks(works[n + 1..], Step(works[n], tracks, up), up)
  {
    assert works[n..][1..] == works[n + 1..];
  }

  lemma IdsOfAppend(tracks: seq<ComposerTrack>, t: ComposerTrack)
    ensures IdsOf(tracks + [t]) == IdsOf(tracks) + {t.id}
  {
    var s := tracks + [t];
    assert s[|tracks|] == t;
    forall id | id in IdsOf(tracks) ensures id in IdsOf(s) {
      var i :| 0 <= i < |tracks| && tracks[i].id == id;
      assert s[i] == tracks[i];
    }
  }

  lemma StepExtends(w: MB.Work, tracks: seq<ComposerTrack>, up: Upstream)
    ensures |Step(w, tracks, up)| >= |tracks| && Step(w, tracks, up)[..|tracks|] == tracks
    ensures IdsOf(Step(w, tracks, up)) >= IdsOf(tracks)
  {
    var s := Step(w, tracks, up);
    if |s| > |tracks| {
      assert s[..|tracks|] == tracks;
      forall id | id in IdsOf(tracks) ensures id in IdsOf(s) {
        var i :| 0 <= i < |tracks| && tracks[i].id == id;
        assert s[i] == tracks[i];
      }
    }
  }

  /** Existing tracks are kept, in order, at the front of the result. */
  lemma {:induction false} MergeKeepsSaved(works: seq<MB.Work>, tracks: seq<ComposerTrack>, up: Upstream)
    ensures |MergeWorks(works, tracks, up)| >= |tracks|
    ensures MergeWorks(works, tracks, up)[..|tracks|] == tracks
    ensures |MergeWorks(works, tracks, up)| <= |tracks| + |works|
  {
    if works != [] {
      var s := Step(works[0], tracks, up);
      StepExtends(works[0], tracks, up);
      MergeKeepsSaved(works[1..], s, up);
      var r := MergeWorks(works[1..], s, up);
      assert r[..|tracks|] == r[..|s|][..|tracks|];
    }
  }

  /** A step appends only a track whose id is not yet present, so unique
      ids stay unique. */
  lemma StepKeepsUnique(w: MB.Work, tracks: seq<ComposerTrack>, up: Upstream)
    requires UniqueIds(tracks)
    ensures UniqueIds(Step(w, tracks, up))
  {
    var s := Step(w, tracks, up);
    if |s| > |tracks| {
      var t := s[|tracks|];
      assert t.id !in IdsOf(tracks);
      forall i | 0 <= i < |tracks| ensures tracks[i].id != t.id {
        assert tracks[i].id in IdsOf(tracks);
      }
    }
  }

  /** Track ids that were unique before the merge are unique after it. */
  lemma {:induction false} MergeKeepsUnique(works: seq<MB.Work>, tracks: seq<ComposerTrack>, up: Upstream)
    requires UniqueIds(tracks)
    ensures UniqueIds(MergeWorks(works, tracks, up))
  {
    if works != [] {
      StepKeepsUnique(works[0], tracks, up);
      MergeKeepsUnique(works[1..], Step(works[0], tracks, up), up);
    }
  }

  /** The work adds nothing to a catalog holding the ids `saved`. */
  predicate Settled(w: MB.Work, saved: set<string>, up: Upstream) {
    NewTrack(w, saved, up).None?
  }

  /** Every work of `works` is settled. */
  predicate AllSettled(works: seq<MB.Work>, saved: set<string>, up: Upstream)
    decreases |works|
  {
    works == [] || (Settled(works[0], saved, up) && AllSettled(works[1..], saved, up))
  }

  /** When no work would add anything, the merge returns its input. */
  lemma {:induction false} MergeOfSettled(works: seq<MB.Work>, tracks: seq<ComposerTrack>, up: Upstream)
    requires AllSettled(works, IdsOf(tracks), up)
    ensures MergeWorks(works, tracks, up) == tracks
  {
    if works != [] {
      MergeOfSettled(works[1..], tracks, up);
    }
  }

  /** If every chosen recording is already saved, the tracks are unchanged. */
  lemma AllSavedChangesNothing(works: seq<MB.Work>, tracks: seq<ComposerTrack>, up: Upstream)
    requires forall i :: 0 <= i < |works| ==>
      Canonical(works[i]).None? || Canonical(works[i]).value.id in IdsOf(tracks)
    ensures MergeWorks(works, tracks, up) == tracks
  {
    SavedAreSettled(works, IdsOf(tracks), up);
    MergeOfSettled(works, tracks, up);
  }

  lemma {:induction false} SavedAreSettled(works: seq<MB.Work>, saved: set<string>, up: Upstream)
    requires forall i :: 0 <= i < |works| ==> Canonical(works[i]).None? || Canonical(works[i]).value.id in saved
    ensures AllSettled(works, saved, up)
  {
    if works != [] {
      assert Settled(works[0], saved, up);
      forall i | 0 <= i < |works[1..]|
        ensures Canonical(works[1..][i]).None? || Canonical(works[1..][i]).value.id in saved
      {
        assert works[1..][i] == works[i + 1];
      }
      SavedAreSettled(works[1..], saved, up);
    }
  }

  /** Settled stays settled when more ids are saved. */
  lemma SettledMonotone(w: MB.Work, saved: set<string>, more: set<string>, up: Upstream)
    requires Settled(w, saved, up) && saved <= more
    ensures Settled(w, more, up)
  {
  }

  /** The ids of a prefix are ids of the whole. */
  lemma IdsOfPrefix(s: seq<ComposerTrack>, r: seq<ComposerTrack>)
    requires |s| <= |r| && r[..|s|] == s
    ensures IdsOf(s) <= IdsOf(r)
  {
    forall id | id in IdsOf(s) ensures id in IdsOf(r) {
      var k :| 0 <= k < |s| && s[k].id == id;
      assert r[..|s|][k] == s[k];
    }
  }

  /** A work is settled once its own step has run. */
  lemma StepSettles(w: MB.Work, tracks: seq<ComposerTrack>, up: Upstream)
    ensures Settled(w, IdsOf(Step(w, tracks, up)), up)
  {
    match NewTrack(w, IdsOf(tracks), up)
    case None =>
    case Some(t) =>
      var s := tracks + [t];
      assert s[|tracks|].id == t.id;
      SettledMonotone(w, {t.id}, IdsOf(s), up);
  }

  /** After a merge every processed work is settled. */
  lemma {:induction false} MergeSettles(works: seq<MB.Work>, tracks: seq<ComposerTrack>, up: Upstream)
    ensures AllSettled(works, IdsOf(MergeWorks(works, tracks, up)), up)
  {
    if works != [] {
      var s := Step(works[0], tracks, up);
      var r := MergeWorks(works[1..], s, up);
      assert MergeWorks(works, tracks, up) == r;
      var ids := IdsOf(r);
      MergeSettles(works[1..], s, up);
      MergeKeepsSaved(works[1..], s, up);
      IdsOfPrefix(s, r);
      StepSettles(works[0], tracks, up);
      SettledMonotone(works[0], IdsOf(s), ids, up);
    }
  }

  /** Idempotence: running the merge again with the same upstream answers
      changes nothing. */
  lemma MergeIdempotent(works: seq<MB.Work>, tracks: seq<ComposerTrack>, up: Upstream)
    ensures MergeWorks(works, MergeWorks(works, tracks, up), up) == MergeWorks(works, tracks, up)
  {
    MergeSettles(works, tracks, up);
    MergeOfSettled(works, MergeWorks(works, tracks, up), up);
  }

  // ------------------------------------------------------------------
  // The command
  // ------------------------------------------------------------------

  /** The catalog written back: every field of the loaded one, with the
      merged tracks. */
  function Output(loaded: ComposerData, tracks: seq<ComposerTrack>): ComposerData {
    loaded.(tracks := tracks)
  }

  /** Every artist id's work listing ends with a short page or an error;
      without it getAllWorks would not return. */
  ghost predicate ListingsEnd(pages: MB.PageApi) {
    forall id :: ListingEnds(pages, id)
  }

  ghost predicate ListingEnds(pages: MB.PageApi, id: string) {
    exists k: nat :: MB.StopsAt(pages, id, k)
  }

  /** Everything the action does before listing works: the option check,
      the token check, the composer lookup and loading the saved catalog.
      The value is the composer's id and the catalog to extend. */
  function Prepare(arid: string, artist: string, token: Option<string>,
                   api: MusicBrainzApi, saved: string -> SavedFile): (r: Result<(string, ComposerData)>)
    ensures CheckOptions(arid, artist).Err? ==> r.Err?
    ensures (token.None? || token == Some("")) ==> r.Err?
    ensures r.Ok? <==>
      && CheckOptions(arid, artist).Ok?
      && token.Some? && token.value != ""
      && ResolveComposer(CheckOptions(arid, artist).value, api).Ok?
      && var who := ResolveComposer(CheckOptions(arid, artist).value, api).value;
         LoadSaved(saved(who.0), who.1).Ok?
    ensures r.Ok? ==>
      var who := ResolveComposer(CheckOptions(arid, artist).value, api).value;
      r.value == (who.0, LoadSaved(saved(who.0), who.1).value)
  {
    match CheckOptions(arid, artist)
    case Err(m) => Err(m)
    case Ok(target) =>
      if token.None? || token.value == "" then Err("could not get a Spotify access token")
      else match ResolveComposer(target, api)
        case Err(m) => Err(m)
        case Ok(who) =>
          match LoadSaved(saved(who.0), who.1)
          case Err(m) => Err(m)
          case Ok(data) => Ok((who.0, data))
  }

  /** The `get-tracks` action. `token` is what getAccessToken returned
      (`None` for `null`); `saved` reads `data/<id>.json`. The result is the
      catalog to write, or the error the action throws; `calls` is the number
      of work-listing requests sent. */
  method GetTracksAction(arid: string, artist: string, token: Option<string>,
                         api: MusicBrainzApi, search: SearchApi, saved: string -> SavedFile)
    returns (r: Result<ComposerData>, calls: nat)
    requires ListingsEnd(api.pages)
    ensures Prepare(arid, artist, token, api, saved).Err? ==> r.Err? && calls == 0
    ensures Prepare(arid, artist, token, api, saved).Ok? ==>
      var (artistId, loaded) := Prepare(arid, artist, token, api, saved).value;
      && calls >= 1 && MB.StopsAt(api.pages, artistId, calls - 1)
      && (forall k :: 0 <= k < calls - 1 ==> MB.Page(api.pages, artistId, k).Ok?)
      && (r.Err? <==> MB.Page(api.pages, artistId, calls - 1).Err?)
      && (r.Ok? ==> r.value == Output(loaded,
            MergeWorks(ComposerWorks(MB.Collected(api.pages, artistId, calls), artistId),
                       loaded.tracks, Upstream(api.recording, search))))
  {
    calls := 0;
    var prepared := Prepare(arid, artist, token, api, saved);
    if prepared.Err? {
      return Err(prepared.message), 0;
    }
    var (artistId, loaded) := prepared.value;
    assert ListingEnds(api.pages, artistId);
    var listing, n, _ := MB.GetAllWorks(artistId, api.pages);
    calls := n;
    if listing.Err? {
      return Err(listing.message), calls;
    }
    var works := ComposerWorks(listing.value, artistId);
    var tracks := AppendTracks(works, loaded.tracks, Upstream(api.recording, search));
    r := Ok(Output(loaded, tracks));
  }
}

/** The `sync-tracks-to-playlist` command of
    src/commands/sync-tracks-to-playlist.ts: collect the Spotify track URIs
    of every saved catalog, route each to the main playlist (performed by
    someone else) or the sub playlist (performed by the composer under one
    of their names), and add to each playlist only what it lacks. The
    remote playlists are a class whose state the add changes. */
module SyncPlaylist {
  import opened Common
  import opened Strings
  import GT = GetTracks

  const TrackUrlPrefix: string := "https://open.spotify.com/track/"
  const TrackUriPrefix: string := "spotify:track:"

  /** What reading and parsing one file of `data/` gave. A `tracks` member
      that is not an array is `TracksNotArray`. */
  datatype Content = Unreadable | Malformed | TracksNotArray | Parsed(data: GT.ComposerData)

  datatype DataFile = DataFile(name: string, content: Content)

  /** A URL the collector accepts: a non-empty string that starts with the
      track URL prefix (a non-string `spotifyUrl` is passed as `""`). */
  predicate IsTrackUrl(url: string) {
    url != "" && StartsWith(url, TrackUrlPrefix)
  }

  /** `uri.replace(prefix, 'spotify:track:')`: for an accepted URL, the URI
      prefix followed by the rest of the URL. */
  function TrackUri(url: string): (uri: string)
    requires IsTrackUrl(url)
    ensures uri == TrackUriPrefix + url[|TrackUrlPrefix|..]
  {
    ReplaceFirstAtStart(url, TrackUrlPrefix, TrackUriPrefix);
    ReplaceFirst(url, TrackUrlPrefix, TrackUriPrefix)
  }

  /** Distinct track URLs give distinct URIs, so no track is merged with
      another by the conversion. */
  lemma TrackUriInjective(u: string, v: string)
    requires IsTrackUrl(u) && IsTrackUrl(v) && TrackUri(u) == TrackUri(v)
    ensures u == v
  {
    var n := |TrackUrlPrefix|;
    assert u[n..] == TrackUri(u)[|TrackUriPrefix|..];
    assert v[n..] == TrackUri(v)[|TrackUriPrefix|..];
    assert u == u[..n] + u[n..] && v == v[..n] + v[n..];
  }

  /** The composer's names: `name`, then `sortName` when truthy, then every
      entry of `otherNames`. */
  function ComposerNames(d: GT.ComposerData): (names: seq<string>)
    ensures d.name in names
    ensures d.sortName.Some? && d.sortName.value != "" ==> d.sortName.value in names
    ensures d.otherNames.Some? ==> forall i :: 0 <= i < |d.otherNames.value| ==> d.otherNames.value[i] in names
    ensures forall i :: 0 <= i < |names| ==>
      names[i] == d.name || d.sortName == Some(names[i]) || (d.otherNames.Some? && names[i] in d.otherNames.value)
  {
    [d.name]
    + (if d.sortName.Some? && d.sortName.value != "" then [d.sortName.value] else [])
    + (if d.otherNames.Some? then d.otherNames.value else [])
  }

  /** The routing test: the track's artist is non-empty and one of the
      composer's names. */
  predicate IsSelfPerformed(t: GT.ComposerTrack, names: seq<string>) {
    t.artist != "" && t.artist in names
  }

  /** The two candidate sets, main and sub. */
  datatype Candidates = Candidates(main: set<string>, sub: set<string>)

  function Union(a: Candidates, b: Candidates): Candidates {
    Candidates(a.main + b.main, a.sub + b.sub)
  }

  lemma UnionAssoc(a: Candidates, b: Candidates, c: Candidates)
    ensures Union(Union(a, b), c) == Union(a, Union(b, c))
  {
  }

  /** The contribution of one track. */
  function TrackCandidates(t: GT.ComposerTrack, names: seq<string>): Candidates {
    if !IsTrackUrl(t.spotifyUrl) then Candidates({}, {})
    else if IsSelfPerformed(t, names) then Candidates({}, {TrackUri(t.spotifyUrl)})
    else Candidates({TrackUri(t.spotifyUrl)}, {})
  }

  /** The contribution of a list of tracks, taken in order. */
  function TracksCandidates(tracks: seq<GT.ComposerTrack>, names: seq<string>): Candidates {
    if tracks == [] then Candidates({}, {})
    else Union(TracksCandidates(tracks[..|tracks| - 1], names), TrackCandidates(tracks[|tracks| - 1], names))
  }

  /** The file counts: its name ends in `.json` and it parsed with an
      array of tracks. */
  predicate Contributes(f: DataFile) {
    EndsWith(f.name, ".json") && f.content.Parsed?
  }

  function FileCandidates(f: DataFile): Candidates {
    if Contributes(f) then TracksCandidates(f.content.data.tracks, ComposerNames(f.content.data))
    else Candidates({}, {})
  }

  /** The contribution of the files, taken in order. */
  function FilesCandidates(files: seq<DataFile>): Candidates {
    if files == [] then Candidates({}, {})
    else Union(FilesCandidates(files[..|files| - 1]), FileCandidates(files[|files| - 1]))
  }

  /** Track `j` of `tracks` converts to `uri` and is routed to the sub set
      (`sub`) or the main set (`!sub`). */
  predicate TrackYields(tracks: seq<GT.ComposerTrack>, names: seq<string>, j: int, uri: string, sub: bool) {
    && 0 <= j < |tracks|
    && IsTrackUrl(tracks[j].spotifyUrl) && TrackUri(tracks[j].spotifyUrl) == uri
    && (IsSelfPerformed(tracks[j], names) <==> sub)
  }

  /** Track `j` of file `i` yields `uri` for the given set. */
  predicate Yields(files: seq<DataFile>, i: int, j: int, uri: string, sub: bool) {
    && 0 <= i < |files| && Contributes(files[i])
    && TrackYields(files[i].content.data.tracks, ComposerNames(files[i].content.data), j, uri, sub)
  }

  function Pick(c: Candidates, sub: bool): set<string> {
    if sub then c.sub else c.main
  }

  /** A track of a prefix yields what the same track of the whole list yields. */
  lemma TrackYieldsPrefix(tracks: seq<GT.ComposerTrack>, names: seq<string>, n: int, j: int, uri: string, sub: bool)
    requires 0 <= n <= |tracks| && j < n
    ensures TrackYields(tracks[..n], names, j, uri, sub) <==> TrackYields(tracks, names, j, uri, sub)
  {
    if 0 <= j {
      assert tracks[..n][j] == tracks[j];
    }
  }

  lemma TracksCandidatesMembers(tracks: seq<GT.ComposerTrack>, names: seq<string>, uri: string, sub: bool)
    ensures uri in Pick(TracksCandidates(tracks, names), sub) <==> exists j :: TrackYields(tracks, names, j, uri, sub)
  {
    if uri in Pick(TracksCandidates(tracks, names), sub) {
      var j := TrackSource(tracks, names, uri, sub);
    }
    if exists j :: TrackYields(tracks, names, j, uri, sub) {
      var j :| TrackYields(tracks, names, j, uri, sub);
      CandidateOfTrackAt(tracks, names, j, uri, sub);
    }
  }

  /** What the last track adds to a set. */
  lemma LastTrackStep(tracks: seq<GT.ComposerTrack>, names: seq<string>, uri: string, sub: bool)
    requires tracks != []
    ensures Pick(TracksCandidates(tracks, names), sub)
         == Pick(TracksCandidates(tracks[..|tracks| - 1], names), sub) + Pick(TrackCandidates(tracks[|tracks| - 1], names), sub)
    ensures uri in Pick(TrackCandidates(tracks[|tracks| - 1], names), sub) <==> TrackYields(tracks, names, |tracks| - 1, uri, sub)
  {
  }

  /** Every URI of a set comes from a track: `j` locates it. */
  lemma {:induction false} TrackSource(tracks: seq<GT.ComposerTrack>, names: seq<string>, uri: string, sub: bool) returns (j: int)
    requires uri in Pick(TracksCandidates(tracks, names), sub)
    ensures TrackYields(tracks, names, j, uri, sub)
  {
    var n := |tracks| - 1;
    LastTrackStep(tracks, names, uri, sub);
    if uri in Pick(TracksCandidates(tracks[..n], names), sub) {
      j := TrackSource(tracks[..n], names, uri, sub);
      TrackYieldsPrefix(tracks, names, n, j, uri, sub);
    } else {
      j := n;
    }
  }

  /** Every track that converts puts its URI in its set. */
  lemma {:induction false} CandidateOfTrackAt(tracks: seq<GT.ComposerTrack>, names: seq<string>, j: int, uri: string, sub: bool)
    requires TrackYields(tracks, names, j, uri, sub)
    ensures uri in Pick(TracksCandidates(tracks, names), sub)
  {
    var n := |tracks| - 1;
    LastTrackStep(tracks, names, uri, sub);
    if j < n {
      TrackYieldsPrefix(tracks, names, n, j, uri, sub);
      CandidateOfTrackAt(tracks[..n], names, j, uri, sub);
    }
  }

  /** A file of a prefix yields what the same file of the whole list yields. */
  lemma YieldsPrefix(files: seq<DataFile>, n: int, i: int, j: int, uri: string, sub: bool)
    requires 0 <= n <= |files| && i < n
    ensures Yields(files[..n], i, j, uri, sub) <==> Yields(files, i, j, uri, sub)
  {
    if 0 <= i {
      assert files[..n][i] == files[i];
    }
  }

  /** What the last file adds to a set: the URIs its tracks yield. */
  lemma LastFileMembers(files: seq<DataFile>, n: int, uri: string, sub: bool)
    requires n == |files| - 1 >= 0
    ensures uri in Pick(FileCandidates(files[n]), sub) <==> exists j :: Yields(files, n, j, uri, sub)
  {
    var last := files[n];
    if Contributes(last) {
      TracksCandidatesMembers(last.content.data.tracks, ComposerNames(last.content.data), uri, sub);
      if exists j :: TrackYields(last.content.data.tracks, ComposerNames(last.content.data), j, uri, sub) {
        var j :| TrackYields(last.content.data.tracks, ComposerNames(last.content.data), j, uri, sub);
        assert Yields(files, n, j, uri, sub);
      }
    }
  }

  /** A URI is a candidate for the sub (main) playlist exactly when some
      track of a contributing file converts to it and is (is not) performed
      by the composer under one of their names. */
  lemma CandidatesMembers(files: seq<DataFile>, uri: string, sub: bool)
    ensures uri in Pick(FilesCandidates(files), sub) <==> exists i, j :: Yields(files, i, j, uri, sub)
  {
    if uri in Pick(FilesCandidates(files), sub) {
      var i, j := CandidateSource(files, uri, sub);
    }
    if exists i, j :: Yields(files, i, j, uri, sub) {
      var i, j :| Yields(files, i, j, uri, sub);
      CandidateOfTrack(files, i, j, uri, sub);
    }
  }

  /** Every candidate comes from a track: `i` and `j` locate it. */
  lemma {:induction false} CandidateSource(files: seq<DataFile>, uri: string, sub: bool) returns (i: int, j: int)
    requires uri in Pick(FilesCandidates(files), sub)
    ensures Yields(files, i, j, uri, sub)
  {
    var n := |files| - 1;
    var init := files[..n];
    assert Pick(FilesCandidates(files), sub) == Pick(FilesCandidates(init), sub) + Pick(FileCandidates(files[n]), sub);
    if uri in Pick(FilesCandidates(init), sub) {
      i, j := CandidateSource(init, uri, sub);
      YieldsPrefix(files, n, i, j, uri, sub);
    } else {
      LastFileMembers(files, n, uri, sub);
      i := n;
      j :| Yields(files, n, j, uri, sub);
    }
  }

  /** Every track that converts gives a candidate of its set. */
  lemma {:induction false} CandidateOfTrack(files: seq<DataFile>, i: int, j: int, uri: string, sub: bool)
    requires Yields(files, i, j, uri, sub)
    ensures uri in Pick(FilesCandidates(files), sub)
  {
    var n := |files| - 1;
    var init := files[..n];
    assert Pick(FilesCandidates(files), sub) == Pick(FilesCandidates(init), sub) + Pick(FileCandidates(files[n]), sub);
    if i < n {
      YieldsPrefix(files, n, i, j, uri, sub);
      CandidateOfTrack(init, i, j, uri, sub);
    } else {
      LastFileMembers(files, n, uri, sub);
    }
  }

  /** Distinct track URLs give distinct URIs. */
  lemma TrackUriDistinct(u: string, v: string)
    requires IsTrackUrl(u) && IsTrackUrl(v) && u != v
    ensures TrackUri(u) != TrackUri(v)
  {
    var n := |TrackUrlPrefix|;
    assert u == u[..n] + u[n..] && v == v[..n] + v[n..];
    assert u[n..] != v[n..];
    assert TrackUri(u)[|TrackUriPrefix|..] == u[n..];
    assert TrackUri(v)[|TrackUriPrefix|..] == v[n..];
  }

  /** Each track lands in one set only: when no two tracks of a list share
      a link, its main and sub sets are disjoint. */
  lemma OneSetPerTrack(tracks: seq<GT.ComposerTrack>, names: seq<string>)
    requires forall a, b :: 0 <= a < b < |tracks| ==> tracks[a].spotifyUrl != tracks[b].spotifyUrl
    ensures TracksCandidates(tracks, names).main * TracksCandidates(tracks, names).sub == {}
  {
    var c := TracksCandidates(tracks, names);
    forall uri | uri in c.main ensures uri !in c.sub {
      TracksCandidatesMembers(tracks, names, uri, false);
      TracksCandidatesMembers(tracks, names, uri, true);
      var j1 :| TrackYields(tracks, names, j1, uri, false);
      forall j2 | 0 <= j2 < |tracks| && IsTrackUrl(tracks[j2].spotifyUrl) && j2 != j1
        ensures TrackUri(tracks[j2].spotifyUrl) != uri
      {
        TrackUriDistinct(tracks[j2].spotifyUrl, tracks[j1].spotifyUrl);
      }
    }
  }

  /** The two sets are not disjoint in general: one URI performed by the
      composer in one entry and by someone else in another lands in both. */
  lemma SetsMayOverlap()
    ensures exists files: seq<DataFile> :: FilesCandidates(files).main * FilesCandidates(files).sub != {}
  {
    var tracks, uri := OwnAndCover();
    var data := GT.ComposerData("Composer", None, None, tracks);
    var file := DataFile("c.json", Parsed(data));
    BareComposerNames(data);
    JsonFileContributes(file);
    SingleFile(file);
    assert FilesCandidates([file]).main * FilesCandidates([file]).sub == {uri};
  }

  lemma BareComposerNames(d: GT.ComposerData)
    requires d.sortName.None? && d.otherNames.None?
    ensures ComposerNames(d) == [d.name]
  {
  }

  lemma JsonFileContributes(f: DataFile)
    requires f.name == "c.json" && f.content.Parsed?
    ensures Contributes(f)
  {
    assert f.name[|f.name| - |".json"|..] == ".json";
  }

  lemma SingleFile(f: DataFile)
    ensures FilesCandidates([f]) == FileCandidates(f)
  {
    assert [f][..0] == [];
  }

  /** The same recording performed by the composer and by a singer. */
  lemma OwnAndCover() returns (tracks: seq<GT.ComposerTrack>, uri: string)
    ensures TracksCandidates(tracks, ["Composer"]) == Candidates({uri}, {uri})
  {
    var url := TrackUrlPrefix + "x";
    assert IsTrackUrl(url) by {
      assert url[..|TrackUrlPrefix|] == TrackUrlPrefix;
    }
    var own := GT.ComposerTrack("r1", "Song", "Composer", "", "", url, false);
    var cover := GT.ComposerTrack("r2", "Song", "Singer", "", "", url, false);
    uri := TrackUri(url);
    tracks := [own, cover];
    assert tracks[..1] == [own] && [own][..0] == [];
    assert TracksCandidates([own], ["Composer"]) == Candidates({}, {uri});
  }

  lemma FilesCandidatesSnoc(files: seq<DataFile>, n: nat)
    requires n < |files|
    ensures FilesCandidates(files[..n + 1]) == Union(FilesCandidates(files[..n]), FileCandidates(files[n]))
  {
    assert files[..n + 1][..n] == files[..n];
  }

  lemma TracksCandidatesSnoc(tracks: seq<GT.ComposerTrack>, names: seq<string>, k: nat)
    requires k < |tracks|
    ensures TracksCandidates(tracks[..k + 1], names) == Union(TracksCandidates(tracks[..k], names), TrackCandidates(tracks[k], names))
  {
    assert tracks[..k + 1][..k] == tracks[..k];
  }

  /** The inner loop of the collector: the tracks of one file, each added
      to the sub or the main set. */
  method CollectTracks(tracks: seq<GT.ComposerTrack>, composerNames: seq<string>,
                       main0: set<string>, sub0: set<string>)
    returns (mainTrackUris: set<string>, subTrackUris: set<string>)
    ensures Candidates(mainTrackUris, subTrackUris) == Union(Candidates(main0, sub0), TracksCandidates(tracks, composerNames))
  {
    mainTrackUris, subTrackUris := main0, sub0;
    for k := 0 to |tracks|
      invariant Candidates(mainTrackUris, subTrackUris) == Union(Candidates(main0, sub0), TracksCandidates(tracks[..k], composerNames))
    {
      TracksCandidatesSnoc(tracks, composerNames, k);
      ghost var before := Candidates(mainTrackUris, subTrackUris);
      var track := tracks[k];
      var uri := track.spotifyUrl;
      if uri != "" && StartsWith(uri, TrackUrlPrefix) {
        var trackUri := TrackUri(uri);
        var artist := track.artist;
        if artist != "" && artist in composerNames {
          assert TrackCandidates(track, composerNames) == Candidates({}, {trackUri});
          subTrackUris := subTrackUris + {trackUri};
        } else {
          assert TrackCandidates(track, composerNames) == Candidates({trackUri}, {});
          mainTrackUris := mainTrackUris + {trackUri};
        }
      } else {
        assert TrackCandidates(track, composerNames) == Candidates({}, {});
      }
      assert Candidates(mainTrackUris, subTrackUris) == Union(before, TrackCandidates(track, composerNames));
      UnionAssoc(Candidates(main0, sub0), TracksCandidates(tracks[..k], composerNames), TrackCandidates(track, composerNames));
    }
    assert tracks[..|tracks|] == tracks;
  }

  /** The collecting loop over the files, skipping those that are not
      `.json` or do not parse. */
  method Collect(files: seq<DataFile>) returns (mainTrackUris: set<string>, subTrackUris: set<string>)
    ensures Candidates(mainTrackUris, subTrackUris) == FilesCandidates(files)
  {
    mainTrackUris := {};
    subTrackUris := {};
    for n := 0 to |files|
      invariant Candidates(mainTrackUris, subTrackUris) == FilesCandidates(files[..n])
    {
      FilesCandidatesSnoc(files, n);
      var file := files[n];
      if !EndsWith(file.name, ".json") || !file.content.Parsed? {
        continue;
      }
      var json := file.content.data;
      mainTrackUris, subTrackUris := CollectTracks(json.tracks, ComposerNames(json), mainTrackUris, subTrackUris);
    }
    assert files[..|files|] == files;
  }

  // ------------------------------------------------------------------
  // Pushing to the playlists
  // ------------------------------------------------------------------

  /** The URIs pushed to a playlist: the candidates it does not hold yet. */
  function ToAdd(candidates: set<string>, existing: set<string>): (r: set<string>)
    ensures r <= candidates && r * existing == {}
    ensures candidates <= existing + r
  {
    candidates - existing
  }

  /** Syncing one playlist on a snapshot of every playlist's membership:
      fetching an unknown playlist throws; the add is issued only for a
      non-empty difference, and a failed add leaves the playlist as it was. */
  function SyncOne(playlists: map<string, set<string>>, id: string, candidates: set<string>, addSucceeds: bool)
    : Result<map<string, set<string>>>
  {
    if id !in playlists then Err("playlist not found")
    else
      var unique := ToAdd(candidates, playlists[id]);
      if |unique| > 0 && addSucceeds then Ok(playlists[id := playlists[id] + unique]) else Ok(playlists)
  }

  /** Main, then sub. */
  function SyncAll(playlists: map<string, set<string>>, mainId: string, subId: string,
                   c: Candidates, addSucceeds: string -> bool): Result<map<string, set<string>>>
  {
    match SyncOne(playlists, mainId, c.main, addSucceeds(mainId))
    case Err(m) => Err(m)
    case Ok(afterMain) => SyncOne(afterMain, subId, c.sub, addSucceeds(subId))
  }

  /** Nothing is removed from any playlist, no playlist is created, and only
      the named playlist changes. */
  lemma SyncOneOnlyAdds(playlists: map<string, set<string>>, id: string, candidates: set<string>, ok: bool)
    requires SyncOne(playlists, id, candidates, ok).Ok?
    ensures var after := SyncOne(playlists, id, candidates, ok).value;
      && after.Keys == playlists.Keys
      && (forall p :: p in playlists ==> playlists[p] <= after[p])
      && (forall p :: p in playlists && p != id ==> after[p] == playlists[p])
      && after[id] <= playlists[id] + candidates
  {
  }

  /** A successful add makes the playlist hold every candidate; the add is
      not issued when nothing is missing. */
  lemma SyncOneCompletes(playlists: map<string, set<string>>, id: string, candidates: set<string>)
    requires id in playlists
    ensures SyncOne(playlists, id, candidates, true).Ok?
    ensures candidates <= SyncOne(playlists, id, candidates, true).value[id]
    ensures candidates <= playlists[id] ==> SyncOne(playlists, id, candidates, false) == Ok(playlists)
  {
    if |ToAdd(candidates, playlists[id])| == 0 {
      assert ToAdd(candidates, playlists[id]) == {};
    }
  }

  /** A full sync never removes anything from any playlist. */
  lemma SyncAllOnlyAdds(playlists: map<string, set<string>>, mainId: string, subId: string,
                        c: Candidates, ok: string -> bool)
    requires SyncAll(playlists, mainId, subId, c, ok).Ok?
    ensures var after := SyncAll(playlists, mainId, subId, c, ok).value;
      && after.Keys == playlists.Keys
      && (forall p :: p in playlists ==> playlists[p] <= after[p])
      && (forall p :: p in playlists && p != mainId && p != subId ==> after[p] == playlists[p])
  {
    var m := SyncOne(playlists, mainId, c.main, ok(mainId));
    SyncOneOnlyAdds(playlists, mainId, c.main, ok(mainId));
    SyncOneOnlyAdds(m.value, subId, c.sub, ok(subId));
  }

  /** Running the sync again right after a run whose adds all succeeded
      adds nothing and leaves every playlist as it is. */
  lemma SyncAllIdempotent(playlists: map<string, set<string>>, mainId: string, subId: string,
                          c: Candidates, ok: string -> bool)
    requires mainId in playlists && subId in playlists
    requires forall p :: ok(p)
    ensures SyncAll(playlists, mainId, subId, c, ok).Ok?
    ensures var after := SyncAll(playlists, mainId, subId, c, ok).value;
      SyncAll(after, mainId, subId, c, ok) == Ok(after)
  {
    var m := SyncOne(playlists, mainId, c.main, true);
    SyncOneCompletes(playlists, mainId, c.main);
    SyncOneOnlyAdds(playlists, mainId, c.main, true);
    SyncOneCompletes(m.value, subId, c.sub);
    SyncOneOnlyAdds(m.value, subId, c.sub, true);
    var after := SyncOne(m.value, subId, c.sub, true).value;
    assert c.main <= after[mainId];
    assert c.sub <= after[subId];
    SyncOneCompletes(after, mainId, c.main);
    SyncOneCompletes(after, subId, c.sub);
  }

  /** A failed add is caught and the loop goes on: when main's add fails
      the run is the sub sync on the playlists as they were, and when sub's
      add fails main's additions stay. */
  lemma SyncAllFailureIsolated(playlists: map<string, set<string>>, mainId: string, subId: string,
                               c: Candidates, ok: string -> bool)
    requires mainId in playlists
    ensures !ok(mainId) ==> SyncAll(playlists, mainId, subId, c, ok) == SyncOne(playlists, subId, c.sub, ok(subId))
    ensures !ok(subId) && subId in playlists && subId != mainId ==>
      SyncAll(playlists, mainId, subId, c, ok) == SyncOne(playlists, mainId, c.main, ok(mainId))
  {
    if !ok(subId) && subId in playlists && subId != mainId {
      var afterMain := SyncOne(playlists, mainId, c.main, ok(mainId)).value;
      assert afterMain[subId] == playlists[subId];
      assert SyncOne(afterMain, subId, c.sub, false) == Ok(afterMain);
    }
  }

  /** The streaming account's playlists, by id, as the sync sees them. */
  class SpotifyAccount {
    var playlists: map<string, set<string>>

    constructor(initial: map<string, set<string>>)
      ensures playlists == initial
    {
      playlists := initial;
    }

    /** getAllPlaylistTrackUris followed, when something is missing, by
        addTracksToPlaylist; `addSucceeds` says whether the add call
        returns or throws. */
    method SyncPlaylist(id: string, trackUris: set<string>, addSucceeds: bool) returns (r: Result<set<string>>)
      modifies this
      ensures SyncOne(old(playlists), id, trackUris, addSucceeds).Err? ==> r.Err? && playlists == old(playlists)
      ensures SyncOne(old(playlists), id, trackUris, addSucceeds).Ok? ==>
        r == Ok(ToAdd(trackUris, old(playlists)[id]))
        && playlists == SyncOne(old(playlists), id, trackUris, addSucceeds).value
    {
      if id !in playlists {
        return Err("playlist not found");
      }
      var existingUris := playlists[id];
      var uniqueTrackUris := trackUris - existingUris;
      if |uniqueTrackUris| > 0 {
        if addSucceeds {
          playlists := playlists[id := existingUris + uniqueTrackUris];
        }
      }
      r := Ok(uniqueTrackUris);
    }
  }

  /** The loop over the two playlists, main first: an unknown playlist
      throws and ends the command, leaving what was already added. */
  method SyncMainThenSub(account: SpotifyAccount, mainId: string, subId: string, c: Candidates, ok: string -> bool)
    returns (r: Result<()>)
    modifies account
    ensures r.Ok? <==> SyncAll(old(account.playlists), mainId, subId, c, ok).Ok?
    ensures r.Ok? ==> account.playlists == SyncAll(old(account.playlists), mainId, subId, c, ok).value
    ensures r.Err? && mainId !in old(account.playlists) ==> account.playlists == old(account.playlists)
    ensures r.Err? && mainId in old(account.playlists) ==>
      account.playlists == SyncOne(old(account.playlists), mainId, c.main, ok(mainId)).value
  {
    var mainAdded := account.SyncPlaylist(mainId, c.main, ok(mainId));
    if mainAdded.Err? {
      return Err(mainAdded.message);
    }
    var subAdded := account.SyncPlaylist(subId, c.sub, ok(subId));
    if subAdded.Err? {
      return Err(subAdded.message);
    }
    r := Ok(());
  }

  /** The command: the playlist ids and the access token must be present;
      then the files are collected and the main and sub playlists synced in
      that order. `ok` says, per playlist id, whether its add call returns. */
  method SyncTracksToPlaylist(mainPlaylistId: string, subPlaylistId: string, token: Option<string>,
                              files: seq<DataFile>, account: SpotifyAccount, ok: string -> bool)
    returns (r: Result<Candidates>)
    modifies account
    ensures (mainPlaylistId == "" || subPlaylistId == "" || token.None? || token == Some(""))
      ==> r.Err? && account.playlists == old(account.playlists)
    ensures r.Ok? ==> r.value == FilesCandidates(files)
                      && SyncAll(old(account.playlists), mainPlaylistId, subPlaylistId, r.value, ok)
                         == Ok(account.playlists)
    ensures r.Err? && mainPlaylistId != "" && subPlaylistId != "" && token.Some? && token.value != "" ==>
      SyncAll(old(account.playlists), mainPlaylistId, subPlaylistId, FilesCandidates(files), ok).Err?
    ensures r.Err? && mainPlaylistId != "" && subPlaylistId != "" && token.Some? && token.value != ""
            && mainPlaylistId in old(account.playlists) ==>
      account.playlists == SyncOne(old(account.playlists), mainPlaylistId, FilesCandidates(files).main, ok(mainPlaylistId)).value
    ensures r.Err? && mainPlaylistId !in old(account.playlists) ==> account.playlists == old(account.playlists)
  {
    if mainPlaylistId == "" || subPlaylistId == "" {
      return Err("playlist id is not configured");
    }
    if token.None? || token.value == "" {
      return Err("could not get a Spotify access token");
    }
    var mainTrackUris, subTrackUris := Collect(files);
    var c := Candidates(mainTrackUris, subTrackUris);
    var synced := SyncMainThenSub(account, mainPlaylistId, subPlaylistId, c, ok);
    if synced.Err? {
      return Err(synced.message);
    }
    r := Ok(c);
  }
}

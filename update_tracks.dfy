/** The refresh of every saved composer, src/commands/update-tracks.ts: for
    each `.json` file in `data/`, get-tracks runs again with the file's
    name as the MusicBrainz id, two seconds apart. What the commands do is
    recorded as a trace of events; a failed run is swallowed, so its
    outcome does not appear in the trace. */
module UpdateTracks {
  import opened Common
  import opened Strings
  import opened CommandEvents

  const FetchIntervalMs: nat := 2000
  const JsonSuffix: string := ".json"

  /** The file get-tracks saves a composer under: `<id>.json`. */
  function SavedFileName(artistId: string): (name: string)
    ensures |name| == |artistId| + |JsonSuffix| && StartsWith(name, artistId) && EndsWith(name, JsonSuffix)
  {
    artistId + JsonSuffix
  }

  /** `path.basename(file, '.json')` for a bare file name: the suffix goes,
      and a name that is the suffix alone gives `''` (Node returns the
      empty string when the suffix equals the whole argument). */
  function ArtistIdOf(file: string): (id: string)
    ensures EndsWith(file, JsonSuffix) && file != JsonSuffix ==> SavedFileName(id) == file
    ensures file == JsonSuffix ==> id == ""
    ensures !EndsWith(file, JsonSuffix) ==> id == file
  {
    if file == JsonSuffix then ""
    else if EndsWith(file, JsonSuffix) then
      assert file == file[..|file| - |JsonSuffix|] + JsonSuffix;
      file[..|file| - |JsonSuffix|]
    else file
  }

  /** The file a composer was saved under gives back the composer's id. */
  lemma ArtistIdOfSaved(artistId: string)
    requires artistId != []
    ensures ArtistIdOf(SavedFileName(artistId)) == artistId
  {
    var file := SavedFileName(artistId);
    assert file[..|file| - |JsonSuffix|] == artistId;
  }

  function JsonFiles(files: seq<string>): (r: seq<string>)
    ensures forall i :: 0 <= i < |r| ==> EndsWith(r[i], JsonSuffix) && r[i] in files
    ensures forall i :: 0 <= i < |files| && EndsWith(files[i], JsonSuffix) ==> files[i] in r
  {
    Filter(files, (f: string) => EndsWith(f, JsonSuffix))
  }

  /** The events of the loop over these files. */
  function RefreshEvents(files: seq<string>): seq<Event> {
    if files == [] then []
    else
      var n := |files| - 1;
      RefreshEvents(files[..n]) + [Run(["--arid", ArtistIdOf(files[n])]), Sleep(FetchIntervalMs)]
  }

  /** The command: the `for` loop over the directory's `.json` files. */
  method UpdateTracksAction(files: seq<string>) returns (events: seq<Event>)
    ensures events == RefreshEvents(JsonFiles(files))
  {
    var jsonFiles := JsonFiles(files);
    events := [];
    for k := 0 to |jsonFiles|
      invariant events == RefreshEvents(jsonFiles[..k])
    {
      RefreshEventsStep(jsonFiles, k);
      var artistId := ArtistIdOf(jsonFiles[k]);
      events := events + [Run(["--arid", artistId])];
      events := events + [Sleep(FetchIntervalMs)];
    }
    assert jsonFiles[..|jsonFiles|] == jsonFiles;
  }

  lemma RefreshEventsStep(files: seq<string>, k: int)
    requires 0 <= k < |files|
    ensures RefreshEvents(files[..k + 1])
         == RefreshEvents(files[..k]) + [Run(["--arid", ArtistIdOf(files[k])])] + [Sleep(FetchIntervalMs)]
  {
    assert files[..k + 1][..k] == files[..k];
  }

  /** Every `.json` file gets one run with its id, followed by a two-second
      wait, in directory order. */
  lemma {:induction false} RefreshEventsShape(files: seq<string>)
    ensures |RefreshEvents(files)| == 2 * |files|
    ensures forall k :: 0 <= k < |files| ==>
      RefreshEvents(files)[2 * k] == Run(["--arid", ArtistIdOf(files[k])])
      && RefreshEvents(files)[2 * k + 1] == Sleep(FetchIntervalMs)
  {
    if files != [] {
      var n := |files| - 1;
      RefreshEventsShape(files[..n]);
      forall k | 0 <= k < n
        ensures RefreshEvents(files)[2 * k] == Run(["--arid", ArtistIdOf(files[k])])
      {
        assert files[..n][k] == files[k];
      }
    }
  }

  /** The list `data/files.json` is a `.json` file of the same directory,
      so the refresh also runs get-tracks with the id "files". */
  lemma IndexFileIsRefreshed(files: seq<string>)
    requires "files.json" in files
    ensures Run(["--arid", "files"]) in RefreshEvents(JsonFiles(files))
  {
    var json := JsonFiles(files);
    var i :| 0 <= i < |files| && files[i] == "files.json";
    assert EndsWith(files[i], JsonSuffix);
    var k :| 0 <= k < |json| && json[k] == "files.json";
    RefreshEventsShape(json);
    assert ArtistIdOf("files.json") == "files" by {
      assert "files.json"[..5] == "files";
    }
    assert RefreshEvents(json)[2 * k] == Run(["--arid", "files"]);
  }
}

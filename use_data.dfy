/** The preview's data hooks of preview/src/hooks/useData.ts: `useData`
    builds the map from file key to composer file out of the fetched
    files, and `useRows` turns that map into the table rows: one row per
    track, de-duplicated by recording id when all composers are shown,
    optionally without the tracks the composer performed, sorted on one
    column. A field the JSON leaves out is `""`, which is what the source's
    `?? ''` and truthiness tests make of it. */
module UseData {
  import opened Common
  import opened Strings
  import Sorting

  datatype Track = Track(id: string, title: string, artist: string, releaseDate: string, isrc: string, spotifyUrl: string)

  /** A composer file as the preview reads it; a missing `otherNames` or
      `tracks` is the empty list, as the source's `|| []` and `?? []` make it. */
  datatype ComposerFile = ComposerFile(name: string, sortName: string, otherNames: seq<string>, tracks: seq<Track>)

  // ------------------------------------------------------------------
  // The data map
  // ------------------------------------------------------------------

  /** A JavaScript object used as a record: its entries in insertion order. */
  type DataMap = seq<(string, ComposerFile)>

  predicate UniqueKeys(m: DataMap) {
    forall i, j :: 0 <= i < j < |m| ==> m[i].0 != m[j].0
  }

  /** `map[key] = val`: an existing key keeps its place and takes the new
      value; a new key is added at the end. */
  function Assign(m: DataMap, key: string, val: ComposerFile): (r: DataMap)
    ensures (forall i :: 0 <= i < |m| ==> m[i].0 != key) ==> r == m + [(key, val)]
    ensures (exists i :: 0 <= i < |m| && m[i].0 == key) ==> |r| == |m|
    ensures |r| >= |m| && forall i :: 0 <= i < |m| ==> r[i].0 == m[i].0
  {
    if m == [] then [(key, val)]
    else if m[0].0 == key then [(key, val)] + m[1..]
    else
      var rest := Assign(m[1..], key, val);
      assert (exists i :: 0 <= i < |m| && m[i].0 == key) ==> exists i :: 0 <= i < |m[1..]| && m[1..][i].0 == key by {
        if exists i :: 0 <= i < |m| && m[i].0 == key {
          var i :| 0 <= i < |m| && m[i].0 == key;
          assert m[1..][i - 1] == m[i];
        }
      }
      [m[0]] + rest
  }

  lemma {:induction false} AssignKeepsUnique(m: DataMap, key: string, val: ComposerFile)
    requires UniqueKeys(m)
    ensures UniqueKeys(Assign(m, key, val))
  {
    var r := Assign(m, key, val);
    if forall i :: 0 <= i < |m| ==> m[i].0 != key {
      assert r == m + [(key, val)];
    } else {
      assert |r| == |m|;
    }
  }

  /** After an assignment the key maps to the new value and every other
      key to what it mapped to before. */
  lemma {:induction false} AssignLookup(m: DataMap, key: string, val: ComposerFile, other: string)
    ensures Lookup(Assign(m, key, val), key) == Some(val)
    ensures other != key ==> Lookup(Assign(m, key, val), other) == Lookup(m, other)
  {
    if m != [] && m[0].0 != key {
      AssignLookup(m[1..], key, val, other);
      assert ([m[0]] + Assign(m[1..], key, val))[1..] == Assign(m[1..], key, val);
    } else if m != [] {
      assert ([(key, val)] + m[1..])[1..] == m[1..];
    }
  }

  /** `path.split('/').pop()?.replace('.json', '')`: the last path segment
      without its first ".json". The split is never empty, so `?? path`
      is never taken. */
  function KeyOfPath(path: string): string {
    var segments := Split(path, '/');
    ReplaceFirst(segments[|segments| - 1], ".json", "")
  }

  /** The list entry `<dir>/<name>.json` gives the key `<name>` when the
      name holds no `/` and no earlier ".json". */
  lemma KeyOfDataPath(dir: string, name: string)
    requires '/' !in name
    requires forall j: nat :: j < |name| ==> !OccursAt(name + ".json", ".json", j)
    ensures KeyOfPath(dir + "/" + name + ".json") == name
  {
    var file := name + ".json";
    assert '/' !in file by {
      forall i | 0 <= i < |file| ensures file[i] != '/' {
        if i < |name| {
          assert file[i] == name[i];
        } else {
          assert file[i] == ".json"[i - |name|];
        }
      }
    }
    assert dir + "/" + name + ".json" == dir + ['/'] + file;
    LastPieceAfterSeparator(dir, '/', file);
    assert name + ".json" + "" == file;
    ReplaceFirstSplit(name, ".json", "", "");
    assert name + "" + "" == name;
  }

  /** The map the fetched files give, built in list order. `results[i]` is
      the file at `files[i]`, or `None` when its fetch failed. */
  function BuiltMap(files: seq<string>, results: seq<Option<ComposerFile>>): DataMap
    requires |files| == |results|
  {
    if files == [] then []
    else
      var n := |files| - 1;
      var m := BuiltMap(files[..n], results[..n]);
      if results[n].Some? then Assign(m, KeyOfPath(files[n]), results[n].value) else m
  }

  /** The value of the last fetched file with this key, if any. */
  function LastFetched(files: seq<string>, results: seq<Option<ComposerFile>>, key: string): Option<ComposerFile>
    requires |files| == |results|
  {
    if files == [] then None
    else
      var n := |files| - 1;
      if results[n].Some? && KeyOfPath(files[n]) == key then results[n]
      else LastFetched(files[..n], results[..n], key)
  }

  /** Every key of the built map maps to the last successfully fetched file
      with that key: a later file overwrites an earlier one, and a failed
      fetch leaves the key out. The keys are unique. */
  lemma {:induction false} BuiltMapLookup(files: seq<string>, results: seq<Option<ComposerFile>>, key: string)
    requires |files| == |results|
    ensures Lookup(BuiltMap(files, results), key) == LastFetched(files, results, key)
    ensures UniqueKeys(BuiltMap(files, results))
  {
    if files != [] {
      var n := |files| - 1;
      BuiltMapLookup(files[..n], results[..n], key);
      var m := BuiltMap(files[..n], results[..n]);
      if results[n].Some? {
        AssignLookup(m, KeyOfPath(files[n]), results[n].value, key);
        AssignKeepsUnique(m, KeyOfPath(files[n]), results[n].value);
      }
    }
  }

  /** The `forEach` of useData, filling `map` in list order. */
  method BuildDataMap(files: seq<string>, results: seq<Option<ComposerFile>>) returns (map': DataMap)
    requires |files| == |results|
    ensures map' == BuiltMap(files, results)
  {
    map' := [];
    for idx := 0 to |files|
      invariant map' == BuiltMap(files[..idx], results[..idx])
    {
      assert files[..idx + 1][..idx] == files[..idx];
      assert results[..idx + 1][..idx] == results[..idx];
      var path := files[idx];
      var key := KeyOfPath(path);
      var val := results[idx];
      if val.Some? {
        map' := Assign(map', key, val.value);
      }
    }
    assert files[..|files|] == files && results[..|results|] == results;
  }

  // ------------------------------------------------------------------
  // Rows
  // ------------------------------------------------------------------

  datatype DataRow = DataRow(track: Track, composer: string, composerOtherNames: seq<string>,
                             composerKey: string, searchText: string)

  /** The lower-cased "title artist composer" the search box matches. */
  function SearchText(t: Track, composerName: string): (s: string)
    ensures |s| == |t.title| + 1 + |t.artist| + 1 + |composerName|
    ensures forall i :: 0 <= i < |s| ==> !('A' <= s[i] <= 'Z')
    ensures s == ToLower(t.title) + " " + ToLower(t.artist) + " " + ToLower(composerName)
  {
    ToLowerAppend(t.title + " " + t.artist + " ", composerName);
    ToLowerAppend(t.title + " " + t.artist, " ");
    ToLowerAppend(t.title + " ", t.artist);
    ToLowerAppend(t.title, " ");
    assert ToLower(" ") == " ";
    ToLower(t.title + " " + t.artist + " " + composerName)
  }

  /** The composer shown: the file's name, or the key when the name is empty. */
  function DisplayName(key: string, d: ComposerFile): (name: string)
    ensures name == (if d.name != "" then d.name else key)
  {
    if d.name != "" then d.name else key
  }

  function ToRow(key: string, d: ComposerFile, t: Track): (r: DataRow)
    ensures r.track == t && r.composerKey == key && r.composerOtherNames == d.otherNames
    ensures r.composer == DisplayName(key, d)
    ensures r.searchText == SearchText(t, r.composer)
  {
    var composerName := DisplayName(key, d);
    DataRow(t, composerName, d.otherNames, key, SearchText(t, composerName))
  }

  function RowsOf(key: string, d: ComposerFile, tracks: seq<Track>): (rows: seq<DataRow>)
    ensures |rows| == |tracks|
    ensures forall i :: 0 <= i < |rows| ==> rows[i] == ToRow(key, d, tracks[i])
  {
    if tracks == [] then [] else [ToRow(key, d, tracks[0])] + RowsOf(key, d, tracks[1..])
  }

  /** The rows of one composer, when a filter is selected: none when the
      key is not in the map. */
  function FilterRows(m: DataMap, currentFilter: string): (rows: seq<DataRow>)
    ensures Lookup(m, currentFilter).None? ==> rows == []
    ensures Lookup(m, currentFilter).Some? ==> |rows| == |Lookup(m, currentFilter).value.tracks|
    ensures forall i :: 0 <= i < |rows| ==> rows[i].composerKey == currentFilter
    ensures Lookup(m, currentFilter).Some? ==> var d := Lookup(m, currentFilter).value;
      forall i :: 0 <= i < |rows| ==> rows[i] == ToRow(currentFilter, d, d.tracks[i])
  {
    match Lookup(m, currentFilter)
    case None => []
    case Some(d) => RowsOf(currentFilter, d, d.tracks)
  }

  /** The rows of every composer, entry by entry (the `flatMap`). */
  function AllRows(m: DataMap): (rows: seq<DataRow>)
    ensures forall i :: 0 <= i < |rows| ==> exists k :: 0 <= k < |m| && rows[i].composerKey == m[k].0
  {
    if m == [] then []
    else
      var rest := AllRows(m[1..]);
      assert forall i :: 0 <= i < |rest| ==> exists k :: 0 <= k < |m| && rest[i].composerKey == m[k].0 by {
        forall i | 0 <= i < |rest| ensures exists k :: 0 <= k < |m| && rest[i].composerKey == m[k].0 {
          var k :| 0 <= k < |m[1..]| && rest[i].composerKey == m[1..][k].0;
          assert m[k + 1] == m[1..][k];
        }
      }
      RowsOf(m[0].0, m[0].1, m[0].1.tracks) + rest
  }

  /** The rows of one map entry. */
  function EntryRows(entry: (string, ComposerFile)): seq<DataRow> {
    RowsOf(entry.0, entry.1, entry.1.tracks)
  }

  /** The all-composers rows are each entry's rows, in map order. */
  lemma {:induction false} AllRowsFlatten(m: DataMap)
    ensures AllRows(m) == Flatten(seq(|m|, k requires 0 <= k < |m| => EntryRows(m[k])))
  {
    if m != [] {
      AllRowsFlatten(m[1..]);
      var ss := seq(|m|, k requires 0 <= k < |m| => EntryRows(m[k]));
      assert ss[1..] == seq(|m[1..]|, k requires 0 <= k < |m[1..]| => EntryRows(m[1..][k]));
    }
  }

  /** Joining two maps joins their rows. */
  lemma {:induction false} AllRowsAppend(a: DataMap, b: DataMap)
    ensures AllRows(a + b) == AllRows(a) + AllRows(b)
  {
    if a == [] {
      assert a + b == b;
    } else {
      assert (a + b)[0] == a[0] && (a + b)[1..] == a[1..] + b;
      AllRowsAppend(a[1..], b);
    }
  }

  // ------------------------------------------------------------------
  // De-duplication
  // ------------------------------------------------------------------

  /** The `seen` filter: a row without id is kept; a row whose id was seen
      is dropped; otherwise it is kept and its id becomes seen. */
  function DedupFrom(rows: seq<DataRow>, seen: set<string>): seq<DataRow>
  {
    if rows == [] then []
    else
      var r := rows[0];
      if r.track.id == "" then [r] + DedupFrom(rows[1..], seen)
      else if r.track.id in seen then DedupFrom(rows[1..], seen)
      else [r] + DedupFrom(rows[1..], seen + {r.track.id})
  }

  function Dedup(rows: seq<DataRow>): seq<DataRow> {
    DedupFrom(rows, {})
  }

  function IdsOf(rows: seq<DataRow>): set<string> {
    set i | 0 <= i < |rows| && rows[i].track.id != "" :: rows[i].track.id
  }

  predicate UniqueIds(rows: seq<DataRow>) {
    forall i, j :: 0 <= i < j < |rows| && rows[i].track.id != "" ==> rows[i].track.id != rows[j].track.id
  }

  function NoId(rows: seq<DataRow>): seq<DataRow> {
    Filter(rows, (r: DataRow) => r.track.id == "")
  }

  lemma IdsOfCons(r: DataRow, tail: seq<DataRow>)
    ensures IdsOf([r] + tail) == (if r.track.id != "" then {r.track.id} else {}) + IdsOf(tail)
  {
    var rows := [r] + tail;
    forall id | id in IdsOf(rows) ensures id in (if r.track.id != "" then {r.track.id} else {}) + IdsOf(tail) {
      var i :| 0 <= i < |rows| && rows[i].track.id != "" && rows[i].track.id == id;
      if i > 0 {
        assert rows[i] == tail[i - 1];
      }
    }
    forall id | id in IdsOf(tail) ensures id in IdsOf(rows) {
      var i :| 0 <= i < |tail| && tail[i].track.id != "" && tail[i].track.id == id;
      assert rows[i + 1] == tail[i];
    }
    if r.track.id != "" {
      assert rows[0] == r;
    }
  }

  /** The filter keeps only rows of the input whose ids were not seen, and
      no id twice. */
  lemma DedupFromKeeps(rows: seq<DataRow>, seen: set<string>)
    ensures var out := DedupFrom(rows, seen);
      && (forall i :: 0 <= i < |out| ==> out[i] in rows)
      && (forall i :: 0 <= i < |out| && out[i].track.id != "" ==> out[i].track.id !in seen)
      && UniqueIds(out)
  {
    DedupFromRows(rows, seen);
    DedupFromUnseen(rows, seen);
  }

  lemma {:induction false} DedupFromRows(rows: seq<DataRow>, seen: set<string>)
    ensures forall i :: 0 <= i < |DedupFrom(rows, seen)| ==> DedupFrom(rows, seen)[i] in rows
  {
    if rows != [] {
      var r := rows[0];
      var seen' := if r.track.id == "" || r.track.id in seen then seen else seen + {r.track.id};
      DedupFromRows(rows[1..], seen');
      var rest := DedupFrom(rows[1..], seen');
      var out := DedupFrom(rows, seen);
      assert out == (if r.track.id == "" || r.track.id !in seen then [r] else []) + rest;
      forall i | 0 <= i < |out| ensures out[i] in rows {
        if out[i] != r {
          assert out[i] in rest;
          assert out[i] in rows[1..];
        }
      }
    }
  }

  lemma {:induction false} DedupFromUnseen(rows: seq<DataRow>, seen: set<string>)
    ensures var out := DedupFrom(rows, seen);
      && (forall i :: 0 <= i < |out| && out[i].track.id != "" ==> out[i].track.id !in seen)
      && UniqueIds(out)
  {
    if rows != [] {
      var r := rows[0];
      var seen' := if r.track.id == "" || r.track.id in seen then seen else seen + {r.track.id};
      DedupFromUnseen(rows[1..], seen');
      var rest := DedupFrom(rows[1..], seen');
      if r.track.id == "" || r.track.id !in seen {
        var out := [r] + rest;
        assert DedupFrom(rows, seen) == out;
        forall i | 0 < i < |out| ensures out[i].track.id != "" ==> out[i].track.id !in seen {
          assert out[i] == rest[i - 1];
        }
        forall i, j | 0 <= i < j < |out| && out[i].track.id != "" ensures out[i].track.id != out[j].track.id {
          assert out[j] == rest[j - 1];
          if i > 0 {
            assert out[i] == rest[i - 1];
          }
        }
      } else {
        assert DedupFrom(rows, seen) == rest;
      }
    }
  }

  /** The filter keeps every id of the input that was not seen. */
  lemma {:induction false} DedupFromIds(rows: seq<DataRow>, seen: set<string>)
    ensures IdsOf(DedupFrom(rows, seen)) == IdsOf(rows) - seen
  {
    if rows != [] {
      var r := rows[0];
      var seen' := if r.track.id == "" || r.track.id in seen then seen else seen + {r.track.id};
      DedupFromIds(rows[1..], seen');
      var rest := DedupFrom(rows[1..], seen');
      assert rows == [r] + rows[1..];
      IdsOfCons(r, rows[1..]);
      if r.track.id == "" || r.track.id !in seen {
        IdsOfCons(r, rest);
      }
    }
  }

  /** The filter keeps every row without an id, in order. */
  lemma {:induction false} DedupFromNoId(rows: seq<DataRow>, seen: set<string>)
    ensures NoId(DedupFrom(rows, seen)) == NoId(rows)
  {
    if rows != [] {
      var r := rows[0];
      var p := (x: DataRow) => x.track.id == "";
      var seen' := if r.track.id == "" || r.track.id in seen then seen else seen + {r.track.id};
      DedupFromNoId(rows[1..], seen');
      var rest := DedupFrom(rows[1..], seen');
      assert rows == [r] + rows[1..];
      FilterAppend([r], rows[1..], p);
      if r.track.id == "" || r.track.id !in seen {
        FilterAppend([r], rest, p);
      }
    }
  }

  /** What the filter keeps: only rows of the input, no seen id and no id
      twice, every other id of the input, and every row without an id. */
  lemma DedupFromSpec(rows: seq<DataRow>, seen: set<string>)
    ensures var out := DedupFrom(rows, seen);
      && (forall i :: 0 <= i < |out| ==> out[i] in rows)
      && (forall i :: 0 <= i < |out| && out[i].track.id != "" ==> out[i].track.id !in seen)
      && UniqueIds(out)
      && IdsOf(out) == IdsOf(rows) - seen
      && NoId(out) == NoId(rows)
  {
    DedupFromKeeps(rows, seen);
    DedupFromIds(rows, seen);
    DedupFromNoId(rows, seen);
  }

  /** Adding a row at the end keeps what was kept, and keeps the new row
      iff it has no id or its id is neither seen nor held by an earlier
      row: the first row with an id wins. */
  lemma {:induction false} DedupFromSnoc(rows: seq<DataRow>, r: DataRow, seen: set<string>)
    ensures DedupFrom(rows + [r], seen)
         == DedupFrom(rows, seen) + (if r.track.id != "" && r.track.id in seen + IdsOf(rows) then [] else [r])
  {
    if rows == [] {
      assert rows + [r] == [r];
      assert IdsOf(rows) == {};
    } else {
      var x := rows[0];
      var seen' := if x.track.id == "" || x.track.id in seen then seen else seen + {x.track.id};
      assert (rows + [r])[0] == x && (rows + [r])[1..] == rows[1..] + [r];
      DedupFromSnoc(rows[1..], r, seen');
      assert rows == [x] + rows[1..];
      IdsOfCons(x, rows[1..]);
      assert seen' + IdsOf(rows[1..]) == seen + IdsOf(rows);
    }
  }

  /** The same for the filter started with nothing seen. */
  lemma DedupSnoc(rows: seq<DataRow>, r: DataRow)
    ensures Dedup(rows + [r]) == Dedup(rows) + (if r.track.id != "" && r.track.id in IdsOf(rows) then [] else [r])
  {
    DedupFromSnoc(rows, r, {});
    assert {} + IdsOf(rows) == IdsOf(rows);
  }

  /** Rows whose ids are already unique pass the filter unchanged, so
      de-duplicating twice is de-duplicating once. */
  lemma {:induction false} DedupOfUnique(rows: seq<DataRow>, seen: set<string>)
    requires UniqueIds(rows)
    requires forall i :: 0 <= i < |rows| && rows[i].track.id != "" ==> rows[i].track.id !in seen
    ensures DedupFrom(rows, seen) == rows
  {
    if rows != [] {
      var r := rows[0];
      var seen' := if r.track.id == "" then seen else seen + {r.track.id};
      forall i | 0 <= i < |rows[1..]| && rows[1..][i].track.id != "" ensures rows[1..][i].track.id !in seen' {
        assert rows[1..][i] == rows[i + 1];
      }
      DedupOfUnique(rows[1..], seen');
    }
  }

  lemma DedupIdempotent(rows: seq<DataRow>)
    ensures Dedup(Dedup(rows)) == Dedup(rows)
  {
    DedupFromSpec(rows, {});
    DedupOfUnique(Dedup(rows), {});
  }

  /** The `rows.filter` with its `seen` Set, as the loop it runs. */
  method DedupRows(rows: seq<DataRow>) returns (kept: seq<DataRow>)
    ensures kept == Dedup(rows)
  {
    var seen: set<string> := {};
    kept := [];
    for i := 0 to |rows|
      invariant kept + DedupFrom(rows[i..], seen) == Dedup(rows)
    {
      var r := rows[i];
      DedupFromStep(rows, i, seen);
      if r.track.id == "" {
        ConcatOne(kept, r, DedupFrom(rows[i + 1..], seen));
        kept := kept + [r];
      } else if r.track.id !in seen {
        ConcatOne(kept, r, DedupFrom(rows[i + 1..], seen + {r.track.id}));
        seen := seen + {r.track.id};
        kept := kept + [r];
      }
    }
  }

  /** One step of the filter at index `i`. */
  lemma DedupFromStep(rows: seq<DataRow>, i: int, seen: set<string>)
    requires 0 <= i < |rows|
    ensures var r := rows[i];
      DedupFrom(rows[i..], seen)
        == if r.track.id == "" then [r] + DedupFrom(rows[i + 1..], seen)
           else if r.track.id in seen then DedupFrom(rows[i + 1..], seen)
           else [r] + DedupFrom(rows[i + 1..], seen + {r.track.id})
  {
    assert rows[i..][0] == rows[i] && rows[i..][1..] == rows[i + 1..];
  }

  lemma ConcatOne(a: seq<DataRow>, r: DataRow, b: seq<DataRow>)
    ensures a + ([r] + b) == (a + [r]) + b
  {
  }

  // ------------------------------------------------------------------
  // Excluding the composer's own recordings
  // ------------------------------------------------------------------

  /** The names excluded when one composer is selected: its display name
      and its other names. */
  function SelectedNames(m: DataMap, currentFilter: string): (names: seq<string>)
    ensures |names| >= 1
    ensures Lookup(m, currentFilter).None? ==> names == [currentFilter]
    ensures Lookup(m, currentFilter).Some? ==> var d := Lookup(m, currentFilter).value;
      names[0] == (if d.name != "" then d.name else currentFilter) && names[1..] == d.otherNames
  {
    match Lookup(m, currentFilter)
    case None => [currentFilter]
    case Some(d) => [DisplayName(currentFilter, d)] + d.otherNames
  }

  /** The all-composers test: the artist is the row's composer or one of
      their other names. */
  predicate IsOwn(r: DataRow) {
    r.track.artist == r.composer || r.track.artist in r.composerOtherNames
  }

  function ExcludeOwn(m: DataMap, currentFilter: string, rows: seq<DataRow>): (out: seq<DataRow>)
    ensures currentFilter == "" ==> forall i :: 0 <= i < |out| ==> !IsOwn(out[i])
    ensures currentFilter != "" ==> forall i :: 0 <= i < |out| ==> out[i].track.artist !in SelectedNames(m, currentFilter)
    ensures forall i :: 0 <= i < |out| ==> out[i] in rows
    ensures currentFilter == "" ==> forall i :: 0 <= i < |rows| && !IsOwn(rows[i]) ==> rows[i] in out
    ensures currentFilter != "" ==> forall i :: 0 <= i < |rows| && rows[i].track.artist !in SelectedNames(m, currentFilter) ==> rows[i] in out
  {
    if currentFilter != "" then
      var selNames := SelectedNames(m, currentFilter);
      Filter(rows, (r: DataRow) => r.track.artist !in selNames)
    else
      Filter(rows, (r: DataRow) => !IsOwn(r))
  }

  /** Excluding works row by row, so it keeps the order of the rows. */
  lemma ExcludeOwnAppend(m: DataMap, currentFilter: string, a: seq<DataRow>, b: seq<DataRow>)
    ensures ExcludeOwn(m, currentFilter, a + b) == ExcludeOwn(m, currentFilter, a) + ExcludeOwn(m, currentFilter, b)
  {
    if currentFilter != "" {
      var selNames := SelectedNames(m, currentFilter);
      FilterAppend(a, b, (r: DataRow) => r.track.artist !in selNames);
    } else {
      FilterAppend(a, b, (r: DataRow) => !IsOwn(r));
    }
  }

  /** On the rows of the selected composer the two exclusion tests agree:
      selecting a composer hides the same recordings the all-composers view
      hides for them. */
  lemma ExcludeModesAgree(m: DataMap, currentFilter: string, i: nat)
    requires currentFilter != "" && i < |FilterRows(m, currentFilter)|
    ensures var r := FilterRows(m, currentFilter)[i];
      r.track.artist in SelectedNames(m, currentFilter) <==> IsOwn(r)
  {
  }

  // ------------------------------------------------------------------
  // Sorting
  // ------------------------------------------------------------------

  datatype Column = Title | Artist | ReleaseDate
  datatype SortState = SortState(column: Column, asc: bool)

  function ColumnValue(r: DataRow, c: Column): string {
    match c
    case Title => r.track.title
    case Artist => r.track.artist
    case ReleaseDate => r.track.releaseDate
  }

  /** The comparator of the column sort. */
  function CompareRows(sort: SortState): (DataRow, DataRow) -> int {
    (a: DataRow, b: DataRow) =>
      var va := ColumnValue(a, sort.column);
      var vb := ColumnValue(b, sort.column);
      if LexLess(va, vb) then (if sort.asc then -1 else 1)
      else if LexLess(vb, va) then (if sort.asc then 1 else -1)
      else 0
  }

  /** The comparator orders rows by the column's value, ascending or
      descending, rows with equal values comparing equal. */
  lemma CompareRowsMeaning(sort: SortState, a: DataRow, b: DataRow)
    ensures var va := ColumnValue(a, sort.column); var vb := ColumnValue(b, sort.column);
      && (CompareRows(sort)(a, b) == 0 <==> va == vb)
      && (CompareRows(sort)(a, b) < 0 <==> (if sort.asc then LexLess(va, vb) else LexLess(vb, va)))
  {
    LexLessTrichotomy(ColumnValue(a, sort.column), ColumnValue(b, sort.column));
  }

  lemma CompareRowsConsistent(sort: SortState)
    ensures Sorting.Consistent(CompareRows(sort))
  {
    var cmp := CompareRows(sort);
    forall a, b ensures cmp(a, b) <= 0 <==> cmp(b, a) >= 0 {
      LexLessTrichotomy(ColumnValue(a, sort.column), ColumnValue(b, sort.column));
      CompareRowsMeaning(sort, a, b);
      CompareRowsMeaning(sort, b, a);
    }
    forall a, b, c | Sorting.NotAfter(cmp, a, b) && Sorting.NotAfter(cmp, b, c)
      ensures Sorting.NotAfter(cmp, a, c)
    {
      var va, vb, vc := ColumnValue(a, sort.column), ColumnValue(b, sort.column), ColumnValue(c, sort.column);
      CompareRowsMeaning(sort, a, b);
      CompareRowsMeaning(sort, b, c);
      CompareRowsMeaning(sort, a, c);
      if sort.asc {
        if LexLess(va, vb) && LexLess(vb, vc) {
          LexLessTransitive(va, vb, vc);
        }
      } else {
        if LexLess(vb, va) && LexLess(vc, vb) {
          LexLessTransitive(vc, vb, va);
        }
      }
    }
  }

  // ------------------------------------------------------------------
  // useRows
  // ------------------------------------------------------------------

  /** The rows before sorting: the selected composer's rows, or every
      composer's rows de-duplicated; then the exclusion when asked for. */
  function UnsortedRows(m: DataMap, currentFilter: string, excludeOwn: bool): seq<DataRow> {
    var rows := if currentFilter != "" then FilterRows(m, currentFilter) else Dedup(AllRows(m));
    if excludeOwn then ExcludeOwn(m, currentFilter, rows) else rows
  }

  /** The rows useRows returns. */
  function SortedRows(m: DataMap, currentFilter: string, excludeOwn: bool, sort: SortState): seq<DataRow> {
    Sorting.SortBy(UnsortedRows(m, currentFilter, excludeOwn), CompareRows(sort))
  }

  /** useRows. `currentFilter` is `""` for "all". `rows` goes through the
      stages in turn, the de-duplication being the `seen` loop. */
  method UseRows(m: DataMap, currentFilter: string, excludeOwn: bool, sort: SortState)
    returns (rows: seq<DataRow>)
    ensures rows == SortedRows(m, currentFilter, excludeOwn, sort)
  {
    if currentFilter != "" {
      rows := FilterRows(m, currentFilter);
    } else {
      rows := AllRows(m);
      rows := DedupRows(rows);
    }
    if excludeOwn {
      rows := ExcludeOwn(m, currentFilter, rows);
    }
    rows := Sorting.SortBy(rows, CompareRows(sort));
  }

  /** What useRows promises: the rows are ordered on the sort column, they
      are exactly the selected rows, rows with equal values keep their
      order, and in the all-composers view no recording id appears twice. */
  lemma UseRowsSpec(m: DataMap, currentFilter: string, excludeOwn: bool, sort: SortState, k: DataRow)
    ensures var rows := SortedRows(m, currentFilter, excludeOwn, sort);
      && (forall i, j :: 0 <= i < j < |rows| ==> CompareRows(sort)(rows[i], rows[j]) <= 0)
      && multiset(rows) == multiset(UnsortedRows(m, currentFilter, excludeOwn))
      && Sorting.EquivClass(rows, CompareRows(sort), k)
         == Sorting.EquivClass(UnsortedRows(m, currentFilter, excludeOwn), CompareRows(sort), k)
      && (currentFilter == "" ==> UniqueIds(rows))
  {
    var cmp := CompareRows(sort);
    var before := UnsortedRows(m, currentFilter, excludeOwn);
    var rows := Sorting.SortBy(before, cmp);
    CompareRowsConsistent(sort);
    Sorting.SortBySorted(before, cmp);
    Sorting.SortByStable(before, cmp, k);
    if currentFilter == "" {
      DedupFromSpec(AllRows(m), {});
      var deduped := Dedup(AllRows(m));
      assert UniqueIds(before) by {
        if excludeOwn {
          var p := (r: DataRow) => !IsOwn(r);
          FilterUnique(deduped, p);
        }
      }
      PermutationKeepsUnique(before, rows);
    }
  }

  lemma {:induction false} FilterUnique(rows: seq<DataRow>, p: DataRow -> bool)
    requires UniqueIds(rows)
    ensures UniqueIds(Filter(rows, p))
  {
    if rows != [] {
      UniqueTail(rows);
      FilterUnique(rows[1..], p);
      var rest := Filter(rows[1..], p);
      if p(rows[0]) {
        forall m | 0 <= m < |rest| && rows[0].track.id != "" ensures rest[m].track.id != rows[0].track.id {
          var k :| 0 <= k < |rows[1..]| && rows[1..][k] == rest[m];
          assert rows[k + 1] == rest[m];
        }
        ConsUnique(rows[0], rest);
      }
    }
  }

  lemma UniqueTail(rows: seq<DataRow>)
    requires rows != [] && UniqueIds(rows)
    ensures UniqueIds(rows[1..])
  {
    forall i, j | 0 <= i < j < |rows[1..]| && rows[1..][i].track.id != ""
      ensures rows[1..][i].track.id != rows[1..][j].track.id
    {
      assert rows[1..][i] == rows[i + 1] && rows[1..][j] == rows[j + 1];
    }
  }

  /** A row whose id no later row has, in front of rows with unique ids. */
  lemma ConsUnique(r: DataRow, rest: seq<DataRow>)
    requires UniqueIds(rest)
    requires forall m :: 0 <= m < |rest| && r.track.id != "" ==> rest[m].track.id != r.track.id
    ensures UniqueIds([r] + rest)
  {
    var out := [r] + rest;
    forall i, j | 0 <= i < j < |out| && out[i].track.id != "" ensures out[i].track.id != out[j].track.id {
      assert out[j] == rest[j - 1];
      if i > 0 {
        assert out[i] == rest[i - 1];
      }
    }
  }

  /** Unique ids survive any reordering. */
  lemma PermutationKeepsUnique(a: seq<DataRow>, b: seq<DataRow>)
    requires UniqueIds(a) && multiset(a) == multiset(b)
    ensures UniqueIds(b)
  {
    forall i, j | 0 <= i < j < |b| && b[i].track.id != "" ensures b[i].track.id != b[j].track.id {
      if b[i] == b[j] {
        TwiceCounted(b, i, j);
        AtMostOnce(a, b[i]);
      } else {
        DistinctRowsOfUnique(a, b[i], b[j]);
      }
    }
  }

  /** An element at two indices is counted twice. */
  lemma TwiceCounted(b: seq<DataRow>, i: int, j: int)
    requires 0 <= i < j < |b| && b[i] == b[j]
    ensures multiset(b)[b[i]] >= 2
  {
    assert b == b[..i] + [b[i]] + b[i + 1..j] + [b[j]] + b[j + 1..];
  }

  /** Two different rows of a sequence with unique ids have different ids,
      or the first has none. */
  lemma DistinctRowsOfUnique(a: seq<DataRow>, r: DataRow, q: DataRow)
    requires UniqueIds(a) && r in multiset(a) && q in multiset(a) && r != q && r.track.id != ""
    ensures r.track.id != q.track.id
  {
    var x :| 0 <= x < |a| && a[x] == r;
    var y :| 0 <= y < |a| && a[y] == q;
    if x < y {
      assert a[x].track.id != a[y].track.id;
    } else {
      assert a[y].track.id != a[x].track.id;
    }
  }

  /** A row with an id occurs at most once in a sequence with unique ids. */
  lemma {:induction false} AtMostOnce(a: seq<DataRow>, r: DataRow)
    requires UniqueIds(a) && r.track.id != ""
    ensures multiset(a)[r] <= 1
  {
    if a != [] {
      assert a == [a[0]] + a[1..];
      if a[0] == r {
        assert r !in a[1..] by {
          forall k | 0 <= k < |a[1..]| ensures a[1..][k] != r {
            assert a[1..][k] == a[k + 1];
            assert a[0].track.id != a[k + 1].track.id;
          }
        }
        assert multiset(a[1..])[r] == 0;
      } else {
        assert UniqueIds(a[1..]) by {
          forall i, j | 0 <= i < j < |a[1..]| && a[1..][i].track.id != ""
            ensures a[1..][i].track.id != a[1..][j].track.id
          {
            assert a[1..][i] == a[i + 1] && a[1..][j] == a[j + 1];
          }
        }
        AtMostOnce(a[1..], r);
      }
    }
  }
}

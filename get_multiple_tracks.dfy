/** Fetching several composers by name, src/commands/get-multiple-tracks.ts:
    the comma-separated list is split, each name trimmed and the blank ones
    dropped; then get-tracks runs for each name, two seconds apart, and a
    failure is logged without stopping the loop. Whether a run fails is a
    parameter: it gives the error of a run, or nothing. */
module GetMultipleTracks {
  import opened Common
  import opened Strings
  import opened CommandEvents

  /** The pause after each name's run, in milliseconds. */
  const FetchIntervalMs: nat := 2000

  /** A name as the parsed list holds it: not empty, no comma, and no white
      space at either end. */
  predicate IsArtistName(s: string) {
    s != [] && ',' !in s && !IsWhitespace(s[0]) && !IsWhitespace(s[|s| - 1])
  }

  /** `.map((s) => s.trim())`. */
  function TrimAll(pieces: seq<string>): (trimmed: seq<string>)
    ensures |trimmed| == |pieces|
    ensures forall i :: 0 <= i < |pieces| ==> trimmed[i] == Trim(pieces[i])
  {
    seq(|pieces|, i requires 0 <= i < |pieces| => Trim(pieces[i]))
  }

  /** `artists.split(',').map(trim).filter(Boolean)`. */
  function ParseArtists(artists: string): (names: seq<string>)
    ensures forall k :: 0 <= k < |names| ==> IsArtistName(names[k])
  {
    var pieces := Split(artists, ',');
    var trimmed := TrimAll(pieces);
    TrimmedPiecesNoComma(artists);
    Filter(trimmed, IsNonEmpty)
  }

  lemma TrimmedPiecesNoComma(artists: string)
    ensures forall i :: 0 <= i < |Split(artists, ',')| ==> ',' !in TrimAll(Split(artists, ','))[i]
  {
    var pieces := Split(artists, ',');
    forall i | 0 <= i < |pieces| ensures ',' !in TrimAll(pieces)[i] {
      assert forall j :: 0 <= j < |pieces[i]| ==> pieces[i][j] != ',';
      TrimInside(pieces[i]);
    }
  }

  /** Splitting the comma-joined names gives the names back when none holds
      a comma. */
  lemma {:induction false} SplitJoin(names: seq<string>)
    requires |names| >= 1
    requires forall k :: 0 <= k < |names| ==> ',' !in names[k]
    ensures Split(Join(names, ','), ',') == names
  {
    if |names| == 1 {
      SplitNoSeparator(names[0], ',');
    } else {
      SplitNoSeparator(names[0], ',');
      SplitJoin(names[1..]);
      SplitAround(names[0], ',', Join(names[1..], ','));
      assert names == [names[0]] + names[1..];
    }
  }

  /** Trimming a name without white space at either end keeps it. */
  lemma TrimTrimmed(s: string)
    requires s != [] && !IsWhitespace(s[0]) && !IsWhitespace(s[|s| - 1])
    ensures Trim(s) == s
  {
  }

  /** Trimming names that are already trimmed keeps them. */
  lemma TrimAllNames(names: seq<string>)
    requires forall k :: 0 <= k < |names| ==> IsArtistName(names[k])
    ensures TrimAll(names) == names
  {
    forall i | 0 <= i < |names| ensures TrimAll(names)[i] == names[i] {
      TrimTrimmed(names[i]);
    }
  }

  /** Names that are non-empty, trimmed and free of commas come back from
      their comma-joined list unchanged and in order. */
  lemma ParseJoined(names: seq<string>)
    requires |names| >= 1
    requires forall k :: 0 <= k < |names| ==> IsArtistName(names[k])
    ensures ParseArtists(Join(names, ',')) == names
  {
    SplitJoin(names);
    TrimAllNames(names);
    FilterAll(names, IsNonEmpty);
  }

  /** A list without a comma names its trimmed text, or nobody when that
      is empty. */
  lemma ParseArtistsPiece(a: string)
    requires ',' !in a
    ensures ParseArtists(a) == if Trim(a) == [] then [] else [Trim(a)]
  {
    SplitNoSeparator(a, ',');
    assert TrimAll([a]) == [Trim(a)];
    assert Filter([Trim(a)], IsNonEmpty) == (if IsNonEmpty(Trim(a)) then [Trim(a)] else []) + Filter([], IsNonEmpty);
  }

  /** A comma ends one name: the names of `a + "," + b` are those of the
      first piece `a`, then those of `b`, each trimmed, in order. */
  lemma ParseArtistsAround(a: string, b: string)
    requires ',' !in a
    ensures ParseArtists(a + "," + b) == ParseArtists(a) + ParseArtists(b)
  {
    var pb := Split(b, ',');
    SplitPieces(a, b);
    TrimAllAppend([a], pb);
    FilterAppend(TrimAll([a]), TrimAll(pb), IsNonEmpty);
    SplitNoSeparator(a, ',');
  }

  lemma SplitPieces(a: string, b: string)
    requires ',' !in a
    ensures Split(a + "," + b, ',') == [a] + Split(b, ',')
  {
    assert a + "," + b == a + [','] + b;
    SplitAround(a, ',', b);
    SplitNoSeparator(a, ',');
  }

  /** Trimming works piece by piece. */
  lemma TrimAllAppend(x: seq<string>, y: seq<string>)
    ensures TrimAll(x + y) == TrimAll(x) + TrimAll(y)
  {
    var whole := TrimAll(x + y);
    var parts := TrimAll(x) + TrimAll(y);
    forall i | 0 <= i < |x + y| ensures whole[i] == parts[i] {
      if i < |x| {
        assert (x + y)[i] == x[i];
      } else {
        assert (x + y)[i] == y[i - |x|];
      }
    }
    assert whole == parts;
  }

  /** A list made only of commas and white space names nobody. */
  lemma BlankListNamesNobody(artists: string)
    requires forall i :: 0 <= i < |artists| ==> artists[i] == ',' || IsWhitespace(artists[i])
    ensures ParseArtists(artists) == []
  {
    var trimmed := TrimAll(Split(artists, ','));
    forall i | 0 <= i < |trimmed| ensures !IsNonEmpty(trimmed[i]) {
      PieceOfBlank(artists, i);
    }
    FilterNone(trimmed, IsNonEmpty);
  }

  /** A piece of a string of commas and white space is white space only. */
  lemma {:induction false} PieceOfBlank(s: string, i: int)
    requires forall j :: 0 <= j < |s| ==> s[j] == ',' || IsWhitespace(s[j])
    requires 0 <= i < |Split(s, ',')|
    ensures Trim(Split(s, ',')[i]) == []
  {
    var piece := Split(s, ',')[i];
    PieceWhite(s, i);
    assert SkipWhitespace(piece, 0) == |piece|;
  }

  lemma {:induction false} PieceWhite(s: string, i: int)
    requires forall j :: 0 <= j < |s| ==> s[j] == ',' || IsWhitespace(s[j])
    requires 0 <= i < |Split(s, ',')|
    ensures forall j :: 0 <= j < |Split(s, ',')[i]| ==> IsWhitespace(Split(s, ',')[i][j])
  {
    if s != [] {
      var rest := Split(s[1..], ',');
      if s[0] == ',' {
        assert Split(s, ',') == [[]] + rest;
        if i > 0 {
          PieceWhite(s[1..], i - 1);
          assert Split(s, ',')[i] == rest[i - 1];
        }
      } else {
        assert Split(s, ',') == [[s[0]] + rest[0]] + rest[1..];
        PieceWhite(s[1..], i);
        if i > 0 {
          assert Split(s, ',')[i] == rest[i];
        }
      }
    }
  }

  /** The events of one name: its run, the logged failure if it fails, and
      the wait. */
  function NameEvents(name: string, failure: seq<string> -> Option<string>): seq<Event> {
    var args := ["--artist", name];
    [Run(args)]
      + (if failure(args).Some? then [Logged(name, failure(args).value)] else [])
      + [Sleep(FetchIntervalMs)]
  }

  /** The events of the loop for these names, given each run's outcome. */
  function FetchEvents(names: seq<string>, failure: seq<string> -> Option<string>): seq<Event> {
    if names == [] then []
    else
      var n := |names| - 1;
      FetchEvents(names[..n], failure) + NameEvents(names[n], failure)
  }

  /** The command: the names parsed from `--artists`, then the loop. */
  method GetMultipleTracksAction(artists: string, failure: seq<string> -> Option<string>) returns (events: seq<Event>)
    ensures events == FetchEvents(ParseArtists(artists), failure)
  {
    var names := ParseArtists(artists);
    events := FetchAll(names, failure);
  }

  /** The command's `for` loop over the names. */
  method FetchAll(names: seq<string>, failure: seq<string> -> Option<string>) returns (events: seq<Event>)
    ensures events == FetchEvents(names, failure)
  {
    events := [];
    var i := 0;
    while i < |names|
      invariant 0 <= i <= |names|
      invariant events == FetchEvents(names[..i], failure)
    {
      assert names[..i + 1][..i] == names[..i];
      var artist := names[i];
      var args := ["--artist", artist];
      var step := [Run(args)];
      var outcome := failure(args);
      if outcome.Some? {
        step := step + [Logged(artist, outcome.value)];
      }
      step := step + [Sleep(FetchIntervalMs)];
      assert step == NameEvents(artist, failure);
      events := events + step;
      assert FetchEvents(names[..i + 1], failure) == FetchEvents(names[..i], failure) + NameEvents(names[i], failure);
      i := i + 1;
    }
    assert names[..|names|] == names;
  }

  /** One name's events hold its one run and one wait. */
  lemma NameEventsShape(name: string, failure: seq<string> -> Option<string>)
    ensures RunsOf(NameEvents(name, failure)) == [["--artist", name]]
    ensures SleepCount(NameEvents(name, failure)) == 1
  {
    var args := ["--artist", name];
    var events := NameEvents(name, failure);
    if failure(args).Some? {
      var logged := Logged(name, failure(args).value);
      assert events == [Run(args), logged, Sleep(FetchIntervalMs)];
      assert events[1..] == [logged, Sleep(FetchIntervalMs)];
      assert events[1..][1..] == [Sleep(FetchIntervalMs)];
      assert RunsOf(events[1..][1..]) == [];
      assert RunsOf(events[1..]) == [];
      assert SleepCount(events[1..]) == 1;
    } else {
      assert events == [Run(args), Sleep(FetchIntervalMs)];
      assert events[1..] == [Sleep(FetchIntervalMs)];
      assert events[1..][1..] == [];
      assert RunsOf(events[1..]) == [];
      assert SleepCount(events[1..]) == 1;
    }
  }

  /** Every name is run exactly once, in order, however many runs fail: the
      runs of the trace are the names' runs, and there is one wait per name. */
  lemma {:induction false} FetchEventsRunsAll(names: seq<string>, failure: seq<string> -> Option<string>)
    ensures RunsOf(FetchEvents(names, failure)) == seq(|names|, k requires 0 <= k < |names| => ["--artist", names[k]])
    ensures SleepCount(FetchEvents(names, failure)) == |names|
  {
    if names != [] {
      var n := |names| - 1;
      FetchEventsRunsAll(names[..n], failure);
      RunsOfAppend(FetchEvents(names[..n], failure), NameEvents(names[n], failure));
      SleepCountAppend(FetchEvents(names[..n], failure), NameEvents(names[n], failure));
      NameEventsShape(names[n], failure);
      assert seq(|names|, k requires 0 <= k < |names| => ["--artist", names[k]])
          == seq(n, k requires 0 <= k < n => ["--artist", names[..n][k]]) + [["--artist", names[n]]];
    }
  }

  /** The trace is the names' own events, name by name in input order. */
  lemma {:induction false} FetchEventsPerName(names: seq<string>, failure: seq<string> -> Option<string>)
    ensures FetchEvents(names, failure)
         == Flatten(seq(|names|, k requires 0 <= k < |names| => NameEvents(names[k], failure)))
  {
    if names != [] {
      var n := |names| - 1;
      FetchEventsPerName(names[..n], failure);
      var front := seq(n, k requires 0 <= k < n => NameEvents(names[..n][k], failure));
      assert seq(|names|, k requires 0 <= k < |names| => NameEvents(names[k], failure))
          == front + [NameEvents(names[n], failure)];
      FlattenAppend(front, [NameEvents(names[n], failure)]);
      assert Flatten([NameEvents(names[n], failure)]) == NameEvents(names[n], failure) by {
        assert [NameEvents(names[n], failure)][1..] == [];
      }
    }
  }

  /** One name's events: its run first, its one wait last, and in between
      the logged failure exactly when the run fails. */
  lemma NameEventsLayout(name: string, failure: seq<string> -> Option<string>)
    ensures var e := NameEvents(name, failure);
      var args := ["--artist", name];
      && e[0] == Run(args)
      && e[|e| - 1] == Sleep(FetchIntervalMs)
      && (failure(args).None? ==> |e| == 2)
      && (failure(args).Some? ==> |e| == 3 && e[1] == Logged(name, failure(args).value))
  {
  }

  /** The argument lists of the runs of a trace, in order. */
  function RunsOf(events: seq<Event>): seq<seq<string>> {
    if events == [] then []
    else (if events[0].Run? then [events[0].args] else []) + RunsOf(events[1..])
  }

  function SleepCount(events: seq<Event>): nat {
    if events == [] then 0
    else (if events[0].Sleep? then 1 else 0) + SleepCount(events[1..])
  }

  lemma {:induction false} RunsOfAppend(a: seq<Event>, b: seq<Event>)
    ensures RunsOf(a + b) == RunsOf(a) + RunsOf(b)
  {
    if a != [] {
      RunsOfAppend(a[1..], b);
      assert (a + b)[1..] == a[1..] + b;
    } else {
      assert a + b == b;
    }
  }

  lemma {:induction false} SleepCountAppend(a: seq<Event>, b: seq<Event>)
    ensures SleepCount(a + b) == SleepCount(a) + SleepCount(b)
  {
    if a != [] {
      SleepCountAppend(a[1..], b);
      assert (a + b)[1..] == a[1..] + b;
    } else {
      assert a + b == b;
    }
  }
}

/** The home page of the preview, preview/src/pages/Home/index.tsx: the
    search box's tokens and the row filter they drive, the 300-row preview
    cap in the all-composers view with its "show all" switch, the footer's
    counts, and the selection handler that resets the switch and writes
    the URL. */
module HomePage {
  import opened Common
  import opened Strings
  import UseData
  import HomeQuery

  // ------------------------------------------------------------------
  // Search tokens
  // ------------------------------------------------------------------

  /** queryTokens: trim, lower-case, split on runs of white space, drop
      empty pieces. Splitting on every white-space character and dropping
      the empty pieces gives the same tokens as splitting on runs. */
  function QueryTokens(q: string): (tokens: seq<string>)
    ensures forall k :: 0 <= k < |tokens| ==> tokens[k] != []
    ensures forall k, i :: 0 <= k < |tokens| && 0 <= i < |tokens[k]| ==>
      !IsWhitespace(tokens[k][i]) && !('A' <= tokens[k][i] <= 'Z')
  {
    var normalized := ToLower(Trim(q));
    if normalized == [] then []
    else
      var tokens := Filter(SplitWhere(normalized, IsWhitespace), IsNonEmpty);
      assert forall k, i :: 0 <= k < |tokens| && 0 <= i < |tokens[k]| ==> tokens[k][i] in normalized by {
        forall k, i | 0 <= k < |tokens| && 0 <= i < |tokens[k]| ensures tokens[k][i] in normalized {
          TokenCharsOfInput(normalized, tokens, k, i);
        }
      }
      tokens
  }

  lemma TokenCharsOfInput(normalized: string, tokens: seq<string>, k: int, i: int)
    requires tokens == Filter(SplitWhere(normalized, IsWhitespace), IsNonEmpty)
    requires 0 <= k < |tokens| && 0 <= i < |tokens[k]|
    ensures tokens[k][i] in normalized
  {
    var pieces := SplitWhere(normalized, IsWhitespace);
    assert tokens[k] in pieces;
    var m :| 0 <= m < |pieces| && pieces[m] == tokens[k];
    PieceCharsOfInput(normalized, m, i);
  }

  lemma {:induction false} PieceCharsOfInput(s: string, m: int, i: int)
    requires 0 <= m < |SplitWhere(s, IsWhitespace)| && 0 <= i < |SplitWhere(s, IsWhitespace)[m]|
    ensures SplitWhere(s, IsWhitespace)[m][i] in s
  {
    var rest := SplitWhere(s[1..], IsWhitespace);
    if s != [] {
      if IsWhitespace(s[0]) {
        PieceCharsOfInput(s[1..], m - 1, i);
      } else if m == 0 {
        if i > 0 {
          PieceCharsOfInput(s[1..], 0, i - 1);
        }
      } else {
        PieceCharsOfInput(s[1..], m, i);
      }
    }
  }

  /** Read back to back, the tokens are the non-white-space characters of
      the lower-cased text, in order: nothing is lost but white space. */
  lemma QueryTokensKeepText(q: string)
    ensures Flatten(QueryTokens(q)) == Without(ToLower(Trim(q)), IsWhitespace)
  {
    var normalized := ToLower(Trim(q));
    if normalized != [] {
      FlattenSplitWhere(normalized, IsWhitespace);
      FlattenDropEmpty(SplitWhere(normalized, IsWhitespace), IsNonEmpty);
    }
  }

  /** Words separated by gaps: `words[0] + gaps[0] + words[1] + ...`. */
  function JoinWithGaps(words: seq<string>, gaps: seq<string>): string
    requires |words| == |gaps| + 1
  {
    if |gaps| == 0 then words[0] else words[0] + gaps[0] + JoinWithGaps(words[1..], gaps[1..])
  }

  predicate IsWord(w: string) {
    w != [] && forall i :: 0 <= i < |w| ==> !IsWhitespace(w[i])
  }

  predicate IsGap(g: string) {
    g != [] && forall i :: 0 <= i < |g| ==> IsWhitespace(g[i])
  }

  /** Each string lower-cased. */
  function LowerAll(ss: seq<string>): (r: seq<string>)
    ensures |r| == |ss| && forall k :: 0 <= k < |ss| ==> r[k] == ToLower(ss[k])
  {
    if ss == [] then [] else [ToLower(ss[0])] + LowerAll(ss[1..])
  }

  /** A query made of words separated by runs of white space, with white
      space around it, gives exactly its words, lower-cased and in order:
      a run of several spaces separates like one, and a word is never cut. */
  lemma QueryTokensOfWords(lead: string, words: seq<string>, gaps: seq<string>, trail: string)
    requires |words| == |gaps| + 1
    requires forall k :: 0 <= k < |words| ==> IsWord(words[k])
    requires forall k :: 0 <= k < |gaps| ==> IsGap(gaps[k])
    requires forall i :: 0 <= i < |lead| ==> IsWhitespace(lead[i])
    requires forall i :: 0 <= i < |trail| ==> IsWhitespace(trail[i])
    ensures QueryTokens(lead + JoinWithGaps(words, gaps) + trail) == LowerAll(words)
  {
    var core := JoinWithGaps(words, gaps);
    JoinWithGapsEnds(words, gaps);
    TrimAround(lead, core, trail);
    ToLowerJoin(words, gaps);
    LowerKeepsWords(words);
    LowerKeepsGaps(gaps);
    SplitWords(LowerAll(words), LowerAll(gaps));
  }

  /** Lower-casing keeps words words. */
  lemma LowerKeepsWords(words: seq<string>)
    requires forall k :: 0 <= k < |words| ==> IsWord(words[k])
    ensures forall k :: 0 <= k < |words| ==> IsWord(LowerAll(words)[k])
  {
    forall k, i | 0 <= k < |words| && 0 <= i < |words[k]| ensures !IsWhitespace(ToLower(words[k])[i]) {
      ToLowerKeepsWhitespace(words[k], i);
    }
  }

  /** Lower-casing keeps gaps gaps. */
  lemma LowerKeepsGaps(gaps: seq<string>)
    requires forall k :: 0 <= k < |gaps| ==> IsGap(gaps[k])
    ensures forall k :: 0 <= k < |gaps| ==> IsGap(LowerAll(gaps)[k])
  {
    forall k, i | 0 <= k < |gaps| && 0 <= i < |gaps[k]| ensures IsWhitespace(ToLower(gaps[k])[i]) {
      ToLowerKeepsWhitespace(gaps[k], i);
    }
  }

  /** A joined text starts and ends with a word character. */
  lemma {:induction false} JoinWithGapsEnds(words: seq<string>, gaps: seq<string>)
    requires |words| == |gaps| + 1
    requires forall k :: 0 <= k < |words| ==> IsWord(words[k])
    ensures var s := JoinWithGaps(words, gaps);
      s != [] && !IsWhitespace(s[0]) && !IsWhitespace(s[|s| - 1])
  {
    assert IsWord(words[0]);
    if |gaps| > 0 {
      JoinWithGapsEnds(words[1..], gaps[1..]);
      var s := JoinWithGaps(words, gaps);
      var tail := JoinWithGaps(words[1..], gaps[1..]);
      assert s == words[0] + gaps[0] + tail;
      assert s[0] == words[0][0];
      assert s[|s| - 1] == tail[|tail| - 1];
    }
  }

  /** Lower-casing a joined text lower-cases each word and each gap. */
  lemma {:induction false} ToLowerJoin(words: seq<string>, gaps: seq<string>)
    requires |words| == |gaps| + 1
    ensures ToLower(JoinWithGaps(words, gaps)) == JoinWithGaps(LowerAll(words), LowerAll(gaps))
  {
    if |gaps| > 0 {
      ToLowerJoin(words[1..], gaps[1..]);
      assert LowerAll(words)[1..] == LowerAll(words[1..]);
      assert LowerAll(gaps)[1..] == LowerAll(gaps[1..]);
      ToLowerAppend(words[0] + gaps[0], JoinWithGaps(words[1..], gaps[1..]));
      ToLowerAppend(words[0], gaps[0]);
    }
  }

  /** Splitting a joined text on white space and dropping the empty pieces
      gives back the words. */
  lemma {:induction false} SplitWords(words: seq<string>, gaps: seq<string>)
    requires |words| == |gaps| + 1
    requires forall k :: 0 <= k < |words| ==> IsWord(words[k])
    requires forall k :: 0 <= k < |gaps| ==> IsGap(gaps[k])
    ensures Filter(SplitWhere(JoinWithGaps(words, gaps), IsWhitespace), IsNonEmpty) == words
  {
    var w := words[0];
    assert IsWord(w);
    if |gaps| == 0 {
      SplitWhereNoSeparator(w, IsWhitespace);
      assert Filter([w], IsNonEmpty) == [w] + Filter([], IsNonEmpty);
    } else {
      var rest := JoinWithGaps(words[1..], gaps[1..]);
      SplitWords(words[1..], gaps[1..]);
      SplitWordThenGap(w, gaps[0], rest);
      assert words == [w] + words[1..];
    }
  }

  /** A word followed by a gap is one token, then the tokens of the rest. */
  lemma SplitWordThenGap(w: string, g: string, rest: string)
    requires IsWord(w) && IsGap(g)
    ensures Filter(SplitWhere(w + g + rest, IsWhitespace), IsNonEmpty)
         == [w] + Filter(SplitWhere(rest, IsWhitespace), IsNonEmpty)
  {
    SplitWhereNoSeparator(w, IsWhitespace);
    assert w + g + rest == w + [g[0]] + (g[1..] + rest);
    SplitWhereAround(w, g[0], g[1..] + rest, IsWhitespace);
    SplitAfterBlank(g[1..], rest);
    FilterAppend([w], SplitWhere(g[1..] + rest, IsWhitespace), IsNonEmpty);
    assert Filter([w], IsNonEmpty) == [w] + Filter([], IsNonEmpty);
  }

  /** White space in front of a text only adds empty pieces. */
  lemma {:induction false} SplitAfterBlank(blank: string, s: string)
    requires forall i :: 0 <= i < |blank| ==> IsWhitespace(blank[i])
    ensures Filter(SplitWhere(blank + s, IsWhitespace), IsNonEmpty) == Filter(SplitWhere(s, IsWhitespace), IsNonEmpty)
  {
    if blank == [] {
      assert blank + s == s;
    } else {
      SplitAfterBlank(blank[1..], s);
      assert (blank + s)[1..] == blank[1..] + s;
      var rest := SplitWhere(blank[1..] + s, IsWhitespace);
      assert (blank + s)[0] == blank[0];
      assert SplitWhere(blank + s, IsWhitespace) == [[]] + rest;
      assert Filter([[]] + rest, IsNonEmpty) == Filter(rest, IsNonEmpty) by {
        assert ([[]] + rest)[1..] == rest;
      }
    }
  }

  /** A query of white space only has no tokens. */
  lemma BlankQueryHasNoTokens(q: string)
    requires forall i :: 0 <= i < |q| ==> IsWhitespace(q[i])
    ensures QueryTokens(q) == []
  {
    assert SkipWhitespace(q, 0) == |q|;
  }

  // ------------------------------------------------------------------
  // The search filter
  // ------------------------------------------------------------------

  /** Every token occurs in the row's search text. */
  predicate Matches(r: UseData.DataRow, tokens: seq<string>) {
    forall k :: 0 <= k < |tokens| ==> Contains(r.searchText, tokens[k])
  }

  /** `rows`: all rows when there is no token, otherwise the rows whose
      search text contains every token. */
  function SearchRows(rowsAll: seq<UseData.DataRow>, tokens: seq<string>): (rows: seq<UseData.DataRow>)
    ensures tokens == [] ==> rows == rowsAll
    ensures |rows| <= |rowsAll|
    ensures forall i :: 0 <= i < |rows| ==> rows[i] in rowsAll && Matches(rows[i], tokens)
    ensures forall i :: 0 <= i < |rowsAll| && Matches(rowsAll[i], tokens) ==> rowsAll[i] in rows
  {
    if |tokens| == 0 then rowsAll
    else Filter(rowsAll, (r: UseData.DataRow) => Matches(r, tokens))
  }

  lemma MatchesAppend(r: UseData.DataRow, a: seq<string>, b: seq<string>)
    ensures Matches(r, a + b) <==> Matches(r, a) && Matches(r, b)
  {
    if Matches(r, a) && Matches(r, b) {
      forall k | 0 <= k < |a + b| ensures Contains(r.searchText, (a + b)[k]) {
        if k >= |a| {
          assert (a + b)[k] == b[k - |a|];
        }
      }
    }
    if Matches(r, a + b) {
      forall k | 0 <= k < |a| ensures Contains(r.searchText, a[k]) {
        assert (a + b)[k] == a[k];
      }
      forall k | 0 <= k < |b| ensures Contains(r.searchText, b[k]) {
        assert (a + b)[|a| + k] == b[k];
      }
    }
  }

  /** The tokens act one after the other: searching for `a + b` is
      searching for `a`, then for `b` among the results. */
  lemma SearchConjunctive(rows: seq<UseData.DataRow>, a: seq<string>, b: seq<string>)
    ensures SearchRows(rows, a + b) == SearchRows(SearchRows(rows, a), b)
  {
    if a == [] {
      assert a + b == b;
    } else if b == [] {
      assert a + b == a;
    } else {
      forall r ensures Matches(r, a + b) == (Matches(r, a) && Matches(r, b)) {
        MatchesAppend(r, a, b);
      }
      FilterFilter(rows, (x: UseData.DataRow) => Matches(x, a), (x: UseData.DataRow) => Matches(x, b),
                   (x: UseData.DataRow) => Matches(x, a + b));
    }
  }

  // ------------------------------------------------------------------
  // The preview cap and the footer
  // ------------------------------------------------------------------

  const PreviewLimit: nat := 300

  /** shouldLimitRows: "All" is selected (the filter is `null`), the rows
      were not all requested, and there are more than 300. */
  predicate ShouldLimit(currentFilter: Option<string>, showAllRows: bool, n: nat) {
    currentFilter.None? && !showAllRows && n > PreviewLimit
  }

  function DisplayedRows(rows: seq<UseData.DataRow>, limit: bool): (shown: seq<UseData.DataRow>)
    requires limit ==> |rows| > PreviewLimit
    ensures limit ==> shown == rows[..PreviewLimit]
    ensures !limit ==> shown == rows
  {
    if limit then rows[..PreviewLimit] else rows
  }

  /** The footer's inputs: the shown count, the overall count, and whether
      the "show all" button appears. */
  datatype FooterView = FooterView(total: nat, overall: nat, showAllButton: bool)

  /** What the page shows for a data map and a query state. */
  datatype PageView = PageView(rows: seq<UseData.DataRow>, footer: FooterView)

  function View(rowsAll: seq<UseData.DataRow>, q: string, currentFilter: Option<string>, showAllRows: bool): (v: PageView)
    ensures |v.rows| <= |SearchRows(rowsAll, QueryTokens(q))|
    ensures v.rows == SearchRows(rowsAll, QueryTokens(q))[..|v.rows|]
    ensures v.footer.total == |v.rows| && v.footer.overall == |SearchRows(rowsAll, QueryTokens(q))|
    ensures v.footer.showAllButton <==> v.footer.total < v.footer.overall
    ensures currentFilter.None? && !showAllRows ==> v.footer.total <= PreviewLimit
    ensures currentFilter.Some? || showAllRows ==> v.rows == SearchRows(rowsAll, QueryTokens(q))
    ensures var found := SearchRows(rowsAll, QueryTokens(q));
      && (v.footer.showAllButton <==> ShouldLimit(currentFilter, showAllRows, |found|))
      && (ShouldLimit(currentFilter, showAllRows, |found|) ==> v.rows == found[..PreviewLimit])
      && (!ShouldLimit(currentFilter, showAllRows, |found|) ==> v.rows == found)
  {
    var rows := SearchRows(rowsAll, QueryTokens(q));
    var limit := ShouldLimit(currentFilter, showAllRows, |rows|);
    var shown := DisplayedRows(rows, limit);
    PageView(shown, FooterView(|shown|, |rows|, limit))
  }

  /** The rows of the page: useRows, with the selected composer passed as
      `""` for `null`, then the search and the cap. */
  function PageRows(m: UseData.DataMap, state: HomeQuery.QueryState, showAllRows: bool): PageView
    reads state
  {
    var rowsAll := UseData.SortedRows(m, state.currentFilter.GetOr(""), state.excludeOwn, state.sort);
    View(rowsAll, state.q, state.currentFilter, showAllRows)
  }

  /** An `id=` left empty in the URL is not `null`, so the page shows every
      composer's rows but never caps them. */
  lemma EmptyIdShowsEverything(m: UseData.DataMap, state: HomeQuery.QueryState, showAllRows: bool)
    requires state.currentFilter == Some("")
    ensures PageRows(m, state, showAllRows).rows
         == SearchRows(UseData.SortedRows(m, "", state.excludeOwn, state.sort), QueryTokens(state.q))
  {
  }

  /** The page: the query hook's state and the "show all" switch. */
  class Home {
    const query: HomeQuery.QueryState
    var showAllRows: bool

    constructor(initialParams: HomeQuery.Params)
      ensures fresh(query)
      ensures query.params == initialParams && query.currentFilter == Lookup(initialParams, "id")
      ensures query.q == "" && !query.excludeOwn && query.sort == HomeQuery.InitialSort
      ensures !showAllRows
    {
      query := new HomeQuery.QueryState(initialParams);
      showAllRows := false;
    }

    method HandleShowAllRows()
      modifies this
      ensures showAllRows
    {
      showAllRows := true;
    }

    /** handleSelect: `""` selects "All" (`null`); the switch is reset and
        the URL's `id` follows the selection. Both hooks write the `id`
        from the same parameters, so the second write repeats the first. */
    method HandleSelect(val: string)
      modifies this, query
      ensures !showAllRows
      ensures query.currentFilter == (if val == "" then None else Some(val))
      ensures query.params == HomeQuery.SetIdParam(old(query.params), query.currentFilter)
      ensures query.q == old(query.q) && query.excludeOwn == old(query.excludeOwn) && query.sort == old(query.sort)
    {
      var v: Option<string> := if val == "" then None else Some(val);
      var params := query.params;
      showAllRows := false;
      query.SetCurrentFilter(v);
      query.params := HomeQuery.SetIdParam(params, v);
    }
  }
}

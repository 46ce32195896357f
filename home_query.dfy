/** The query state of the preview's home page,
    preview/src/hooks/useHomeQuery.ts: the search text, the selected
    composer, the "exclude own" switch and the sort, with the selected
    composer mirrored in the `id` parameter of the URL. The URL's query
    string is modelled as URLSearchParams does it: a list of name/value
    pairs in order. */
module HomeQuery {
  import opened Common
  import UseData

  type Params = seq<(string, string)>

  /** The pairs whose name differs from `name`, in order. */
  function Others(ps: Params, name: string): (r: Params)
    ensures forall i :: 0 <= i < |r| ==> r[i].0 != name && r[i] in ps
    ensures forall i :: 0 <= i < |ps| && ps[i].0 != name ==> ps[i] in r
  {
    Filter(ps, (p: (string, string)) => p.0 != name)
  }

  /** URLSearchParams.delete: every pair with the name goes. */
  function ParamDelete(ps: Params, name: string): (r: Params)
    ensures Lookup(r, name).None?
    ensures Others(r, name) == Others(ps, name)
  {
    var r := Others(ps, name);
    FilterAll(r, (p: (string, string)) => p.0 != name);
    r
  }

  /** URLSearchParams.set: the first pair with the name takes the value and
      the later ones go; without such a pair, one is appended. */
  function ParamSet(ps: Params, name: string, value: string): Params {
    if ps == [] then [(name, value)]
    else if ps[0].0 == name then [(name, value)] + ParamDelete(ps[1..], name)
    else [ps[0]] + ParamSet(ps[1..], name, value)
  }

  /** After `set`, `get` gives the value, exactly one pair has the name, and
      the pairs of other names are as they were. */
  lemma {:induction false} ParamSetSpec(ps: Params, name: string, value: string)
    ensures Lookup(ParamSet(ps, name, value), name) == Some(value)
    ensures Others(ParamSet(ps, name, value), name) == Others(ps, name)
    ensures |ParamSet(ps, name, value)| == |Others(ps, name)| + 1
  {
    var p := (q: (string, string)) => q.0 != name;
    var r := ParamSet(ps, name, value);
    if ps == [] {
      assert Others(r, name) == [];
    } else if ps[0].0 == name {
      var rest := ParamDelete(ps[1..], name);
      assert ps == [ps[0]] + ps[1..];
      FilterAppend([ps[0]], ps[1..], p);
      FilterAppend([(name, value)], rest, p);
      assert Others(rest, name) == rest by {
        FilterAll(rest, p);
      }
    } else {
      ParamSetSpec(ps[1..], name, value);
      var rest := ParamSet(ps[1..], name, value);
      assert r == [ps[0]] + rest;
      assert r[1..] == rest;
      assert ps == [ps[0]] + ps[1..];
      FilterAppend([ps[0]], ps[1..], p);
      FilterAppend([ps[0]], rest, p);
    }
  }

  /** `set` puts the value where the first pair with the name was: the pairs
      before it are unchanged. */
  lemma {:induction false} ParamSetInPlace(ps: Params, name: string, value: string, i: nat)
    requires i < |ps| && ps[i].0 == name
    requires forall j :: 0 <= j < i ==> ps[j].0 != name
    ensures i < |ParamSet(ps, name, value)|
    ensures ParamSet(ps, name, value)[..i] == ps[..i]
    ensures ParamSet(ps, name, value)[i] == (name, value)
  {
    if i > 0 {
      ParamSetInPlace(ps[1..], name, value, i - 1);
      assert ps[1..][..i - 1] == ps[1..i];
      assert ps[..i] == [ps[0]] + ps[1..i];
    }
  }

  /** Without a pair of that name, `set` appends one at the end. */
  lemma {:induction false} ParamSetAppends(ps: Params, name: string, value: string)
    requires forall j :: 0 <= j < |ps| ==> ps[j].0 != name
    ensures ParamSet(ps, name, value) == ps + [(name, value)]
  {
    if ps != [] {
      ParamSetAppends(ps[1..], name, value);
      assert ps == [ps[0]] + ps[1..];
    }
  }

  /** Both hooks' `id` update: `set` for a non-empty id, `delete` otherwise. */
  function SetIdParam(ps: Params, id: Option<string>): (r: Params)
    ensures id.Some? && id.value != "" ==> Lookup(r, "id") == id
    ensures id.None? || id.value == "" ==> Lookup(r, "id").None?
    ensures Others(r, "id") == Others(ps, "id")
  {
    if id.Some? && id.value != "" then
      ParamSetSpec(ps, "id", id.value);
      ParamSet(ps, "id", id.value)
    else ParamDelete(ps, "id")
  }

  /** Updating the id twice with the same value is updating it once. */
  lemma SetIdParamIdempotent(ps: Params, id: Option<string>)
    ensures SetIdParam(SetIdParam(ps, id), id) == SetIdParam(ps, id)
  {
    var r := SetIdParam(ps, id);
    if id.Some? && id.value != "" {
      ParamSetSpec(ps, "id", id.value);
      ParamSetSpec(r, "id", id.value);
      SingleIdSet(r, id.value);
    } else {
      FilterAll(r, (p: (string, string)) => p.0 != "id");
    }
  }

  /** Setting the value a lone pair already holds changes nothing. */
  lemma {:induction false} SingleIdSet(ps: Params, value: string)
    requires Lookup(ps, "id") == Some(value) && |ps| == |Others(ps, "id")| + 1
    ensures ParamSet(ps, "id", value) == ps
  {
    var p := (q: (string, string)) => q.0 != "id";
    assert ps == [ps[0]] + ps[1..];
    FilterAppend([ps[0]], ps[1..], p);
    if ps[0].0 == "id" {
      assert |Others(ps[1..], "id")| == |ps[1..]|;
      FilterKeepsAll(ps[1..], p);
      FilterAll(ps[1..], p);
    } else {
      SingleIdSet(ps[1..], value);
    }
  }

  // ------------------------------------------------------------------
  // The sort toggle
  // ------------------------------------------------------------------

  /** The sort the page starts with: release date, descending. */
  const InitialSort: UseData.SortState := UseData.SortState(UseData.ReleaseDate, false)

  /** toggleSort's transition: the same column flips the direction, another
      column is sorted ascending. */
  function NextSort(prev: UseData.SortState, col: UseData.Column): (next: UseData.SortState)
    ensures next.column == col
    ensures prev.column == col ==> next.asc == !prev.asc
    ensures prev.column != col ==> next.asc
  {
    if prev.column == col then prev.(asc := !prev.asc) else UseData.SortState(col, true)
  }

  /** Clicking the same header twice restores the sort. */
  lemma ToggleTwice(prev: UseData.SortState)
    ensures NextSort(NextSort(prev, prev.column), prev.column) == prev
  {
  }

  /** After clicking another header and then the same header again, the
      sort is on that header, descending. */
  lemma NewColumnThenAgain(prev: UseData.SortState, col: UseData.Column)
    requires prev.column != col
    ensures NextSort(NextSort(prev, col), col) == UseData.SortState(col, false)
  {
  }

  /** The hook's state and the URL parameters it writes. */
  class QueryState {
    var q: string
    var currentFilter: Option<string>
    var excludeOwn: bool
    var sort: UseData.SortState
    var params: Params

    /** The first render: the filter is the URL's `id` as it was then. */
    constructor(initialParams: Params)
      ensures params == initialParams
      ensures currentFilter == Lookup(initialParams, "id")
      ensures q == "" && !excludeOwn && sort == InitialSort
    {
      params := initialParams;
      currentFilter := Lookup(initialParams, "id");
      q := "";
      excludeOwn := false;
      sort := InitialSort;
    }

    method SetQ(v: string)
      modifies this
      ensures q == v
      ensures currentFilter == old(currentFilter) && excludeOwn == old(excludeOwn)
      ensures sort == old(sort) && params == old(params)
    {
      q := v;
    }

    method SetExcludeOwn(v: bool)
      modifies this
      ensures excludeOwn == v
      ensures q == old(q) && currentFilter == old(currentFilter)
      ensures sort == old(sort) && params == old(params)
    {
      excludeOwn := v;
    }

    /** setCurrentFilter: the state takes the value and the URL's `id`
        follows it; every other parameter is kept. */
    method SetCurrentFilter(v: Option<string>)
      modifies this
      ensures currentFilter == v
      ensures params == SetIdParam(old(params), v)
      ensures q == old(q) && excludeOwn == old(excludeOwn) && sort == old(sort)
    {
      currentFilter := v;
      params := SetIdParam(params, v);
    }

    method ToggleSort(col: UseData.Column)
      modifies this
      ensures sort == NextSort(old(sort), col)
      ensures q == old(q) && currentFilter == old(currentFilter)
      ensures excludeOwn == old(excludeOwn) && params == old(params)
    {
      sort := NextSort(sort, col);
    }
  }
}

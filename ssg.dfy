/** The preview's static generation, preview/ssg.ts: the rendered app is
    put inside the root element of the built index.html, each route is
    written under the output directory, and the composer files are listed
    for the built site in `data/files.json`. Rendering itself is a
    parameter: for a request path it gives the app's HTML, or nothing when
    the router answers with a response. */
module Ssg {
  import opened Common
  import opened Strings
  import UseData

  // ------------------------------------------------------------------
  // Injecting the app into the template
  // ------------------------------------------------------------------

  const RootOpen: string := "<div id=\"root\" class=\"h-full\">"
  const CloseDiv: string := "</div>"

  /** The one mount point the template may hold. */
  const RootPlaceholder: string := RootOpen + CloseDiv
  const MountPlaceholders: seq<string> := [RootPlaceholder]

  /** The root element holding the app's HTML. */
  function FilledRoot(appHtml: string): (filled: string)
    ensures filled == RootOpen + appHtml + CloseDiv
    ensures appHtml == [] ==> filled == RootPlaceholder
  {
    NoCloseInRootOpen();
    assert RootPlaceholder == RootOpen + CloseDiv + [];
    ReplaceFirstSplit(RootOpen, CloseDiv, [], appHtml + CloseDiv);
    ReplaceFirst(RootPlaceholder, CloseDiv, appHtml + CloseDiv)
  }

  lemma NoCloseInRootOpen()
    ensures forall j: nat :: j < |RootOpen| ==> !OccursAt(RootOpen + CloseDiv + [], CloseDiv, j)
  {
    var s := RootOpen + CloseDiv + [];
    assert '/' !in RootOpen;
    forall j: nat | j < |RootOpen| ensures !OccursAt(s, CloseDiv, j) {
      assert s[j + 1] != '/' by {
        if j + 1 < |RootOpen| {
          assert s[j + 1] == RootOpen[j + 1];
        } else {
          assert s[j + 1] == CloseDiv[0];
        }
      }
      assert s[j..j + |CloseDiv|][1] == s[j + 1];
    }
  }

  /** injectAppHtml as a value: the first mount point the template holds
      is filled, and a template without one is an error. */
  function Injected(source: string, appHtml: string): (r: Result<string>)
    ensures r.Err? <==> !Contains(source, RootPlaceholder)
    ensures r.Ok? ==>
      var i := IndexOf(source, RootPlaceholder).value;
      r.value == source[..i] + RootOpen + appHtml + CloseDiv + source[i + |RootPlaceholder|..]
  {
    if Contains(source, RootPlaceholder) then Ok(ReplaceFirst(source, RootPlaceholder, FilledRoot(appHtml)))
    else Err("root element not found in dist/index.html")
  }

  /** The loop of injectAppHtml over the mount points. */
  method InjectAppHtml(source: string, appHtml: string) returns (r: Result<string>)
    ensures r == Injected(source, appHtml)
  {
    for k := 0 to |MountPlaceholders|
      invariant forall j :: 0 <= j < k ==> !Contains(source, MountPlaceholders[j])
    {
      var placeholder := MountPlaceholders[k];
      if Contains(source, placeholder) {
        return Ok(ReplaceFirst(source, placeholder, FilledRoot(appHtml)));
      }
    }
    assert MountPlaceholders[0] == RootPlaceholder;
    return Err("root element not found in dist/index.html");
  }

  /** Injecting nothing gives the template back, and injecting something
      changes only the inside of the root element: the app's HTML is
      inserted right before the first placeholder's closing tag. */
  lemma {:induction false} InjectedInsertsOnly(source: string, appHtml: string)
    requires Contains(source, RootPlaceholder)
    ensures Injected(source, []) == Ok(source)
    ensures var i := IndexOf(source, RootPlaceholder).value;
      var at := i + |RootOpen|;
      Injected(source, appHtml) == Ok(source[..at] + appHtml + source[at..])
  {
    var i := IndexOf(source, RootPlaceholder).value;
    FillBetween(source, i, RootOpen, CloseDiv, []);
    var at := i + |RootOpen|;
    assert source[..at] + [] + source[at..] == source;
    FillBetween(source, i, RootOpen, CloseDiv, appHtml);
  }

  /** Putting `x` between `open` and `close` where `s` holds them side by
      side at `i` inserts `x` right after `open`. */
  lemma FillBetween(s: string, i: nat, open: string, close: string, x: string)
    requires i + |open| + |close| <= |s| && s[i..i + |open| + |close|] == open + close
    ensures s[..i] + open + x + close + s[i + |open| + |close|..] == s[..i + |open|] + x + s[i + |open|..]
  {
    assert s[..i + |open|] == s[..i] + open by {
      assert s[i..i + |open|] == (open + close)[..|open|];
    }
    assert s[i + |open|..] == close + s[i + |open| + |close|..] by {
      assert s[i + |open|..i + |open| + |close|] == (open + close)[|open|..];
    }
  }

  // ------------------------------------------------------------------
  // Routes
  // ------------------------------------------------------------------

  /** `basename`: undefined (here `""`) for the base "/", otherwise the base
      path without its trailing slashes. */
  function Basename(basePathEnv: Option<string>): (b: string)
    ensures basePathEnv.None? || basePathEnv.value == "/" ==> b == ""
    ensures basePathEnv.Some? && basePathEnv.value != "/" ==>
      && StartsWith(basePathEnv.value, b)
      && (b == [] || b[|b| - 1] != '/')
      && forall i :: |b| <= i < |basePathEnv.value| ==> basePathEnv.value[i] == '/'
  {
    var env := basePathEnv.GetOr("/");
    if env == "/" then "" else TrimEndChar(env, '/')
  }

  /** appendBaseToRequest. */
  function RequestPath(basename: string, route: string): (p: string)
    ensures basename != "" ==> p == basename + route
    ensures basename == "" ==> p == route
  {
    if basename != "" then basename + route else route
  }

  /** toRouteDir: the directory under dist/ a route is written to. */
  function RouteDir(route: string): (dir: string)
    ensures route == "/" ==> dir == ""
    ensures route != "/" ==> EndsWith(route, dir) && (dir == [] || dir[0] != '/')
    ensures route != "/" ==> forall i :: 0 <= i < |route| - |dir| ==> route[i] == '/'
  {
    if route == "/" then "" else TrimStartChar(route, '/')
  }

  const Paths: seq<string> := ["/"]

  /** A written page: its directory under dist/ and its HTML. */
  datatype Page = Page(routeDir: string, html: string)

  /** What the route loop writes, in order: a route the router answers
      with a response is skipped, and a template without a mount point
      stops the generation. */
  function PagesOf(template: string, basename: string, routes: seq<string>,
                   render: string -> Option<string>): Result<seq<Page>>
  {
    if routes == [] then Ok([])
    else
      var n := |routes| - 1;
      match PagesOf(template, basename, routes[..n], render)
      case Err(e) => Err(e)
      case Ok(pages) =>
        match render(RequestPath(basename, routes[n]))
        case None => Ok(pages)
        case Some(appHtml) =>
          match Injected(template, appHtml)
          case Err(e) => Err(e)
          case Ok(html) => Ok(pages + [Page(RouteDir(routes[n]), html)])
  }

  /** The loop over `paths`. */
  method GeneratePages(template: string, basename: string, routes: seq<string>,
                       render: string -> Option<string>) returns (r: Result<seq<Page>>)
    ensures r == PagesOf(template, basename, routes, render)
  {
    var pages: seq<Page> := [];
    for k := 0 to |routes|
      invariant PagesOf(template, basename, routes[..k], render) == Ok(pages)
    {
      PagesStep(template, basename, routes, k, render, pages);
      var requestPath := RequestPath(basename, routes[k]);
      var context := render(requestPath);
      if context.None? {
        continue;
      }
      var html := InjectAppHtml(template, context.value);
      if html.Err? {
        PagesAbortAt(template, basename, routes, k, render);
        return Err(html.message);
      }
      pages := pages + [Page(RouteDir(routes[k]), html.value)];
    }
    assert routes[..|routes|] == routes;
    r := Ok(pages);
  }

  /** One route of the loop, after the routes before it gave `pages`. */
  lemma PagesStep(template: string, basename: string, routes: seq<string>, k: int,
                  render: string -> Option<string>, pages: seq<Page>)
    requires 0 <= k < |routes| && PagesOf(template, basename, routes[..k], render) == Ok(pages)
    ensures PagesOf(template, basename, routes[..k + 1], render)
         == match render(RequestPath(basename, routes[k]))
            case None => Ok(pages)
            case Some(appHtml) =>
              match Injected(template, appHtml)
              case Err(e) => Err(e)
              case Ok(html) => Ok(pages + [Page(RouteDir(routes[k]), html)])
  {
    assert routes[..k + 1][..k] == routes[..k];
  }

  /** A failure at route `k` is the result of the whole loop. */
  lemma PagesAbortAt(template: string, basename: string, routes: seq<string>, k: int,
                     render: string -> Option<string>)
    requires 0 <= k < |routes| && PagesOf(template, basename, routes[..k + 1], render).Err?
    ensures PagesOf(template, basename, routes, render) == PagesOf(template, basename, routes[..k + 1], render)
  {
    PagesAbort(template, basename, routes[..k + 1], routes[k + 1..], render);
    assert routes[..k + 1] + routes[k + 1..] == routes;
  }

  /** Once the generation has failed, later routes do not matter. */
  lemma {:induction false} PagesAbort(template: string, basename: string, done: seq<string>,
                                      later: seq<string>, render: string -> Option<string>)
    requires PagesOf(template, basename, done, render).Err?
    ensures PagesOf(template, basename, done + later, render) == PagesOf(template, basename, done, render)
    decreases |later|
  {
    if later == [] {
      assert done + later == done;
    } else {
      var n := |later| - 1;
      PagesAbort(template, basename, done, later[..n], render);
      var full := done + later;
      assert full[..|full| - 1] == done + later[..n];
    }
  }

  /** `page` is the template filled with the HTML of one of `routes`,
      written to that route's directory. */
  ghost predicate IsRenderedPage(template: string, basename: string, routes: seq<string>,
                                 render: string -> Option<string>, page: Page)
  {
    exists j :: 0 <= j < |routes| && render(RequestPath(basename, routes[j])).Some?
      && Injected(template, render(RequestPath(basename, routes[j])).value).Ok?
      && page == Page(RouteDir(routes[j]), Injected(template, render(RequestPath(basename, routes[j])).value).value)
  }

  /** A template with its mount point gives one page for every route the
      router renders, in route order, each the template filled with that
      route's HTML. */
  lemma {:induction false} PagesOfRendered(template: string, basename: string, routes: seq<string>,
                                           render: string -> Option<string>)
    requires Contains(template, RootPlaceholder)
    ensures PagesOf(template, basename, routes, render).Ok?
    ensures var pages := PagesOf(template, basename, routes, render).value;
      && |pages| <= |routes|
      && forall k :: 0 <= k < |pages| ==> IsRenderedPage(template, basename, routes, render, pages[k])
  {
    if routes != [] {
      var n := |routes| - 1;
      PagesOfRendered(template, basename, routes[..n], render);
      var pages := PagesOf(template, basename, routes[..n], render).value;
      var full := PagesOf(template, basename, routes, render).value;
      var last := render(RequestPath(basename, routes[n]));
      assert full == if last.None? then pages else pages + [Page(RouteDir(routes[n]), Injected(template, last.value).value)];
      forall k | 0 <= k < |full| ensures IsRenderedPage(template, basename, routes, render, full[k]) {
        if k < |pages| {
          assert IsRenderedPage(template, basename, routes[..n], render, pages[k]);
          var j :| 0 <= j < |routes[..n]| && render(RequestPath(basename, routes[..n][j])).Some?
               && Injected(template, render(RequestPath(basename, routes[..n][j])).value).Ok?
               && pages[k] == Page(RouteDir(routes[..n][j]), Injected(template, render(RequestPath(basename, routes[..n][j])).value).value);
          assert routes[..n][j] == routes[j];
          assert full[k] == pages[k];
        } else {
          assert full[k] == Page(RouteDir(routes[n]), Injected(template, last.value).value);
        }
      }
    }
  }

  /** The site's one route is written to dist/index.html itself. */
  lemma RootPageAtTop(template: string, basename: string, render: string -> Option<string>)
    requires Contains(template, RootPlaceholder)
    requires render(RequestPath(basename, "/")).Some?
    ensures PagesOf(template, basename, Paths, render)
         == Ok([Page("", Injected(template, render(RequestPath(basename, "/")).value).value)])
  {
    assert Paths[0] == "/" && Paths[..0] == [];
    assert PagesOf(template, basename, [], render) == Ok([]);
    var html := Injected(template, render(RequestPath(basename, "/")).value);
    assert html.Ok?;
    assert PagesOf(template, basename, Paths, render) == Ok([] + [Page(RouteDir("/"), html.value)]);
    assert RouteDir("/") == "";
    assert [] + [Page("", html.value)] == [Page("", html.value)];
  }

  // ------------------------------------------------------------------
  // The data files of the built site
  // ------------------------------------------------------------------

  const IndexFileName: string := "files.json"

  /** The composer files copied to dist/data: the `.json` files but the
      index itself. */
  function CopiedFiles(files: seq<string>): (copied: seq<string>)
    ensures forall i :: 0 <= i < |copied| ==> EndsWith(copied[i], ".json") && copied[i] != IndexFileName && copied[i] in files
    ensures forall i :: 0 <= i < |files| && EndsWith(files[i], ".json") && files[i] != IndexFileName ==> files[i] in copied
  {
    Filter(files, (f: string) => EndsWith(f, ".json") && f != IndexFileName)
  }

  /** The entries of dist/data/files.json, in directory order. */
  function DataFileList(files: seq<string>): (list: seq<string>)
    ensures |list| == |CopiedFiles(files)|
    ensures forall i :: 0 <= i < |list| ==> list[i] == "/data/" + CopiedFiles(files)[i]
  {
    var copied := CopiedFiles(files);
    seq(|copied|, i requires 0 <= i < |copied| => "/data/" + copied[i])
  }

  /** The preview keys each listed file by its name without `.json`: the
      built list gives every copied composer file under its own name. */
  lemma ListedKeys(files: seq<string>, i: int)
    requires forall k :: 0 <= k < |files| ==> '/' !in files[k]
    requires 0 <= i < |DataFileList(files)|
    requires var f := CopiedFiles(files)[i];
      forall j: nat :: j < |f| - 5 ==> !OccursAt(f, ".json", j)
    ensures var f := CopiedFiles(files)[i];
      UseData.KeyOfPath(DataFileList(files)[i]) == f[..|f| - 5]
  {
    var f := CopiedFiles(files)[i];
    var name := f[..|f| - 5];
    assert f == name + ".json";
    assert "/data/" + f == "/data" + "/" + name + ".json";
    forall j: nat | j < |name| ensures !OccursAt(name + ".json", ".json", j) {
    }
    UseData.KeyOfDataPath("/data", name);
  }
}

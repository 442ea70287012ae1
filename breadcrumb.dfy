/**
 * The breadcrumb trail (static/js/breadcrumb.js): from the page path to the
 * list of items shown above the page, with the fixed page table, the
 * dynamic routes and the items derived from unknown path segments.
 */
module Breadcrumb {
  import opened Wrappers
  import opened Text

  datatype Item = Item(title: string, icon: string, url: string, isActive: bool)

  datatype Page = Page(title: string, icon: string)

  /** A dynamic route, keyed by its first path segment, with the page it hangs under. */
  datatype Route = Route(title: string, icon: string, parent: string)

  /** breadcrumbMappings: the pages with a fixed title and icon. */
  const Mappings: map<string, Page> := map[
    "/" := Page("Home", "bi-house"),
    "/about" := Page("About", "bi-info-circle"),
    "/features" := Page("Features", "bi-star"),
    "/contact" := Page("Contact", "bi-envelope"),
    "/team" := Page("Team", "bi-people"),
    "/login" := Page("Login", "bi-box-arrow-in-right"),
    "/profile" := Page("Profile", "bi-person"),
    "/roadmaps" := Page("My Roadmaps", "bi-map"),
    "/personas" := Page("Personas", "bi-people"),
    "/demo" := Page("Demo", "bi-play-circle")
  ]

  /** specialRoutes. */
  const SpecialRoutes: map<string, Route> := map[
    "roadmap" := Route("Roadmap", "bi-diagram-3", "/roadmaps"),
    "join" := Route("Join Team", "bi-person-plus", "/roadmaps"),
    "share" := Route("Shared Roadmap", "bi-share", "/"),
    "embed" := Route("Embedded View", "bi-code-square", "/")
  ]

  function HomeItem(active: bool): Item { Item("Home", "bi-house", "/", active) }

  /** The non-empty parts, in order. */
  function NonEmptyParts(parts: seq<string>): (r: seq<string>)
    ensures forall k :: 0 <= k < |r| ==> r[k] != ""
    ensures forall x :: x in r <==> x in parts && x != ""
  {
    if parts == [] then []
    else if parts[0] == "" then NonEmptyParts(parts[1..])
    else [parts[0]] + NonEmptyParts(parts[1..])
  }

  /** pathSegments: the path split on '/', empty parts dropped; no segment is empty or holds a '/'. */
  function Segments(path: string): (segs: seq<string>)
    ensures forall k :: 0 <= k < |segs| ==> segs[k] != "" && forall i :: 0 <= i < |segs[k]| ==> segs[k][i] != '/'
  {
    var parts := Split(path, '/');
    SplitJoin(path, '/');
    var r := NonEmptyParts(parts);
    assert forall k :: 0 <= k < |r| ==> r[k] in parts;
    r
  }

  /** The url after the first segments: each segment preceded by '/'. */
  function PathOf(segs: seq<string>): string {
    if segs == [] then "" else "/" + segs[0] + PathOf(segs[1..])
  }

  lemma {:induction false} PathOfSnoc(segs: seq<string>, s: string)
    ensures PathOf(segs + [s]) == PathOf(segs) + "/" + s
    decreases |segs|
  {
    if segs == [] {
      assert PathOf([s]) == "/" + s + PathOf([]);
    } else {
      assert (segs + [s])[1..] == segs[1..] + [s];
      PathOfSnoc(segs[1..], s);
    }
  }

  /**
   * The title of an unmapped segment: its first character upper-cased,
   * then the rest with every '-' and '_' turned into a space.
   */
  function SegmentTitle(seg: string): (t: string)
    requires seg != ""
    ensures |t| == |seg| && t[0] == UpperChar(seg[0])
    ensures forall i :: 1 <= i < |seg| ==> t[i] == (if seg[i] == '-' || seg[i] == '_' then ' ' else seg[i])
  {
    [UpperChar(seg[0])] + seq(|seg| - 1, i requires 0 <= i < |seg| - 1 =>
                                if seg[i + 1] == '-' || seg[i + 1] == '_' then ' ' else seg[i + 1])
  }

  /** The item for one segment of an unknown route: the table entry of its url if any, else derived. */
  function SegmentItem(seg: string, url: string, isLast: bool): (item: Item)
    requires seg != ""
    ensures item.url == url && item.isActive == isLast
    ensures url in Mappings ==> item.title == Mappings[url].title && item.icon == Mappings[url].icon
    ensures url !in Mappings ==> item.title == SegmentTitle(seg) && item.icon == (if isLast then "bi-file-text" else "bi-folder")
  {
    if url in Mappings then Item(Mappings[url].title, Mappings[url].icon, url, isLast)
    else Item(SegmentTitle(seg), if isLast then "bi-file-text" else "bi-folder", url, isLast)
  }

  /** The items an unknown route adds after Home, one per segment. */
  function UnknownItems(segs: seq<string>): (items: seq<Item>)
    requires forall k :: 0 <= k < |segs| ==> segs[k] != ""
    ensures |items| == |segs|
  {
    seq(|segs|, k requires 0 <= k < |segs| => SegmentItem(segs[k], PathOf(segs[..k + 1]), k == |segs| - 1))
  }

  /** The item of a dynamic route's parent, when the parent is not Home and is in the table. */
  function ParentItems(route: Route): seq<Item> {
    if route.parent != "" && route.parent != "/" && route.parent in Mappings then
      [Item(Mappings[route.parent].title, Mappings[route.parent].icon, route.parent, false)]
    else []
  }

  /** The title of a dynamic route's page: the roadmap's name on a roadmap page once known. */
  function RouteTitle(route: Route, first: string, roadmapName: string): string {
    if first == "roadmap" && roadmapName != "" then roadmapName else route.title
  }

  /**
   * The breadcrumb for a path; roadmapName is the name the roadmap page
   * publishes, "" while it has none.
   */
  function Trail(path: string, roadmapName: string): seq<Item> {
    if path == "/" then [HomeItem(true)]
    else if path in Mappings then [HomeItem(false), Item(Mappings[path].title, Mappings[path].icon, path, true)]
    else DynamicTrail(path, Segments(path), roadmapName)
  }

  /** The breadcrumb of a path that is neither "/" nor in the table, from its segments. */
  function DynamicTrail(path: string, segs: seq<string>, roadmapName: string): seq<Item>
    requires forall k :: 0 <= k < |segs| ==> segs[k] != ""
  {
    if segs == [] then []
    else if segs[0] in SpecialRoutes then
      var route := SpecialRoutes[segs[0]];
      [HomeItem(false)] + ParentItems(route) + [Item(RouteTitle(route, segs[0], roadmapName), route.icon, path, true)]
    else [HomeItem(false)] + UnknownItems(segs)
  }

  /** generateBreadcrumb, building the list by pushes and the unknown-route urls in a loop. */
  method GenerateBreadcrumb(path: string, roadmapName: string) returns (items: seq<Item>)
    ensures items == Trail(path, roadmapName)
  {
    var segs := Segments(path);
    items := [];
    if path == "/" {
      items := items + [HomeItem(true)];
    } else if path in Mappings {
      items := items + [HomeItem(false)];
      var page := Mappings[path];
      items := items + [Item(page.title, page.icon, path, true)];
    } else {
      items := DynamicRouteItems(path, segs, roadmapName);
    }
  }

  /** The dynamic-route branch: nothing without segments, else a special route or the segment items. */
  method DynamicRouteItems(path: string, segs: seq<string>, roadmapName: string) returns (items: seq<Item>)
    requires forall k :: 0 <= k < |segs| ==> segs[k] != ""
    ensures items == DynamicTrail(path, segs, roadmapName)
  {
    items := [];
    if |segs| > 0 {
      var first := segs[0];
      if first in SpecialRoutes {
        items := SpecialRouteItems(SpecialRoutes[first], first, path, roadmapName);
      } else {
        items := items + [HomeItem(false)];
        var rest := UnknownRouteItems(segs);
        items := items + rest;
        assert items == [HomeItem(false)] + UnknownItems(segs);
      }
    }
  }

  /** The pushes for a dynamic route: Home, the parent unless it is Home, then the page itself. */
  method SpecialRouteItems(route: Route, first: string, path: string, roadmapName: string) returns (items: seq<Item>)
    ensures items == [HomeItem(false)] + ParentItems(route) + [Item(RouteTitle(route, first, roadmapName), route.icon, path, true)]
  {
    items := [HomeItem(false)];
    if route.parent != "" && route.parent != "/" {
      if route.parent in Mappings {
        var parent := Mappings[route.parent];
        items := items + [Item(parent.title, parent.icon, route.parent, false)];
      }
    }
    var title := route.title;
    if first == "roadmap" && roadmapName != "" {
      title := roadmapName;
    }
    items := items + [Item(title, route.icon, path, true)];
  }

  /** The forEach over the segments of an unknown route, accumulating the url. */
  method UnknownRouteItems(segs: seq<string>) returns (items: seq<Item>)
    requires forall k :: 0 <= k < |segs| ==> segs[k] != ""
    ensures items == UnknownItems(segs)
  {
    items := [];
    var currentUrl := "";
    var i := 0;
    while i < |segs|
      invariant 0 <= i <= |segs|
      invariant currentUrl == PathOf(segs[..i])
      invariant items == UnknownItems(segs)[..i]
    {
      PathOfSnoc(segs[..i], segs[i]);
      assert segs[..i + 1] == segs[..i] + [segs[i]];
      currentUrl := currentUrl + "/" + segs[i];
      var isLast := i == |segs| - 1;
      var item := SegmentItem(segs[i], currentUrl, isLast);
      assert item == UnknownItems(segs)[i];
      assert UnknownItems(segs)[..i + 1] == UnknownItems(segs)[..i] + [item];
      items := items + [item];
      i := i + 1;
    }
    assert UnknownItems(segs)[..i] == UnknownItems(segs);
  }

  // ---------------------------------------------------------------------------
  // Properties of the trail
  // ---------------------------------------------------------------------------

  /**
   * Every trail is empty or starts with Home and has exactly one active
   * item, its last; it is empty only for a path with no segment that is
   * neither "/" nor in the table.
   */
  lemma TrailShape(path: string, roadmapName: string)
    ensures var items := Trail(path, roadmapName);
            && (items == [] <==> path != "/" && path !in Mappings && Segments(path) == [])
            && (items != [] ==> items[0].title == "Home" && items[0].url == "/"
                                && items[|items| - 1].isActive
                                && forall k :: 0 <= k < |items| - 1 ==> !items[k].isActive)
  {
    if path != "/" && path !in Mappings {
      var segs := Segments(path);
      assert Trail(path, roadmapName) == DynamicTrail(path, segs, roadmapName);
      if segs != [] && segs[0] !in SpecialRoutes {
        UnknownItemsActive(segs);
      }
    }
  }

  /** Home, then the segment items: only the last is active. */
  lemma UnknownItemsActive(segs: seq<string>)
    requires forall k :: 0 <= k < |segs| ==> segs[k] != ""
    requires segs != []
    ensures var items := [HomeItem(false)] + UnknownItems(segs);
            items[|items| - 1].isActive && forall k :: 0 <= k < |items| - 1 ==> !items[k].isActive
  {
    var rest := UnknownItems(segs);
    var items := [HomeItem(false)] + rest;
    forall k | 0 <= k < |items| - 1 ensures !items[k].isActive {
      if k > 0 {
        assert items[k] == rest[k - 1];
      }
    }
    assert items[|items| - 1] == rest[|segs| - 1];
  }

  /** The root path gives Home alone, active. */
  lemma RootTrail(roadmapName: string)
    ensures Trail("/", roadmapName) == [Item("Home", "bi-house", "/", true)]
  {}

  /** A page of the table gives Home, then that page, active, with the path as url. */
  lemma MappedTrail(path: string, roadmapName: string)
    requires path != "/" && path in Mappings
    ensures Trail(path, roadmapName) ==
            [Item("Home", "bi-house", "/", false), Item(Mappings[path].title, Mappings[path].icon, path, true)]
  {}

  /**
   * A dynamic route gives Home, its parent only when the parent is not
   * Home, and the page itself, active with the whole path as url; a roadmap
   * page shows the roadmap's name once it is known.
   */
  lemma SpecialTrail(path: string, roadmapName: string)
    requires path !in Mappings
    requires Segments(path) != [] && Segments(path)[0] in SpecialRoutes
    ensures var items := Trail(path, roadmapName);
            var first := Segments(path)[0];
            && items[0] == HomeItem(false)
            && (first in {"roadmap", "join"} ==> |items| == 3 && items[1] == Item("My Roadmaps", "bi-map", "/roadmaps", false))
            && (first in {"share", "embed"} ==> |items| == 2)
            && items[|items| - 1].url == path && items[|items| - 1].icon == SpecialRoutes[first].icon
            && (first == "roadmap" && roadmapName != "" ==> items[|items| - 1].title == roadmapName)
            && (first == "roadmap" && roadmapName == "" ==> items[|items| - 1].title == "Roadmap")
  {
    assert path != "/" by {
      assert "/" in Mappings;
    }
  }

  /**
   * An unknown route gives one item per segment after Home; the url of the
   * k-th is '/' followed by the first k segments joined by '/', so each url
   * extends the one before it by '/' and its segment.
   */
  lemma UnknownTrail(path: string, roadmapName: string)
    requires path != "/" && path !in Mappings
    requires Segments(path) != [] && Segments(path)[0] !in SpecialRoutes
    ensures var items := Trail(path, roadmapName);
            var segs := Segments(path);
            && |items| == |segs| + 1
            && items[0] == HomeItem(false)
            && (forall k :: 1 <= k <= |segs| ==> items[k].url == PathOf(segs[..k]))
            && (forall k :: 1 <= k < |segs| ==> items[k + 1].url == items[k].url + "/" + segs[k])
  {
    var segs := Segments(path);
    var items := Trail(path, roadmapName);
    var rest := UnknownItems(segs);
    assert items == [HomeItem(false)] + rest;
    UnknownItemUrls(segs);
    forall k | 1 <= k <= |segs| ensures items[k] == rest[k - 1] {}
  }

  /** The url of the k-th segment item is the path of the first k + 1 segments. */
  lemma UnknownItemUrls(segs: seq<string>)
    requires forall k :: 0 <= k < |segs| ==> segs[k] != ""
    ensures var items := UnknownItems(segs);
            && (forall k :: 0 <= k < |segs| ==> items[k].url == PathOf(segs[..k + 1]))
            && (forall k :: 0 < k < |segs| ==> items[k].url == items[k - 1].url + "/" + segs[k])
  {
    forall k | 0 < k < |segs| ensures PathOf(segs[..k + 1]) == PathOf(segs[..k]) + "/" + segs[k] {
      PathOfSnoc(segs[..k], segs[k]);
      assert segs[..k + 1] == segs[..k] + [segs[k]];
    }
  }

  /** A path written as '/'-separated non-empty segments splits back into exactly those segments. */
  lemma SegmentsOfPath(segs: seq<string>)
    requires forall k :: 0 <= k < |segs| ==> segs[k] != "" && forall i :: 0 <= i < |segs[k]| ==> segs[k][i] != '/'
    ensures Segments(PathOf(segs)) == segs
  {
    if segs == [] {
      assert Split("", '/') == [""];
      assert NonEmptyParts([""]) == [];
    } else {
      SplitOfRootedPath(segs);
      NonEmptyPartsOfNonEmpty(segs);
      assert ([""] + segs)[1..] == segs;
      assert NonEmptyParts([""] + segs) == NonEmptyParts(segs);
    }
  }

  lemma SplitOfRootedPath(segs: seq<string>)
    requires segs != []
    requires forall k :: 0 <= k < |segs| ==> forall i :: 0 <= i < |segs[k]| ==> segs[k][i] != '/'
    ensures Split(PathOf(segs), '/') == [""] + segs
  {
    SplitOfPath(segs);
    var tail := segs[0] + PathOf(segs[1..]);
    assert PathOf(segs) == [] + ['/'] + tail;
    SplitAtFirstSeparator([], tail, '/');
  }

  lemma {:induction false} SplitOfPath(segs: seq<string>)
    requires segs != []
    requires forall k :: 0 <= k < |segs| ==> forall i :: 0 <= i < |segs[k]| ==> segs[k][i] != '/'
    ensures Split(segs[0] + PathOf(segs[1..]), '/') == segs
    decreases |segs|
  {
    if |segs| == 1 {
      assert segs[0] + PathOf(segs[1..]) == segs[0];
      SplitWithoutSeparator(segs[0], '/');
    } else {
      var rest := segs[1..];
      SplitOfPath(rest);
      assert segs[0] + PathOf(rest) == segs[0] + ['/'] + (rest[0] + PathOf(rest[1..]));
      SplitAtFirstSeparator(segs[0], rest[0] + PathOf(rest[1..]), '/');
      assert [segs[0]] + rest == segs;
    }
  }

  lemma {:induction false} NonEmptyPartsOfNonEmpty(parts: seq<string>)
    requires forall k :: 0 <= k < |parts| ==> parts[k] != ""
    ensures NonEmptyParts(parts) == parts
    decreases |parts|
  {
    if parts != [] {
      NonEmptyPartsOfNonEmpty(parts[1..]);
      assert [parts[0]] + parts[1..] == parts;
    }
  }

  /**
   * On an unknown route written without empty segments, the last item
   * links to the path itself.
   */
  lemma UnknownTrailEndsAtPath(segs: seq<string>, roadmapName: string)
    requires segs != [] && segs[0] !in SpecialRoutes
    requires forall k :: 0 <= k < |segs| ==> segs[k] != "" && forall i :: 0 <= i < |segs[k]| ==> segs[k][i] != '/'
    requires PathOf(segs) !in Mappings
    ensures var items := Trail(PathOf(segs), roadmapName);
            |items| == |segs| + 1 && items[|segs|].url == PathOf(segs) && items[|segs|].isActive
  {
    SegmentsOfPath(segs);
    assert PathOf(segs) != "/" by {
      assert "/" in Mappings;
    }
    UnknownTrail(PathOf(segs), roadmapName);
    assert segs[..|segs|] == segs;
  }
}

/** The title bar of the admin panel (components/dashboard/header.tsx): the
    title is looked up from the pathname, with one override for article
    edit pages. */
module Header {
  import opened Text

  /** `pageTitles`: the title of each known dashboard pathname. */
  const PageTitles: map<string, string> := map[
    "/" := "Dashboard",
    "/articles" := "All Articles",
    "/articles/new" := "Create Article",
    "/admins" := "Admin Management",
    "/settings" := "Settings"
  ]

  /** Every title the header can show. */
  const Titles: set<string> := {"Dashboard", "All Articles", "Create Article", "Admin Management", "Settings", "Edit Article"}

  /** The override's test: the pathname contains both "/articles/" and "/edit",
      anywhere and in any order. */
  predicate LooksLikeEditPage(pathname: string) {
    Includes(pathname, "/articles/") && Includes(pathname, "/edit")
  }

  /** The title `DashboardHeader` shows for `pathname`: "Edit Article" on a
      path that looks like an edit page; otherwise the mapped title of a
      known pathname, and "Dashboard" for any other. */
  function PageTitle(pathname: string): (title: string)
    ensures LooksLikeEditPage(pathname) ==> title == "Edit Article"
    ensures !LooksLikeEditPage(pathname) && pathname in PageTitles ==> title == PageTitles[pathname]
    ensures !LooksLikeEditPage(pathname) && pathname !in PageTitles ==> title == "Dashboard"
    ensures title in Titles
  {
    var mapped := if pathname in PageTitles && PageTitles[pathname] != "" then PageTitles[pathname] else "Dashboard";
    if LooksLikeEditPage(pathname) then "Edit Article" else mapped
  }

  /** The override is a substring test, not a route match: it is not taken
      on the create page, which keeps its mapped title. */
  lemma CreatePageKeepsItsTitle()
    ensures PageTitle("/articles/new") == "Create Article"
  {
    NotIncludedWithoutChar("/articles/new", "/edit", 2);
  }

  /** A path with an id between "/articles/" and "/edit" gets the override. */
  lemma EditPathGetsOverride(id: string)
    ensures PageTitle("/articles/" + id + "/edit") == "Edit Article"
  {
    IncludesInfix([], "/articles/", id + "/edit");
    assert [] + "/articles/" + (id + "/edit") == "/articles/" + id + "/edit";
    IncludesInfix("/articles/" + id, "/edit", []);
    assert "/articles/" + id + "/edit" + [] == "/articles/" + id + "/edit";
  }

  /** A path made of one segment whose first character after the '/' is
      not the second character of `sub` does not contain a `sub` starting
      with '/'. */
  lemma OneSegmentLacks(c: char, x: string, sub: string)
    requires |sub| >= 2 && sub[0] == '/' && c != sub[1] && c != '/' && '/' !in x
    ensures !Includes(['/', c] + x, sub)
  {
    var s := ['/', c] + x;
    forall i | 0 <= i < |s| - 1 ensures !(s[i] == sub[0] && s[i + 1] == sub[1]) {
      if i >= 2 {
        assert s[i] == x[i - 2];
      }
    }
    NotIncludedWithoutStart(s, sub);
  }

  /** The same for a path of two such segments. */
  lemma TwoSegmentsLack(c: char, x: string, d: char, y: string, sub: string)
    requires |sub| >= 2 && sub[0] == '/' && '/' !in x && '/' !in y
    requires c != sub[1] && c != '/' && d != sub[1] && d != '/'
    ensures !Includes(['/', c] + x + ['/', d] + y, sub)
  {
    var s := ['/', c] + x + ['/', d] + y;
    forall i | 0 <= i < |s| - 1 ensures !(s[i] == sub[0] && s[i + 1] == sub[1]) {
      if 2 <= i < |x| + 2 {
        assert s[i] == x[i - 2];
      } else if i >= |x| + 4 {
        assert s[i] == y[i - |x| - 4];
      }
    }
    NotIncludedWithoutStart(s, sub);
  }

  /** The same for a path of three such segments. */
  lemma ThreeSegmentsLack(c: char, x: string, y: string, e: char, z: string, sub: string)
    requires |sub| >= 2 && sub[0] == '/' && '/' !in x && '/' !in y && '/' !in z
    requires y != [] && c != sub[1] && c != '/' && y[0] != sub[1] && e != sub[1] && e != '/'
    ensures !Includes((['/', c] + x + ['/']) + y + (['/', e] + z), sub)
  {
    var s := (['/', c] + x + ['/']) + y + (['/', e] + z);
    forall i | 0 <= i < |s| - 1 ensures !(s[i] == sub[0] && s[i + 1] == sub[1]) {
      if 2 <= i < |x| + 2 {
        assert s[i] == x[i - 2];
      } else if i == |x| + 2 {
        assert s[i + 1] == y[0];
      } else if |x| + 3 <= i < |x| + |y| + 3 {
        assert s[i] == y[i - |x| - 3];
      } else if i >= |x| + |y| + 5 {
        assert s[i] == z[i - |x| - |y| - 5];
      }
    }
    NotIncludedWithoutStart(s, sub);
  }

  /** The panel's article list route does not contain "/articles/": its
      only '/' is followed by 'A'. */
  lemma ListRouteLacksSegment()
    ensures !Includes("/Adminarticles", "/articles/")
  {
    assert "/Adminarticles" == ['/', 'A'] + "dminarticles";
    OneSegmentLacks('A', "dminarticles", "/articles/");
  }

  /** Nor does the panel's create route: its two '/' are followed by 'A' and 'n'. */
  lemma CreateRouteLacksSegment()
    ensures !Includes("/Adminarticles/newpage", "/articles/")
  {
    assert "/Adminarticles/newpage" == ['/', 'A'] + "dminarticles" + ['/', 'n'] + "ewpage";
    TwoSegmentsLack('A', "dminarticles", 'n', "ewpage", "/articles/");
  }

  /** The list route is not a key of the title map and does not look like
      an edit page. */
  lemma ListRouteUnmapped()
    ensures "/Adminarticles" !in PageTitles
    ensures !LooksLikeEditPage("/Adminarticles")
  {
    ListRouteLacksSegment();
  }

  /** Nor is or does the create route. */
  lemma CreateRouteUnmapped()
    ensures "/Adminarticles/newpage" !in PageTitles
    ensures !LooksLikeEditPage("/Adminarticles/newpage")
  {
    CreateRouteLacksSegment();
  }

  /** Nor does the panel's edit route for an article id that has no '/'
      and does not start with 'a' (ids are numbers). */
  lemma EditRouteLacksSegment(id: string)
    requires id != [] && '/' !in id && id[0] != 'a'
    ensures !Includes("/Adminarticles/" + id + "/editpage", "/articles/")
  {
    assert "/Adminarticles/" == ['/', 'A'] + "dminarticles" + ['/'];
    assert "/editpage" == ['/', 'e'] + "ditpage";
    assert |"/articles/"| == 10 && "/articles/"[0] == '/' && "/articles/"[1] == 'a';
    ThreeSegmentsLack('A', "dminarticles", id, 'e', "ditpage", "/articles/");
  }

  /** The edit route is not a key and, although it contains "/edit", does
      not look like an edit page. */
  lemma EditRouteUnmapped(id: string)
    requires id != [] && '/' !in id && id[0] != 'a'
    ensures "/Adminarticles/" + id + "/editpage" !in PageTitles
    ensures !LooksLikeEditPage("/Adminarticles/" + id + "/editpage")
  {
    EditRouteLacksSegment(id);
    assert |"/Adminarticles/" + id + "/editpage"| > 13;
  }

  /** The keys name "/articles" routes while the panel's article pages live
      under "/Adminarticles": `PageTitle` of the article list, the create
      page and the edit page paths is the fallback "Dashboard". */
  lemma AdminArticlePagesShowDashboard(id: string)
    requires id != [] && '/' !in id && id[0] != 'a'
    ensures PageTitle("/Adminarticles") == "Dashboard"
    ensures PageTitle("/Adminarticles/newpage") == "Dashboard"
    ensures PageTitle("/Adminarticles/" + id + "/editpage") == "Dashboard"
  {
    ListRouteUnmapped();
    CreateRouteUnmapped();
    EditRouteUnmapped(id);
  }
}

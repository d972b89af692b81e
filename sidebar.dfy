/** The admin panel's side menu (components/dashboard/sidebar.tsx): which
    groups are expanded, which links are highlighted for the current
    pathname, and which entries the signed-in administrator may see. */
module Sidebar {
  import opened Types
  import opened Text
  import opened Seqs

  /** A link inside a group. */
  datatype NavChild = NavChild(name: string, href: string)

  /** A menu entry: a link (`href`) or a group (`children`), possibly
      reserved for super administrators. */
  datatype NavItem = NavItem(
    name: string,
    href: Option<string>,
    children: Option<seq<NavChild>>,
    superAdminOnly: bool)

  /** The menu, in display order. */
  const Navigation: seq<NavItem> := [
    NavItem("Dashboard", Some("/"), None, false),
    NavItem("Articles", None, Some([NavChild("All Articles", "/Adminarticles"), NavChild("Create New", "/Adminarticles/newpage")]), false),
    NavItem("Admins", Some("/admins"), None, true),
    NavItem("Settings", Some("/settings"), None, false)
  ]

  /** The groups expanded when the menu is first shown. */
  const InitialExpanded: seq<string> := ["Articles"]

  /** The callback `item => item !== name`. */
  function Other(name: string): string -> bool {
    item => item != name
  }

  /** `prev.filter(item => item !== name)`: every occurrence of `name`
      removed, every other name kept as often as before and in order. */
  function Without(prev: seq<string>, name: string): (r: seq<string>)
    ensures IsSubsequence(r, prev) && name !in r
    ensures multiset(r) == multiset(prev)[name := 0]
    decreases |prev|
  {
    if prev == [] then []
    else
      assert prev == [prev[0]] + prev[1..];
      var rest := Without(prev[1..], name);
      if prev[0] != name then [prev[0]] + rest else rest
  }

  /** `Without` is the `filter` call the component makes. */
  lemma {:induction false} WithoutIsFilter(prev: seq<string>, name: string)
    ensures Without(prev, name) == Filter(Other(name), prev)
    decreases |prev|
  {
    if prev != [] {
      WithoutIsFilter(prev[1..], name);
    }
  }

  /** `toggleExpanded(name)`: an expanded group is collapsed (every copy of
      its name removed, the rest kept in order); a collapsed one is appended
      at the end. */
  function ToggleExpanded(prev: seq<string>, name: string): (r: seq<string>)
    ensures name in prev ==> name !in r && IsSubsequence(r, prev)
    ensures name in prev ==> forall x :: x != name ==> multiset(r)[x] == multiset(prev)[x]
    ensures name !in prev ==> |r| == |prev| + 1 && r[..|prev|] == prev && r[|prev|] == name
  {
    if name in prev then Without(prev, name) else prev + [name]
  }

  /** Opening a collapsed group and closing it again restores the list exactly. */
  lemma ToggleAbsentTwice(prev: seq<string>, name: string)
    requires name !in prev
    ensures ToggleExpanded(ToggleExpanded(prev, name), name) == prev
  {
    var once := prev + [name];
    WithoutIsFilter(once, name);
    FilterAppend(Other(name), prev, [name]);
    FilterKeepsAll(Other(name), prev);
    assert Filter(Other(name), [name]) == [];
  }

  /** Closing an expanded group and opening it again is not the identity:
      the group moves to the end of the list. */
  lemma TogglePresentTwiceReorders()
    ensures ToggleExpanded(ToggleExpanded(["Articles", "Admins"], "Articles"), "Articles") == ["Admins", "Articles"]
  {
    assert Without(["Articles", "Admins"], "Articles") == ["Admins"] by {
      assert ["Articles", "Admins"][1..] == ["Admins"];
      assert ["Admins"][1..] == [];
    }
  }

  /** The menu starts with the "Articles" group open and every other group closed. */
  lemma InitiallyOnlyArticlesExpanded(name: string)
    ensures name in InitialExpanded <==> name == "Articles"
  {
  }

  /** `isActive(href)`: the pathname is exactly `href`. */
  predicate IsActive(pathname: string, href: string) {
    pathname == href
  }

  /** A top-level link is highlighted on its own page only, while a group's
      link with the same `href` is highlighted on every page below it too. */
  lemma LinkHighlightIsExact(href: string, rest: string, name: string)
    ensures IsActive(href, href)
    ensures !IsActive(href + "/" + rest, href)
    ensures ChildHighlighted(href + "/" + rest, NavChild(name, href))
  {
    assert (href + "/" + rest)[..|href + "/"|] == href + "/";
  }

  /** Whether a link inside a group is highlighted: its own page, or any
      page below it (the pathname starts with its `href` and a slash). */
  predicate ChildHighlighted(pathname: string, child: NavChild) {
    IsActive(pathname, child.href) || StartsWith(pathname, child.href + "/")
  }

  /** `isChildActive(children)`: some link of the group is highlighted. */
  function IsChildActive(pathname: string, children: seq<NavChild>): (r: bool)
    ensures r <==> exists i :: 0 <= i < |children| && ChildHighlighted(pathname, children[i])
    decreases |children|
  {
    if children == [] then false
    else
      var rest := IsChildActive(pathname, children[1..]);
      assert forall i :: 1 <= i < |children| ==> children[i] == children[1..][i - 1];
      ChildHighlighted(pathname, children[0]) || rest
  }

  /** The "Articles" group's links. */
  const ArticleLinks: seq<NavChild> := [NavChild("All Articles", "/Adminarticles"), NavChild("Create New", "/Adminarticles/newpage")]

  /** On the new-article page both links of the group are highlighted: "Create
      New" exactly, and "All Articles" because the page lies below it; the
      group itself is therefore shown as active. */
  lemma NewPageHighlightsBoth()
    ensures Navigation[1].children == Some(ArticleLinks)
    ensures ChildHighlighted("/Adminarticles/newpage", ArticleLinks[0])
    ensures ChildHighlighted("/Adminarticles/newpage", ArticleLinks[1])
    ensures IsChildActive("/Adminarticles/newpage", ArticleLinks)
  {
    assert StartsWith("/Adminarticles/newpage", "/Adminarticles" + "/");
  }

  /** The prefix rule needs the slash: a sibling path that merely starts with
      the same letters is not highlighted. */
  lemma PrefixNeedsSlash()
    ensures !ChildHighlighted("/Adminarticlesx", ArticleLinks[0])
  {
    var p := "/Adminarticles" + "/";
    assert "/Adminarticlesx"[..|p|][14] != p[14];
  }

  /** Whether the signed-in administrator is a super administrator
      (`user?.is_super_admin`); nobody signed in counts as not. */
  predicate IsSuperAdmin(user: Option<Admin>) {
    user.Some? && user.value.isSuperAdmin
  }

  /** The hiding rule as the callback of the menu's `map`: an entry is
      rendered unless it is reserved and the user is not a super administrator. */
  function Shown(user: Option<Admin>): NavItem -> bool {
    (item: NavItem) => !item.superAdminOnly || IsSuperAdmin(user)
  }

  /** The entries the menu shows: those not reserved for super
      administrators, and the reserved ones only to a super administrator. */
  function VisibleItems(user: Option<Admin>): (r: seq<NavItem>)
    ensures IsSubsequence(r, Navigation)
    ensures forall item :: item in r <==> item in Navigation && (!item.superAdminOnly || IsSuperAdmin(user))
  {
    FilterSelects(Shown(user), Navigation);
    Filter(Shown(user), Navigation)
  }

  /** A super administrator sees every entry. */
  lemma SuperAdminSeesAll(user: Option<Admin>)
    requires IsSuperAdmin(user)
    ensures VisibleItems(user) == Navigation
  {
    FilterKeepsAll(Shown(user), Navigation);
  }

  /** Filtering four entries of which only the third is rejected. */
  lemma FilterDropsThird(p: NavItem -> bool, a: NavItem, b: NavItem, c: NavItem, d: NavItem)
    requires p(a) && p(b) && !p(c) && p(d)
    ensures Filter(p, [a, b, c, d]) == [a, b, d]
  {
    var s := [a, b, c, d];
    assert s[1..] == [b, c, d] && s[1..][1..] == [c, d] && s[1..][1..][1..] == [d];
    assert [d][1..] == [];
    assert Filter(p, [d]) == [d];
    assert Filter(p, [c, d]) == [d];
    assert Filter(p, [b, c, d]) == [b, d];
  }

  /** Everybody else, including a visitor nobody signed in as, sees every
      entry but "Admins". */
  lemma OthersDoNotSeeAdmins(user: Option<Admin>)
    requires !IsSuperAdmin(user)
    ensures VisibleItems(user) == [Navigation[0], Navigation[1], Navigation[3]]
  {
    var n := Navigation;
    assert n == [n[0], n[1], n[2], n[3]];
    FilterDropsThird(Shown(user), n[0], n[1], n[2], n[3]);
  }
}

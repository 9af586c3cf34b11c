/**
 * The navigation sidebar (components/layout/Sidebar.jsx): which entry of
 * the fixed navigation list is highlighted for the current path.
 */
module Sidebar {
  import opened Strings

  datatype Item = Item(name: string, href: string)

  const Navigation: seq<Item> := [
    Item("Dashboard", "/dashboard"),
    Item("Employees", "/employees"),
    Item("Programs", "/programs"),
    Item("Courses", "/courses"),
    Item("Enrollments", "/enrollments"),
    Item("Assessments", "/assessments"),
    Item("Certifications", "/certifications"),
    Item("Calendar", "/calendar"),
    Item("My Progress", "/progress"),
    Item("Reports", "/reports"),
    Item("AI Recommendations", "/recommendations"),
    Item("Notifications", "/notifications")]

  /** `pathname === href || pathname.startsWith(href + '/')`. */
  predicate IsActive(pathname: string, href: string) {
    pathname == href || StartsWith(pathname, href + "/")
  }

  /** An entry is active for its own path and for every path below it, and for no other. */
  lemma IsActiveMeaning(pathname: string, href: string)
    ensures IsActive(pathname, href) <==> pathname == href || exists rest :: pathname == href + "/" + rest
  {
    if StartsWith(pathname, href + "/") {
      var rest := pathname[|href| + 1..];
      assert pathname == pathname[..|href| + 1] + rest;
    }
    if exists rest :: pathname == href + "/" + rest {
      var rest :| pathname == href + "/" + rest;
      assert pathname[..|href + "/"|] == href + "/";
    }
  }

  /** Sharing a prefix is not enough: the next character must be a slash. */
  lemma ActiveExamples()
    ensures IsActive("/courses", "/courses") && IsActive("/courses/42/edit", "/courses")
    ensures !IsActive("/coursesX", "/courses") && !IsActive("/course", "/courses") && !IsActive("/", "/dashboard")
  {
    assert "/coursesX"[..9] != "/courses/" by {
      assert "/coursesX"[8] != "/courses/"[8];
    }
  }

  /** Two entries active for the same path lie on one branch: one is the other or above it. */
  lemma ActiveNest(pathname: string, a: string, b: string)
    requires IsActive(pathname, a) && IsActive(pathname, b)
    ensures IsActive(a, b) || IsActive(b, a)
  {
    if pathname != a && pathname != b {
      if |a| < |b| {
        assert b[..|a| + 1] == pathname[..|a| + 1] == a + "/";
      } else if |b| < |a| {
        assert a[..|b| + 1] == pathname[..|b| + 1] == b + "/";
      } else {
        assert a == pathname[..|a|] == b;
      }
    } else if pathname == a && pathname != b {
      assert StartsWith(a, b + "/");
    } else if pathname == b && pathname != a {
      assert StartsWith(b, a + "/");
    }
  }

  /** A slash followed by one non-empty segment. */
  predicate OneSegment(href: string) {
    |href| >= 2 && href[0] == '/' && forall k :: 1 <= k < |href| ==> href[k] != '/'
  }

  /** A one-segment path lies below no other one-segment path. */
  lemma OneSegmentsDoNotNest(a: string, b: string)
    requires OneSegment(a) && OneSegment(b) && a != b
    ensures !IsActive(b, a)
  {
    SlashAfterPrefix(b, a);
  }

  lemma SlashAfterPrefix(b: string, a: string)
    ensures StartsWith(b, a + "/") ==> |a| < |b| && b[|a|] == '/'
  {
    if StartsWith(b, a + "/") {
      assert b[..|a| + 1][|a|] == (a + "/")[|a|];
    }
  }

  /** Every entry is one segment deep. */
  lemma NavigationOneSegment()
    ensures forall i :: 0 <= i < |Navigation| ==> OneSegment(Navigation[i].href)
  {
    forall i | 0 <= i < |Navigation| ensures OneSegment(Navigation[i].href) {
      if i < 6 {
        FirstSixOneSegment(i);
      } else {
        LastSixOneSegment(i);
      }
    }
  }

  lemma FirstSixOneSegment(i: int)
    requires 0 <= i < 6
    ensures OneSegment(Navigation[i].href)
  {
  }

  lemma LastSixOneSegment(i: int)
    requires 6 <= i < 12
    ensures OneSegment(Navigation[i].href)
  {
  }

  /** No two entries share a path: they differ in their second character or their length, but for two. */
  lemma NavigationDistinct()
    ensures forall i, j :: 0 <= i < j < |Navigation| ==> Navigation[i].href != Navigation[j].href
  {
    forall i, j | 0 <= i < j < |Navigation| ensures Navigation[i].href != Navigation[j].href {
      var a, b := Navigation[i].href, Navigation[j].href;
      assert a[1] != b[1] || |a| != |b| || a[6] != b[6];
    }
  }

  /** At most one entry of the sidebar is highlighted, whatever the path. */
  lemma AtMostOneActive(pathname: string)
    ensures forall i, j ::
              (0 <= i < |Navigation| && 0 <= j < |Navigation|
               && IsActive(pathname, Navigation[i].href) && IsActive(pathname, Navigation[j].href)) ==> i == j
  {
    NavigationOneSegment();
    NavigationDistinct();
    forall i, j | 0 <= i < |Navigation| && 0 <= j < |Navigation|
                  && IsActive(pathname, Navigation[i].href) && IsActive(pathname, Navigation[j].href)
      ensures i == j
    {
      if i != j {
        var a, b := Navigation[i].href, Navigation[j].href;
        ActiveNest(pathname, a, b);
        OneSegmentsDoNotNest(a, b);
        OneSegmentsDoNotNest(b, a);
      }
    }
  }
}

/** The current-page marker of site.js (`initActiveNav`): the navigation link
    whose target names the page being shown gets `is-current` and
    `aria-current="page"`. */
module ActiveNav {
  import opened Text

  const DefaultPage := "index.html"

  /** The page name of a location path: the text after its last '/', or the
      default page when that is empty. */
  function CurrentPage(pathname: string): (r: string)
    ensures r != [] && '/' !in r
  {
    var k := LastIndexOf(pathname, '/') + 1;
    var page := pathname[k..];
    assert forall m :: 0 <= m < |page| ==> page[m] == pathname[k + m] && page[m] != '/';
    if page == "" then DefaultPage else page
  }

  /** A path naming a file in a directory selects that file, and a path that
      ends at a directory selects the default page. */
  lemma CurrentPageOfPath(directory: string, page: string)
    requires '/' !in page
    ensures CurrentPage(directory + "/" + page) == (if page == "" then DefaultPage else page)
  {
    LastIndexOfAfter(directory + "/", page, '/');
    assert directory + "/" + page == (directory + "/") + page;
    assert (directory + "/" + page)[|directory| + 1..] == page;
  }

  /** The part of an `href` before its first '#' (a missing attribute reads
      as ""). */
  function LinkTarget(href: string): (r: string)
    ensures '#' !in r && r <= href
  {
    href[..IndexOf(href, '#')]
  }

  /** A fragment does not change the page a link names. */
  lemma LinkTargetIgnoresFragment(page: string, fragment: string)
    requires '#' !in page
    ensures LinkTarget(page + "#" + fragment) == page
  {
    var s := page + "#" + fragment;
    assert s[|page|] == '#';
    assert forall k :: 0 <= k < |page| ==> s[k] == page[k];
    assert s[..|page|] == page;
  }

  /** A link is current when its target is the current page. */
  predicate IsCurrentLink(href: string, pathname: string) {
    LinkTarget(href) == CurrentPage(pathname)
  }

  /** A link without a page part (no `href`, or only a fragment) is never
      current, nor is one whose target has a directory in it. */
  lemma NeverCurrentWithoutPage(href: string, pathname: string)
    requires LinkTarget(href) == "" || '/' in LinkTarget(href)
    ensures !IsCurrentLink(href, pathname)
  {
  }

  /** A link of `.nav-links`: its `href`, its `is-current` class and whether
      it carries `aria-current="page"`. */
  datatype NavLink = NavLink(href: string, isCurrent: bool, ariaCurrent: bool)

  /** Every link is marked, by its class and its attribute alike, exactly
      when it is current. */
  method MarkCurrent(links: array<NavLink>, pathname: string)
    modifies links
    ensures forall i :: 0 <= i < links.Length ==>
              && links[i].href == old(links[i].href)
              && links[i].isCurrent == IsCurrentLink(links[i].href, pathname)
              && links[i].ariaCurrent == links[i].isCurrent
  {
    var currentPath := CurrentPage(pathname);
    var i := 0;
    while i < links.Length
      invariant 0 <= i <= links.Length
      invariant forall k :: 0 <= k < i ==>
                  && links[k].href == old(links[k].href)
                  && links[k].isCurrent == IsCurrentLink(links[k].href, pathname)
                  && links[k].ariaCurrent == links[k].isCurrent
      invariant forall k :: i <= k < links.Length ==> links[k] == old(links[k])
    {
      var isCurrent := LinkTarget(links[i].href) == currentPath;
      links[i] := links[i].(isCurrent := isCurrent, ariaCurrent := isCurrent);
      i := i + 1;
    }
  }
}

/** The navigation bar: which link `updateActiveNavLink` marks active, and
    the `active` flags of the hamburger button and the menu that the
    handlers of `initNavigation` flip. */
module Navigation {
  import opened JsStrings

  datatype Option<T> = None | Some(value: T)

  /** The page assumed when the path ends in `/`. */
  const IndexPage := "index.html"

  /** `window.location.pathname.split('/').pop() || 'index.html'`: the text
      after the last `/`, or `index.html` when that text is empty. */
  function CurrentPage(path: string): (page: string)
    ensures page != [] && '/' !in page
  {
    var last := Last(Split(path, '/'));
    if last == [] then IndexPage else last
  }

  /** For an empty path or one that ends in `/` the `index.html` default
      applies; otherwise the current page is the non-empty end of the path
      after its last `/` (or the whole path when it has none). */
  lemma {:induction false} CurrentPageSpec(path: string)
    ensures (path == [] || path[|path| - 1] == '/') ==> CurrentPage(path) == IndexPage
    ensures !(path == [] || path[|path| - 1] == '/') ==>
              var page := CurrentPage(path);
              && |page| <= |path| && page == path[|path| - |page|..]
              && '/' !in page
              && (|page| < |path| ==> path[|path| - |page| - 1] == '/')
  {
    var last := Last(Split(path, '/'));
    LastPieceIsFinalSegment(path, '/');
    LastPieceEmpty(path, '/');
    if path == [] || path[|path| - 1] == '/' {
      assert last == [];
    } else {
      assert CurrentPage(path) == last;
    }
  }

  /** The second half of the test in `updateActiveNavLink`
      (`currentPage === '' && href === 'index.html'`) never holds, so a
      link is active exactly when its `href` is the current page. */
  lemma ActiveTestIsEquality(path: string, href: Option<string>)
    ensures var page := CurrentPage(path);
            (href == Some(page) || (page == "" && href == Some(IndexPage))) <==> href == Some(page)
  {
  }

  /** The site's own pages. */
  lemma {:induction false} PageOfRoot(path: string)
    requires path == "/"
    ensures CurrentPage(path) == IndexPage
  {
    CurrentPageSpec(path);
  }

  lemma {:induction false} PageOfFile(path: string)
    requires path == "/services.html"
    ensures CurrentPage(path) == "services.html"
  {
    var rest := path[1..];
    assert '/' !in rest;
    SplitWithoutSeparator(rest, '/');
    assert Split(path, '/') == [[]] + [rest];
  }

  /** The `active` classes of the hamburger button and of the menu. */
  datatype MenuFlags = MenuFlags(hamburger: bool, menu: bool)

  /** A click on the hamburger button. Without the button there is no
      handler and nothing happens; without the menu the handler flips the
      button and then stops with a `TypeError`. */
  function HamburgerClick(m: MenuFlags, hasHamburger: bool, hasMenu: bool): (r: MenuFlags)
    ensures r.hamburger == (m.hamburger != hasHamburger)
    ensures r.menu == (m.menu != (hasHamburger && hasMenu))
  {
    if !hasHamburger then m
    else if !hasMenu then m.(hamburger := !m.hamburger)
    else MenuFlags(!m.hamburger, !m.menu)
  }

  predicate HamburgerClickThrows(hasHamburger: bool, hasMenu: bool) {
    hasHamburger && !hasMenu
  }

  /** A click on a navigation link. Without the button the handler stops
      with a `TypeError` before changing anything; without the menu it
      stops after clearing the button. */
  function NavLinkClick(m: MenuFlags, hasHamburger: bool, hasMenu: bool): (r: MenuFlags)
    ensures r.hamburger == (m.hamburger && !hasHamburger)
    ensures r.menu == (m.menu && !(hasHamburger && hasMenu))
  {
    if !hasHamburger then m
    else if !hasMenu then m.(hamburger := false)
    else MenuFlags(false, false)
  }

  predicate NavLinkClickThrows(hasHamburger: bool, hasMenu: bool) {
    !hasHamburger || !hasMenu
  }

  /** Two clicks on the hamburger button restore both flags, whichever
      elements the page has. */
  lemma HamburgerTwiceRestores(m: MenuFlags, hasHamburger: bool, hasMenu: bool)
    ensures HamburgerClick(HamburgerClick(m, hasHamburger, hasMenu), hasHamburger, hasMenu) == m
  {
  }

  /** With both elements present the two flags stay equal through any
      click, and a link click closes the menu. */
  lemma FlagsStayEqual(m: MenuFlags)
    requires m.hamburger == m.menu
    ensures var r := HamburgerClick(m, true, true); r.hamburger == r.menu && r.hamburger != m.hamburger
    ensures NavLinkClick(m, true, true) == MenuFlags(false, false)
  {
  }

  /** Without the menu element a hamburger click separates the flags. */
  lemma MissingMenuSeparatesFlags(m: MenuFlags)
    requires m.hamburger == m.menu
    ensures var r := HamburgerClick(m, true, false); r.hamburger != r.menu
  {
  }

  /** The navigation bar as the script sees it. */
  class NavBar {
    /** Whether the page has `#hamburger` and `#navMenu`. */
    const hasHamburger: bool
    const hasMenu: bool
    /** The `href` attribute of each `.nav-link`, in document order
        (`None` when the attribute is missing). */
    const hrefs: seq<Option<string>>
    /** Whether each `.nav-link` has the `active` class. */
    var linkActive: seq<bool>
    var hamburgerActive: bool
    var menuActive: bool

    ghost predicate Valid()
      reads this
    {
      |linkActive| == |hrefs|
    }

    function Flags(): MenuFlags
      reads this
    {
      MenuFlags(hamburgerActive, menuActive)
    }

    constructor (hasHamburger: bool, hasMenu: bool, hrefs: seq<Option<string>>)
      ensures Valid()
      ensures this.hasHamburger == hasHamburger && this.hasMenu == hasMenu && this.hrefs == hrefs
      ensures forall k :: 0 <= k < |linkActive| ==> !linkActive[k]
      ensures Flags() == MenuFlags(false, false)
    {
      this.hasHamburger := hasHamburger;
      this.hasMenu := hasMenu;
      this.hrefs := hrefs;
      linkActive := seq(|hrefs|, k => false);
      hamburgerActive := false;
      menuActive := false;
    }

    /** `updateActiveNavLink`: marks active exactly the links whose `href`
        is the current page, and clears every other link. */
    method UpdateActiveNavLink(path: string)
      requires Valid()
      modifies this`linkActive
      ensures Valid()
      ensures forall k :: 0 <= k < |hrefs| ==> (linkActive[k] <==> hrefs[k] == Some(CurrentPage(path)))
    {
      var currentPage := CurrentPage(path);
      var i := 0;
      while i < |hrefs|
        invariant 0 <= i <= |hrefs| && |linkActive| == |hrefs|
        invariant forall k :: 0 <= k < i ==> (linkActive[k] <==> hrefs[k] == Some(currentPage))
      {
        var href := hrefs[i];
        if href == Some(currentPage) || (currentPage == "" && href == Some(IndexPage)) {
          linkActive := linkActive[i := true];
        } else {
          linkActive := linkActive[i := false];
        }
        i := i + 1;
      }
    }

    /** The click handler of the hamburger button; `threw` tells whether it
        stopped with a `TypeError`. */
    method ClickHamburger() returns (threw: bool)
      modifies this`hamburgerActive, this`menuActive
      ensures Flags() == HamburgerClick(old(Flags()), hasHamburger, hasMenu)
      ensures threw == HamburgerClickThrows(hasHamburger, hasMenu)
    {
      threw := false;
      if hasHamburger {
        hamburgerActive := !hamburgerActive;
        if !hasMenu {
          return true;
        }
        menuActive := !menuActive;
      }
    }

    /** The click handler of every navigation link. */
    method ClickNavLink() returns (threw: bool)
      modifies this`hamburgerActive, this`menuActive
      ensures Flags() == NavLinkClick(old(Flags()), hasHamburger, hasMenu)
      ensures threw == NavLinkClickThrows(hasHamburger, hasMenu)
    {
      if !hasHamburger {
        return true;
      }
      hamburgerActive := false;
      if !hasMenu {
        return true;
      }
      menuActive := false;
      threw := false;
    }
  }
}

/**
 * The page as the component loader sees it (assets/js/components.js): the
 * placeholders that `load` fills, the navigation elements that `initNav`
 * wires and rewrites, and the root prefix computed once when the script runs.
 */
module Components {
  import opened Wrappers
  import opened Paths
  import opened Nav
  import opened Toggle

  /** The placeholder whose loading triggers `initNav`. */
  const HeaderPlaceholder: string := "header-placeholder"

  /**
   * What became of the fetch of a fragment: Failed stands for a response that
   * is not ok, a rejected fetch and a body that could not be read, which all
   * end in the same `catch`.
   */
  datatype Fetch = Failed | Succeeded(body: string)

  /** The observable effects of the loader, in the order they happen. */
  datatype Event =
    | Replaced(id: string)  // a placeholder's inner markup was replaced
    | NavInitialised        // initNav started
    | Warned                // the catch logged a warning

  class Page {
    /** The root prefix, fixed when the script runs. */
    const root: string
    /** `window.location.pathname`. */
    const currentPath: string
    /** The browser's URL resolution of anchors. */
    const pathOf: PathOf
    /** Whether `.nav-toggle` and `.site-nav` exist. */
    const hasToggle: bool
    const hasSiteNav: bool
    /** The anchor `.site-logo` selects, as an index into `anchors`. */
    const logo: Option<nat>
    /** Every anchor of the page, in document order. */
    const anchors: array<Anchor>

    /** The `open` classes of the nav and the toggle, the toggle's `aria-expanded`. */
    var navOpen: bool
    var toggleOpen: bool
    var ariaExpanded: Option<string>
    /** How many click listeners the toggle carries. */
    var listeners: nat
    /** The inner markup of each placeholder element, by id. */
    var placeholders: map<string, string>
    var events: seq<Event>

    /**
     * The logo is one of the anchors, only a page with a `.site-nav` has
     * anchors inside it, and the toggle carries a listener only when both the
     * toggle and the nav exist.
     */
    ghost predicate Valid()
      reads this, anchors
    {
      && (logo.Some? ==> logo.value < anchors.Length)
      && (forall i :: 0 <= i < anchors.Length && anchors[i].inSiteNav ==> hasSiteNav)
      && (listeners > 0 ==> hasToggle && hasSiteNav)
    }

    function ToggleView(): ToggleState
      reads this
    {
      ToggleState(navOpen, toggleOpen, ariaExpanded)
    }

    /** The page when the script runs: the root prefix is computed here, once. */
    constructor (baseHref: Option<string>, pathname: string, pathOf: PathOf,
                 page: seq<Anchor>, hasToggle: bool, hasSiteNav: bool, logo: Option<nat>,
                 navOpen: bool, toggleOpen: bool, ariaExpanded: Option<string>,
                 placeholders: map<string, string>)
      requires logo.Some? ==> logo.value < |page|
      requires forall i :: 0 <= i < |page| && page[i].inSiteNav ==> hasSiteNav
      ensures Valid() && fresh(anchors)
      ensures root == RootPath(baseHref, pathname) && currentPath == pathname && this.pathOf == pathOf
      ensures anchors[..] == page && this.hasToggle == hasToggle && this.hasSiteNav == hasSiteNav
      ensures this.logo == logo && this.placeholders == placeholders
      ensures ToggleView() == ToggleState(navOpen, toggleOpen, ariaExpanded)
      ensures listeners == 0 && events == []
    {
      root := RootPath(baseHref, pathname);
      currentPath := pathname;
      this.pathOf := pathOf;
      anchors := new Anchor[|page|](i requires 0 <= i < |page| => page[i]);
      this.hasToggle, this.hasSiteNav, this.logo := hasToggle, hasSiteNav, logo;
      this.navOpen, this.toggleOpen, this.ariaExpanded := navOpen, toggleOpen, ariaExpanded;
      this.placeholders := placeholders;
      listeners := 0;
      events := [];
    }

    /**
     * `load(url, placeholderId)` once its fetch has settled: nothing without
     * the placeholder; a warning and no change when the fetch failed; else the
     * placeholder's markup is the body, and for the header `initNav` runs
     * after that, a throw inside it ending in the same warning.
     */
    method Load(id: string, outcome: Fetch) returns (warned: bool)
      requires Valid()
      modifies this, anchors
      ensures Valid()
      ensures id !in old(placeholders) ==>
        && !warned && placeholders == old(placeholders) && events == old(events)
        && anchors[..] == old(anchors[..])
        && listeners == old(listeners) && ToggleView() == old(ToggleView())
      ensures id in old(placeholders) && outcome.Failed? ==>
        && warned && placeholders == old(placeholders) && events == old(events) + [Warned]
        && anchors[..] == old(anchors[..])
        && listeners == old(listeners) && ToggleView() == old(ToggleView())
      ensures id in old(placeholders) && outcome.Succeeded? && id != HeaderPlaceholder ==>
        && !warned && placeholders == old(placeholders)[id := outcome.body]
        && events == old(events) + [Replaced(id)]
        && anchors[..] == old(anchors[..])
        && listeners == old(listeners) && ToggleView() == old(ToggleView())
      ensures id in old(placeholders) && outcome.Succeeded? && id == HeaderPlaceholder ==>
        var p := InitNavAnchors(old(anchors[..]), currentPath, pathOf, hasSiteNav, logo, root);
        && placeholders == old(placeholders)[id := outcome.body]
        && anchors[..] == p.anchors
        && warned == !p.completed
        && events == old(events) + [Replaced(id), NavInitialised] + (if warned then [Warned] else [])
        && listeners == old(listeners) + (if hasToggle && hasSiteNav then 1 else 0)
        && ToggleView() == old(ToggleView())
    {
      warned := false;
      if id !in placeholders {
        return;
      }
      match outcome {
        case Failed =>
          warned := true;
        case Succeeded(body) =>
          placeholders := placeholders[id := body];
          events := events + [Replaced(id)];
          if id == HeaderPlaceholder {
            var completed := InitNav();
            warned := !completed;
          }
      }
      if warned {
        events := events + [Warned];
      }
    }

    /**
     * `initNav()`: wires the toggle, marks the active links and, when the
     * marking did not throw and there is a `.site-nav`, rewrites the links and
     * the logo. `completed` is false when the marking threw.
     */
    method InitNav() returns (completed: bool)
      requires Valid()
      modifies this, anchors
      ensures Valid()
      ensures var p := InitNavAnchors(old(anchors[..]), currentPath, pathOf, hasSiteNav, logo, root);
        anchors[..] == p.anchors && completed == p.completed
      ensures events == old(events) + [NavInitialised]
      ensures listeners == old(listeners) + (if hasToggle && hasSiteNav then 1 else 0)
      ensures ToggleView() == old(ToggleView()) && placeholders == old(placeholders)
    {
      events := events + [NavInitialised];
      WireToggle();
      completed := MarkActiveLinks();
      if !completed || !hasSiteNav {
        return;
      }
      RewriteNavLinks();
      SetLogoHref();
    }

    /** Adds a click listener to the toggle when both the toggle and the nav exist. */
    method WireToggle()
      requires Valid()
      modifies this
      ensures Valid()
      ensures listeners == old(listeners) + (if hasToggle && hasSiteNav then 1 else 0)
      ensures ToggleView() == old(ToggleView())
      ensures placeholders == old(placeholders) && events == old(events)
    {
      if hasToggle && hasSiteNav {
        listeners := listeners + 1;
      }
    }

    /** A click on the toggle: each listener flips the nav and mirrors it on the toggle. */
    method Click()
      requires Valid()
      modifies this
      ensures Valid()
      ensures ToggleView() == Dispatch(old(ToggleView()), listeners)
      ensures listeners == old(listeners) && placeholders == old(placeholders) && events == old(events)
    {
      var k := 0;
      while k < listeners
        invariant 0 <= k <= listeners
        invariant ToggleView() == Dispatch(old(ToggleView()), k)
        invariant listeners == old(listeners) && placeholders == old(placeholders) && events == old(events)
      {
        DispatchStep(old(ToggleView()), k);
        var open := !navOpen;
        navOpen := open;
        toggleOpen := open;
        ariaExpanded := Some(BoolText(open));
        k := k + 1;
      }
    }

    /**
     * The marking pass over the nav-list anchors; `completed` is false when
     * an anchor's URL did not parse, which ends the pass there.
     */
    method MarkActiveLinks() returns (completed: bool)
      requires Valid()
      modifies anchors
      ensures Valid()
      ensures var p := MarkPass(old(anchors[..]), currentPath, pathOf);
        anchors[..] == p.anchors && completed == p.completed
    {
      var current := NormalizePath(currentPath);
      var i := 0;
      while i < anchors.Length
        invariant 0 <= i <= anchors.Length
        invariant AllResolvable(old(anchors[..])[..i], pathOf)
        invariant forall j :: 0 <= j < i ==> anchors[j] == MarkIfCurrent(old(anchors[j]), currentPath, pathOf)
        invariant forall j :: i <= j < anchors.Length ==> anchors[j] == old(anchors[j])
      {
        var a := anchors[i];
        if a.inNavList {
          match pathOf(a.href)
          case None =>
            MarkPassAborted(old(anchors[..]), currentPath, pathOf, i);
            return false;
          case Some(path) =>
            if NormalizePath(path) == current {
              anchors[i] := MarkActive(a);
            }
        }
        assert AllResolvable(old(anchors[..])[..i + 1], pathOf) by {
          var pre, s := old(anchors[..])[..i + 1], old(anchors[..]);
          forall j | 0 <= j < |pre| ensures !Unresolvable(pre[j], pathOf) {
            if j < i { assert pre[j] == s[..i][j]; }
          }
        }
        i := i + 1;
      }
      assert old(anchors[..])[..i] == old(anchors[..]);
      MarkPassExactly(old(anchors[..]), currentPath, pathOf);
      return true;
    }

    /** `a.href = root + href` for each root-absolute `a[href]` inside the site nav. */
    method RewriteNavLinks()
      requires Valid()
      modifies anchors
      ensures Valid()
      ensures anchors[..] == RewriteLinks(old(anchors[..]), root)
    {
      for i := 0 to anchors.Length
        invariant forall j :: 0 <= j < i ==> anchors[j] == RewriteHref(old(anchors[j]), root)
        invariant forall j :: i <= j < anchors.Length ==> anchors[j] == old(anchors[j])
      {
        var a := anchors[i];
        if a.inSiteNav && a.href.Some? {
          var href := a.href.value;
          if StartsWithSlash(href) && root != CurrentDir {
            anchors[i] := a.(href := Some(root + href));
          }
        }
      }
      RewriteLinksEffect(old(anchors[..]), root);
    }

    /** `logo.href = root + '/'` when the logo exists and the root is not `.`. */
    method SetLogoHref()
      requires Valid()
      modifies anchors
      ensures Valid()
      ensures anchors[..] == RewriteLogo(old(anchors[..]), logo, root)
    {
      if logo.Some? && root != CurrentDir {
        var a := anchors[logo.value];
        anchors[logo.value] := a.(href := Some(root + [Slash]));
      }
    }
  }
}

/**
 * What `initNav` does to the page's anchors (assets/js/components.js,
 * lines 50-74), stated on sequences: the active-link marking pass, the
 * rewriting of root-absolute links and of the logo.
 */
module Nav {
  import opened Wrappers
  import opened Paths

  /** The class and the `aria-current` value given to the link of the current page. */
  const ActiveClass: string := "active"
  const CurrentPage: string := "page"

  /**
   * An anchor of the page: its `href` attribute (absent or a string), whether
   * `.nav-list a` selects it, whether it lies inside the first `.site-nav`,
   * its classes and its `aria-current` attribute.
   */
  datatype Anchor = Anchor(
    href: Option<string>,
    inNavList: bool,
    inSiteNav: bool,
    classes: set<string>,
    ariaCurrent: Option<string>)

  /**
   * The browser's `new URL(a.href).pathname` for an anchor whose href
   * attribute is the argument: None where the URL constructor throws (an
   * anchor without href, whose `a.href` is the empty string, for one).
   */
  type PathOf = Option<string> -> Option<string>

  /** A nav-list anchor whose URL does not parse: the marking pass throws there. */
  predicate Unresolvable(a: Anchor, pathOf: PathOf)
  {
    a.inNavList && pathOf(a.href).None?
  }

  predicate AllResolvable(s: seq<Anchor>, pathOf: PathOf)
  {
    forall j :: 0 <= j < |s| ==> !Unresolvable(s[j], pathOf)
  }

  /** A nav-list anchor whose normalised pathname is the normalised current path. */
  predicate IsCurrent(a: Anchor, current: string, pathOf: PathOf)
  {
    && a.inNavList
    && pathOf(a.href).Some?
    && NormalizePath(pathOf(a.href).value) == NormalizePath(current)
  }

  /** `classList.add('active')` and `setAttribute('aria-current', 'page')`. */
  function MarkActive(a: Anchor): Anchor
  {
    a.(classes := a.classes + {ActiveClass}, ariaCurrent := Some(CurrentPage))
  }

  /**
   * One step of the marking pass: a current anchor gains the class `active`
   * and no other, and `aria-current="page"`; nothing else about any anchor
   * changes.
   */
  function MarkIfCurrent(a: Anchor, current: string, pathOf: PathOf): (r: Anchor)
    ensures r.href == a.href && r.inNavList == a.inNavList && r.inSiteNav == a.inSiteNav
    ensures a.classes <= r.classes
    ensures ActiveClass in r.classes <==> ActiveClass in a.classes || IsCurrent(a, current, pathOf)
    ensures IsCurrent(a, current, pathOf) ==> r.classes == a.classes + {ActiveClass}
    ensures IsCurrent(a, current, pathOf) ==> r.ariaCurrent == Some(CurrentPage)
    ensures !IsCurrent(a, current, pathOf) ==> r == a
  {
    if IsCurrent(a, current, pathOf) then MarkActive(a) else a
  }

  /** The anchors after a pass, and whether it ran to the end without throwing. */
  datatype Pass = Pass(anchors: seq<Anchor>, completed: bool)

  /**
   * The `forEach` over the nav-list anchors, in document order: each current
   * one is marked; the first anchor whose URL does not parse stops the pass
   * with the rest of the anchors untouched.
   */
  function MarkPass(s: seq<Anchor>, current: string, pathOf: PathOf): (p: Pass)
    ensures |p.anchors| == |s|
  {
    if s == [] then Pass([], true)
    else if Unresolvable(s[0], pathOf) then Pass(s, false)
    else
      var rest := MarkPass(s[1..], current, pathOf);
      Pass([MarkIfCurrent(s[0], current, pathOf)] + rest.anchors, rest.completed)
  }

  /** A pass completes exactly when every nav-list anchor's URL parses. */
  lemma {:induction false} MarkPassCompleted(s: seq<Anchor>, current: string, pathOf: PathOf)
    ensures MarkPass(s, current, pathOf).completed <==> AllResolvable(s, pathOf)
  {
    if s != [] && !Unresolvable(s[0], pathOf) {
      MarkPassCompleted(s[1..], current, pathOf);
      if AllResolvable(s[1..], pathOf) {
        forall j | 0 <= j < |s| ensures !Unresolvable(s[j], pathOf) {
          if j > 0 { assert s[j] == s[1..][j - 1]; }
        }
      }
    }
  }

  /**
   * Anchor i after the pass: marked if current when the pass got past it,
   * untouched when an anchor up to and including it stopped the pass.
   */
  lemma {:induction false} MarkPassAt(s: seq<Anchor>, current: string, pathOf: PathOf, i: nat)
    requires i < |s|
    ensures MarkPass(s, current, pathOf).anchors[i] ==
      if AllResolvable(s[..i + 1], pathOf) then MarkIfCurrent(s[i], current, pathOf) else s[i]
  {
    if Unresolvable(s[0], pathOf) {
      assert s[..i + 1][0] == s[0];
    } else if i > 0 {
      MarkPassAt(s[1..], current, pathOf, i - 1);
      var pre, tail := s[..i + 1], s[1..][..i];
      assert forall j :: 1 <= j < |pre| ==> pre[j] == tail[j - 1];
      assert AllResolvable(pre, pathOf) <==> AllResolvable(tail, pathOf) by {
        if AllResolvable(tail, pathOf) {
          forall j | 0 <= j < |pre| ensures !Unresolvable(pre[j], pathOf) {
            if j > 0 { assert pre[j] == tail[j - 1]; }
          }
        }
      }
    }
  }

  /**
   * When every nav-list anchor's URL parses, an anchor gains `active` and
   * `aria-current="page"` exactly when it is current, and every other anchor
   * is left as it was.
   */
  lemma {:induction false} MarkPassExactly(s: seq<Anchor>, current: string, pathOf: PathOf)
    requires AllResolvable(s, pathOf)
    ensures var p := MarkPass(s, current, pathOf);
      && p.completed
      && forall i :: 0 <= i < |s| ==>
        && p.anchors[i] == MarkIfCurrent(s[i], current, pathOf)
        && (ActiveClass in p.anchors[i].classes <==>
              ActiveClass in s[i].classes || IsCurrent(s[i], current, pathOf))
        && (IsCurrent(s[i], current, pathOf) ==> p.anchors[i].ariaCurrent == Some(CurrentPage))
        && (!IsCurrent(s[i], current, pathOf) ==> p.anchors[i] == s[i])
  {
    MarkPassCompleted(s, current, pathOf);
    forall i | 0 <= i < |s|
      ensures MarkPass(s, current, pathOf).anchors[i] == MarkIfCurrent(s[i], current, pathOf)
    {
      MarkPassAt(s, current, pathOf, i);
      assert AllResolvable(s[..i + 1], pathOf) by {
        assert forall j :: 0 <= j < i + 1 ==> s[..i + 1][j] == s[j];
      }
    }
  }

  /**
   * Marking only adds: hrefs and selector flags stay, no class is removed,
   * and `aria-current` either stays or becomes "page".
   */
  lemma {:induction false} MarkPassOnlyAdds(s: seq<Anchor>, current: string, pathOf: PathOf)
    ensures var r := MarkPass(s, current, pathOf).anchors;
      forall i :: 0 <= i < |s| ==>
        && r[i].href == s[i].href
        && r[i].inNavList == s[i].inNavList
        && r[i].inSiteNav == s[i].inSiteNav
        && s[i].classes <= r[i].classes
        && (r[i].ariaCurrent == s[i].ariaCurrent || r[i].ariaCurrent == Some(CurrentPage))
  {
    forall i | 0 <= i < |s| {
      MarkPassAt(s, current, pathOf, i);
    }
  }

  /**
   * A pass that meets an anchor whose URL does not parse stops there: the
   * anchors before it are processed, it and the ones after it are untouched.
   */
  lemma MarkPassAborted(s: seq<Anchor>, current: string, pathOf: PathOf, k: nat)
    requires k < |s| && Unresolvable(s[k], pathOf) && AllResolvable(s[..k], pathOf)
    ensures var p := MarkPass(s, current, pathOf);
      && !p.completed
      && p.anchors[k..] == s[k..]
      && forall i :: 0 <= i < k ==> p.anchors[i] == MarkIfCurrent(s[i], current, pathOf)
  {
    MarkPassCompleted(s, current, pathOf);
    var r := MarkPass(s, current, pathOf).anchors;
    forall i | 0 <= i < |s|
      ensures r[i] == if i < k then MarkIfCurrent(s[i], current, pathOf) else s[i]
    {
      MarkPassAt(s, current, pathOf, i);
      if i < k {
        assert AllResolvable(s[..i + 1], pathOf) by {
          var pre := s[..i + 1];
          forall j | 0 <= j < |pre| ensures !Unresolvable(pre[j], pathOf) {
            assert pre[j] == s[..k][j];
          }
        }
      } else {
        assert s[..i + 1][k] == s[k];
      }
    }
  }

  // ---------------------------------------------------------------------------
  // Rewriting root-absolute links

  /**
   * An anchor the rewriting changes: inside the site nav, with an href
   * attribute that starts with a slash, and a root other than `.`.
   */
  predicate Rewritable(a: Anchor, root: string)
  {
    a.inSiteNav && a.href.Some? && StartsWithSlash(a.href.value) && root != CurrentDir
  }

  /**
   * `a.href = root + href` exactly where the anchor is rewritable: only the
   * href can change, a rewritable anchor's href becomes the root followed by
   * the old one, and any other anchor is left as it is.
   */
  function RewriteHref(a: Anchor, root: string): (r: Anchor)
    ensures r.(href := a.href) == a
    ensures r.href != a.href ==> Rewritable(a, root) && r.href == Some(root + a.href.value)
    ensures root == CurrentDir ==> r == a
    ensures Rewritable(a, root) ==> r == a.(href := Some(root + a.href.value))
    ensures !Rewritable(a, root) ==> r == a
  {
    if Rewritable(a, root) then a.(href := Some(root + a.href.value)) else a
  }

  /** The `forEach` over `a[href]` inside the site nav. */
  function RewriteLinks(s: seq<Anchor>, root: string): (r: seq<Anchor>)
    ensures |r| == |s|
  {
    if s == [] then [] else [RewriteHref(s[0], root)] + RewriteLinks(s[1..], root)
  }

  lemma {:induction false} RewriteLinksAt(s: seq<Anchor>, root: string, i: nat)
    requires i < |s|
    ensures RewriteLinks(s, root)[i] == RewriteHref(s[i], root)
  {
    if i > 0 {
      RewriteLinksAt(s[1..], root, i - 1);
    }
  }

  /**
   * Each rewritable anchor's href becomes the root followed by its old href;
   * every other anchor, and everything but the href, is untouched. With the
   * root `.` nothing changes.
   */
  lemma {:induction false} RewriteLinksEffect(s: seq<Anchor>, root: string)
    ensures var r := RewriteLinks(s, root);
      && (forall i :: 0 <= i < |s| ==>
            && (Rewritable(s[i], root) ==> r[i] == s[i].(href := Some(root + s[i].href.value)))
            && (!Rewritable(s[i], root) ==> r[i] == s[i]))
      && (root == CurrentDir ==> r == s)
  {
    forall i | 0 <= i < |s| {
      RewriteLinksAt(s, root, i);
    }
  }

  /**
   * A root that does not start with a slash (every root computed without a
   * base element) leaves no rewritten link root-absolute, so a second
   * rewriting changes nothing.
   */
  lemma {:induction false} RewriteLinksIdempotent(s: seq<Anchor>, root: string)
    requires !StartsWithSlash(root)
    ensures RewriteLinks(RewriteLinks(s, root), root) == RewriteLinks(s, root)
  {
    var once := RewriteLinks(s, root);
    forall i | 0 <= i < |s|
      ensures RewriteLinks(once, root)[i] == once[i]
    {
      RewriteLinksAt(s, root, i);
      RewriteLinksAt(once, root, i);
      if Rewritable(s[i], root) {
        if root == [] {
          assert root + s[i].href.value == s[i].href.value;
        } else {
          assert (root + s[i].href.value)[0] == root[0];
        }
      }
    }
  }

  /**
   * Example: under the prefix `../..`, which the page `/blog/post/` gets
   * (Paths.RootPathExample), the nav link `/blog/` becomes `../../blog/`.
   */
  lemma RewriteExample()
    ensures RewriteHref(Anchor(Some("/blog/"), true, true, {}, None), "../..").href == Some("../../blog/")
  {
    var a := Anchor(Some("/blog/"), true, true, {}, None);
    assert Rewritable(a, "../..");
    assert "../.." + "/blog/" == "../../blog/";
  }

  // ---------------------------------------------------------------------------
  // The logo and the whole of initNav

  /** `logo.href = root + '/'`, when the logo exists and the root is not `.`. */
  function RewriteLogo(s: seq<Anchor>, logo: Option<nat>, root: string): (r: seq<Anchor>)
    ensures |r| == |s|
    ensures forall i :: 0 <= i < |s| && logo != Some(i) ==> r[i] == s[i]
    ensures forall i :: 0 <= i < |s| && logo == Some(i) ==>
      && r[i].(href := s[i].href) == s[i]
      && r[i].href == if root == CurrentDir then s[i].href else Some(root + [Slash])
  {
    if logo.Some? && logo.value < |s| && root != CurrentDir
    then s[logo.value := s[logo.value].(href := Some(root + [Slash]))]
    else s
  }

  /**
   * The anchors after `initNav`: the marking pass; then, unless it threw or
   * there is no `.site-nav` (the early return), the link and logo rewriting.
   */
  function InitNavAnchors(s: seq<Anchor>, current: string, pathOf: PathOf,
                          hasSiteNav: bool, logo: Option<nat>, root: string): (p: Pass)
    ensures |p.anchors| == |s|
    ensures p.completed <==> AllResolvable(s, pathOf)
    ensures !p.completed || !hasSiteNav || root == CurrentDir ==>
      forall i :: 0 <= i < |s| ==> p.anchors[i].href == s[i].href
  {
    var marked := MarkPass(s, current, pathOf);
    MarkPassCompleted(s, current, pathOf);
    MarkPassOnlyAdds(s, current, pathOf);
    RewriteLinksEffect(marked.anchors, root);
    if !marked.completed || !hasSiteNav then marked
    else Pass(RewriteLogo(RewriteLinks(marked.anchors, root), logo, root), true)
  }

  /**
   * The hrefs after `initNav` ran to the end with a site nav: the logo's is
   * the root and a slash, a rewritable anchor's is the root and its old href,
   * and the rest keep theirs; classes and `aria-current` are the marking's.
   * Without a site nav, or with the root `.`, no href changes.
   */
  lemma {:induction false} InitNavHrefs(s: seq<Anchor>, current: string, pathOf: PathOf,
                     hasSiteNav: bool, logo: Option<nat>, root: string)
    requires AllResolvable(s, pathOf)
    ensures var p := InitNavAnchors(s, current, pathOf, hasSiteNav, logo, root);
      var marked := MarkPass(s, current, pathOf).anchors;
      && p.completed
      && forall i :: 0 <= i < |s| ==>
        && p.anchors[i].classes == marked[i].classes
        && p.anchors[i].ariaCurrent == marked[i].ariaCurrent
        && p.anchors[i].href ==
             if !hasSiteNav || root == CurrentDir then s[i].href
             else if logo == Some(i) then Some(root + [Slash])
             else if Rewritable(s[i], root) then Some(root + s[i].href.value)
             else s[i].href
  {
    MarkPassCompleted(s, current, pathOf);
    MarkPassOnlyAdds(s, current, pathOf);
    var marked := MarkPass(s, current, pathOf).anchors;
    RewriteLinksEffect(marked, root);
    forall i | 0 <= i < |s| ensures Rewritable(marked[i], root) == Rewritable(s[i], root) {
    }
  }
}

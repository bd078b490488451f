# Component loader: a verified model

The site injects a shared header and footer into every page from one script,
`assets/js/components.js`. When the script runs it computes a root prefix:
the declared `<base>` href, or else one `..` per directory level of the page.
Each load then fetches a fragment. If the placeholder exists and the fetch
succeeds, the fragment replaces the placeholder's markup. Once the header is
in place, `initNav` runs. It wires the menu toggle, marks the link of the
current page as active, and rewrites root-absolute links and the logo so that
they work from any depth.

This project models that logic in Dafny:

- `wrappers.dfy`: `Option`, for elements and attributes that may be absent.
- `paths.dfy` (module `Paths`): `rootPath` and the trailing-slash normaliser, as pure functions with lemmas.
- `toggle.dfy` (module `Toggle`): the menu toggle as a small state machine.
- `nav.dfy` (module `Nav`): the anchor passes of `initNav` as pure functions on sequences: marking, link rewriting and logo rewriting.
- `page.dfy` (module `Components`): the class `Page`. It holds the page's anchors in an array, the toggle state, a map from placeholder id to markup, and a trace of events.
  - `Click`, `MarkActiveLinks` and `RewriteNavLinks` update that state with loops. Their contracts equate the new state with `Toggle.Dispatch`, `Nav.MarkPass` and `Nav.RewriteLinks` of the old one.
  - `Load`, `InitNav` and `SetLogoHref` are straight-line code. Their contracts are stated through `Nav.InitNavAnchors` and `Nav.RewriteLogo`.
  - `WireToggle` is straight-line code too. Its contract states the listener count directly.

The browser's URL resolution is an input. `new URL(a.href).pathname` is the
function `pathOf` from an anchor's href attribute to a pathname. It returns
`None` where the URL constructor throws. That throw is modelled: it ends the
marking pass at that anchor, skips the rewriting, and reaches the `catch` of
`load` as a warning.

Two behaviours of the code are worth stating plainly:

- Marking only adds `active` and `aria-current` (lines 55-58). It never removes them from other anchors, so an anchor that was already active stays active.
- A failed load leaves the placeholder's markup as it was (lines 33-35).

## Model

| member | source | states |
|---|---|---|
| `Paths.RootPath` | assets/js/components.js:9-15 | with a base href, the result is that href less at most one final character; without one, it is non-empty, starts with `.` and does not end in `/` (the exact form is stated by `RootPathWithoutBase` and `RootPathWithBase`) |
| `Paths.CountSlashes` | assets/js/components.js:13 | the number of `/` in the pathname: at most its length, and positive exactly when it contains a `/` |
| `Paths.DropTrailingSlash` | assets/js/components.js:11 | `replace(/\/$/, '')`: a prefix of the input, one character shorter exactly when the input ends in `/` |
| `Paths.TrimTrailingSlashes` | assets/js/components.js:52 | the result is the longest prefix of the input that does not end in `/`; everything removed is slashes |
| `Paths.NormalizePath` | assets/js/components.js:52-54 | the normal form is never empty and ends in `/` only when it is exactly `/` |
| `Paths.RootPathWithoutBase` | assets/js/components.js:12-14 | without `<base>`: `.` when the pathname has at most one `/`; otherwise d = slashes − 1 copies of `..` joined by `/`, 3d−1 characters long, with d−1 slashes, a slash at every third position, never starting or ending with `/` |
| `Paths.ParentStepsShape` | assets/js/components.js:14 | `Array(d).fill('..').join('/')` has length 3d−1, with `/` at positions 2, 5, 8, … and `.` elsewhere |
| `Paths.ParentStepsSlashes` | assets/js/components.js:14 | d parent steps contain exactly d−1 slashes |
| `Paths.RootPathWithBase` | assets/js/components.js:10-11 | with `<base>`: the href with exactly one trailing `/` removed (a doubled `//` keeps one), whatever the pathname |
| `Paths.RootPathExample` | assets/js/components.js:9-15 | the page `/blog/post/` gets the prefix `../..` |
| `Paths.CountSlashesAppend` | assets/js/components.js:13 | the slash count of a concatenation is the sum of the counts |
| `Paths.NormalizePathIdempotent` | assets/js/components.js:52-54 | normalising twice equals normalising once |
| `Paths.NormalizePathIgnoresTrailingSlash` | assets/js/components.js:52-54 | appending `/` does not change the normal form |
| `Paths.NormalizePathSame` | assets/js/components.js:52-55 | two paths compare equal exactly when they agree after stripping trailing slashes |
| `Paths.NormalizePathFixedPoints` | assets/js/components.js:52-54 | a path is its own normal form exactly when it is non-empty and ends in `/` only if it is `/` |
| `Toggle.RunListener` | assets/js/components.js:43-47 | a click negates the nav's `open` state; afterwards the toggle's `open` and `aria-expanded` mirror the nav's new state |
| `Toggle.Dispatch` | assets/js/components.js:43-47 | a click runs each installed listener in turn; after at least one, the toggle mirrors the nav |
| `Toggle.DispatchStep` | assets/js/components.js:43-47 | a click runs the installed listeners one after another |
| `Toggle.DispatchEffect` | assets/js/components.js:42-47 | with no listener a click changes nothing; with n listeners the nav flips n times and the toggle mirrors the result |
| `Toggle.ClickTwice` | assets/js/components.js:44-46 | two runs of the listener restore the nav's state, and the whole state when it was mirrored |
| `Toggle.DispatchTwice` | assets/js/components.js:43-47 | two clicks restore the nav's state, however many listeners there are |
| `Toggle.ClickExample` | assets/js/components.js:44-46 | from a closed menu a click opens the nav and the toggle and sets `aria-expanded` to "true"; a second click reverses all three |
| `Nav.MarkIfCurrent` | assets/js/components.js:54-58 | one anchor of the pass: a current anchor's classes become exactly its old ones plus `active` and its `aria-current` becomes "page"; `active` is present afterwards exactly when current or already there; href and selector flags are kept; a non-current anchor is unchanged |
| `Nav.MarkPass` | assets/js/components.js:53-59 | the marking pass keeps the number of anchors |
| `Nav.MarkPassCompleted` | assets/js/components.js:53-54 | the pass runs to the end exactly when every nav-list anchor's URL parses |
| `Nav.MarkPassAt` | assets/js/components.js:53-58 | each anchor is marked if it is current and the pass got past it; otherwise it is untouched |
| `Nav.MarkPassExactly` | assets/js/components.js:53-58 | an anchor has `active` afterwards exactly when it had it or its normalised pathname equals the normalised current path; current anchors get `aria-current="page"`; every other anchor is unchanged |
| `Nav.MarkPassOnlyAdds` | assets/js/components.js:55-58 | marking keeps every href and selector flag, removes no class, and sets `aria-current` only to "page" |
| `Nav.MarkPassAborted` | assets/js/components.js:53-54 | a URL that does not parse stops the pass: the anchors before it are processed, it and the later ones are untouched |
| `Nav.RewriteHref` | assets/js/components.js:65-68 | a site-nav anchor whose href starts with `/` gets the root followed by its old href when the root is not `.`, with everything but the href kept; every other anchor is unchanged; a changed href only ever arises that way |
| `Nav.RewriteLinks` | assets/js/components.js:64-69 | the rewriting keeps the number of anchors |
| `Nav.RewriteLinksAt` | assets/js/components.js:64-69 | the rewriting treats each anchor on its own |
| `Nav.RewriteLinksEffect` | assets/js/components.js:64-69 | a site-nav anchor whose href starts with `/` gets root + href when the root is not `.`; every other anchor, and every other attribute, is unchanged; with the root `.` nothing changes |
| `Nav.RewriteLinksIdempotent` | assets/js/components.js:64-69 | with a root that does not start with `/`, rewriting a second time changes nothing |
| `Nav.RewriteExample` | assets/js/components.js:66-67 | under the prefix `../..` (the one `Paths.RootPathExample` gives `/blog/post/`) the link `/blog/` becomes `../../blog/` |
| `Nav.RewriteLogo` | assets/js/components.js:71-74 | only the logo anchor can change, and only its href: it becomes root + `/` unless the root is `.`; every other anchor is unchanged |
| `Nav.InitNavAnchors` | assets/js/components.js:50-74 | the pass completes exactly when every nav-list URL parses; when it throws, when `.site-nav` is absent (the early return at line 63) or when the root is `.`, no href changes |
| `Nav.InitNavHrefs` | assets/js/components.js:50-74 | after `initNav` with a `.site-nav`, the logo's href is root + `/`, each rewritable anchor's is root + old href, the rest keep theirs; without `.site-nav` or with the root `.` no href changes; classes and `aria-current` are those of the marking |
| `Components.Page.constructor` | assets/js/components.js:9-17 | the root prefix is `RootPath` of the base href and pathname, computed once; no listener and no event yet |
| `Components.Page.Load` | assets/js/components.js:19-36 | a missing placeholder: no change; a failed fetch: placeholders and anchors unchanged, one warning; a success: the placeholder's markup is exactly the body; for `header-placeholder` only, `initNav` runs after the replacement and a throw in it ends in a warning |
| `Components.Page.InitNav` | assets/js/components.js:38-75 | the anchors become `InitNavAnchors` of the old anchors; one listener is added when the toggle and nav both exist; the toggle state and placeholders are unchanged |
| `Components.Page.WireToggle` | assets/js/components.js:40-48 | a listener is added exactly when both `.nav-toggle` and `.site-nav` exist; no state changes otherwise |
| `Components.Page.Click` | assets/js/components.js:43-47 | the toggle state becomes the result of running every installed listener in turn |
| `Components.Page.MarkActiveLinks` | assets/js/components.js:50-59 | the array becomes `MarkPass` of its old contents, and the method reports whether the pass completed |
| `Components.Page.RewriteNavLinks` | assets/js/components.js:61-69 | the array becomes `RewriteLinks` of its old contents |
| `Components.Page.SetLogoHref` | assets/js/components.js:71-74 | the logo's href becomes root + `/` when the logo exists and the root is not `.`; otherwise the anchors are unchanged |

## Left out

- `fetch`, the promise chain and `console.warn` (lines 22-35) are network I/O. `Load` takes the settled outcome as a parameter. The warning is recorded as a `Warned` event. The `url` argument of `load` is used by the fetch and in the logged error message (lines 24 and 34). `Warned` carries no message, so the model drops `url`.
- The `DOMContentLoaded` listener (lines 77-80) is left out. So are the two concurrent loads it starts and the URLs it builds. A single `Load` call models one completed load.
- URL resolution by the browser is left out: `base.href`, `a.href` and `new URL(...).pathname`. The base href, the pathname and the function `pathOf` are inputs.
- HTML parsing of `innerHTML` is left out. The navigation elements that the header markup creates are given when the `Page` is built. They are not derived from the placeholder's markup.
- `querySelector`, `querySelectorAll`, `classList` and `addEventListener` are DOM APIs. They become explicit state: flags on each anchor for `.nav-list a` and for the first `.site-nav`, booleans for the toggle and the nav, an index for the logo, and a count of listeners.
- Components.Page.SetLogoHref: the `.site-logo` element is taken to be an anchor of the page. On a non-anchor element the assignment to `href` sets a plain property with no effect on the markup; that case is not modelled.
- Boolean-to-string coercion in `setAttribute('aria-expanded', open)` is written out as "true"/"false".
- Strings are sequences of `char`, not UTF-16 code units. The code only looks at `/` and `.`, so this does not matter.
- Only the URL constructor's throw is modelled as an exception inside `initNav`; the DOM calls are taken not to throw.

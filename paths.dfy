/**
 * The string logic of the component loader (assets/js/components.js):
 * the root prefix `rootPath` computes once per page, and the normaliser
 * that strips trailing slashes before paths are compared.
 */
module Paths {
  import opened Wrappers

  /** The prefix returned for a page at the top of the site: "this directory". */
  const CurrentDir: string := "."

  /** One step up the directory tree. */
  const ParentDir: string := ".."

  /** The path separator. */
  const Slash: char := '/'

  /** Whether `s` starts with a slash, as `s.startsWith('/')` does. */
  predicate StartsWithSlash(s: string)
  {
    |s| > 0 && s[0] == Slash
  }

  /** Whether `s` ends with a slash. */
  predicate EndsWithSlash(s: string)
  {
    |s| > 0 && s[|s| - 1] == Slash
  }

  /** The number of slashes in `s`: the length of the matches of the global regex `/\//g`. */
  function CountSlashes(s: string): (n: nat)
    ensures n <= |s|
    ensures n > 0 <==> Slash in s
  {
    if s == [] then 0 else (if s[0] == Slash then 1 else 0) + CountSlashes(s[1..])
  }

  /** `Array(n).fill(x)`. */
  function Fill(n: nat, x: string): seq<string>
  {
    seq(n, _ => x)
  }

  /** `parts.join(sep)`: the parts with `sep` between consecutive ones. */
  function Join(parts: seq<string>, sep: string): string
  {
    if |parts| == 0 then ""
    else if |parts| == 1 then parts[0]
    else parts[0] + sep + Join(parts[1..], sep)
  }

  /** `s.replace(/\/$/, '')`: removes one trailing slash, if there is one. */
  function DropTrailingSlash(s: string): (r: string)
    ensures |r| <= |s| && r == s[..|r|]
    ensures |r| == if EndsWithSlash(s) then |s| - 1 else |s|
  {
    if EndsWithSlash(s) then s[..|s| - 1] else s
  }

  /**
   * `rootPath()`: the declared base reference without one trailing slash, or
   * else one `..` per directory level of `pathname` (its slashes minus the
   * leading one), or `.` at the top level.
   */
  function RootPath(baseHref: Option<string>, pathname: string): (r: string)
    ensures baseHref.Some? ==> |baseHref.value| - 1 <= |r| <= |baseHref.value| && r == baseHref.value[..|r|]
    ensures baseHref.None? ==> r != [] && r[0] == '.' && !EndsWithSlash(r)
  {
    match baseHref
    case Some(href) => DropTrailingSlash(href)
    case None =>
      var depth := CountSlashes(pathname) - 1;
      if depth > 0 then
        ParentStepsShape(depth);
        assert (3 * depth - 2) % 3 == 1;
        Join(Fill(depth, ParentDir), [Slash])
      else CurrentDir
  }

  /**
   * `s.replace(/\/+$/, '')`: the longest prefix of `s` that does not end in a
   * slash; everything after it is slashes.
   */
  function TrimTrailingSlashes(s: string): (r: string)
    ensures |r| <= |s| && r == s[..|r|]
    ensures !EndsWithSlash(r)
    ensures forall i :: |r| <= i < |s| ==> s[i] == Slash
    decreases |s|
  {
    if EndsWithSlash(s) then TrimTrailingSlashes(s[..|s| - 1]) else s
  }

  /**
   * `s.replace(/\/+$/, '') || '/'`: the form in which the navigation compares
   * paths. Never empty, and it ends in a slash only when it is the root `/`.
   */
  function NormalizePath(s: string): (r: string)
    ensures r != []
    ensures EndsWithSlash(r) <==> r == [Slash]
  {
    var t := TrimTrailingSlashes(s);
    if t == [] then [Slash] else t
  }

  // ---------------------------------------------------------------------------
  // Counting slashes

  lemma {:induction false} CountSlashesAppend(a: string, b: string)
    ensures CountSlashes(a + b) == CountSlashes(a) + CountSlashes(b)
    decreases |a|
  {
    if a == [] {
      assert a + b == b;
    } else {
      assert (a + b)[1..] == a[1..] + b;
      CountSlashesAppend(a[1..], b);
    }
  }

  lemma CountSlashesNone(s: string)
    requires forall i :: 0 <= i < |s| ==> s[i] != Slash
    ensures CountSlashes(s) == 0
  {
  }

  // ---------------------------------------------------------------------------
  // The root prefix without a base element

  /** `d` parent steps joined by slashes: `..`, `../..`, `../../..`, ... */
  function ParentSteps(d: nat): string
  {
    Join(Fill(d, ParentDir), [Slash])
  }

  lemma {:induction false} ParentStepsUnfold(d: nat)
    requires d > 1
    ensures ParentSteps(d) == ParentDir + [Slash] + ParentSteps(d - 1)
  {
    assert Fill(d, ParentDir)[1..] == Fill(d - 1, ParentDir);
  }

  /**
   * `d` parent steps read as `../../..`: 3d - 1 characters, a slash at every
   * third position and dots everywhere else.
   */
  lemma {:induction false} ParentStepsShape(d: nat)
    requires d > 0
    ensures |ParentSteps(d)| == 3 * d - 1
    ensures forall i :: 0 <= i < |ParentSteps(d)| ==>
      ParentSteps(d)[i] == (if i % 3 == 2 then Slash else '.')
  {
    if d > 1 {
      ParentStepsUnfold(d);
      ParentStepsShape(d - 1);
      var r, rest := ParentSteps(d), ParentSteps(d - 1);
      forall i | 0 <= i < |r|
        ensures r[i] == (if i % 3 == 2 then Slash else '.')
      {
        if i >= 3 {
          assert r[i] == rest[i - 3];
          assert (i - 3) % 3 == i % 3;
        }
      }
    }
  }

  /** `d` parent steps contain `d - 1` slashes, one between each pair of `..`. */
  lemma {:induction false} ParentStepsSlashes(d: nat)
    requires d > 0
    ensures CountSlashes(ParentSteps(d)) == d - 1
  {
    if d > 1 {
      ParentStepsUnfold(d);
      ParentStepsSlashes(d - 1);
      CountSlashesAppend(ParentDir + [Slash], ParentSteps(d - 1));
      CountSlashesAppend(ParentDir, [Slash]);
      CountSlashesNone(ParentDir);
    }
  }

  /**
   * Without a base element the prefix is `.` when the pathname has at most one
   * slash; otherwise it is d parent steps, d being the slash count minus one,
   * 3d - 1 characters long, with d - 1 slashes, never starting or ending with a
   * slash.
   */
  lemma {:induction false} RootPathWithoutBase(pathname: string)
    ensures var r := RootPath(None, pathname);
      && (CountSlashes(pathname) <= 1 ==> r == CurrentDir)
      && (CountSlashes(pathname) > 1 ==>
            var d := CountSlashes(pathname) - 1;
            && r == ParentSteps(d)
            && |r| == 3 * d - 1
            && CountSlashes(r) == d - 1
            && (forall i :: 0 <= i < |r| ==> r[i] == (if i % 3 == 2 then Slash else '.'))
            && !EndsWithSlash(r))
      && r != [] && !StartsWithSlash(r)
  {
    var n := CountSlashes(pathname);
    if n > 1 {
      var d := n - 1;
      ParentStepsShape(d);
      ParentStepsSlashes(d);
      var r := ParentSteps(d);
      assert (|r| - 1) % 3 == 1;
    }
  }

  /**
   * With a base element the prefix is its href with exactly one trailing slash
   * removed, whatever the pathname: a doubled slash keeps one.
   */
  lemma RootPathWithBase(href: string, pathname: string, other: string)
    ensures var r := RootPath(Some(href), pathname);
      && (EndsWithSlash(href) ==> r + [Slash] == href)
      && (!EndsWithSlash(href) ==> r == href)
      && (|href| >= 2 && href[|href| - 2..] == [Slash, Slash] ==> EndsWithSlash(r))
      && r == RootPath(Some(href), other)
  {
  }

  lemma CountSlashesExample()
    ensures CountSlashes("/blog/post/") == 3
  {
  }

  lemma {:induction false} ParentStepsTwo()
    ensures ParentSteps(2) == "../.."
  {
    ParentStepsUnfold(2);
    assert ParentSteps(1) == ParentDir;
  }

  /** Example: the page `/blog/post/` has depth 2 and the prefix `../..`. */
  lemma {:induction false} RootPathExample()
    ensures RootPath(None, "/blog/post/") == "../.."
  {
    CountSlashesExample();
    ParentStepsTwo();
  }

  // ---------------------------------------------------------------------------
  // The trailing-slash normaliser

  /** Normalising a normalised path changes nothing. */
  lemma NormalizePathIdempotent(s: string)
    ensures NormalizePath(NormalizePath(s)) == NormalizePath(s)
  {
  }

  /** An appended slash does not change the normal form: `/blog/` and `/blog` are one path. */
  lemma NormalizePathIgnoresTrailingSlash(s: string)
    ensures NormalizePath(s + [Slash]) == NormalizePath(s)
  {
  }

  /**
   * Two paths have the same normal form exactly when they agree once their
   * trailing slashes are stripped.
   */
  lemma NormalizePathSame(a: string, b: string)
    ensures NormalizePath(a) == NormalizePath(b) <==> TrimTrailingSlashes(a) == TrimTrailingSlashes(b)
  {
  }

  /**
   * A path is its own normal form exactly when it is non-empty and ends in a
   * slash only if it is the root `/`.
   */
  lemma NormalizePathFixedPoints(s: string)
    ensures NormalizePath(s) == s <==> s != [] && (EndsWithSlash(s) ==> s == [Slash])
  {
  }
}
